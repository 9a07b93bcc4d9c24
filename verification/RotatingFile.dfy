/** The output file that rotates by size and keeps a bounded number of backups. */
module RotatingFile {
  import opened Basics

  type Bytes = seq<bv8>

  /** The files on disk: the live one, and `.1`, `.2`, ... by number. */
  datatype Disk = Disk(live: Option<Bytes>, backups: map<int, Bytes>)

  /** The live file as a reader sees it. */
  function Content(d: Disk): Bytes {
    if d.live.None? then [] else d.live.value
  }

  function SizeOf(d: Disk): nat {
    |Content(d)|
  }

  class RotatingLog {
    const maxBytes: nat
    const backups: nat
    var live: Option<Bytes>
    var numbered: map<int, Bytes>
    var bytesWritten: nat
    var rotations: nat

    constructor (maxBytes: int, backups: int, live: Option<Bytes>, numbered: map<int, Bytes>)
      ensures this.maxBytes == (if maxBytes < 1024 then 1024 else maxBytes)
      ensures this.backups == (if backups < 1 then 1 else backups)
      ensures View() == Disk(live, numbered) && bytesWritten == 0 && rotations == 0
    {
      this.maxBytes := if maxBytes < 1024 then 1024 else maxBytes;
      this.backups := if backups < 1 then 1 else backups;
      this.live, this.numbered, bytesWritten, rotations := live, numbered, 0, 0;
    }

    ghost function View(): Disk
      reads this
    {
      Disk(live, numbered)
    }

    method Size() returns (n: nat)
      ensures n == SizeOf(View())
    {
      n := if live.None? then 0 else |live.value|;
    }

    /** Oldest out, then every backup one number up, from the top down. */
    method ShiftBackups()
      requires backups >= 1
      modifies this`numbered
      ensures Shifted(old(numbered), numbered, 0, backups)
    {
      ghost var first := numbered;
      if backups in numbered { numbered := Without(numbered, backups); }
      var index := backups - 1;
      ShiftStart(first, backups);
      while index > 0
        invariant 0 <= index < backups
        invariant Shifted(first, numbered, index, backups)
      {
        ShiftStep(first, numbered, index, backups);
        numbered := MovedUp(numbered, index);
        index := index - 1;
      }
    }

    /** Below the threshold nothing moves; otherwise the live file becomes `.1`. */
    method Rotate()
      requires backups >= 1 && maxBytes > 0
      modifies this`live, this`numbered, this`rotations
      ensures View() == Rotated(old(View()), maxBytes, backups)
      ensures rotations == old(rotations) + if SizeOf(old(View())) < maxBytes then 0 else 1
    {
      var size := Size();
      if size < maxBytes { return; }
      ghost var first := numbered;
      ShiftBackups();
      if live.Some? {
        ShiftDone(View(), first, maxBytes, backups);
        numbered := numbered[1 := live.value];
        live := None;
        rotations := rotations + 1;
      }
    }

    method WriteBytes(payload: Bytes) returns (n: nat)
      requires backups >= 1 && maxBytes > 0
      modifies this
      ensures View() == Written(old(View()), payload, maxBytes, backups)
      ensures n == |payload| && bytesWritten == old(bytesWritten) + n
    {
      if payload == [] { return 0; }
      Rotate();
      live := Some((if live.None? then [] else live.value) + payload);
      bytesWritten := bytesWritten + |payload|;
      n := |payload|;
    }
  }

  // ------------------------------------------------------------ specification

  function Get(m: map<int, Bytes>, k: int): Option<Bytes> {
    if k in m then Some(m[k]) else None
  }

  /** Which number a file had before the shift reached down to `index`. */
  function Source(k: int, index: int, backups: nat): int {
    if index + 1 < k <= backups then k - 1 else k
  }

  /** The file that belongs at number k once the shift has reached down to `index`. */
  function Moved(m: map<int, Bytes>, k: int, index: int, backups: nat): Option<Bytes> {
    var source := Source(k, index, backups);
    if k != index + 1 && source in m then Some(m[source]) else None
  }

  /** Numbers above `index` have been moved up by one, the hole is at index + 1. */
  ghost predicate Shifted(before: map<int, Bytes>, after: map<int, Bytes>, index: nat, backups: nat) {
    forall k {:trigger Get(after, k)} :: Get(after, k) == Moved(before, k, index, backups)
  }

  function Without(m: map<int, Bytes>, n: int): map<int, Bytes> {
    map k: int | k in m && k != n :: m[k]
  }

  /** One rename, from number `index` to the next; nothing when there is no such file. */
  function MovedUp(m: map<int, Bytes>, index: int): map<int, Bytes> {
    if index in m then Without(m, index)[index + 1 := m[index]] else m
  }

  lemma ShiftStart(before: map<int, Bytes>, backups: nat)
    requires backups >= 1
    ensures Shifted(before, if backups in before then Without(before, backups) else before, backups - 1, backups)
  {
  }

  lemma ShiftStep(before: map<int, Bytes>, m: map<int, Bytes>, index: nat, backups: nat)
    requires 0 < index < backups && Shifted(before, m, index, backups)
    ensures Shifted(before, MovedUp(m, index), index - 1, backups)
  {
    var m' := MovedUp(m, index);
    forall k ensures Get(m', k) == Moved(before, k, index - 1, backups) {
      assert Get(m, k) == Moved(before, k, index, backups);
      assert Get(m, index) == Moved(before, index, index, backups);
    }
  }

  /** The live file becomes number 1, number k becomes k + 1, and the last number is lost. */
  function Rotated(d: Disk, maxBytes: nat, backups: nat): Disk {
    if SizeOf(d) < maxBytes || d.live.None? then d
    else Disk(None, Lifted(d.backups, backups)[1 := d.live.value])
  }

  function Lifted(m: map<int, Bytes>, backups: nat): map<int, Bytes> {
    map k: int | k in Numbers(m) && Moved(m, k, 0, backups).Some? :: Moved(m, k, 0, backups).value
  }

  /** The numbers a rotation can leave behind. */
  function Numbers(m: map<int, Bytes>): set<int> {
    m.Keys + set k | k in m.Keys :: k + 1
  }

  lemma LiftedAt(m: map<int, Bytes>, backups: nat, k: int)
    ensures Get(Lifted(m, backups), k) == Moved(m, k, 0, backups)
  {
    if Source(k, 0, backups) in m.Keys { assert k in Numbers(m); }
  }

  lemma ShiftDone(d: Disk, before: map<int, Bytes>, maxBytes: nat, backups: nat)
    requires backups >= 1 && Shifted(before, d.backups, 0, backups)
    ensures d.backups == Lifted(before, backups)
  {
    var m := Lifted(before, backups);
    forall k ensures Get(d.backups, k) == Get(m, k) {
      LiftedAt(before, backups, k);
    }
    SameMap(d.backups, m);
  }

  lemma SameMap(a: map<int, Bytes>, b: map<int, Bytes>)
    requires forall k :: Get(a, k) == Get(b, k)
    ensures a == b
  {
    forall k ensures k in a <==> k in b {
      assert Get(a, k) == Get(b, k);
    }
    assert a.Keys == b.Keys;
    forall k | k in a ensures a[k] == b[k] {
      assert Get(a, k) == Get(b, k);
    }
  }

  function Written(d: Disk, payload: Bytes, maxBytes: nat, backups: nat): Disk {
    if payload == [] then d
    else
      var d' := Rotated(d, maxBytes, backups);
      d'.(live := Some(Content(d') + payload))
  }

  function RunWrites(d: Disk, payloads: seq<Bytes>, maxBytes: nat, backups: nat): Disk
    decreases |payloads|
  {
    if payloads == [] then d
    else RunWrites(Written(d, payloads[0], maxBytes, backups), payloads[1..], maxBytes, backups)
  }

  // ------------------------------------------------------------ what it keeps

  function Flatten(payloads: seq<Bytes>): Bytes {
    if payloads == [] then [] else payloads[0] + Flatten(payloads[1..])
  }

  /** The payloads each file holds: `files[0]` the live one, `files[i]` number i. */
  type Layout = l: seq<seq<Bytes>> | |l| > 0 witness [[]]

  /** A layout, oldest file first, as one list of payloads. */
  function InOrder(l: seq<seq<Bytes>>): seq<Bytes> {
    if l == [] then [] else InOrder(l[1..]) + l[0]
  }

  ghost predicate Holds(d: Disk, l: Layout, maxBytes: nat, backups: nat) {
    && |l| <= backups + 1
    && (d.live.None? ==> l[0] == []) && Content(d) == Flatten(l[0])
    && (forall k {:trigger Get(d.backups, k)} ::
          Get(d.backups, k) == if 1 <= k < |l| then Some(Flatten(l[k])) else None)
    && (forall k {:trigger Filled(l, k, maxBytes)} :: 1 <= k < |l| ==> Filled(l, k, maxBytes))
  }

  predicate Filled(l: Layout, k: int, maxBytes: nat)
    requires 0 <= k < |l|
  {
    |Flatten(l[k])| >= maxBytes
  }

  /** The file a reader gets by following the numbers down and then the live file. */
  function ReadFrom(d: Disk, k: nat): Bytes
    decreases k
  {
    (if Get(d.backups, k).Some? then Get(d.backups, k).value else [])
    + if k <= 1 then Content(d) else ReadFrom(d, k - 1)
  }

  lemma {:induction false} FlattenConcat(a: seq<Bytes>, b: seq<Bytes>)
    ensures Flatten(a + b) == Flatten(a) + Flatten(b)
  {
    if a == [] {
      assert a + b == b;
    } else {
      assert (a + b)[1..] == a[1..] + b;
      FlattenConcat(a[1..], b);
    }
  }

  function RotatedLayout(l: Layout, backups: nat): Layout {
    var l' := [[]] + l;
    if |l'| > backups + 1 then l'[..backups + 1] else l'
  }

  lemma RotateHolds(d: Disk, l: Layout, maxBytes: nat, backups: nat)
    requires Holds(d, l, maxBytes, backups) && backups >= 1 && SizeOf(d) >= maxBytes > 0
    ensures Holds(Rotated(d, maxBytes, backups), RotatedLayout(l, backups), maxBytes, backups)
  {
    var l' := RotatedLayout(l, backups);
    var m := Lifted(d.backups, backups)[1 := d.live.value];
    assert Rotated(d, maxBytes, backups) == Disk(None, m);
    forall k ensures Get(m, k) == if 1 <= k < |l'| then Some(Flatten(l'[k])) else None {
      LiftedHolds(d, l, maxBytes, backups, k);
    }
    forall k | 1 <= k < |l'| ensures Filled(l', k, maxBytes) {
      assert l'[k] == l[k - 1];
      if k > 1 { assert Filled(l, k - 1, maxBytes); }
    }
  }

  lemma LiftedHolds(d: Disk, l: Layout, maxBytes: nat, backups: nat, k: int)
    requires Holds(d, l, maxBytes, backups) && backups >= 1 && SizeOf(d) >= maxBytes > 0
    ensures var l', m := RotatedLayout(l, backups), Lifted(d.backups, backups)[1 := d.live.value];
            Get(m, k) == if 1 <= k < |l'| then Some(Flatten(l'[k])) else None
  {
    LiftedAt(d.backups, backups, k);
    var l' := RotatedLayout(l, backups);
    var lifted := Lifted(d.backups, backups);
    assert k != 1 ==> Get(lifted[1 := d.live.value], k) == Get(lifted, k);
    assert Get(d.backups, Source(k, 0, backups))
           == if 1 <= Source(k, 0, backups) < |l| then Some(Flatten(l[Source(k, 0, backups)])) else None;
    if 1 <= k < |l'| { assert l'[k] == l[k - 1]; }
  }

  lemma {:induction false} InOrderAppend(l: seq<seq<Bytes>>, oldest: seq<Bytes>)
    ensures InOrder(l + [oldest]) == oldest + InOrder(l)
  {
    if l == [] {
      assert l + [oldest] == [oldest] && [oldest][1..] == [];
      assert [] + oldest == oldest + [];
    } else {
      assert (l + [oldest])[1..] == l[1..] + [oldest];
      InOrderAppend(l[1..], oldest);
      assert oldest + InOrder(l[1..]) + l[0] == oldest + (InOrder(l[1..]) + l[0]);
    }
  }

  lemma InOrderOne(p: seq<Bytes>)
    ensures InOrder([p]) == p
  {
    var none: seq<seq<Bytes>> := [];
    assert [p][1..] == none && [] + p == p;
  }

  /** A rotation forgets at most the oldest file, whole. */
  lemma RotateOrder(l: Layout, backups: nat) returns (dropped: seq<Bytes>)
    requires |l| <= backups + 1
    ensures InOrder(l) == dropped + InOrder(RotatedLayout(l, backups))
    ensures dropped == if |l| == backups + 1 then l[backups] else []
  {
    var l' := [[]] + l;
    assert l'[1..] == l && InOrder(l') == InOrder(l) + [] == InOrder(l);
    if |l'| > backups + 1 {
      dropped := l'[backups + 1];
      assert l' == l'[..backups + 1] + [dropped];
      InOrderAppend(l'[..backups + 1], dropped);
    } else {
      dropped := [];
    }
  }

  lemma AppendLive(d: Disk, l: Layout, payload: Bytes, maxBytes: nat, backups: nat) returns (l': Layout)
    requires Holds(d, l, maxBytes, backups)
    ensures Holds(d.(live := Some(Content(d) + payload)), l', maxBytes, backups)
    ensures InOrder(l') == InOrder(l) + [payload] && |l'| == |l|
  {
    l' := [l[0] + [payload]] + l[1..];
    assert l'[1..] == l[1..];
    forall k | 1 <= k < |l'| ensures Filled(l', k, maxBytes) {
      assert l'[k] == l[k] && Filled(l, k, maxBytes);
    }
    FlattenConcat(l[0], [payload]);
    assert [payload][1..] == [] && payload + [] == payload;
    assert InOrder(l[1..]) + (l[0] + [payload]) == InOrder(l[1..]) + l[0] + [payload];
  }

  /** What a write makes the disk forget: the oldest file, when the numbers are used up and a rotation is due. */
  function Forgotten(d: Disk, l: Layout, payload: Bytes, maxBytes: nat, backups: nat): seq<Bytes> {
    if payload != [] && SizeOf(d) >= maxBytes && |l| == backups + 1 then l[backups] else []
  }

  lemma OneWrite(d: Disk, l: Layout, payload: Bytes, maxBytes: nat, backups: nat)
    returns (l': Layout)
    requires Holds(d, l, maxBytes, backups) && backups >= 1 && maxBytes > 0
    ensures Holds(Written(d, payload, maxBytes, backups), l', maxBytes, backups)
    ensures InOrder(l) + Bit(payload) == Forgotten(d, l, payload, maxBytes, backups) + InOrder(l')
    ensures payload != [] ==> SizeOf(Written(d, payload, maxBytes, backups)) < maxBytes + |payload|
  {
    if payload == [] {
      l' := l;
      assert InOrder(l) + [] == [] + InOrder(l);
    } else {
      var dropped, m := RotateStep(d, l, maxBytes, backups);
      l' := AppendLive(Rotated(d, maxBytes, backups), m, payload, maxBytes, backups);
      assert dropped + InOrder(m) + [payload] == dropped + (InOrder(m) + [payload]);
    }
  }

  lemma RotateStep(d: Disk, l: Layout, maxBytes: nat, backups: nat) returns (dropped: seq<Bytes>, m: Layout)
    requires Holds(d, l, maxBytes, backups) && backups >= 1 && maxBytes > 0
    ensures Holds(Rotated(d, maxBytes, backups), m, maxBytes, backups)
    ensures InOrder(l) == dropped + InOrder(m) && SizeOf(Rotated(d, maxBytes, backups)) < maxBytes
    ensures dropped == if SizeOf(d) >= maxBytes && |l| == backups + 1 then l[backups] else []
  {
    if SizeOf(d) < maxBytes {
      dropped, m := [], l;
    } else {
      RotateHolds(d, l, maxBytes, backups);
      dropped := RotateOrder(l, backups);
      m := RotatedLayout(l, backups);
    }
  }

  /** Empty payloads are not written at all. */
  function Bit(payload: Bytes): seq<Bytes> {
    if payload == [] then [] else [payload]
  }

  function NonEmpty(payloads: seq<Bytes>): seq<Bytes> {
    if payloads == [] then [] else Bit(payloads[0]) + NonEmpty(payloads[1..])
  }

  lemma Rejoin(had: seq<Bytes>, p: seq<Bytes>, ps: seq<Bytes>, first: seq<Bytes>, m: seq<Bytes>,
               more: seq<Bytes>, left: seq<Bytes>)
    requires had + p == first + m && m + ps == more + left
    ensures had + (p + ps) == first + more + left
  {
    assert had + (p + ps) == had + p + ps;
    assert first + m + ps == first + (m + ps);
    assert first + (more + left) == first + more + left;
  }

  /**
   * Over any run of writes: the payloads still on disk, oldest file first, are the end of all the
   * payloads written; what is missing is a whole number of payloads from the beginning.
   */
  lemma {:induction false} RunHolds(d: Disk, l: Layout, payloads: seq<Bytes>, maxBytes: nat, backups: nat)
    returns (dropped: seq<Bytes>, l': Layout)
    requires Holds(d, l, maxBytes, backups) && backups >= 1 && maxBytes > 0
    ensures Holds(RunWrites(d, payloads, maxBytes, backups), l', maxBytes, backups)
    ensures InOrder(l) + NonEmpty(payloads) == dropped + InOrder(l')
    decreases |payloads|
  {
    if payloads == [] {
      dropped, l' := [], l;
      assert InOrder(l) + [] == [] + InOrder(l);
    } else {
      var m := OneWrite(d, l, payloads[0], maxBytes, backups);
      var first := Forgotten(d, l, payloads[0], maxBytes, backups);
      var more; more, l' := RunHolds(Written(d, payloads[0], maxBytes, backups), m, payloads[1..], maxBytes, backups);
      dropped := first + more;
      Rejoin(InOrder(l), Bit(payloads[0]), NonEmpty(payloads[1..]), first, InOrder(m), more, InOrder(l'));
    }
  }

  lemma {:induction false} ReadIsFlat(d: Disk, l: Layout, maxBytes: nat, backups: nat, k: nat)
    requires Holds(d, l, maxBytes, backups) && 1 <= k
    ensures ReadFrom(d, k) == Flatten(InOrder(l[..if k < |l| then k + 1 else |l|]))
    decreases k
  {
    var n := if k < |l| then k + 1 else |l|;
    if k > 1 {
      ReadIsFlat(d, l, maxBytes, backups, k - 1);
      if k < |l| {
        assert l[..k + 1] == l[..k] + [l[k]];
        InOrderAppend(l[..k], l[k]);
        FlattenConcat(l[k], InOrder(l[..k]));
      }
    } else {
      LiveOnly(d, l, maxBytes, backups);
      if |l| > 1 {
        assert l[..2] == [l[0]] + [l[1]];
        InOrderAppend([l[0]], l[1]);
        FlattenConcat(l[1], l[0]);
      } else {
        assert l[..1] == [l[0]];
      }
    }
  }

  lemma LiveOnly(d: Disk, l: Layout, maxBytes: nat, backups: nat)
    requires Holds(d, l, maxBytes, backups)
    ensures Content(d) == Flatten(l[0])
    ensures InOrder([l[0]]) == l[0]
  {
    InOrderOne(l[0]);
  }

  /**
   * Starting with no backup: reading from the oldest number down to the live file gives everything
   * ever written from some payload boundary on; there are at most backups + 1 files; every numbered
   * file reached the threshold.
   */
  lemma RunReadsSuffix(initial: Option<Bytes>, payloads: seq<Bytes>, maxBytes: nat, backups: nat)
    returns (cut: nat)
    requires backups >= 1 && maxBytes > 0
    ensures var d := RunWrites(Disk(initial, map[]), payloads, maxBytes, backups);
            var all := (if initial.None? then [] else [initial.value]) + NonEmpty(payloads);
            && cut <= |all| && ReadFrom(d, backups) == Flatten(all[cut..])
            && (forall k <- d.backups :: 1 <= k <= backups && |d.backups[k]| >= maxBytes)
  {
    var start := if initial.None? then [] else [initial.value];
    var d0 := Disk(initial, map[]);
    InitialHolds(initial, maxBytes, backups);
    var dropped, l := RunHolds(d0, [start], payloads, maxBytes, backups);
    cut := |dropped|;
    ReadAll(RunWrites(d0, payloads, maxBytes, backups), l, maxBytes, backups);
    assert (dropped + InOrder(l))[cut..] == InOrder(l);
  }

  lemma InitialHolds(initial: Option<Bytes>, maxBytes: nat, backups: nat)
    ensures var start := if initial.None? then [] else [initial.value];
            Holds(Disk(initial, map[]), [start], maxBytes, backups) && InOrder([start]) == start
  {
    var start := if initial.None? then [] else [initial.value];
    InOrderOne(start);
    if initial.Some? { assert start[1..] == [] && initial.value + [] == initial.value; }
  }

  lemma ReadAll(d: Disk, l: Layout, maxBytes: nat, backups: nat)
    requires Holds(d, l, maxBytes, backups) && backups >= 1
    ensures ReadFrom(d, backups) == Flatten(InOrder(l))
    ensures forall k <- d.backups :: 1 <= k <= backups && |d.backups[k]| >= maxBytes
  {
    forall k | k in d.backups ensures 1 <= k <= backups && |d.backups[k]| >= maxBytes {
      assert Get(d.backups, k) == if 1 <= k < |l| then Some(Flatten(l[k])) else None;
      assert Filled(l, k, maxBytes);
    }
    ReadIsFlat(d, l, maxBytes, backups, backups);
    assert l[..|l|] == l;
  }

  // --------------------------------------------------------- the threshold

  /**
   * The live file stays within the threshold exactly when the payload fits what is there, or fits an
   * empty file once the threshold has been reached. Rotation comes before the write that would pass
   * the threshold exactly when no file still below it is that close.
   */
  lemma WithinThresholdIff(d: Disk, payload: Bytes, maxBytes: nat, backups: nat)
    requires payload != [] && maxBytes > 0
    ensures var size := SizeOf(d);
            && (SizeOf(Written(d, payload, maxBytes, backups)) <= maxBytes <==>
                (if size < maxBytes then size else 0) + |payload| <= maxBytes)
            && ((Rotated(d, maxBytes, backups) != d <==> size + |payload| > maxBytes) <==>
                !(maxBytes - |payload| < size < maxBytes))
  {
  }

  ghost predicate AllWithin(d: Disk, maxBytes: nat) {
    SizeOf(d) <= maxBytes && forall k <- d.backups :: |d.backups[k]| <= maxBytes
  }

  /** After every write of the run, no file is above the threshold. */
  ghost predicate NeverAbove(d: Disk, payloads: seq<Bytes>, maxBytes: nat, backups: nat)
    decreases |payloads|
  {
    && AllWithin(d, maxBytes)
    && (payloads == [] || NeverAbove(Written(d, payloads[0], maxBytes, backups), payloads[1..], maxBytes, backups))
  }

  /** The same, computed from the size of the live file and the payloads' lengths alone. */
  predicate Fits(size: nat, payloads: seq<Bytes>, maxBytes: nat)
    decreases |payloads|
  {
    if payloads == [] then true
    else if payloads[0] == [] then Fits(size, payloads[1..], maxBytes)
    else
      var next := (if size < maxBytes then size else 0) + |payloads[0]|;
      next <= maxBytes && Fits(next, payloads[1..], maxBytes)
  }

  lemma WrittenWithin(d: Disk, payload: Bytes, maxBytes: nat, backups: nat)
    requires AllWithin(d, maxBytes) && maxBytes > 0
    requires SizeOf(Written(d, payload, maxBytes, backups)) <= maxBytes
    ensures AllWithin(Written(d, payload, maxBytes, backups), maxBytes)
  {
    var d' := Written(d, payload, maxBytes, backups);
    forall k | k in d'.backups ensures |d'.backups[k]| <= maxBytes {
      LiftedAt(d.backups, backups, k);
    }
  }

  /** No file ever passes the threshold exactly when no payload finds a file it does not fit. */
  lemma {:induction false} NeverAboveIff(d: Disk, payloads: seq<Bytes>, maxBytes: nat, backups: nat)
    requires AllWithin(d, maxBytes) && maxBytes > 0
    ensures NeverAbove(d, payloads, maxBytes, backups) <==> Fits(SizeOf(d), payloads, maxBytes)
    decreases |payloads|
  {
    if payloads != [] {
      var d' := Written(d, payloads[0], maxBytes, backups);
      if payloads[0] != [] { WithinThresholdIff(d, payloads[0], maxBytes, backups); }
      if SizeOf(d') <= maxBytes {
        WrittenWithin(d, payloads[0], maxBytes, backups);
        NeverAboveIff(d', payloads[1..], maxBytes, backups);
      }
    }
  }

  function Zeros(n: nat): Bytes {
    seq(n, _ => 0)
  }

  /** Two writes that pass it, for any threshold: one byte short, then two bytes. */
  lemma ThresholdPassed(maxBytes: nat, backups: nat)
    requires maxBytes > 1
    ensures var d := RunWrites(Disk(None, map[]), [Zeros(maxBytes - 1), Zeros(2)], maxBytes, backups);
            SizeOf(d) == maxBytes + 1 && d.backups == map[]
  {
    var payloads := [Zeros(maxBytes - 1), Zeros(2)];
    assert payloads[1..] == [Zeros(2)] && payloads[1..][1..] == [];
    var d := Written(Disk(None, map[]), Zeros(maxBytes - 1), maxBytes, backups);
    assert SizeOf(d) == maxBytes - 1;
    var d' := Written(d, Zeros(2), maxBytes, backups);
    assert RunWrites(d', [], maxBytes, backups) == d';
  }
}

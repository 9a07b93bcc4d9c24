/** What each condition of the forwarder's promise is worth: exactly when a cursor that moves is safe. */
module ForwarderLimits {
  import opened Basics
  import opened Dedupe
  import opened Forwarder
  import Pagination

  // ------------------------------------------------------ a write that fails

  ghost predicate KeysAmong(s: Source, lines: seq<Line>, among: set<Key>) {
    forall line <- lines :: line.Keyed? ==> KeyOf(s, line) in among
  }

  lemma {:induction false} FilterHides(h: History, s: Source, key: Key, since: nat, among: set<Key>, lines: seq<Line>)
    requires Hidden(h, key, since, among) && KeysAmong(s, lines, among)
    ensures var (kept, h') := Filter(h, KeyIn(s), lines);
            Hidden(h', key, since, among) && forall line <- kept :: KeyOf(s, line) != key
    decreases |lines|
  {
    if lines != [] {
      var line := lines[0];
      assert line in lines;
      if line.Blank? {
        FilterHides(h, s, key, since, among, lines[1..]);
      } else {
        HiddenStays(h, key, since, among, KeyOf(s, line));
        FilterHides(After(h, KeyOf(s, line)), s, key, since, among, lines[1..]);
      }
    }
  }

  /** Every keyed line an export keeps is hidden from then on. */
  lemma {:induction false} KeptAreHidden(h: History, s: Source, among: set<Key>, lines: seq<Line>, x: Line)
    returns (since: nat)
    requires Spaced(h) && |among| <= h.size && KeysAmong(s, lines, among)
    requires x.Keyed? && x in Filter(h, KeyIn(s), lines).0
    ensures Hidden(Filter(h, KeyIn(s), lines).1, KeyOf(s, x), since, among)
    decreases |lines|
  {
    var line := lines[0];
    assert line in lines;
    if line.Blank? {
      since := KeptAreHidden(h, s, among, lines[1..], x);
    } else {
      var key := KeyOf(s, line);
      AfterSpaced(h, key);
      if line == x && IsNewTo(h, key) {
        since := |h.accepted|;
        assert |key| > 0;
        FilterHides(After(h, key), s, key, since, among, lines[1..]);
      } else {
        since := KeptAreHidden(After(h, key), s, among, lines[1..], x);
      }
    }
  }

  lemma {:induction false} PlainKept(h: History, s: Source, lines: seq<Line>, x: Line)
    requires x in lines && x.Plain?
    ensures x in Filter(h, KeyIn(s), lines).0
    decreases |lines|
  {
    if lines[0].Blank? {
      PlainKept(h, s, lines[1..], x);
    } else if lines[0] != x {
      PlainKept(After(h, KeyOf(s, lines[0])), s, lines[1..], x);
    }
  }

  lemma {:induction false} KeptIn(h: History, s: Source, lines: seq<Line>, x: Line)
    requires x in Filter(h, KeyIn(s), lines).0
    ensures x in lines && !x.Blank?
    decreases |lines|
  {
    if lines[0].Blank? {
      KeptIn(h, s, lines[1..], x);
    } else if lines[0] != x {
      KeptIn(After(h, KeyOf(s, lines[0])), s, lines[1..], x);
    }
  }

  /** The memory after the same export came any number of times more. */
  function Repeated(h: History, s: Source, lines: seq<Line>, n: nat): History {
    if n == 0 then h else Filter(Repeated(h, s, lines, n - 1), KeyIn(s), lines).1
  }

  lemma {:induction false} RepeatedHides(h: History, s: Source, key: Key, since: nat, among: set<Key>,
                                         lines: seq<Line>, n: nat)
    requires Hidden(h, key, since, among) && KeysAmong(s, lines, among)
    ensures Hidden(Repeated(h, s, lines, n), key, since, among)
  {
    if n > 0 {
      RepeatedHides(h, s, key, since, among, lines, n - 1);
      FilterHides(Repeated(h, s, lines, n - 1), s, key, since, among, lines);
    }
  }

  /** What a first pass keeps has an identifier exactly when some line has one that is new beforehand. */
  lemma {:induction false} KeepsKeyedIff(h: History, s: Source, lines: seq<Line>)
    ensures (exists line <- Filter(h, KeyIn(s), lines).0 :: line.Keyed?) <==>
            exists line <- lines :: line.Keyed? && IsNewTo(h, KeyOf(s, line))
    decreases |lines|
  {
    if lines != [] {
      var line, rest := lines[0], lines[1..];
      if line.Keyed? && IsNewTo(h, KeyOf(s, line)) {
        assert line in lines && line in Filter(h, KeyIn(s), lines).0;
      } else {
        KeepsKeyedIff(h, s, rest);
        assert forall x :: x in lines <==> x == line || x in rest;
      }
    }
  }

  lemma RetryKeeps(h: History, s: Source, among: set<Key>, lines: seq<Line>, n: nat, line: Line)
    requires Spaced(h) && |among| <= h.size && KeysAmong(s, lines, among)
    requires line in Filter(h, KeyIn(s), lines).0
    ensures var again := Filter(Repeated(Filter(h, KeyIn(s), lines).1, s, lines, n), KeyIn(s), lines).0;
            if line.Keyed? then line !in again else line.Plain? && line in again
  {
    var (kept, h') := Filter(h, KeyIn(s), lines);
    var later := Repeated(h', s, lines, n);
    KeptIn(h, s, lines, line);
    if line.Keyed? {
      var since := KeptAreHidden(h, s, among, lines, line);
      RepeatedHides(h', s, KeyOf(s, line), since, among, lines, n);
      FilterHides(later, s, KeyOf(s, line), since, among, lines);
    } else {
      PlainKept(later, s, lines, line);
    }
  }

  /**
   * A write fails after the memory took the keys. When the export comes again, however often, it makes
   * up for what the failed write kept exactly when no line carries an identifier that was new; the kept
   * lines that carry one are filtered out for good. (An export with no more identifiers than the memory holds.)
   */
  lemma FailedWriteHides(st: State, s: Source, among: set<Key>, lines: seq<Line>, n: nat)
    requires Spaced(st.memory) && |among| <= st.memory.size && KeysAmong(s, lines, among)
    ensures var (ok, m) := DoJob(st, Job(s, Body(lines), Unreachable, false));
            var kept := Filter(st.memory, KeyIn(s), lines).0;
            var again := Filter(Repeated(m.memory, s, lines, n), KeyIn(s), lines).0;
            && m.written == st.written && (ok <==> kept == [])
            && (forall line <- kept :: line.Keyed? ==> line !in again)
            && ((forall line <- kept :: line in again) <==>
                forall line <- lines :: line.Keyed? ==> !IsNewTo(st.memory, KeyOf(s, line)))
  {
    var kept := Filter(st.memory, KeyIn(s), lines).0;
    KeepsKeyedIff(st.memory, s, lines);
    forall i | 0 <= i < |kept| ensures
      var again := Filter(Repeated(Filter(st.memory, KeyIn(s), lines).1, s, lines, n), KeyIn(s), lines).0;
      if kept[i].Keyed? then kept[i] !in again else kept[i].Plain? && kept[i] in again
    {
      RetryKeeps(st.memory, s, among, lines, n, kept[i]);
    }
  }

  /** What was written is remembered: of the same export sent again, none of its identified lines is written twice. */
  lemma WrittenOnce(st: State, s: Source, among: set<Key>, lines: seq<Line>)
    requires Spaced(st.memory) && |among| <= st.memory.size && KeysAmong(s, lines, among)
    ensures var j := Job(s, Body(lines), Unreachable, true);
            var once := DoJob(st, j).1;
            var twice := DoJob(once, j).1;
            var kept, again := Filter(st.memory, KeyIn(s), lines).0, Filter(once.memory, KeyIn(s), lines).0;
            && once.written == st.written + Tag(s, kept) && twice.written == once.written + Tag(s, again)
            && forall line <- kept :: if line.Keyed? then line !in again else line in again
  {
    var kept := Filter(st.memory, KeyIn(s), lines).0;
    var once := DoJob(st, Job(s, Body(lines), Unreachable, true)).1;
    assert st.written + [] == st.written && once.written + [] == once.written;
    forall line | line in kept
      ensures var again := Filter(once.memory, KeyIn(s), lines).0;
              if line.Keyed? then line !in again else line in again
    {
      RetryKeeps(st.memory, s, among, lines, 0, line);
    }
  }

  // ------------------------------------------- exports longer than the memory

  /** The keys of the lines that carry an identifier, in order. */
  function KeysOf(s: Source, lines: seq<Line>): seq<Key> {
    if lines == [] then []
    else (if lines[0].Keyed? then [KeyOf(s, lines[0])] else []) + KeysOf(s, lines[1..])
  }

  function NotBlank(lines: seq<Line>): seq<Line> {
    if lines == [] then [] else (if lines[0].Blank? then [] else [lines[0]]) + NotBlank(lines[1..])
  }

  /** Each key is new when its turn comes, once those before it have been accepted. */
  predicate Rolling(accepted: seq<Key>, size: nat, keys: seq<Key>)
    decreases |keys|
  {
    keys == [] || (keys[0] !in LastN(accepted, size) && Rolling(accepted + [keys[0]], size, keys[1..]))
  }

  lemma FilterHead(h: History, s: Source, line: Line, rest: seq<Line>)
    requires line.Keyed?
    ensures var key := KeyOf(s, line);
            var (kept, h') := Filter(After(h, key), KeyIn(s), rest);
            Filter(h, KeyIn(s), [line] + rest) == ((if IsNewTo(h, key) then [line] else []) + kept, h')
  {
    assert ([line] + rest)[1..] == rest;
  }

  lemma FilterUnkeyed(h: History, s: Source, line: Line, rest: seq<Line>)
    requires !line.Keyed?
    ensures var (kept, h') := Filter(h, KeyIn(s), rest);
            Filter(h, KeyIn(s), [line] + rest) == ((if line.Blank? then [] else [line]) + kept, h')
  {
    assert ([line] + rest)[1..] == rest;
    if line.Blank? { assert [] + Filter(h, KeyIn(s), rest).0 == Filter(h, KeyIn(s), rest).0; }
  }

  lemma HeadLists(s: Source, line: Line, rest: seq<Line>)
    ensures NotBlank([line] + rest) == (if line.Blank? then [] else [line]) + NotBlank(rest)
    ensures KeysOf(s, [line] + rest) == (if line.Keyed? then [KeyOf(s, line)] else []) + KeysOf(s, rest)
  {
    assert ([line] + rest)[1..] == rest;
  }

  /** What a pass gives when every line is kept and the memory takes every key. */
  ghost predicate TakesAll(h: History, s: Source, lines: seq<Line>) {
    Filter(h, KeyIn(s), lines) == (NotBlank(lines), h.(accepted := h.accepted + KeysOf(s, lines)))
  }

  lemma KeyedHasKey(s: Source, line: Line)
    requires line.Keyed?
    ensures KeyOf(s, line) != ""
  {
    assert |KeyOf(s, line)| > 0;
  }

  lemma Accepts(h: History, key: Key, keys: seq<Key>)
    requires key != "" && IsNewTo(h, key)
    ensures After(h, key).(accepted := After(h, key).accepted + keys) == h.(accepted := h.accepted + ([key] + keys))
  {
    assert h.accepted + [key] + keys == h.accepted + ([key] + keys);
  }

  lemma TakesKeyed(h: History, s: Source, line: Line, rest: seq<Line>)
    requires line.Keyed? && IsNewTo(h, KeyOf(s, line)) && TakesAll(After(h, KeyOf(s, line)), s, rest)
    ensures TakesAll(h, s, [line] + rest)
  {
    var key := KeyOf(s, line);
    KeyedHasKey(s, line);
    FilterHead(h, s, line, rest);
    HeadLists(s, line, rest);
    Accepts(h, key, KeysOf(s, rest));
  }

  lemma TakesUnkeyed(h: History, s: Source, line: Line, rest: seq<Line>)
    requires !line.Keyed? && TakesAll(h, s, rest)
    ensures TakesAll(h, s, [line] + rest)
  {
    FilterUnkeyed(h, s, line, rest);
    HeadLists(s, line, rest);
    assert [] + KeysOf(s, rest) == KeysOf(s, rest);
  }

  lemma {:induction false} RollingKept(h: History, s: Source, lines: seq<Line>)
    requires Rolling(h.accepted, h.size, KeysOf(s, lines))
    ensures TakesAll(h, s, lines)
    decreases |lines|
  {
    if lines == [] {
      assert h.accepted + [] == h.accepted;
    } else {
      var line, rest := lines[0], lines[1..];
      assert lines == [line] + rest;
      HeadLists(s, line, rest);
      if line.Keyed? {
        var key, keys := KeyOf(s, line), KeysOf(s, lines);
        KeyedHasKey(s, line);
        assert keys[0] == key && keys[1..] == KeysOf(s, rest);
        RollingKept(After(h, key), s, rest);
        TakesKeyed(h, s, line, rest);
      } else {
        assert [] + KeysOf(s, rest) == KeysOf(s, rest);
        RollingKept(h, s, rest);
        TakesUnkeyed(h, s, line, rest);
      }
    }
  }

  /** Keys that are all different, none of them in the memory, roll in. */
  lemma {:induction false} UnseenRolls(accepted: seq<Key>, size: nat, keys: seq<Key>)
    requires Distinct(keys) && forall i :: 0 <= i < |keys| ==> keys[i] !in LastN(accepted, size)
    ensures Rolling(accepted, size, keys)
    decreases |keys|
  {
    if keys != [] {
      forall i | 0 <= i < |keys[1..]| ensures keys[1..][i] !in LastN(accepted + [keys[0]], size) {
        if keys[1..][i] in LastN(accepted + [keys[0]], size) { InWindow(accepted, [keys[0]], size, keys[i + 1]); }
      }
      UnseenRolls(accepted + [keys[0]], size, keys[1..]);
    }
  }

  lemma WindowHas(s: seq<Key>, n: nat, i: nat)
    requires |s| - n <= i < |s|
    ensures s[i] in LastN(s, n)
  {
    assert LastN(s, n)[i - (|s| - |LastN(s, n)|)] == s[i];
  }

  lemma WindowAt(s: seq<Key>, n: nat, key: Key) returns (i: nat)
    requires key in LastN(s, n)
    ensures |s| - n <= i < |s| && s[i] == key
  {
    var window := LastN(s, n);
    var k :| 0 <= k < |window| && window[k] == key;
    i := k + (|s| - |window|);
  }

  lemma InWindow(a: seq<Key>, b: seq<Key>, size: nat, key: Key)
    requires key in LastN(a + b, size)
    ensures key in LastN(a, size) || key in b
  {
    var i := WindowAt(a + b, size, key);
    if i < |a| { WindowHas(a, size, i); }
  }

  lemma OtherKey(before: seq<Key>, size: nat, keys: seq<Key>, i: nat, at: nat)
    requires Distinct(keys) && |keys| > size && i < |keys|
    requires var all := before + keys + keys[..i]; |all| - size <= at < |all|
    ensures (before + keys + keys[..i])[at] != keys[i]
  {
    var k := at - |before|;
    assert (before + keys + keys[..i])[at] == if k < |keys| then keys[k] else keys[k - |keys|];
  }

  /** And they roll in again when there are too many of them to remember. */
  lemma {:induction false} LongRolls(before: seq<Key>, size: nat, keys: seq<Key>, i: nat)
    requires Distinct(keys) && |keys| > size && i <= |keys|
    ensures Rolling(before + keys + keys[..i], size, keys[i..])
    decreases |keys| - i
  {
    if i < |keys| {
      var all := before + keys + keys[..i];
      if keys[i] in LastN(all, size) {
        var at := WindowAt(all, size, keys[i]);
        OtherKey(before, size, keys, i, at);
      }
      assert all + [keys[i]] == before + keys + keys[..i + 1];
      LongRolls(before, size, keys, i + 1);
    }
  }

  /** A memory that ends with all the keys of a longer export lets it through, and ends with them again. */
  lemma LongOnce(before: seq<Key>, h: History, s: Source, lines: seq<Line>)
    requires Distinct(KeysOf(s, lines)) && |KeysOf(s, lines)| > h.size && h.accepted == before + KeysOf(s, lines)
    ensures Filter(h, KeyIn(s), lines)
            == (NotBlank(lines), h.(accepted := before + KeysOf(s, lines) + KeysOf(s, lines)))
  {
    var keys := KeysOf(s, lines);
    LongRolls(before, h.size, keys, 0);
    assert before + keys + keys[..0] == before + keys && keys[0..] == keys;
    RollingKept(h, s, lines);
  }

  lemma {:induction false} LongRepeats(before: seq<Key>, h: History, s: Source, lines: seq<Line>, n: nat)
    returns (earlier: seq<Key>)
    requires Distinct(KeysOf(s, lines)) && |KeysOf(s, lines)| > h.size && h.accepted == before + KeysOf(s, lines)
    ensures Repeated(h, s, lines, n) == h.(accepted := earlier + KeysOf(s, lines))
  {
    if n == 0 {
      earlier := before;
    } else {
      var last := LongRepeats(before, h, s, lines, n - 1);
      earlier := LongAgain(last, h, Repeated(h, s, lines, n - 1), s, lines);
    }
  }

  lemma LongAgain(last: seq<Key>, h: History, m: History, s: Source, lines: seq<Line>) returns (earlier: seq<Key>)
    requires Distinct(KeysOf(s, lines)) && |KeysOf(s, lines)| > h.size && m == h.(accepted := last + KeysOf(s, lines))
    ensures Filter(m, KeyIn(s), lines).1 == h.(accepted := earlier + KeysOf(s, lines))
  {
    LongOnce(last, m, s, lines);
    earlier := last + KeysOf(s, lines);
  }

  lemma {:induction false} KeysListed(s: Source, lines: seq<Line>)
    ensures KeysAmong(s, lines, Elements(KeysOf(s, lines)))
    ensures forall key <- KeysOf(s, lines) :: exists line <- lines :: line.Keyed? && KeyOf(s, line) == key
  {
    if lines != [] {
      var line, rest := lines[0], lines[1..];
      KeysListed(s, rest);
      assert forall x :: x in lines <==> x == line || x in rest;
    }
  }

  lemma {:induction false} DistinctSize(keys: seq<Key>)
    ensures |Elements(keys)| <= |keys|
  {
    if keys != [] {
      var front := keys[..|keys| - 1];
      DistinctSize(front);
      assert Elements(keys) == Elements(front) + {keys[|keys| - 1]};
    }
  }

  /**
   * An export of records the memory has not seen, each once, whatever its length: after a failed write
   * the same export, however often it comes again, makes up for all of it exactly when it carries no
   * identifier or more of them than the memory holds.
   */
  lemma FirstExportRetry(st: State, s: Source, lines: seq<Line>, n: nat)
    requires Spaced(st.memory) && Distinct(KeysOf(s, lines))
    requires forall i :: 0 <= i < |KeysOf(s, lines)| ==>
               KeysOf(s, lines)[i] !in LastN(st.memory.accepted, st.memory.size)
    ensures var m := DoJob(st, Job(s, Body(lines), Unreachable, false)).1;
            var kept := Filter(st.memory, KeyIn(s), lines).0;
            var again := Filter(Repeated(m.memory, s, lines, n), KeyIn(s), lines).0;
            && kept == NotBlank(lines)
            && ((forall line <- kept :: line in again) <==>
                KeysOf(s, lines) == [] || |KeysOf(s, lines)| > st.memory.size)
  {
    var h, keys := st.memory, KeysOf(s, lines);
    UnseenRolls(h.accepted, h.size, keys);
    RollingKept(h, s, lines);
    if |keys| > h.size {
      var h' := Filter(h, KeyIn(s), lines).1;
      var before := LongRepeats(h.accepted, h', s, lines, n);
      LongOnce(before, Repeated(h', s, lines, n), s, lines);
    } else {
      KeysListed(s, lines);
      DistinctSize(keys);
      FailedWriteHides(st, s, Elements(keys), lines, n);
      if keys != [] { assert keys[0] in keys; }
      forall line | line in lines && line.Keyed? ensures IsNewTo(h, KeyOf(s, line)) {
        assert KeyOf(s, line) in keys;
      }
    }
  }

  ghost predicate IdentsAmong(lines: seq<Line>, idents: set<string>) {
    forall line <- lines :: line.Keyed? ==> line.ident in idents
  }

  /** No identified line that the memory let through comes through again. */
  ghost predicate NoneReturns(h: History, s: Source, lines: seq<Line>) {
    var (kept, h') := Filter(h, KeyIn(s), lines);
    forall line <- kept :: line.Keyed? ==> line !in Filter(h', KeyIn(s), lines).0
  }

  lemma KeysInjective(s: Source, idents: set<string>)
    ensures |set i | i in idents :: FullKey(s, i)| <= |idents|
    decreases idents
  {
    if idents == {} {
      assert (set i | i in idents :: FullKey(s, i)) == {};
    } else {
      var x :| x in idents;
      var rest := idents - {x};
      KeysInjective(s, rest);
      assert (set i | i in idents :: FullKey(s, i)) == (set i | i in rest :: FullKey(s, i)) + {FullKey(s, x)};
    }
  }

  /** One line for each identifier. */
  lemma {:induction false} OneLineEach(s: Source, idents: set<string>) returns (lines: seq<Line>)
    ensures |lines| == |KeysOf(s, lines)| == |idents| && IdentsAmong(lines, idents) && NotBlank(lines) == lines
    ensures Distinct(KeysOf(s, lines))
    decreases idents
  {
    if idents == {} {
      lines := [];
    } else {
      var x :| x in idents;
      var rest := OneLineEach(s, idents - {x});
      lines := [Keyed(x, 0)] + rest;
      HeadLists(s, Keyed(x, 0), rest);
      KeysListed(s, rest);
      if FullKey(s, x) in KeysOf(s, rest) {
        var line :| line in rest && line.Keyed? && KeyOf(s, line) == FullKey(s, x);
        DifferentKeys(s, line.ident, x);
      }
      DistinctCons(FullKey(s, x), KeysOf(s, rest));
    }
  }

  lemma DistinctCons(key: Key, keys: seq<Key>)
    requires Distinct(keys) && key !in keys
    ensures Distinct([key] + keys)
  {
  }

  /**
   * The bound is exact: whatever the memory holds and in whatever order the lines stand, exports over a set of
   * identifiers hide after a failed write all they had let through, exactly when the memory can hold the set.
   */
  lemma HiddenWhateverIff(s: Source, idents: set<string>, size: nat)
    ensures |idents| <= size <==>
            forall h: History, lines: seq<Line> {:trigger NoneReturns(h, s, lines)} ::
              h.size == size && Spaced(h) && IdentsAmong(lines, idents) ==> NoneReturns(h, s, lines)
  {
    if |idents| <= size {
      forall h: History, lines: seq<Line> {:trigger NoneReturns(h, s, lines)} |
        h.size == size && Spaced(h) && IdentsAmong(lines, idents)
        ensures NoneReturns(h, s, lines)
      {
        SmallSetHides(h, s, idents, lines);
      }
    } else {
      var lines := OneLineEach(s, idents);
      LargeSetReturns(s, size, lines);
    }
  }

  lemma SmallSetHides(h: History, s: Source, idents: set<string>, lines: seq<Line>)
    requires Spaced(h) && |idents| <= h.size && IdentsAmong(lines, idents)
    ensures NoneReturns(h, s, lines)
  {
    var among := set i | i in idents :: FullKey(s, i);
    KeysInjective(s, idents);
    assert KeysAmong(s, lines, among);
    forall line | line in Filter(h, KeyIn(s), lines).0 && line.Keyed?
      ensures line !in Filter(Filter(h, KeyIn(s), lines).1, KeyIn(s), lines).0
    {
      RetryKeeps(h, s, among, lines, 0, line);
    }
  }

  lemma LargeSetReturns(s: Source, size: nat, lines: seq<Line>)
    requires |lines| == |KeysOf(s, lines)| > size && NotBlank(lines) == lines && Distinct(KeysOf(s, lines))
    ensures !NoneReturns(History(size, []), s, lines)
  {
    FirstExportRetry(Fresh(size), s, lines, 0);
    assert lines[0] in lines;
    KeyedWhenCounted(s, lines);
  }

  lemma {:induction false} KeyedWhenCounted(s: Source, lines: seq<Line>)
    ensures |KeysOf(s, lines)| <= |lines|
    ensures |KeysOf(s, lines)| == |lines| && lines != [] ==> lines[0].Keyed?
  {
    if lines != [] { KeyedWhenCounted(s, lines[1..]); }
  }

  /**
   * With other keys in the memory the length does not decide: an export with more identifiers than the
   * memory holds, all different, and a line of it that is kept once and then filtered out.
   */
  lemma LengthDoesNotDecide(s: Source) returns (h: History, lines: seq<Line>, x: Line)
    ensures h.size > 0 && Spaced(h) && Distinct(KeysOf(s, lines)) && |KeysOf(s, lines)| > h.size
    ensures var (kept, h') := Filter(h, KeyIn(s), lines);
            x.Keyed? && x in kept && x !in Filter(h', KeyIn(s), lines).0
  {
    x := Keyed("a", 0);
    var y, z := Keyed("b", 1), Keyed("c", 2);
    DifferentKeys(s, "a", "b");
    DifferentKeys(s, "b", "c");
    DifferentKeys(s, "a", "c");
    h, lines := ThreeLines(s, x, y, z);
  }

  lemma DifferentKeys(s: Source, i: string, j: string)
    requires i != j
    ensures FullKey(s, i) != FullKey(s, j)
  {
    if FullKey(s, i) == FullKey(s, j) { FullKeyInjective(s, s, i, j); }
  }

  lemma ThreeLines(s: Source, x: Line, y: Line, z: Line) returns (h: History, lines: seq<Line>)
    requires x.Keyed? && y.Keyed? && z.Keyed?
    requires KeyOf(s, x) != KeyOf(s, y) && KeyOf(s, y) != KeyOf(s, z) && KeyOf(s, x) != KeyOf(s, z)
    ensures h.size == 2 && Spaced(h) && KeysOf(s, lines) == [KeyOf(s, x), KeyOf(s, y), KeyOf(s, z)]
    ensures x in Filter(h, KeyIn(s), lines).0
    ensures x !in Filter(Filter(h, KeyIn(s), lines).1, KeyIn(s), lines).0
  {
    var ka, kb, kc := KeyOf(s, x), KeyOf(s, y), KeyOf(s, z);
    KeyedHasKey(s, x);
    KeyedHasKey(s, y);
    KeyedHasKey(s, z);
    Windows(ka, kb, kc);
    h := History(2, [kc, kb]);
    lines := [x] + ([y] + ([z] + []));
    var h2 := History(2, [kc, kb, ka, kc]);
    FilterThree(h, History(2, [kc, kb, ka]), h2, s, x, y, z);
    ThreeKeys(s, x, y, z);
    HeadHidden(h2, s, lines);
  }

  lemma ThreeKeys(s: Source, x: Line, y: Line, z: Line)
    requires x.Keyed? && y.Keyed? && z.Keyed?
    ensures KeysOf(s, [x] + ([y] + ([z] + []))) == [KeyOf(s, x), KeyOf(s, y), KeyOf(s, z)]
  {
    HeadLists(s, x, [y] + ([z] + []));
    HeadLists(s, y, [z] + []);
    HeadLists(s, z, []);
  }

  lemma FilterThree(h: History, h1: History, h2: History, s: Source, x: Line, y: Line, z: Line)
    requires x.Keyed? && y.Keyed? && z.Keyed?
    requires IsNewTo(h, KeyOf(s, x)) && After(h, KeyOf(s, x)) == h1
    requires !IsNewTo(h1, KeyOf(s, y)) && IsNewTo(h1, KeyOf(s, z)) && After(h1, KeyOf(s, z)) == h2
    ensures Filter(h, KeyIn(s), [x] + ([y] + ([z] + []))) == ([x] + ([] + ([z] + [])), h2)
  {
    var none: seq<Line> := [];
    FilterHead(h1, s, z, none);
    FilterHead(h1, s, y, [z] + none);
    FilterHead(h, s, x, [y] + ([z] + none));
  }

  lemma Windows(ka: Key, kb: Key, kc: Key)
    requires ka != kb && kb != kc && ka != kc && ka != "" && kb != "" && kc != ""
    ensures var h, h1, h2 := History(2, [kc, kb]), History(2, [kc, kb, ka]), History(2, [kc, kb, ka, kc]);
            && IsNewTo(h, ka) && After(h, ka) == h1 && !IsNewTo(h1, kb)
            && IsNewTo(h1, kc) && After(h1, kc) == h2 && !IsNewTo(h2, ka)
  {
    assert LastN([kc, kb, ka], 2) == [kb, ka];
    assert LastN([kc, kb, ka, kc], 2) == [ka, kc];
  }

  lemma HeadHidden(h: History, s: Source, lines: seq<Line>)
    requires |lines| == 3 && lines[0].Keyed? && !IsNewTo(h, KeyOf(s, lines[0]))
    requires lines[0] !in lines[1..]
    ensures lines[0] !in Filter(h, KeyIn(s), lines).0
  {
    var kept := Filter(h, KeyIn(s), lines[1..]).0;
    if lines[0] in kept { KeptIn(h, s, lines[1..], lines[0]); }
    assert [] + kept == kept;
  }

  ghost predicate InExport(lines: seq<Line>, r: nat) {
    exists line <- lines :: !line.Blank? && line.record == r
  }

  lemma {:induction false} HasTagged(s: Source, lines: seq<Line>, t: Source, r: nat)
    ensures Has(Tag(s, lines), t, r) <==> s == t && InExport(lines, r)
  {
    if lines != [] {
      HasTagged(s, lines[1..], t, r);
      HasSum([Entry(s, lines[0])], Tag(s, lines[1..]), t, r);
      assert Entry(s, lines[0]) in [Entry(s, lines[0])];
      forall line | line in lines ensures line == lines[0] || line in lines[1..] {}
    }
  }

  lemma HasSum(a: seq<Entry>, b: seq<Entry>, s: Source, r: nat)
    ensures Has(a + b, s, r) <==> Has(a, s, r) || Has(b, s, r)
  {
    if Has(a + b, s, r) {
      var e :| e in a + b && e.source == s && !e.line.Blank? && e.line.record == r;
      assert e in a || e in b;
    }
    if Has(a, s, r) { HasGrows(a, b, s, r); }
    if Has(b, s, r) {
      var e :| e in b && e.source == s && !e.line.Blank? && e.line.record == r;
      assert e in a + b;
    }
  }

  /** An export adds to its own output exactly the records it contains, and nothing to the others. */
  lemma JobAdds(w: World, st: State, j: Job, s: Source, r: nat)
    requires Honest(w, st.memory, st.written) && GoodJob(w, j) && Raw(j).Some? && IsAudit(s)
    ensures var (ok, st') := DoJob(st, j);
            && ok && Honest(w, st'.memory, st'.written)
            && (Has(st'.written, s, r) <==> Has(st.written, s, r) || (j.source == s && InExport(Raw(j).value, r)))
  {
    var lines := Raw(j).value;
    var (kept, h) := Filter(st.memory, KeyIn(j.source), lines);
    FilterHonest(w, st.memory, st.written, j.source, lines);
    assert st.written + [] == st.written;
    HasSum(st.written, Tag(j.source, kept), s, r);
    HasTagged(j.source, kept, s, r);
    if InExport(kept, r) {
      var line :| line in kept && !line.Blank? && line.record == r;
      KeptIn(st.memory, j.source, lines, line);
    }
  }

  ghost predicate Exported(jobs: seq<Job>, s: Source, r: nat) {
    exists j <- jobs :: j.source == s && Raw(j).Some? && InExport(Raw(j).value, r)
  }

  lemma {:induction false} JobsAdd(w: World, st: State, jobs: seq<Job>, s: Source, r: nat)
    requires Honest(w, st.memory, st.written) && IsAudit(s)
    requires forall j <- jobs :: GoodJob(w, j) && Raw(j).Some?
    ensures var (ok, st') := DoJobs(st, jobs);
            ok && (Has(st'.written, s, r) <==> Has(st.written, s, r) || Exported(jobs, s, r))
    decreases |jobs|
  {
    if jobs != [] {
      assert jobs[0] in jobs;
      JobAdds(w, st, jobs[0], s, r);
      JobsAdd(w, DoJob(st, jobs[0]).1, jobs[1..], s, r);
      forall j | j in jobs ensures j == jobs[0] || j in jobs[1..] {}
    }
  }

  /**
   * When every export arrives and every write succeeds, moving the cursor is safe exactly when each
   * record now due was in an output already or is in an export for it. The code never asks.
   */
  lemma CursorSafeIff(w: World, st: State, c: Cycle)
    requires Honest(w, st.memory, st.written) && (forall s <- w.formats :: IsAudit(s))
    requires c.audit.Some? && forall j <- AuditJobs(w.options, st, c) :: GoodJob(w, j) && Raw(j).Some?
    ensures var (ok, st') := AuditPart(w.options, st, c);
            && ok && st'.audit == Some(c.until)
            && (NoGap(w, st'.written, st'.audit) <==>
                forall s, r: nat :: s in w.formats && Due(w, c.until, r) ==>
                  Has(st.written, s, r) || Exported(AuditJobs(w.options, st, c), s, r))
  {
    var jobs := AuditJobs(w.options, st, c);
    var (ok, m) := DoJobs(st, jobs);
    JobsAdd(w, st, jobs, AuditCef, 0);
    forall s, r: nat | s in w.formats
      ensures Has(m.written, s, r) <==> Has(st.written, s, r) || Exported(jobs, s, r)
    {
      JobsAdd(w, st, jobs, s, r);
    }
  }

  lemma {:induction false} FirstKept(h: History, s: Source, lines: seq<Line>, x: Line) returns (y: Line)
    requires x in lines && x.Keyed? && IsNewTo(h, KeyOf(s, x))
    ensures y.Keyed? && KeyOf(s, y) == KeyOf(s, x) && y in Filter(h, KeyIn(s), lines).0
    decreases |lines|
  {
    var line, rest := lines[0], lines[1..];
    assert lines == [line] + rest;
    if line.Keyed? && KeyOf(s, line) == KeyOf(s, x) {
      y := line;
    } else {
      if line.Keyed? { StillNew(h, KeyOf(s, line), KeyOf(s, x)); }
      y := FirstKept(if line.Keyed? then After(h, KeyOf(s, line)) else h, s, rest, x);
    }
  }

  lemma StillNew(h: History, other: Key, key: Key)
    requires IsNewTo(h, key) && key != other
    ensures IsNewTo(After(h, other), key)
  {
    if key != "" && key in LastN(After(h, other).accepted, h.size) { InWindow(h.accepted, [other], h.size, key); }
  }

  /** A cycle that sends one audit export, whatever the window, and the same with a write that fails. */
  function OneExport(s: Source, until: int, asked: int, lines: seq<Line>, writeOk: bool): Cycle {
    Cycle(NotDue, until, asked, Some(_ => [Job(s, Body(lines), Unreachable, writeOk)]), None, true)
  }

  lemma OneJob(o: Options, st: State, s: Source, until: int, asked: int, lines: seq<Line>, writeOk: bool)
    requires !st.chainBroken
    ensures var (done, st') := DoJob(st, Job(s, Body(lines), Unreachable, writeOk));
            RunCycleSpec(o, st, OneExport(s, until, asked, lines, writeOk))
            == (done, if done then Saved(st'.(audit := Some(until)), true) else st')
  {
    var j := Job(s, Body(lines), Unreachable, writeOk);
    var c := OneExport(s, until, asked, lines, writeOk);
    assert [j][1..] == [];
    assert AuditJobs(o, st, c) == [j];
    assert DoJobs(st, [j]) == DoJob(st, j);
    assert st.(chainBroken := false) == st;
    assert Verify(st.chainBroken, c.check) == (Some(true), false);
  }

  /**
   * Followed to the cursor, from any state that cycles can reach: a cycle whose write fails, and then the
   * same cycle with a write that succeeds. The cursor moves; it leaves no gap exactly when every due record
   * was written before or has a line without an identifier in the export. (An export with no more
   * identifiers than the memory holds, of which some line was new.)
   */
  lemma RetriedCycleIff(w: World, st: State, s: Source, until: int, asked: int, lines: seq<Line>, among: set<Key>)
    requires IsAudit(s) && w.formats == {s} && !st.chainBroken
    requires Spaced(st.memory) && Honest(w, st.memory, st.written) && Identify(w, s, lines)
    requires |among| <= st.memory.size && KeysAmong(s, lines, among) && Filter(st.memory, KeyIn(s), lines).0 != []
    ensures var (ok, m) := RunCycleSpec(w.options, st, OneExport(s, until, asked, lines, false));
            var (ok', st') := RunCycleSpec(w.options, m, OneExport(s, until, asked, lines, true));
            && !ok && m.audit == st.audit && m.written == st.written
            && ok' && st'.audit == Some(until)
            && (NoGap(w, st'.written, st'.audit) <==>
                forall r: nat :: Due(w, until, r) ==> Has(st.written, s, r) || Plain(r) in lines)
  {
    var h := Filter(st.memory, KeyIn(s), lines).1;
    var again := Filter(h, KeyIn(s), lines).0;
    var m := st.(memory := h);
    OneJob(w.options, st, s, until, asked, lines, false);
    OneJob(w.options, m, s, until, asked, lines, true);
    assert again == [] ==> st.written + Tag(s, again) == st.written;
    forall r: nat ensures Has(st.written + Tag(s, again), s, r) <==> Has(st.written, s, r) || Plain(r) in lines {
      HasSum(st.written, Tag(s, again), s, r);
      HasTagged(s, again, s, r);
      AgainIsPlain(w, st, s, among, lines, r);
    }
  }

  /** On the second pass, only lines without an identifier or of records written long ago come through. */
  lemma AgainIsPlain(w: World, st: State, s: Source, among: set<Key>, lines: seq<Line>, r: nat)
    requires IsAudit(s) && Spaced(st.memory) && Honest(w, st.memory, st.written) && Identify(w, s, lines)
    requires |among| <= st.memory.size && KeysAmong(s, lines, among)
    ensures var again := Filter(Filter(st.memory, KeyIn(s), lines).1, KeyIn(s), lines).0;
            && (Plain(r) in lines ==> InExport(again, r))
            && (InExport(again, r) ==> Has(st.written, s, r) || Plain(r) in lines)
  {
    var h, h' := st.memory, Filter(st.memory, KeyIn(s), lines).1;
    var again := Filter(h', KeyIn(s), lines).0;
    if Plain(r) in lines { PlainKept(h', s, lines, Plain(r)); }
    if line :| line in again && !line.Blank? && line.record == r {
      KeptIn(h', s, lines, line);
      if line.Keyed? && IsNewTo(h, KeyOf(s, line)) {
        var y := FirstKept(h, s, lines, line);
        var since := KeptAreHidden(h, s, among, lines, y);
        FilterHides(h', s, KeyOf(s, line), since, among, lines);
      }
    }
  }

  // ------------------------------------------------- an upper bound in the future

  /** What the loss needs: nothing but an upper bound later than the query, with the environment honest. */
  lemma FutureUntilLoses(o: Options, s: Source, until: int, asked: int, size: nat) returns (w: World, c: Cycle)
    requires IsAudit(s) && !BoundOk(o, until, asked)
    ensures w.options == o && Timely(w) && Inv(w, Fresh(size))
    ensures c.until == until && c.asked == asked && Honoured(w, Fresh(size), c)
    ensures var (ok, st') := RunCycleSpec(o, Fresh(size), c);
            ok && st'.audit == Some(until) && !NoGap(w, st'.written, st'.audit)
  {
    w := World(_ => until - o.overlap, _ => asked + 1, _ => 0, {s}, o);
    c := OneExport(s, until, asked, [], true);
    var st := Fresh(size);
    OneJob(o, st, s, until, asked, [], true);
    FreshInv(w, size);
    var jobs := AuditJobs(o, st, c);
    assert jobs == [Job(s, Body([]), Unreachable, true)];
    assert Complete(w, Since(o, st.audit), until, asked, []);
    assert Due(w, until, 0) && !Has([], s, 0);
  }

  /**
   * Every cycle of an honest environment keeps the promise exactly when the upper bound is not later
   * than the query (or lies before the first record the forwarder was asked for).
   */
  lemma UntilSafeIff(o: Options, until: int, asked: int)
    ensures BoundOk(o, until, asked) <==>
            forall w: World, st: State, c: Cycle {:trigger Honoured(w, st, c)} ::
              w.options == o && c.until == until && c.asked == asked && Timely(w) && Inv(w, st) && Honoured(w, st, c)
              ==> Inv(w, RunCycleSpec(o, st, c).1)
  {
    if BoundOk(o, until, asked) {
      forall w: World, st: State, c: Cycle {:trigger Honoured(w, st, c)} |
        w.options == o && c.until == until && c.asked == asked && Timely(w) && Inv(w, st) && Honoured(w, st, c)
        ensures Inv(w, RunCycleSpec(o, st, c).1)
      {
        CycleKeeps(w, st, c);
      }
    } else {
      var w, c := FutureUntilLoses(o, AuditCef, until, asked, 1);
      assert Honoured(w, Fresh(1), c);
    }
  }

  // ------------------------------------------- exports that do not carry all

  /** Every export arrived, with the lines given for its source, and there is one for each format. */
  ghost predicate Arrived(w: World, jobs: seq<Job>, listed: Source -> seq<Line>) {
    && (forall j <- jobs :: GoodJob(w, j) && Raw(j) == Some(listed(j.source)))
    && (forall s <- w.formats :: IsAudit(s) && exists j <- jobs :: j.source == s)
  }

  /** The cursor moves; it leaves no gap exactly when each due record not yet written is among what arrived. */
  lemma ArrivedSafeIff(w: World, st: State, c: Cycle, listed: Source -> seq<Line>)
    requires Honest(w, st.memory, st.written) && c.audit.Some? && Arrived(w, AuditJobs(w.options, st, c), listed)
    ensures var (ok, st') := AuditPart(w.options, st, c);
            && ok && st'.audit == Some(c.until)
            && (NoGap(w, st'.written, st'.audit) <==>
                forall s, r: nat :: s in w.formats && Due(w, c.until, r) && !Has(st.written, s, r) ==>
                  InExport(listed(s), r))
  {
    var jobs := AuditJobs(w.options, st, c);
    CursorSafeIff(w, st, c);
    forall s, r: nat | s in w.formats ensures Exported(jobs, s, r) <==> InExport(listed(s), r) {
      var j :| j in jobs && j.source == s;
    }
  }

  /** Lines that hold every record of the window leave no gap. */
  lemma CompleteSafe(w: World, st: State, c: Cycle, listed: Source -> seq<Line>)
    requires Timely(w) && Inv(w, st) && BoundOk(w.options, c.until, c.asked) && c.audit.Some?
    requires Arrived(w, AuditJobs(w.options, st, c), listed)
    requires forall s <- w.formats :: Complete(w, Since(w.options, st.audit), c.until, c.asked, listed(s))
    ensures NoGap(w, AuditPart(w.options, st, c).1.written, Some(c.until))
  {
    ArrivedSafeIff(w, st, c, listed);
    forall s, r: nat | s in w.formats && Due(w, c.until, r) && !Has(st.written, s, r) ensures InExport(listed(s), r) {
      assert Complete(w, Since(w.options, st.audit), c.until, c.asked, listed(s));
      assert w.created(r) - w.options.overlap <= w.stamp(r);
      assert !(st.audit.Some? && Due(w, st.audit.value, r));
    }
  }

  /** What the server answers to an export: the newest lines of the window, in order, up to its page size. */
  function Capped(windows: Source -> seq<Line>, limit: nat): Source -> seq<Line> {
    (s: Source) => LastN(windows(s), limit)
  }

  /**
   * The server cuts an export to the newest lines of the window and does not say so, and the forwarder asks
   * once. The cursor that moves leaves no gap exactly when each due record not yet written is among those
   * lines; so it does whenever the windows fit the limit.
   */
  lemma CappedExportIff(w: World, st: State, c: Cycle, windows: Source -> seq<Line>, limit: nat)
    requires Timely(w) && Inv(w, st) && BoundOk(w.options, c.until, c.asked) && c.audit.Some?
    requires forall s <- w.formats :: Complete(w, Since(w.options, st.audit), c.until, c.asked, windows(s))
    requires Arrived(w, AuditJobs(w.options, st, c), Capped(windows, limit))
    ensures var (ok, st') := AuditPart(w.options, st, c);
            && ok && st'.audit == Some(c.until)
            && (NoGap(w, st'.written, st'.audit) <==>
                forall s, r: nat :: s in w.formats && Due(w, c.until, r) && !Has(st.written, s, r) ==>
                  InExport(LastN(windows(s), limit), r))
            && ((forall s <- w.formats :: |windows(s)| <= limit) ==> NoGap(w, st'.written, st'.audit))
  {
    var listed := Capped(windows, limit);
    ArrivedSafeIff(w, st, c, listed);
    if forall s <- w.formats :: |windows(s)| <= limit {
      forall s <- w.formats ensures Complete(w, Since(w.options, st.audit), c.until, c.asked, listed(s)) {
        assert listed(s) == windows(s);
      }
      CompleteSafe(w, st, c, listed);
    }
  }

  /** The lines of n records, each with an identifier of its own. */
  function Records(n: nat): seq<Line> {
    seq(n, i requires 0 <= i < n => Keyed(seq(i, _ => 'x'), i))
  }

  lemma RecordsIn(n: nat, from: nat, r: nat)
    requires from <= n
    ensures InExport(Records(n)[from..], r) <==> from <= r < n
  {
    if from <= r < n { assert Records(n)[from..][r - from] in Records(n)[from..]; }
  }

  /** One output, and limit + 1 records, all made and stamped at 0 and told apart by the length of their keys. */
  function CappedWorld(limit: nat): World {
    World(r => if r <= limit then 0 else 1, r => if r <= limit then 0 else 1, RecordOf, {AuditJsonl}, Options(0, None))
  }

  function RecordOf(key: Key): nat {
    var n := |Prefix(AuditJsonl)|;
    if |key| < n then 0 else |key| - n
  }

  lemma RecordsIdentified(w: World, n: nat, from: nat)
    requires from <= n && w.owner == RecordOf
    ensures Identify(w, AuditJsonl, Records(n)[from..])
  {
  }

  lemma RecordsComplete(limit: nat)
    ensures Complete(CappedWorld(limit), None, 0, 0, Records(limit + 1))
  {
    assert Records(limit + 1)[0..] == Records(limit + 1);
    var w := CappedWorld(limit);
    forall r: nat | w.created(r) <= 0 ensures InExport(Records(limit + 1), r) { RecordsIn(limit + 1, 0, r); }
  }

  /** Whatever the limit, one record more than it: the first cycle moves the cursor past a record it never saw. */
  lemma CappedExportLoses(limit: nat, size: nat) returns (w: World, c: Cycle, windows: Source -> seq<Line>)
    ensures Timely(w) && Inv(w, Fresh(size)) && BoundOk(w.options, c.until, c.asked) && c.audit.Some?
    ensures forall s <- w.formats :: |windows(s)| == limit + 1 && Complete(w, None, c.until, c.asked, windows(s))
    ensures Arrived(w, AuditJobs(w.options, Fresh(size), c), Capped(windows, limit))
    ensures var (ok, st') := AuditPart(w.options, Fresh(size), c);
            ok && st'.audit == Some(c.until) && !NoGap(w, st'.written, st'.audit)
  {
    w, windows := CappedWorld(limit), _ => Records(limit + 1);
    var newest := LastN(Records(limit + 1), limit);
    c := OneExport(AuditJsonl, 0, 0, newest, true);
    FreshInv(w, size);
    RecordsComplete(limit);
    RecordsIdentified(w, limit + 1, 1);
    OneArrives(w, Fresh(size), c, newest, Capped(windows, limit));
    CappedExportIff(w, Fresh(size), c, windows, limit);
    RecordsIn(limit + 1, 1, 0);
    assert Due(w, 0, 0) && !Has(Fresh(size).written, AuditJsonl, 0);
  }

  lemma OneArrives(w: World, st: State, c: Cycle, lines: seq<Line>, listed: Source -> seq<Line>)
    requires c == OneExport(AuditJsonl, 0, 0, lines, true) && lines == listed(AuditJsonl)
    requires w.formats == {AuditJsonl} && Identify(w, AuditJsonl, lines)
    ensures Arrived(w, AuditJobs(w.options, st, c), listed)
  {
    assert AuditJobs(w.options, st, c) == [Job(AuditJsonl, Body(lines), Unreachable, true)];
  }

  // ----------------------------------------------- a listing cut by its budget

  function Lines(lineOf: Pagination.Item -> Line, items: seq<Pagination.Item>): seq<Line> {
    seq(|items|, i requires 0 <= i < |items| => lineOf(items[i]))
  }

  /** The listing the forwarder falls back to: at least one page, and nothing said when the budget ends it. */
  function Listing(server: Pagination.Server, maxPages: int, lineOf: Pagination.Item -> Line): Reply {
    var walk := Pagination.Walk(server, 0, "", {}, Budget(maxPages));
    if walk.end == Pagination.Failed then Unreachable else Body(Lines(lineOf, walk.items))
  }

  function Budget(maxPages: int): (n: nat)
    ensures n >= 1
  {
    if maxPages < 1 then 1 else maxPages
  }

  lemma LinesPrefix(lineOf: Pagination.Item -> Line, a: seq<Pagination.Item>, b: seq<Pagination.Item>, r: nat)
    requires a <= b && InExport(Lines(lineOf, a), r)
    ensures InExport(Lines(lineOf, b), r)
  {
    var i :| 0 <= i < |a| && !Lines(lineOf, a)[i].Blank? && Lines(lineOf, a)[i].record == r;
    assert Lines(lineOf, b)[i] == Lines(lineOf, a)[i];
  }

  /** Every audit export is refused and falls back on the listing. */
  ghost predicate FallsBack(jobs: seq<Job>, listing: Reply) {
    forall j <- jobs :: j.reply == Refused(404) && IsAudit(j.source) && j.fallback == listing
  }

  /** The pages the budget pays for. */
  function Listed(pages: seq<seq<Pagination.Item>>, maxPages: int): seq<seq<Pagination.Item>> {
    if Budget(maxPages) < |pages| then pages[..Budget(maxPages)] else pages
  }

  /**
   * The forwarder falls back on the listing of an honest server. The cursor moves; it leaves no gap exactly
   * when each due record not yet written stands on the pages the budget pays for, and so it does when the
   * budget covers the pages of the window.
   */
  lemma FallbackSafeIff(w: World, st: State, c: Cycle, server: Pagination.Server, cursors: seq<string>,
                        pages: seq<seq<Pagination.Item>>, maxPages: int, lineOf: Pagination.Item -> Line)
    requires Timely(w) && Inv(w, st) && BoundOk(w.options, c.until, c.asked) && c.audit.Some?
    requires Pagination.Chained(server, cursors, pages)
    requires Complete(w, Since(w.options, st.audit), c.until, c.asked, Lines(lineOf, Pagination.Flatten(pages)))
    requires var jobs := AuditJobs(w.options, st, c);
             && FallsBack(jobs, Listing(server, maxPages, lineOf))
             && (forall j <- jobs :: GoodJob(w, j)) && (forall f <- w.formats :: exists j <- jobs :: j.source == f)
    ensures var (ok, st') := AuditPart(w.options, st, c);
            && ok && st'.audit == Some(c.until)
            && (NoGap(w, st'.written, st'.audit) <==>
                forall s, r: nat :: s in w.formats && Due(w, c.until, r) && !Has(st.written, s, r) ==>
                  InExport(Lines(lineOf, Pagination.Flatten(Listed(pages, maxPages))), r))
            && (Budget(maxPages) >= |pages| ==> NoGap(w, st'.written, st'.audit))
  {
    var listed := Lines(lineOf, Pagination.Flatten(Listed(pages, maxPages)));
    ListingIs(server, cursors, pages, maxPages, lineOf);
    FallsBackTo(AuditJobs(w.options, st, c), listed);
    ArrivedSafeIff(w, st, c, _ => listed);
    if Budget(maxPages) >= |pages| { CompleteSafe(w, st, c, _ => listed); }
  }

  /** When a due record, sent nowhere yet, stands on the last page only, the budget decides. */
  lemma FallbackBudgetIff(w: World, st: State, c: Cycle, server: Pagination.Server, cursors: seq<string>,
                          pages: seq<seq<Pagination.Item>>, maxPages: int, lineOf: Pagination.Item -> Line,
                          s: Source, r: nat)
    requires Timely(w) && Inv(w, st) && BoundOk(w.options, c.until, c.asked) && c.audit.Some?
    requires Pagination.Chained(server, cursors, pages)
    requires Complete(w, Since(w.options, st.audit), c.until, c.asked, Lines(lineOf, Pagination.Flatten(pages)))
    requires var jobs := AuditJobs(w.options, st, c);
             && FallsBack(jobs, Listing(server, maxPages, lineOf))
             && (forall j <- jobs :: GoodJob(w, j)) && (forall f <- w.formats :: exists j <- jobs :: j.source == f)
    requires s in w.formats && Due(w, c.until, r) && !Has(st.written, s, r)
    requires !InExport(Lines(lineOf, Pagination.Flatten(pages[..|pages| - 1])), r)
    ensures NoGap(w, AuditPart(w.options, st, c).1.written, Some(c.until)) <==> Budget(maxPages) >= |pages|
  {
    FallbackSafeIff(w, st, c, server, cursors, pages, maxPages, lineOf);
    if Budget(maxPages) < |pages| { CutHides(lineOf, pages, Budget(maxPages), r); }
  }

  lemma ListingIs(server: Pagination.Server, cursors: seq<string>, pages: seq<seq<Pagination.Item>>, maxPages: int,
                  lineOf: Pagination.Item -> Line)
    requires Pagination.Chained(server, cursors, pages)
    ensures Listing(server, maxPages, lineOf) == Body(Lines(lineOf, Pagination.Flatten(Listed(pages, maxPages))))
  {
    assert pages[..|pages|] == pages;
    Pagination.HonestListingComplete(server, cursors, pages, Budget(maxPages));
  }

  lemma CutHides(lineOf: Pagination.Item -> Line, pages: seq<seq<Pagination.Item>>, stop: nat, r: nat)
    requires stop < |pages| && !InExport(Lines(lineOf, Pagination.Flatten(pages[..|pages| - 1])), r)
    ensures !InExport(Lines(lineOf, Pagination.Flatten(pages[..stop])), r)
  {
    Pagination.FlattenPrefix(pages, stop, |pages| - 1);
    var cut := Pagination.Flatten(pages[..stop]);
    if InExport(Lines(lineOf, cut), r) {
      LinesPrefix(lineOf, cut, Pagination.Flatten(pages[..|pages| - 1]), r);
    }
  }

  lemma FallsBackTo(jobs: seq<Job>, listed: seq<Line>)
    requires FallsBack(jobs, Body(listed))
    ensures forall j <- jobs :: Raw(j) == Some(listed)
  {
  }
}

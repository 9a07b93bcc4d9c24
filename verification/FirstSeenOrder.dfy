/** A list without its repeats, in the order of first appearance. */
module FirstSeenOrder {
  function FirstSeen<T(==)>(s: seq<T>): seq<T> {
    if s == [] then []
    else
      var kept, x := FirstSeen(s[..|s| - 1]), s[|s| - 1];
      if x in kept then kept else kept + [x]
  }

  /** Where an element first appears, or the length when it does not. */
  function FirstAt<T(==)>(s: seq<T>, x: T): nat {
    if s == [] then 0 else if s[0] == x then 0 else 1 + FirstAt(s[1..], x)
  }

  lemma {:induction false} FirstAtSpec<T>(s: seq<T>, x: T)
    ensures FirstAt(s, x) <= |s|
    ensures FirstAt(s, x) < |s| <==> x in s
    ensures FirstAt(s, x) < |s| ==> s[FirstAt(s, x)] == x && x !in s[..FirstAt(s, x)]
  {
    if s != [] && s[0] != x { FirstAtSpec(s[1..], x); }
  }

  lemma {:induction false} FirstAtAppend<T>(s: seq<T>, y: T, x: T)
    ensures x in s ==> FirstAt(s + [y], x) == FirstAt(s, x) && FirstAt(s, x) < |s|
    ensures x !in s && x == y ==> FirstAt(s + [y], x) == |s|
  {
    if s != [] {
      assert (s + [y])[1..] == s[1..] + [y];
      FirstAtAppend(s[1..], y, x);
    }
  }

  /** The kept elements are the elements, and they stand in the order of their first appearance. */
  lemma {:induction false} FirstSeenSpec<T>(s: seq<T>)
    ensures forall i :: 0 <= i < |FirstSeen(s)| ==> FirstSeen(s)[i] in s
    ensures forall i :: 0 <= i < |s| ==> s[i] in FirstSeen(s)
    ensures forall i, j :: 0 <= i < j < |FirstSeen(s)| ==> FirstAt(s, FirstSeen(s)[i]) < FirstAt(s, FirstSeen(s)[j])
  {
    if s != [] {
      var front, y := s[..|s| - 1], s[|s| - 1];
      assert front + [y] == s;
      FirstSeenSpec(front);
      var f, g := FirstSeen(front), FirstSeen(s);
      forall i, j | 0 <= i < j < |g| ensures FirstAt(front + [y], g[i]) < FirstAt(front + [y], g[j]) {
        FirstAtAppend(front, y, f[i]);
        assert f[i] in front;
        if j < |f| {
          assert f[j] in front;
          FirstAtAppend(front, y, f[j]);
        } else {
          assert g[j] == y && y !in front;
          FirstAtAppend(front, y, y);
        }
      }
    }
  }

  /** So no element is kept twice. */
  lemma FirstSeenDistinct<T>(s: seq<T>)
    ensures forall i, j :: 0 <= i < j < |FirstSeen(s)| ==> FirstSeen(s)[i] != FirstSeen(s)[j]
  {
    FirstSeenSpec(s);
  }
}

/** The bounded memory of records already sent. */
module Dedupe {
  import opened Basics

  type Key = string

  /** Reference: every key ever accepted, in order; the memory is only a view of its end. */
  datatype History = History(size: nat, accepted: seq<Key>)

  function IsNewTo(h: History, key: Key): bool {
    key == "" || key !in LastN(h.accepted, h.size)
  }

  function After(h: History, key: Key): History {
    if key != "" && IsNewTo(h, key) then h.(accepted := h.accepted + [key]) else h
  }

  /** Two acceptances of one key are more than `size` acceptances apart. */
  ghost predicate Spaced(h: History) {
    forall i, j :: 0 <= i < j < |h.accepted| && h.accepted[i] == h.accepted[j] ==> j - i > h.size
  }

  ghost predicate Distinct<T>(s: seq<T>) {
    forall i, j :: 0 <= i < j < |s| ==> s[i] != s[j]
  }

  lemma AfterSpaced(h: History, key: Key)
    requires Spaced(h)
    ensures Spaced(After(h, key))
  {
    var recent := LastN(h.accepted, h.size);
    var from := |h.accepted| - |recent|;
    forall i | from <= i < |h.accepted| ensures h.accepted[i] in recent {
      assert h.accepted[i] == recent[i - from];
    }
  }

  lemma SpacedWindow(h: History)
    requires Spaced(h)
    ensures Distinct(LastN(h.accepted, h.size)) && |LastN(h.accepted, h.size)| <= h.size
  {
    var recent := LastN(h.accepted, h.size);
    var from := |h.accepted| - |recent|;
    forall i, j | 0 <= i < j < |recent| ensures recent[i] != recent[j] {
      assert recent[i] == h.accepted[from + i] && recent[j] == h.accepted[from + j];
    }
  }

  /** The answers to a whole sequence of questions. */
  function Answers(h: History, keys: seq<Key>): (seq<bool>, History)
    decreases |keys|
  {
    if keys == [] then ([], h)
    else
      var (answers, h') := Answers(After(h, keys[0]), keys[1..]);
      ([IsNewTo(h, keys[0])] + answers, h')
  }

  lemma {:induction false} AnswersSpaced(h: History, keys: seq<Key>)
    requires Spaced(h)
    ensures Spaced(Answers(h, keys).1) && Answers(h, keys).1.size == h.size
    ensures h.accepted <= Answers(h, keys).1.accepted
    decreases |keys|
  {
    if keys != [] {
      AfterSpaced(h, keys[0]);
      AnswersSpaced(After(h, keys[0]), keys[1..]);
    }
  }

  /** A key asked twice with fewer than `size` acceptances since the first is refused the second time. */
  lemma {:induction false} NoRepeatWithin(h: History, key: Key, between: seq<Key>)
    requires key != ""
    requires |Answers(After(h, key), between).1.accepted| < |After(h, key).accepted| + h.size
    requires IsNewTo(h, key)
    ensures !IsNewTo(Answers(After(h, key), between).1, key)
  {
    var a := After(h, key).accepted;
    var b := Answers(After(h, key), between).1;
    AnswersGrow(After(h, key), between);
    var recent := LastN(b.accepted, b.size);
    assert b.accepted[|a| - 1] == key;
    assert recent[|a| - 1 - (|b.accepted| - |recent|)] == key;
  }

  lemma {:induction false} AnswersGrow(h: History, keys: seq<Key>)
    ensures Answers(h, keys).1.size == h.size && h.accepted <= Answers(h, keys).1.accepted
    decreases |keys|
  {
    if keys != [] { AnswersGrow(After(h, keys[0]), keys[1..]); }
  }

  lemma {:induction false} Pigeonhole(s: seq<Key>, among: set<Key>)
    requires Distinct(s) && forall i :: 0 <= i < |s| ==> s[i] in among
    ensures |s| <= |among|
  {
    if s != [] {
      var last := s[|s| - 1];
      Pigeonhole(s[..|s| - 1], among - {last});
    }
  }

  /** A key accepted at `since`, and only other keys of a set no larger than the memory ever since. */
  ghost predicate Hidden(h: History, key: Key, since: nat, among: set<Key>) {
    && Spaced(h) && key != "" && key in among && |among| <= h.size
    && since < |h.accepted| && h.accepted[since] == key
    && forall j :: since < j < |h.accepted| ==> h.accepted[j] in among && h.accepted[j] != key
  }

  /** Such a key is refused for ever, however often the keys of the set are asked again. */
  lemma HiddenStays(h: History, key: Key, since: nat, among: set<Key>, asked: Key)
    requires Hidden(h, key, since, among) && (asked == "" || asked in among)
    ensures !IsNewTo(h, key) && Hidden(After(h, asked), key, since, among)
  {
    AfterSpaced(h, asked);
    if |h.accepted| - since > h.size {
      var window := h.accepted[since + 1..since + 1 + h.size];
      forall i, j | 0 <= i < j < |window| ensures window[i] != window[j] {
        assert window[i] == h.accepted[since + 1 + i] && window[j] == h.accepted[since + 1 + j];
      }
      Pigeonhole(window, among - {key});
      assert false;
    } else {
      var recent := LastN(h.accepted, h.size);
      assert recent[since - (|h.accepted| - |recent|)] == key;
    }
  }

  ghost function Elements(s: seq<Key>): set<Key> {
    set k | k in s
  }

  /** A key pushed behind the window, before the window is trimmed. */
  lemma Push(h: History, order: seq<Key>, key: Key)
    requires order == LastN(h.accepted, h.size)
    ensures Elements(order + [key]) == Elements(order) + {key}
    ensures |order + [key]| <= h.size + 1
    ensures order + [key] == LastN(h.accepted + [key], |order| + 1)
    ensures |order| + 1 >= h.size || order + [key] == h.accepted + [key]
  {
  }

  class Memory {
    const size: nat
    var seen: set<Key>
    var order: seq<Key>
    var duplicates: nat
    ghost var history: History

    ghost predicate Valid()
      reads this
    {
      && 0 < size == history.size && Spaced(history)
      && order == LastN(history.accepted, size)
      && seen == Elements(order)
    }

    constructor (requested: int)
      ensures Valid() && size == (if requested < 1 then 1 else requested)
      ensures history == History(size, []) && duplicates == 0
    {
      size := if requested < 1 then 1 else requested;
      seen, order, duplicates := {}, [], 0;
      history := History(if requested < 1 then 1 else requested, []);
    }

    method IsNew(key: Key) returns (isNew: bool)
      requires Valid()
      modifies this
      ensures Valid()
      ensures isNew == IsNewTo(old(history), key)
      ensures history == After(old(history), key)
      ensures duplicates == old(duplicates) + if isNew then 0 else 1
    {
      if key == "" { return true; }
      if key in seen {
        duplicates := duplicates + 1;
        return false;
      }
      AfterSpaced(history, key);
      Push(history, order, key);
      ghost var whole := history.accepted + [key];
      seen := seen + {key};
      order := order + [key];
      history := After(history, key);
      while |order| > size
        invariant |order| <= size + 1 && order == LastN(whole, |order|)
        invariant order == whole || |order| >= size
        invariant seen == Elements(order)
        invariant history == old(After(history, key)) && duplicates == old(duplicates)
      {
        var oldest := order[0];
        Shrink(history, order);
        order := order[1..];
        seen := seen - {oldest};
      }
      return true;
    }

    /** Dropping the oldest of size + 1 distinct keys forgets that key and no other. */
    lemma Shrink(h: History, order: seq<Key>)
      requires Spaced(h) && |order| == h.size + 1 && order == LastN(h.accepted, |order|)
      ensures Elements(order) - {order[0]} == Elements(order[1..])
      ensures order[1..] == LastN(h.accepted, h.size)
    {
      assert forall i :: 1 <= i < |order| ==> order[1..][i - 1] == order[i];
      var from := |h.accepted| - |order|;
      forall i | 1 <= i < |order| ensures order[i] != order[0] {
        assert h.accepted[from] == order[0] && h.accepted[from + i] == order[i];
      }
    }
  }
}

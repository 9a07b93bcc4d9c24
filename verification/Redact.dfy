/** Masking of sensitive URL parameters before anything is logged. */
module Redact {
  import opened Basics

  /** URLs are ASCII here, so lower-casing never moves a byte. */
  type Url = s: string | forall c <- s :: c < 128 as char

  function LowerChar(c: char): char {
    if 'A' <= c <= 'Z' then c - 'A' + 'a' else c
  }

  ghost predicate IsLower(r: string, s: string) {
    |r| == |s| && forall i :: 0 <= i < |s| ==> r[i] == LowerChar(s[i])
  }

  function ToLower(s: string): (r: string)
    ensures IsLower(r, s)
  {
    seq(|s|, i requires 0 <= i < |s| => LowerChar(s[i]))
  }

  predicate IsDelimiter(c: char) {
    c == '&' || c == '#' || c == ' '
  }

  const STARS: string := "***"

  /** Needles are `param=` in lower case: '=' ends them and occurs nowhere else. */
  predicate IsNeedle(n: string) {
    && |n| >= 2 && n[|n| - 1] == '='
    && forall i :: 0 <= i < |n| - 1 ==> n[i] != '=' && n[i] != '*' && !IsDelimiter(n[i])
  }

  type Needle = n: string | IsNeedle(n) witness "k="

  const SENSITIVE: seq<string> := [
    "api_key", "apikey", "api-key", "token", "access_token", "refresh_token", "key", "password", "secret"
  ]

  function Needles(params: seq<string>): (r: seq<string>)
    ensures |r| == |params| && forall i :: 0 <= i < |params| ==> r[i] == params[i] + "="
  {
    seq(|params|, i requires 0 <= i < |params| => params[i] + "=")
  }

  lemma SensitiveAreNeedles()
    ensures forall n <- Needles(SENSITIVE) :: IsNeedle(n)
  {
    forall i | 0 <= i < |SENSITIVE| ensures IsNeedle(SENSITIVE[i] + "=") {
    }
  }

  /** Needle n ends at position q of s, whatever the case of s. */
  predicate EndsWith(s: string, q: nat, n: string) {
    |n| <= q <= |s| && forall j :: 0 <= j < |n| ==> LowerChar(s[q - |n| + j]) == n[j]
  }

  /** The same letter, or its capital. */
  predicate SameLetter(c: char, small: char) {
    c == small || ('A' <= c <= 'Z' && 'a' <= small <= 'z' && c as int - 'A' as int == small as int - 'a' as int)
  }

  /** A needle without capitals is found in any case of its letters, and nowhere else. */
  lemma EndsInAnyCase(s: string, q: nat, n: string)
    requires forall j :: 0 <= j < |n| ==> !('A' <= n[j] <= 'Z')
    ensures EndsWith(s, q, n) <==> |n| <= q <= |s| && forall j :: 0 <= j < |n| ==> SameLetter(s[q - |n| + j], n[j])
  {
    if |n| <= q <= |s| {
      forall j | 0 <= j < |n| ensures LowerChar(s[q - |n| + j]) == n[j] <==> SameLetter(s[q - |n| + j], n[j]) {}
    }
  }

  predicate EndsAny(s: string, q: nat, ns: seq<Needle>) {
    exists n <- ns :: EndsWith(s, q, n)
  }

  // -------------------------------------------------------------- reference

  /** First delimiter of s from `from` on, or the end. */
  function RunEnd(s: string, from: nat): (k: nat)
    requires from <= |s|
    ensures from <= k <= |s|
    ensures k < |s| ==> IsDelimiter(s[k])
    decreases |s| - from
  {
    if from == |s| || IsDelimiter(s[from]) then from else RunEnd(s, from + 1)
  }

  /** Length of the part of s before its first delimiter. */
  function TokenLength(s: string): (k: nat)
    ensures k <= |s|
    ensures k < |s| ==> IsDelimiter(s[k])
  {
    RunEnd(s, 0)
  }

  lemma {:induction false} RunEndSpec(s: string, from: nat)
    requires from <= |s|
    ensures forall i :: from <= i < RunEnd(s, from) ==> !IsDelimiter(s[i])
    decreases |s| - from
  {
    if from < |s| && !IsDelimiter(s[from]) { RunEndSpec(s, from + 1); }
  }

  lemma TokenIsPlain(s: string)
    ensures forall i :: 0 <= i < TokenLength(s) ==> !IsDelimiter(s[i])
  {
    RunEndSpec(s, 0);
  }

  /** First position from q on where one of the needles ends, or |t| + 1. */
  ghost function FirstEnd(t: string, ns: seq<Needle>, q: nat): (e: nat)
    requires q <= |t| + 1
    ensures q <= e <= |t| + 1
    decreases |t| + 1 - q
  {
    if q == |t| + 1 || EndsAny(t, q, ns) then q else FirstEnd(t, ns, q + 1)
  }

  /** A delimiter-free run keeps everything up to the first sensitive `param=`, then stars. */
  ghost function RedactToken(t: string, ns: seq<Needle>): string {
    var e := FirstEnd(t, ns, 0);
    if e <= |t| then t[..e] + STARS else t
  }

  ghost function Redactor(ns: seq<Needle>): string -> string {
    (t: string) => RedactToken(t, ns)
  }

  /** Rewrites each delimiter-free run of s; delimiters stay where they are. */
  ghost function MapRuns(f: string -> string, s: string): string
    decreases |s|
  {
    var k := TokenLength(s);
    f(s[..k]) + (if k == |s| then "" else [s[k]] + MapRuns(f, s[k + 1..]))
  }

  /** The URL, run by run. */
  ghost function Reference(s: string, ns: seq<Needle>): string {
    MapRuns(Redactor(ns), s)
  }

  // ---------------------------------------------------- facts about one run

  /** A needle cannot reach over a delimiter or a star. */
  lemma NeverAcross(s: string, q: nat, n: Needle, cut: nat)
    requires q - |n| <= cut < q <= |s|
    requires IsDelimiter(s[cut]) || s[cut] == '*'
    ensures !EndsWith(s, q, n)
  {
    if |n| <= q {
      var j := cut - (q - |n|);
      assert LowerChar(s[q - |n| + j]) != n[j];
    }
  }

  lemma EndsWithShift(s: string, q: nat, n: Needle, cut: nat)
    requires cut + |n| < q <= |s|
    ensures EndsWith(s, q, n) <==> EndsWith(s[cut + 1..], q - cut - 1, n)
  {
    var r, p := s[cut + 1..], q - cut - 1;
    forall j | 0 <= j < |n| ensures LowerChar(r[p - |n| + j]) == n[j] <==> LowerChar(s[q - |n| + j]) == n[j] {
      assert r[p - |n| + j] == s[q - |n| + j];
    }
  }

  lemma EndsAnyLocal(s: string, q: nat, ns: seq<Needle>, cut: nat)
    requires cut < q <= |s| && (IsDelimiter(s[cut]) || s[cut] == '*')
    ensures EndsAny(s, q, ns) <==> EndsAny(s[cut + 1..], q - cut - 1, ns)
  {
    forall n | n in ns ensures EndsWith(s, q, n) <==> EndsWith(s[cut + 1..], q - cut - 1, n) {
      if cut + |n| < q { EndsWithShift(s, q, n, cut); } else { NeverAcross(s, q, n, cut); }
    }
  }

  lemma EndsAnyPrefix(s: string, t: string, q: nat, ns: seq<Needle>)
    requires q <= |s| && q <= |t| && s[..q] == t[..q]
    ensures EndsAny(s, q, ns) <==> EndsAny(t, q, ns)
  {
    forall n | n in ns ensures EndsWith(s, q, n) <==> EndsWith(t, q, n) {
      assert forall i :: 0 <= i < q ==> s[i] == s[..q][i] && t[i] == t[..q][i];
    }
  }

  lemma NoEndInStars(t: string, ns: seq<Needle>, q: nat)
    requires |t| < q <= |t| + 3
    ensures !EndsAny(t + STARS, q, ns)
  {
    forall n | n in ns ensures !EndsWith(t + STARS, q, n) {
      NeverAcross(t + STARS, q, n, q - 1);
    }
  }

  lemma {:induction false} FirstEndFrom(t: string, ns: seq<Needle>, q: nat, e: nat)
    requires q <= e <= |t| + 1
    requires e <= |t| ==> EndsAny(t, e, ns)
    requires forall p :: q <= p < e ==> !EndsAny(t, p, ns)
    ensures FirstEnd(t, ns, q) == e
    decreases e - q
  {
    if q < e { FirstEndFrom(t, ns, q + 1, e); }
  }

  lemma FirstEndIs(t: string, ns: seq<Needle>, e: nat)
    requires e <= |t| + 1
    requires e <= |t| ==> EndsAny(t, e, ns)
    requires forall p :: 0 <= p < e ==> !EndsAny(t, p, ns)
    ensures FirstEnd(t, ns, 0) == e
  {
    FirstEndFrom(t, ns, 0, e);
  }

  lemma {:induction false} FirstEndSpec(t: string, ns: seq<Needle>, q: nat)
    requires q <= |t| + 1
    ensures var e := FirstEnd(t, ns, q);
            (e <= |t| ==> EndsAny(t, e, ns)) && forall p :: q <= p < e ==> !EndsAny(t, p, ns)
    decreases |t| + 1 - q
  {
    if q <= |t| && !EndsAny(t, q, ns) { FirstEndSpec(t, ns, q + 1); }
  }

  lemma EndsAnySplit(t: string, q: nat, a: seq<Needle>, b: seq<Needle>)
    ensures EndsAny(t, q, a + b) <==> EndsAny(t, q, a) || EndsAny(t, q, b)
  {
    forall n ensures n in a + b <==> n in a || n in b {}
  }

  /** Redacting for `a`, then for `b`, cuts where the first needle of either ends. */
  lemma RedactTokenTwice(t: string, a: seq<Needle>, b: seq<Needle>)
    ensures RedactToken(RedactToken(t, a), b) == RedactToken(t, a + b)
  {
    var e, f := FirstEnd(t, a, 0), FirstEnd(t, b, 0);
    FirstEndSpec(t, a, 0);
    FirstEndSpec(t, b, 0);
    forall p ensures EndsAny(t, p, a + b) <==> EndsAny(t, p, a) || EndsAny(t, p, b) {
      EndsAnySplit(t, p, a, b);
    }
    FirstEndIs(t, a + b, if e < f then e else f);
    if e <= |t| {
      var r := t[..e] + STARS;
      forall p | 0 <= p <= e ensures EndsAny(r, p, b) <==> EndsAny(t, p, b) {
        assert r[..p] == t[..p];
        EndsAnyPrefix(r, t, p, b);
      }
      forall p | e < p <= e + 3 ensures !EndsAny(r, p, b) {
        NoEndInStars(t[..e], b, p);
      }
      FirstEndIs(r, b, if f <= e then f else |r| + 1);
      if f <= e { assert r[..f] == t[..f]; }
    }
  }

  lemma RedactTokenPlain(t: string, ns: seq<Needle>)
    requires Plain(t)
    ensures Plain(RedactToken(t, ns))
  {
  }

  // -------------------------------------------------- facts about whole URLs

  lemma TokenLengthIs(s: string, k: nat)
    requires k <= |s| && (k < |s| ==> IsDelimiter(s[k]))
    requires forall i :: 0 <= i < k ==> !IsDelimiter(s[i])
    ensures TokenLength(s) == k
  {
    TokenIsPlain(s);
  }

  predicate Plain(t: string) {
    forall c <- t :: !IsDelimiter(c)
  }

  ghost function Onward(f: string -> string, rest: string): string {
    if rest == "" then "" else [rest[0]] + MapRuns(f, rest[1..])
  }

  lemma {:induction false} MapRunsOf(f: string -> string, t: string, rest: string)
    requires Plain(t) && (rest != "" ==> IsDelimiter(rest[0]))
    ensures MapRuns(f, t + rest) == f(t) + Onward(f, rest)
  {
    var s := t + rest;
    TokenLengthIs(s, |t|);
    assert s[..|t|] == t;
    if rest != "" { assert s[|t| + 1..] == rest[1..]; }
  }

  lemma {:induction false} MapRunsTwice(f: string -> string, g: string -> string, h: string -> string, s: string)
    requires forall t | Plain(t) :: Plain(f(t)) && g(f(t)) == h(t)
    ensures MapRuns(g, MapRuns(f, s)) == MapRuns(h, s)
    decreases |s|
  {
    var k := TokenLength(s);
    var t := s[..k];
    TokenIsPlain(s);
    assert Plain(t);
    if k == |s| {
      assert f(t) + "" == f(t) && h(t) + "" == h(t);
      MapRunsOf(g, f(t), "");
    } else {
      var rest := [s[k]] + MapRuns(f, s[k + 1..]);
      MapRunsOf(g, f(t), rest);
      assert rest[1..] == MapRuns(f, s[k + 1..]);
      MapRunsTwice(f, g, h, s[k + 1..]);
    }
  }

  /** Two passes are one pass with both lists. */
  lemma ReferenceTwice(s: string, a: seq<Needle>, b: seq<Needle>)
    ensures Reference(Reference(s, a), b) == Reference(s, a + b)
  {
    forall t | Plain(t)
      ensures Plain(Redactor(a)(t)) && Redactor(b)(Redactor(a)(t)) == Redactor(a + b)(t)
    {
      RedactTokenPlain(t, a);
      RedactTokenTwice(t, a, b);
    }
    MapRunsTwice(Redactor(a), Redactor(b), Redactor(a + b), s);
  }

  lemma {:induction false} SkipRun(f: string -> string, s: string)
    requires TokenLength(s) < |s| && f(s[..TokenLength(s)]) == s[..TokenLength(s)]
    ensures MapRuns(f, s) == s[..TokenLength(s) + 1] + MapRuns(f, s[TokenLength(s) + 1..])
  {
    var k := TokenLength(s);
    assert s[..k + 1] == s[..k] + [s[k]];
    Associate(s[..k], [s[k]], MapRuns(f, s[k + 1..]));
  }

  lemma {:induction false} CutRun(f: string -> string, s: string, start: nat)
    requires start <= TokenLength(s) && f("") == "" && f(s[..TokenLength(s)]) == s[..start] + STARS
    ensures MapRuns(f, s) == s[..start] + STARS + MapRuns(f, s[TokenLength(s)..])
  {
    var t, rest := s[..TokenLength(s)], s[TokenLength(s)..];
    TokenIsPlain(s);
    assert s == t + rest && "" + rest == rest;
    MapRunsOf(f, t, rest);
    MapRunsOf(f, "", rest);
    assert "" + Onward(f, rest) == Onward(f, rest);
  }

  /** The first run of s sees the needles that end in it. */
  lemma RunEnds(s: string, k: nat, q: nat, ns: seq<Needle>)
    requires q <= k <= |s|
    ensures EndsAny(s[..k], q, ns) <==> EndsAny(s, q, ns)
  {
    assert s[..k][..q] == s[..q];
    EndsAnyPrefix(s[..k], s, q, ns);
  }

  ghost predicate NoneBefore(s: string, start: nat, ns: seq<Needle>)
    requires start <= |s| + 1
  {
    forall q | 0 <= q < start :: !EndsAny(s, q, ns)
  }

  lemma NoneBeforeRun(s: string, k: nat, ns: seq<Needle>)
    requires k <= |s| && NoneBefore(s, k + 1, ns)
    ensures Redactor(ns)(s[..k]) == s[..k]
  {
    forall q | 0 <= q <= k ensures !EndsAny(s[..k], q, ns) { RunEnds(s, k, q, ns); }
    FirstEndIs(s[..k], ns, k + 1);
  }

  lemma NoneBeforeTail(s: string, cut: nat, start: nat, ns: seq<Needle>)
    requires cut < |s| && cut < start <= |s| + 1 && IsDelimiter(s[cut]) && NoneBefore(s, start, ns)
    ensures NoneBefore(s[cut + 1..], start - cut - 1, ns)
  {
    var r := s[cut + 1..];
    forall q | 0 <= q < start - cut - 1 ensures !EndsAny(r, q, ns) {
      EndsAnyLocal(s, q + cut + 1, ns, cut);
    }
  }

  /** Nothing to do when no needle occurs. */
  lemma {:induction false} NoOccurrence(s: string, ns: seq<Needle>)
    requires NoneBefore(s, |s| + 1, ns)
    ensures Reference(s, ns) == s
    decreases |s|
  {
    var k := TokenLength(s);
    NoneBeforeRun(s, k, ns);
    if k < |s| {
      NoneBeforeTail(s, k, |s| + 1, ns);
      NoOccurrence(s[k + 1..], ns);
      SkipRun(Redactor(ns), s);
    }
  }

  /** The URL from the value that starts at `start`: stars, then what follows the value. */
  ghost function After(f: string -> string, s: string, start: nat): string
    requires start <= |s|
  {
    STARS + MapRuns(f, s[start + TokenLength(s[start..])..])
  }

  /** The first occurrence: its value gives way to stars, and the scan goes on after it. */
  lemma {:induction false} FirstOccurrence(s: string, ns: seq<Needle>, start: nat)
    requires start <= |s| && EndsAny(s, start, ns) && NoneBefore(s, start, ns)
    ensures MapRuns(Redactor(ns), s) == s[..start] + After(Redactor(ns), s, start)
    decreases |s|
  {
    var k, f := TokenLength(s), Redactor(ns);
    if start <= k {
      FirstInRun(s, ns, start);
    } else {
      QuietRun(s, ns, start);
      FirstOccurrence(s[k + 1..], ns, start - k - 1);
      LaterRun(f, s, start);
    }
  }

  lemma QuietRun(s: string, ns: seq<Needle>, start: nat)
    requires TokenLength(s) < start <= |s| && EndsAny(s, start, ns) && NoneBefore(s, start, ns)
    ensures var k := TokenLength(s);
            && EndsAny(s[k + 1..], start - k - 1, ns) && NoneBefore(s[k + 1..], start - k - 1, ns)
            && Redactor(ns)(s[..k]) == s[..k]
  {
    var k := TokenLength(s);
    EndsAnyLocal(s, start, ns, k);
    NoneBeforeTail(s, k, start, ns);
    NoneBeforeRun(s, k, ns);
  }

  lemma LaterRun(f: string -> string, s: string, start: nat)
    requires TokenLength(s) < start <= |s|
    requires f(s[..TokenLength(s)]) == s[..TokenLength(s)]
    requires var k := TokenLength(s);
             MapRuns(f, s[k + 1..]) == s[k + 1..][..start - k - 1] + After(f, s[k + 1..], start - k - 1)
    ensures MapRuns(f, s) == s[..start] + After(f, s, start)
  {
    var k := TokenLength(s);
    SkipRun(f, s);
    AfterShift(f, s, k, start);
    Chain(s, k + 1, start, MapRuns(f, s), MapRuns(f, s[k + 1..]), After(f, s, start));
  }

  lemma Chain(s: string, cut: nat, start: nat, whole: string, tail: string, after: string)
    requires cut <= start <= |s|
    requires whole == s[..cut] + tail && tail == s[cut..][..start - cut] + after
    ensures whole == s[..start] + after
  {
    Associate(s[..cut], s[cut..][..start - cut], after);
    assert s[..cut] + s[cut..][..start - cut] == s[..start];
  }

  lemma AfterShift(f: string -> string, s: string, cut: nat, start: nat)
    requires cut < start <= |s|
    ensures After(f, s[cut + 1..], start - cut - 1) == After(f, s, start)
  {
    var r, p := s[cut + 1..], start - cut - 1;
    assert r[p..] == s[start..];
    var end := start + TokenLength(s[start..]);
    assert r[end - cut - 1..] == s[end..];
  }

  lemma {:induction false} FirstInRun(s: string, ns: seq<Needle>, start: nat)
    requires start <= TokenLength(s) && EndsAny(s, start, ns) && NoneBefore(s, start, ns)
    ensures MapRuns(Redactor(ns), s) == s[..start] + After(Redactor(ns), s, start)
  {
    var k := TokenLength(s);
    TokenIsPlain(s);
    TokenLengthIs(s[start..], k - start);
    RunCut(s[..k], s, ns, start);
    EmptyRun(ns);
    CutRun(Redactor(ns), s, start);
    Associate(s[..start], STARS, MapRuns(Redactor(ns), s[k..]));
  }

  lemma {:induction false} RunCut(t: string, s: string, ns: seq<Needle>, start: nat)
    requires t <= s && start <= |t| && EndsAny(s, start, ns) && NoneBefore(s, start, ns)
    ensures Redactor(ns)(t) == s[..start] + STARS
  {
    forall q | 0 <= q <= start ensures EndsAny(t, q, ns) <==> EndsAny(s, q, ns) {
      EndsAnyPrefix(t, s, q, ns);
    }
    FirstEndIs(t, ns, start);
    assert t[..start] == s[..start];
  }

  lemma EmptyRun(ns: seq<Needle>)
    ensures Redactor(ns)("") == ""
  {
    assert forall n <- ns :: !EndsWith("", 0, n);
    FirstEndIs("", ns, 1);
  }

  // --------------------------------------------------------------- the code

  predicate Occurs(s: string, i: nat, n: string) {
    i + |n| <= |s| && s[i..i + |n|] == n
  }

  ghost predicate IsFirst(s: string, n: string, index: int) {
    && -1 <= index && (index >= 0 ==> Occurs(s, index, n))
    && forall i: nat :: i < (if index < 0 then |s| + 1 else index) ==> !Occurs(s, i, n)
  }

  /** First position of the needle in s, or -1. */
  method Index(s: string, needle: string) returns (index: int)
    ensures IsFirst(s, needle, index)
  {
    index := 0;
    while index + |needle| <= |s|
      invariant index >= 0
      invariant forall i: nat :: i < index ==> !Occurs(s, i, needle)
    {
      if s[index..index + |needle|] == needle { return; }
      index := index + 1;
    }
    index := -1;
  }

  lemma LowerMatches(s: string, lower: string, i: nat, n: Needle)
    requires IsLower(lower, s)
    ensures Occurs(lower, i, n) <==> EndsWith(s, i + |n|, n)
  {
    if i + |n| <= |s| {
      var window := lower[i..i + |n|];
      assert forall j :: 0 <= j < |n| ==> window[j] == LowerChar(s[i + j]);
    }
  }

  /** Searching the lower-cased text finds the first place where the needle ends. */
  lemma SearchIsFirst(s: string, lower: string, n: Needle, index: int)
    requires IsLower(lower, s) && IsFirst(lower, n, index)
    ensures index < 0 ==> NoneBefore(s, |s| + 1, [n])
    ensures index >= 0 ==> index + |n| <= |s| && EndsAny(s, index + |n|, [n]) && NoneBefore(s, index + |n|, [n])
  {
    forall q | 0 <= q < (if index < 0 then |s| + 1 else index + |n|) ensures !EndsAny(s, q, [n]) {
      if |n| <= q { LowerMatches(s, lower, q - |n|, n); }
    }
    if index >= 0 {
      LowerMatches(s, lower, index, n);
      assert n in [n];
    }
  }

  /** The end of the value that starts at `start`: the next delimiter, or the end of the URL. */
  method ValueEnd(url: string, start: nat) returns (end: nat)
    requires start <= |url|
    ensures end == start + TokenLength(url[start..])
  {
    end := start;
    while end < |url| && url[end] != '&' && url[end] != '#' && url[end] != ' '
      invariant start <= end <= |url|
      invariant forall i :: start <= i < end ==> !IsDelimiter(url[i])
    {
      end := end + 1;
    }
    TokenLengthIs(url[start..], end - start);
  }

  /** The first `from` characters are final; the rest still has to be rewritten. */
  ghost predicate Standing(f: string -> string, rawUrl: string, url: string, from: nat) {
    from <= |url| && MapRuns(f, rawUrl) == url[..from] + MapRuns(f, url[from..])
  }

  /** Replacing a value keeps the URL standing for the same reference text. */
  lemma Replaced(f: string -> string, rawUrl: string, url: string, from: nat, start: nat)
    requires Standing(f, rawUrl, url, from) && from <= start <= |url|
    requires MapRuns(f, url[from..]) == url[from..][..start - from] + After(f, url[from..], start - from)
    ensures var end := start + TokenLength(url[start..]);
            Standing(f, rawUrl, url[..start] + STARS + url[end..], start + 3)
  {
    var s, p := url[from..], start - from;
    var end := start + TokenLength(url[start..]);
    var next := url[..start] + STARS + url[end..];
    assert s[p..] == url[start..] && s[end - from..] == url[end..];
    Chain(url, from, start, MapRuns(f, rawUrl), MapRuns(f, s), After(f, s, p));
    assert next[start + 3..] == url[end..] && next[..start + 3] == url[..start] + STARS;
    Associate(url[..start], STARS, MapRuns(f, url[end..]));
  }

  /** What a search in the lower-cased rest of the URL means for the reference text. */
  lemma SearchStep(url: string, lower: string, from: nat, n: Needle, index: int)
    requires IsLower(lower, url) && from <= |url| && IsFirst(lower[from..], n, index)
    ensures index < 0 ==> MapRuns(Redactor([n]), url[from..]) == url[from..]
    ensures index >= 0 ==>
              var p := index + |n|;
              && from + p <= |url|
              && MapRuns(Redactor([n]), url[from..]) == url[from..][..p] + After(Redactor([n]), url[from..], p)
  {
    var s := url[from..];
    SearchIsFirst(s, lower[from..], n, index);
    if index < 0 { NoOccurrence(s, [n]); } else { FirstOccurrence(s, [n], index + |n|); }
  }

  /** The next value of the parameter gives way to stars; `found` is false when there is none. */
  method RedactNext(ghost rawUrl: string, url: string, lower: string, needle: Needle, searchFrom: nat)
    returns (found: bool, next: string, nextFrom: nat)
    requires IsLower(lower, url) && Standing(Redactor([needle]), rawUrl, url, searchFrom)
    ensures found ==> Standing(Redactor([needle]), rawUrl, next, nextFrom) && |next| - nextFrom < |url| - searchFrom
    ensures !found ==> next == url && Reference(rawUrl, [needle]) == url
  {
    var index := Index(lower[searchFrom..], needle);
    SearchStep(url, lower, searchFrom, needle, index);
    if index < 0 {
      assert url[..searchFrom] + url[searchFrom..] == url;
      return false, url, searchFrom;
    }
    var start := searchFrom + index + |needle|;
    Replaced(Redactor([needle]), rawUrl, url, searchFrom, start);
    var end := ValueEnd(url, start);
    return true, url[..start] + STARS + url[end..], start + 3;
  }

  /** One pass of the outer loop: every value of one parameter. */
  method RedactOne(rawUrl: string, needle: Needle) returns (url: string)
    ensures url == Reference(rawUrl, [needle])
  {
    url := rawUrl;
    var lower := ToLower(url);
    var searchFrom := 0;
    assert Standing(Redactor([needle]), rawUrl, url, 0) by { assert url[0..] == url; }
    while true
      invariant IsLower(lower, url)
      invariant Standing(Redactor([needle]), rawUrl, url, searchFrom)
      decreases |url| - searchFrom
    {
      var found;
      found, url, searchFrom := RedactNext(rawUrl, url, lower, needle, searchFrom);
      if !found { return; }
      lower := ToLower(url);
    }
  }

  /** One pass for each parameter: together, a single cut per run. */
  method RedactParams(rawUrl: string, params: seq<string>, ghost needles: seq<Needle>) returns (url: string)
    requires |needles| == |params| && forall i :: 0 <= i < |params| ==> needles[i] == params[i] + "="
    ensures url == Reference(rawUrl, needles)
  {
    url := rawUrl;
    NoNeedles(rawUrl);
    for i := 0 to |params|
      invariant url == Reference(rawUrl, needles[..i])
    {
      OneMoreNeedle(rawUrl, needles, i);
      url := RedactOne(url, params[i] + "=");
    }
    assert needles[..|params|] == needles;
  }

  lemma OneMoreNeedle(rawUrl: string, needles: seq<Needle>, i: nat)
    requires i < |needles|
    ensures Reference(Reference(rawUrl, needles[..i]), [needles[i]]) == Reference(rawUrl, needles[..i + 1])
  {
    ReferenceTwice(rawUrl, needles[..i], [needles[i]]);
    assert needles[..i + 1] == needles[..i] + [needles[i]];
  }

  /** The nine sensitive parameters. */
  method RedactUrl(rawUrl: Url) returns (url: string)
    ensures SensitiveReference(rawUrl, url)
  {
    SensitiveAreNeedles();
    if rawUrl == "" {
      EmptyUrl(Needles(SENSITIVE));
      return "";
    }
    url := RedactParams(rawUrl, SENSITIVE, Needles(SENSITIVE));
  }

  lemma EmptyUrl(ns: seq<Needle>)
    ensures Reference("", ns) == ""
  {
    EmptyRun(ns);
  }

  ghost predicate SensitiveReference(rawUrl: string, url: string) {
    && (forall n <- Needles(SENSITIVE) :: IsNeedle(n))
    && url == Reference(rawUrl, Needles(SENSITIVE))
  }

  lemma NoNeedles(s: string)
    ensures Reference(s, []) == s
  {
    NoOccurrence(s, []);
  }

  // -------------------------------------------------------------- guarantees

  /** At q, the stars stand where a value was, and nothing else of the run follows them. */
  ghost predicate Masked(s: string, q: nat) {
    && q + 3 <= |s| && s[q..q + 3] == STARS
    && (q + 3 == |s| || IsDelimiter(s[q + 3]))
  }

  lemma {:induction false} RunMasked(t: string, ns: seq<Needle>, q: nat)
    requires EndsAny(RedactToken(t, ns), q, ns)
    ensures q + 3 == |RedactToken(t, ns)| && RedactToken(t, ns)[q..] == STARS
  {
    var e := FirstEnd(t, ns, 0);
    FirstEndSpec(t, ns, 0);
    var r := RedactToken(t, ns);
    if e <= |t| {
      if q > e { NoEndInStars(t[..e], ns, q); }
      if q < e {
        assert r[..q] == t[..q];
        EndsAnyPrefix(r, t, q, ns);
      }
      assert r[e..] == STARS;
    }
  }

  /** A run, a delimiter and a tail are masked at q when the piece that holds q is. */
  lemma MaskedJoin(t: string, rest: string, q: nat, ns: seq<Needle>)
    requires EndsAny(t + rest, q, ns) && (rest != "" ==> IsDelimiter(rest[0]))
    requires q <= |t| && EndsAny(t, q, ns) ==> q + 3 == |t| && t[q..] == STARS
    requires q > |t| && rest != "" && EndsAny(rest[1..], q - |t| - 1, ns) ==> Masked(rest[1..], q - |t| - 1)
    ensures Masked(t + rest, q)
  {
    var r := t + rest;
    if q <= |t| {
      assert r[..q] == t[..q];
      EndsAnyPrefix(r, t, q, ns);
      assert r[q..q + 3] == t[q..];
    } else {
      var tail, p := rest[1..], q - |t| - 1;
      EndsAnyLocal(r, q, ns, |t|);
      assert r[|t| + 1..] == tail;
      assert r[q..q + 3] == tail[p..p + 3];
    }
  }

  /** In the result, every sensitive `param=`, in any case, is followed by stars and a delimiter or the end. */
  lemma {:induction false} EveryValueMasked(s: string, ns: seq<Needle>, q: nat)
    requires EndsAny(Reference(s, ns), q, ns)
    ensures Masked(Reference(s, ns), q)
    decreases |s|
  {
    var k := TokenLength(s);
    var t := RedactToken(s[..k], ns);
    var rest := if k == |s| then "" else [s[k]] + Reference(s[k + 1..], ns);
    assert Reference(s, ns) == t + rest;
    if q <= |t| {
      if EndsAny(t, q, ns) { RunMasked(s[..k], ns, q); }
    } else if k < |s| && EndsAny(Reference(s[k + 1..], ns), q - |t| - 1, ns) {
      EveryValueMasked(s[k + 1..], ns, q - |t| - 1);
    }
    MaskedJoin(t, rest, q, ns);
  }

  lemma RedactTokenIdempotent(t: string, ns: seq<Needle>)
    ensures RedactToken(RedactToken(t, ns), ns) == RedactToken(t, ns)
  {
    RedactTokenTwice(t, ns, ns);
    FirstEndSpec(t, ns, 0);
    forall p ensures EndsAny(t, p, ns + ns) <==> EndsAny(t, p, ns) {
      EndsAnySplit(t, p, ns, ns);
    }
    FirstEndIs(t, ns + ns, FirstEnd(t, ns, 0));
  }

  /** A second application changes nothing. */
  lemma ReferenceIdempotent(s: string, ns: seq<Needle>)
    ensures Reference(Reference(s, ns), ns) == Reference(s, ns)
  {
    forall t | Plain(t)
      ensures Plain(Redactor(ns)(t)) && Redactor(ns)(Redactor(ns)(t)) == Redactor(ns)(t)
    {
      RedactTokenPlain(t, ns);
      RedactTokenIdempotent(t, ns);
    }
    MapRunsTwice(Redactor(ns), Redactor(ns), Redactor(ns), s);
  }

  /** What becomes of a run does not depend on the value: two runs that agree up to it look alike. */
  lemma RunLeavesNoTrace(head: string, v: string, w: string, ns: seq<Needle>)
    requires EndsAny(head, |head|, ns)
    ensures RedactToken(head + v, ns) == RedactToken(head + w, ns)
    ensures |RedactToken(head + v, ns)| <= |head| + 3
  {
    var a, b := head + v, head + w;
    forall p | 0 <= p <= |head|
      ensures EndsAny(a, p, ns) <==> EndsAny(head, p, ns)
      ensures EndsAny(b, p, ns) <==> EndsAny(head, p, ns)
    {
      assert a[..p] == head[..p] == b[..p];
      EndsAnyPrefix(a, head, p, ns);
      EndsAnyPrefix(b, head, p, ns);
    }
    var e := FirstEnd(head, ns, 0);
    FirstEndSpec(head, ns, 0);
    FirstEndIs(a, ns, e);
    FirstEndIs(b, ns, e);
    assert a[..e] == b[..e];
  }

  predicate Ended(before: string) {
    before == "" || IsDelimiter(before[|before| - 1])
  }

  ghost function Lead(f: string -> string, before: string): string
    requires Ended(before)
    decreases |before|
  {
    var k := TokenLength(before);
    if before == "" then ""
    else if k == |before| then f(before)
    else f(before[..k]) + [before[k]] + Lead(f, before[k + 1..])
  }

  lemma CutAt(before: string, k: nat, s: string)
    requires k < |before|
    ensures before + s == before[..k] + ([before[k]] + (before[k + 1..] + s))
  {
  }

  lemma RunAndRest(f: string -> string, t: string, d: char, s: string)
    requires Plain(t) && IsDelimiter(d)
    ensures MapRuns(f, t + ([d] + s)) == f(t) + ([d] + MapRuns(f, s))
  {
    MapRunsOf(f, t, [d] + s);
    assert ([d] + s)[1..] == s;
  }

  lemma Regroup(a: string, d: char, b: string, c: string)
    ensures a + ([d] + (b + c)) == a + [d] + b + c
  {
  }

  /** Whole runs in front of a URL are rewritten on their own. */
  lemma {:induction false} MapRunsAfter(f: string -> string, before: string, s: string)
    requires Ended(before)
    ensures MapRuns(f, before + s) == Lead(f, before) + MapRuns(f, s)
    decreases |before|
  {
    if before == "" {
      assert before + s == s;
    } else {
      var k := TokenLength(before);
      TokenIsPlain(before);
      var rest := before[k + 1..];
      MapRunsAfter(f, rest, s);
      CutAt(before, k, s);
      RunAndRest(f, before[..k], before[k], rest + s);
      Regroup(f(before[..k]), before[k], Lead(f, rest), MapRuns(f, s));
    }
  }

  /**
   * Two URLs that differ only in the value of a sensitive parameter, anywhere in the URL, are logged
   * alike: neither the value nor its length leaves a trace.
   */
  lemma ValueLeavesNoTrace(before: string, head: string, v: string, w: string, rest: string, ns: seq<Needle>)
    requires Ended(before) && Plain(head) && EndsAny(head, |head|, ns)
    requires Plain(v) && Plain(w) && (rest != "" ==> IsDelimiter(rest[0]))
    ensures Reference(before + (head + v + rest), ns) == Reference(before + (head + w + rest), ns)
  {
    var f := Redactor(ns);
    RunLeavesNoTrace(head, v, w, ns);
    MapRunsOf(f, head + v, rest);
    MapRunsOf(f, head + w, rest);
    MapRunsAfter(f, before, head + v + rest);
    MapRunsAfter(f, before, head + w + rest);
  }
}

/** Common Event Format lines: rendering with escapes, and the reading that undoes it. */
module Cef {
  import opened Basics

  const BACKSLASH := '\\'
  const NEWLINE := '\n'
  const RETURN := '\r'
  const SPACE := ' '
  const BAR := '|'
  const EQUALS := '='

  // ------------------------------------------------------------ substitution

  /** Every character replaced by a string, in one pass. */
  function MapChars(f: char -> string, s: string): string {
    if s == "" then "" else f(s[0]) + MapChars(f, s[1..])
  }

  function Swap(c: char, t: string): char -> string {
    (x: char) => if x == c then t else [x]
  }

  /** `s.replace(c, t)` for a one-character pattern. */
  function Replace(s: string, c: char, t: string): string {
    MapChars(Swap(c, t), s)
  }

  function EscapeHeader(value: Option<string>): string {
    var text := if value.None? then "" else value.value;
    Replace(Replace(text, BACKSLASH, [BACKSLASH, BACKSLASH]), BAR, [BACKSLASH, BAR])
  }

  function EscapeValue(value: Option<string>): string {
    var text := if value.None? then "" else value.value;
    Replace(
      Replace(
        Replace(Replace(text, BACKSLASH, [BACKSLASH, BACKSLASH]), EQUALS, [BACKSLASH, EQUALS]),
        RETURN, [SPACE]),
      NEWLINE, [BACKSLASH, 'n'])
  }

  /** What one character of a header field, or of a value, is written as. */
  function HeaderChar(c: char): string {
    if c == BACKSLASH || c == BAR then [BACKSLASH, c] else [c]
  }

  function ValueChar(c: char): string {
    if c == BACKSLASH || c == EQUALS then [BACKSLASH, c]
    else if c == NEWLINE then [BACKSLASH, 'n']
    else if c == RETURN then [SPACE]
    else [c]
  }

  lemma {:induction false} MapCharsConcat(f: char -> string, a: string, b: string)
    ensures MapChars(f, a + b) == MapChars(f, a) + MapChars(f, b)
  {
    if a == "" {
      assert a + b == b;
    } else {
      assert (a + b)[1..] == a[1..] + b;
      MapCharsConcat(f, a[1..], b);
    }
  }

  lemma {:induction false} MapCharsTwice(f: char -> string, g: char -> string, h: char -> string, s: string)
    requires forall c :: MapChars(g, f(c)) == h(c)
    ensures MapChars(g, MapChars(f, s)) == MapChars(h, s)
  {
    if s != "" {
      MapCharsConcat(g, f(s[0]), MapChars(f, s[1..]));
      MapCharsTwice(f, g, h, s[1..]);
    }
  }

  lemma MapOne(f: char -> string, c: char)
    ensures MapChars(f, [c]) == f(c)
  {
    assert [c][1..] == "";
    assert f(c) + "" == f(c);
  }

  lemma MapTwo(f: char -> string, c: char, d: char)
    ensures MapChars(f, [c, d]) == f(c) + f(d)
  {
    assert [c, d][1..] == [d];
    MapOne(f, d);
  }

  lemma MapKeep(f: char -> string, c: char, d: char)
    requires f(c) == [c] && f(d) == [d]
    ensures MapChars(f, [c, d]) == [c, d]
  {
    MapTwo(f, c, d);
  }

  /** The chained replacements of a header field are one pass over its characters. */
  lemma HeaderOnePass(s: string)
    ensures EscapeHeader(Some(s)) == MapChars(HeaderChar, s)
  {
    var f, g := Swap(BACKSLASH, [BACKSLASH, BACKSLASH]), Swap(BAR, [BACKSLASH, BAR]);
    forall c ensures MapChars(g, f(c)) == HeaderChar(c) {
      if c == BACKSLASH { MapKeep(g, c, c); } else { MapOne(g, c); }
    }
    MapCharsTwice(f, g, HeaderChar, s);
  }

  /** So are the four replacements of a value: none of them touches what an earlier one wrote. */
  lemma ValueOnePass(s: string)
    ensures EscapeValue(Some(s)) == MapChars(ValueChar, s)
  {
    var f, g := Swap(BACKSLASH, [BACKSLASH, BACKSLASH]), Swap(EQUALS, [BACKSLASH, EQUALS]);
    var h, k := Swap(RETURN, [SPACE]), Swap(NEWLINE, [BACKSLASH, 'n']);
    var fg := (c: char) => MapChars(g, f(c));
    var fgh := (c: char) => MapChars(h, fg(c));
    forall c ensures MapChars(k, fgh(c)) == ValueChar(c) {
      if c == BACKSLASH {
        MapKeep(g, c, c);
        MapKeep(h, c, c);
        MapKeep(k, c, c);
      } else if c == EQUALS {
        MapOne(g, c);
        MapKeep(h, BACKSLASH, c);
        MapKeep(k, BACKSLASH, c);
      } else {
        MapOne(g, c);
        MapOne(h, c);
        MapOne(k, if c == RETURN then SPACE else c);
      }
    }
    MapCharsTwice(f, g, fg, s);
    MapCharsTwice(fg, h, fgh, s);
    MapCharsTwice(fgh, k, ValueChar, s);
  }

  // --------------------------------------------------------------- rendering

  function Digit(d: nat): char
    requires d < 10
  {
    '0' + d as char
  }

  function Digits(n: nat): string {
    if n < 10 then [Digit(n)] else Digits(n / 10) + [Digit(n % 10)]
  }

  function Decimal(n: int): string {
    if n < 0 then "-" + Digits(-n) else Digits(n)
  }

  datatype Pair = Pair(key: string, value: string)

  const PREFIX: string := "CEF:0"

  /** The device named in every header. */
  datatype Device = Device(vendor: string, product: string, version: string)

  const THOT := Device("Thot Secure", "thotsecure", "0.1.0")

  datatype Event = Event(
    signatureId: string,
    name: string,
    severity: int,
    extension: seq<(string, Option<string>)>,
    classId: string
  )

  function SignatureOf(e: Event): string {
    if e.signatureId != "" then e.signatureId else "UNKNOWN"
  }

  function NameOf(e: Event): string {
    if e.name != "" then e.name else if e.signatureId != "" then e.signatureId else "Evenement Thot Secure"
  }

  function JoinWith(separator: char, parts: seq<string>): string {
    if parts == [] then ""
    else if |parts| == 1 then parts[0]
    else parts[0] + [separator] + JoinWith(separator, parts[1..])
  }

  /** The pairs that are written: absent and empty values are not. */
  function Kept(extension: seq<(string, Option<string>)>): seq<Pair> {
    if extension == [] then []
    else
      var (key, value) := extension[0];
      (if value.Some? && value.value != "" then [Pair(key, value.value)] else []) + Kept(extension[1..])
  }

  /** Kept are exactly the pairs with a value that is there and not empty. */
  lemma {:induction false} KeptIff(extension: seq<(string, Option<string>)>, p: Pair)
    ensures p in Kept(extension) <==> (p.key, Some(p.value)) in extension && p.value != ""
  {
    if extension != [] {
      KeptIff(extension[1..], p);
      assert forall x :: x in extension <==> x == extension[0] || x in extension[1..];
    }
  }

  /** And they keep their order. */
  lemma {:induction false} KeptInOrder(a: seq<(string, Option<string>)>, b: seq<(string, Option<string>)>)
    ensures Kept(a + b) == Kept(a) + Kept(b)
    ensures |a| == 1 ==> |Kept(a)| <= 1
  {
    if a == [] {
      assert a + b == b;
    } else {
      assert (a + b)[1..] == a[1..] + b;
      KeptInOrder(a[1..], b);
      if |a| == 1 { assert a[1..] == []; }
    }
  }

  /** Signature and name are never empty; an event without a name goes by its signature. */
  lemma HeaderTexts(e: Event)
    ensures SignatureOf(e) != "" && NameOf(e) != ""
    ensures e.signatureId != "" ==> SignatureOf(e) == e.signatureId
    ensures e.name != "" ==> NameOf(e) == e.name
    ensures e.name == "" && e.signatureId != "" ==> NameOf(e) == SignatureOf(e)
  {
  }

  function PairText(p: Pair): string {
    p.key + [EQUALS] + EscapeValue(Some(p.value))
  }

  function PairTexts(pairs: seq<Pair>): seq<string> {
    if pairs == [] then [] else [PairText(pairs[0])] + PairTexts(pairs[1..])
  }

  function ExtensionText(pairs: seq<Pair>): string {
    JoinWith(SPACE, PairTexts(pairs))
  }

  function WithClass(fields: seq<string>, classId: string): seq<string> {
    if classId != "" then fields + [classId] else fields
  }

  function HeaderFields(d: Device, e: Event): seq<string> {
    WithClass(FixedFields(d, e), e.classId)
  }

  function HeaderParts(d: Device, e: Event): seq<string> {
    [PREFIX, EscapeHeader(Some(d.vendor)), EscapeHeader(Some(d.product)), EscapeHeader(Some(d.version)),
     EscapeHeader(Some(SignatureOf(e))), EscapeHeader(Some(NameOf(e))), Decimal(e.severity)]
  }

  function LineOf(parts: seq<string>, classId: string, extension: string): string {
    var header := JoinWith(BAR, parts);
    var header' := if classId != "" then header + [BAR] + EscapeHeader(Some(classId)) else header;
    header' + [BAR] + extension
  }

  /** A whole line; the prefix and the severity are written as they are. */
  function CefLine(d: Device, e: Event): string {
    LineOf(HeaderParts(d, e), e.classId, ExtensionText(Kept(e.extension)))
  }

  // ------------------------------------------------------------------ reading

  /** One header field, unescaped, and what follows the bar that ends it. */
  function TakeField(s: string): (string, Option<string>) {
    if s == "" then ("", None)
    else if s[0] == BAR then ("", Some(s[1..]))
    else if s[0] == BACKSLASH && |s| > 1 then
      var (field, rest) := TakeField(s[2..]);
      ([s[1]] + field, rest)
    else
      var (field, rest) := TakeField(s[1..]);
      ([s[0]] + field, rest)
  }

  /** n header fields, and the rest of the line. */
  function TakeFields(s: string, n: nat): (seq<string>, Option<string>)
    decreases n
  {
    if n == 0 then ([], Some(s))
    else
      var (field, rest) := TakeField(s);
      if rest.None? then ([field], None)
      else
        var (fields, rest') := TakeFields(rest.value, n - 1);
        ([field] + fields, rest')
  }

  /** Puts a text in front of the first part. */
  function Prepend(text: string, parts: seq<string>): seq<string>
    requires parts != []
  {
    [text + parts[0]] + parts[1..]
  }

  /** The pieces between unescaped `=`, escapes left in place. */
  function SplitEquals(s: string): (parts: seq<string>)
    ensures parts != []
  {
    if s == "" then [""]
    else if s[0] == BACKSLASH && |s| > 1 then Prepend(s[..2], SplitEquals(s[2..]))
    else if s[0] == EQUALS then [""] + SplitEquals(s[1..])
    else Prepend(s[..1], SplitEquals(s[1..]))
  }

  /** What precedes and what follows the last space; all of it follows when there is none. */
  function AtLastSpace(s: string): (string, string) {
    if s == "" then ("", "")
    else if s[|s| - 1] == SPACE then (s[..|s| - 1], "")
    else
      var (before, after) := AtLastSpace(s[..|s| - 1]);
      (before, after + [s[|s| - 1]])
  }

  function Unescape(s: string): string {
    if s == "" then ""
    else if s[0] == BACKSLASH && |s| > 1 then
      [if s[1] == 'n' then NEWLINE else s[1]] + Unescape(s[2..])
    else [s[0]] + Unescape(s[1..])
  }

  /** The first piece is a key; each later one holds a value and, but for the last, the next key. */
  function PairsFrom(key: string, parts: seq<string>): seq<Pair>
    decreases |parts|
  {
    if parts == [] then []
    else if |parts| == 1 then [Pair(key, Unescape(parts[0]))]
    else
      var (value, next) := AtLastSpace(parts[0]);
      [Pair(key, Unescape(value))] + PairsFrom(next, parts[1..])
  }

  function ParseExtension(s: string): seq<Pair> {
    var parts := SplitEquals(s);
    PairsFrom(parts[0], parts[1..])
  }

  function ParseLine(line: string, fields: nat): (seq<string>, seq<Pair>) {
    var (header, rest) := TakeFields(line, fields);
    (header, if rest.None? then [] else ParseExtension(rest.value))
  }

  function ParseDigits(s: string): int {
    if s == "" then 0 else ParseDigits(s[..|s| - 1]) * 10 + (s[|s| - 1] as int - '0' as int)
  }

  function ParseDecimal(s: string): int {
    if s != "" && s[0] == '-' then -ParseDigits(s[1..]) else ParseDigits(s)
  }

  // -------------------------------------------------------------- round trips

  lemma FieldHead(c: char, more: string)
    ensures TakeField(HeaderChar(c) + more) == ([c] + TakeField(more).0, TakeField(more).1)
  {
    var s := HeaderChar(c) + more;
    assert s[|HeaderChar(c)|..] == more;
  }

  lemma {:induction false} FieldRoundTrip(v: string, tail: string)
    requires tail != "" && tail[0] == BAR
    ensures TakeField(MapChars(HeaderChar, v) + tail) == (v, Some(tail[1..]))
  {
    if v == "" {
      assert "" + tail == tail;
    } else {
      var c, more := HeaderChar(v[0]), MapChars(HeaderChar, v[1..]);
      FieldRoundTrip(v[1..], tail);
      Associate(c, more, tail);
      FieldHead(v[0], more + tail);
      assert [v[0]] + v[1..] == v;
    }
  }

  lemma {:induction false} UnescapeValue(v: string)
    ensures Unescape(MapChars(ValueChar, v)) == Normal(v)
  {
    if v != "" {
      var more := MapChars(ValueChar, v[1..]);
      UnescapeValue(v[1..]);
      var s := ValueChar(v[0]) + more;
      assert s[|ValueChar(v[0])|..] == more;
    }
  }

  /** A value as it can be read back: a carriage return has become a space. */
  function Normal(v: string): string {
    if v == "" then "" else [if v[0] == RETURN then SPACE else v[0]] + Normal(v[1..])
  }

  lemma PrependTwice(a: string, b: string, parts: seq<string>)
    requires parts != []
    ensures Prepend(a, Prepend(b, parts)) == Prepend(a + b, parts)
  {
    assert a + (b + parts[0]) == a + b + parts[0];
  }

  lemma PrependNothing(parts: seq<string>)
    requires parts != []
    ensures Prepend("", parts) == parts
  {
    assert "" + parts[0] == parts[0];
  }

  lemma SplitHead(c: string, s: string)
    requires (|c| == 1 && c[0] != BACKSLASH && c[0] != EQUALS) || (|c| == 2 && c[0] == BACKSLASH)
    ensures SplitEquals(c + s) == Prepend(c, SplitEquals(s))
  {
    assert (c + s)[..|c|] == c && (c + s)[|c|..] == s;
  }

  /** An escaped value holds no unescaped `=`, and leaves no escape open behind it. */
  lemma {:induction false} SplitValue(v: string, rest: string)
    ensures SplitEquals(MapChars(ValueChar, v) + rest) == Prepend(MapChars(ValueChar, v), SplitEquals(rest))
  {
    if v == "" {
      assert "" + rest == rest;
      PrependNothing(SplitEquals(rest));
    } else {
      var c, more := ValueChar(v[0]), MapChars(ValueChar, v[1..]);
      assert c + more + rest == c + (more + rest);
      SplitHead(c, more + rest);
      SplitValue(v[1..], rest);
      PrependTwice(c, more, SplitEquals(rest));
    }
  }

  predicate KeyOk(key: string) {
    forall i | 0 <= i < |key| :: key[i] != SPACE && key[i] != EQUALS && key[i] != BACKSLASH
  }

  lemma {:induction false} SplitKey(key: string, rest: string)
    requires KeyOk(key)
    ensures SplitEquals(key + rest) == Prepend(key, SplitEquals(rest))
  {
    if key == "" {
      assert "" + rest == rest;
      PrependNothing(SplitEquals(rest));
    } else {
      var c, more := key[..1], key[1..];
      assert key == c + more && key + rest == c + (more + rest);
      SplitHead(c, more + rest);
      SplitKey(more, rest);
      PrependTwice(c, more, SplitEquals(rest));
    }
  }

  lemma {:induction false} LastSpaceOf(before: string, key: string)
    requires KeyOk(key)
    ensures AtLastSpace(before + [SPACE] + key) == (before, key)
    decreases |key|
  {
    var s := before + [SPACE] + key;
    if key == "" {
      assert s == before + [SPACE];
      assert s[..|s| - 1] == before;
    } else {
      var front := key[..|key| - 1];
      assert s[..|s| - 1] == before + [SPACE] + front;
      assert s[|s| - 1] == key[|key| - 1];
      LastSpaceOf(before, front);
      assert front + [key[|key| - 1]] == key;
    }
  }

  function NormalPairs(pairs: seq<Pair>): seq<Pair> {
    if pairs == [] then [] else [Pair(pairs[0].key, Normal(pairs[0].value))] + NormalPairs(pairs[1..])
  }

  ghost predicate KeysOk(pairs: seq<Pair>) {
    forall i | 0 <= i < |pairs| :: KeyOk(pairs[i].key)
  }

  /** The pieces the reader meets after the first key. */
  function Pieces(pairs: seq<Pair>): (parts: seq<string>)
    requires pairs != []
    ensures parts != []
  {
    var v := MapChars(ValueChar, pairs[0].value);
    if |pairs| == 1 then [v] else [v + [SPACE] + pairs[1].key] + Pieces(pairs[1..])
  }

  /** One pair at the front of an extension: its key, then its value glued to what follows. */
  lemma SplitPair(p: Pair, tail: string)
    requires KeyOk(p.key)
    ensures SplitEquals(PairText(p) + tail)
            == [p.key] + Prepend(MapChars(ValueChar, p.value), SplitEquals(tail))
  {
    var v := MapChars(ValueChar, p.value);
    var rest := [EQUALS] + (v + tail);
    ValueOnePass(p.value);
    Associate(p.key, [EQUALS], v);
    Associate(p.key, [EQUALS] + v, tail);
    Associate([EQUALS], v, tail);
    SplitKey(p.key, rest);
    assert rest[1..] == v + tail;
    SplitValue(p.value, tail);
    assert p.key + "" == p.key;
  }

  lemma {:induction false} SplitText(pairs: seq<Pair>)
    requires pairs != [] && KeysOk(pairs)
    ensures SplitEquals(ExtensionText(pairs)) == [pairs[0].key] + Pieces(pairs)
  {
    var v := MapChars(ValueChar, pairs[0].value);
    TextShape(pairs);
    if |pairs| == 1 {
      SplitPair(pairs[0], "");
      assert v + "" == v && Prepend(v, [""]) == [v];
    } else {
      var text := ExtensionText(pairs[1..]);
      SplitPair(pairs[0], [SPACE] + text);
      SplitText(pairs[1..]);
      SplitHead([SPACE], text);
      PrependTwice(v, [SPACE], SplitEquals(text));
    }
  }

  lemma TextShape(pairs: seq<Pair>)
    requires pairs != []
    ensures ExtensionText(pairs) ==
            PairText(pairs[0]) + if |pairs| == 1 then "" else [SPACE] + ExtensionText(pairs[1..])
  {
    var texts := PairTexts(pairs);
    assert texts[1..] == PairTexts(pairs[1..]);
    if |pairs| == 1 {
      assert pairs[1..] == [];
      assert PairText(pairs[0]) + "" == PairText(pairs[0]);
    } else {
      assert |PairTexts(pairs[1..])| >= 1;
    }
  }

  lemma {:induction false} PiecesRoundTrip(pairs: seq<Pair>)
    requires pairs != [] && KeysOk(pairs)
    ensures PairsFrom(pairs[0].key, Pieces(pairs)) == NormalPairs(pairs)
  {
    var p := pairs[0];
    UnescapeValue(p.value);
    if |pairs| == 1 {
      assert pairs[1..] == [];
    } else {
      LastSpaceOf(MapChars(ValueChar, p.value), pairs[1].key);
      PiecesRoundTrip(pairs[1..]);
      assert Pieces(pairs)[1..] == Pieces(pairs[1..]);
    }
  }

  /** The extension reads back as the same keys, in order, with their values. */
  lemma ExtensionRoundTrip(pairs: seq<Pair>)
    requires KeysOk(pairs)
    ensures ParseExtension(ExtensionText(pairs)) == NormalPairs(pairs)
  {
    if pairs == [] {
      assert SplitEquals("") == [""];
    } else {
      SplitText(pairs);
      PiecesRoundTrip(pairs);
      var parts := SplitEquals(ExtensionText(pairs));
      assert parts[1..] == Pieces(pairs);
    }
  }

  /** Fields, each written as it will be read, and each followed by a bar. */
  function Barred(fields: seq<string>): string {
    if fields == [] then "" else MapChars(HeaderChar, fields[0]) + [BAR] + Barred(fields[1..])
  }

  lemma {:induction false} FieldsRoundTrip(fields: seq<string>, rest: string)
    ensures TakeFields(Barred(fields) + rest, |fields|) == (fields, Some(rest))
  {
    if fields == [] {
      assert "" + rest == rest;
    } else {
      var more := Barred(fields[1..]) + rest;
      assert Barred(fields) + rest == MapChars(HeaderChar, fields[0]) + ([BAR] + more);
      FieldRoundTrip(fields[0], [BAR] + more);
      assert ([BAR] + more)[1..] == more;
      FieldsRoundTrip(fields[1..], rest);
      assert [fields[0]] + fields[1..] == fields;
    }
  }

  lemma {:induction false} PlainField(s: string)
    requires forall i | 0 <= i < |s| :: s[i] != BACKSLASH && s[i] != BAR
    ensures MapChars(HeaderChar, s) == s
  {
    if s != "" { PlainField(s[1..]); }
  }

  lemma {:induction false} DigitsPlain(n: nat)
    ensures Digits(n) != "" && forall i | 0 <= i < |Digits(n)| :: '0' <= Digits(n)[i] <= '9'
  {
    if n >= 10 { DigitsPlain(n / 10); }
  }

  lemma DecimalPlain(n: int)
    ensures MapChars(HeaderChar, Decimal(n)) == Decimal(n)
  {
    DigitsPlain(if n < 0 then -n else n);
    PlainField(Decimal(n));
  }

  lemma {:induction false} DigitsRoundTrip(n: nat)
    ensures ParseDigits(Digits(n)) == n
  {
    if n >= 10 {
      DigitsRoundTrip(n / 10);
      assert Digits(n)[..|Digits(n)| - 1] == Digits(n / 10);
    } else {
      assert Digits(n)[..0] == "";
    }
  }

  lemma DecimalRoundTrip(n: int)
    ensures ParseDecimal(Decimal(n)) == n
  {
    var m := if n < 0 then -n else n;
    DigitsPlain(m);
    DigitsRoundTrip(m);
    if n < 0 { assert Decimal(n)[1..] == Digits(m); } else { assert Digits(m)[0] != '-'; }
  }

  lemma BarredJoin(parts: seq<string>, fields: seq<string>)
    requires |parts| == |fields| > 0
    requires forall i :: 0 <= i < |parts| ==> parts[i] == MapChars(HeaderChar, fields[i])
    ensures JoinWith(BAR, parts) + [BAR] == Barred(fields)
    decreases |parts|
  {
    if |parts| == 1 {
      assert fields[1..] == [];
      assert parts[0] + [BAR] + "" == parts[0] + [BAR];
    } else {
      BarredJoin(parts[1..], fields[1..]);
      assert parts[0] + [BAR] + JoinWith(BAR, parts[1..]) + [BAR]
             == parts[0] + [BAR] + (JoinWith(BAR, parts[1..]) + [BAR]);
    }
  }

  lemma {:induction false} BarredAppend(fields: seq<string>, last: string)
    ensures Barred(fields + [last]) == Barred(fields) + (MapChars(HeaderChar, last) + [BAR])
  {
    if fields == [] {
      assert fields + [last] == [last] && [last][1..] == [];
      var t := MapChars(HeaderChar, last) + [BAR];
      assert t + "" == t && "" + t == t;
    } else {
      assert (fields + [last])[1..] == fields[1..] + [last];
      BarredAppend(fields[1..], last);
      var a, b, c := MapChars(HeaderChar, fields[0]) + [BAR], Barred(fields[1..]), MapChars(HeaderChar, last) + [BAR];
      assert a + (b + c) == a + b + c;
    }
  }

  /** Seven fields, the first and the last written as they are. */
  lemma SevenFields(parts: seq<string>, f: seq<string>)
    requires EscapedSeven(parts, f)
    requires MapChars(HeaderChar, f[0]) == f[0] && MapChars(HeaderChar, f[6]) == f[6]
    ensures JoinWith(BAR, parts) + [BAR] == Barred(f)
  {
    forall i | 0 <= i < 7 ensures parts[i] == MapChars(HeaderChar, f[i]) {
      HeaderOnePass(f[i]);
    }
    BarredJoin(parts, f);
  }

  function FixedFields(d: Device, e: Event): seq<string> {
    [PREFIX, d.vendor, d.product, d.version, SignatureOf(e), NameOf(e), Decimal(e.severity)]
  }

  lemma PrefixPlain()
    ensures MapChars(HeaderChar, PREFIX) == PREFIX
  {
    PlainField(PREFIX);
  }

  ghost predicate EscapedSeven(parts: seq<string>, f: seq<string>) {
    && |parts| == |f| == 7 && parts[0] == f[0] && parts[6] == f[6]
    && parts[1] == EscapeHeader(Some(f[1])) && parts[2] == EscapeHeader(Some(f[2]))
    && parts[3] == EscapeHeader(Some(f[3])) && parts[4] == EscapeHeader(Some(f[4]))
    && parts[5] == EscapeHeader(Some(f[5]))
  }

  lemma PartsEscaped(d: Device, e: Event)
    ensures EscapedSeven(HeaderParts(d, e), FixedFields(d, e))
    ensures FixedFields(d, e)[0] == PREFIX && FixedFields(d, e)[6] == Decimal(e.severity)
  {
  }

  lemma FixedShape(d: Device, e: Event)
    ensures JoinWith(BAR, HeaderParts(d, e)) + [BAR] == Barred(FixedFields(d, e))
  {
    var parts, f := HeaderParts(d, e), FixedFields(d, e);
    PartsEscaped(d, e);
    PrefixPlain();
    DecimalPlain(e.severity);
    SevenFields(parts, f);
  }

  /** The line is the escaped header fields, each ended by a bar, then the extension. */
  lemma LineShape(d: Device, e: Event)
    ensures CefLine(d, e) == Barred(HeaderFields(d, e)) + ExtensionText(Kept(e.extension))
  {
    FixedShape(d, e);
    ShapeOf(HeaderParts(d, e), FixedFields(d, e), e.classId, ExtensionText(Kept(e.extension)));
  }

  lemma ShapeOf(parts: seq<string>, fields: seq<string>, classId: string, extension: string)
    requires JoinWith(BAR, parts) + [BAR] == Barred(fields)
    ensures LineOf(parts, classId, extension) == Barred(WithClass(fields, classId)) + extension
  {
    if classId != "" {
      HeaderOnePass(classId);
      BarredAppend(fields, classId);
      Associate(JoinWith(BAR, parts) + [BAR], MapChars(HeaderChar, classId), [BAR]);
    }
  }

  /**
   * A line reads back to its inputs: the header fields once their number is known, and the
   * extension's pairs without the empty ones, a carriage return read as a space.
   */
  lemma LineRoundTrip(d: Device, e: Event)
    requires KeysOk(Kept(e.extension))
    ensures ParseLine(CefLine(d, e), |HeaderFields(d, e)|) == (HeaderFields(d, e), NormalPairs(Kept(e.extension)))
  {
    LineShape(d, e);
    ReadBack(HeaderFields(d, e), Kept(e.extension));
  }

  lemma ReadBack(fields: seq<string>, pairs: seq<Pair>)
    requires KeysOk(pairs)
    ensures ParseLine(Barred(fields) + ExtensionText(pairs), |fields|) == (fields, NormalPairs(pairs))
  {
    FieldsRoundTrip(fields, ExtensionText(pairs));
    ExtensionRoundTrip(pairs);
  }

  /** The seventh field gives the severity back. */
  lemma SeverityRoundTrip(d: Device, e: Event)
    ensures ParseDecimal(HeaderFields(d, e)[6]) == e.severity
  {
    DecimalRoundTrip(e.severity);
    assert HeaderFields(d, e)[6] == FixedFields(d, e)[6];
  }

  // ------------------------------------------------------ one record, one line

  lemma {:induction false} MapCharsHas(f: char -> string, s: string, x: char)
    ensures x in MapChars(f, s) <==> exists c <- s :: x in f(c)
  {
    if s != "" { MapCharsHas(f, s[1..], x); }
  }

  lemma {:induction false} BarredNewline(fields: seq<string>)
    ensures NEWLINE in Barred(fields) <==> exists f <- fields :: NEWLINE in f
  {
    if fields != [] {
      BarredNewline(fields[1..]);
      MapCharsHas(HeaderChar, fields[0], NEWLINE);
      forall c | c in fields[0] ensures NEWLINE in HeaderChar(c) <==> c == NEWLINE {}
    }
  }

  lemma PairNewline(p: Pair)
    ensures NEWLINE in PairText(p) <==> NEWLINE in p.key
  {
    ValueOnePass(p.value);
    MapCharsHas(ValueChar, p.value, NEWLINE);
    forall c | c in p.value ensures NEWLINE !in ValueChar(c) {}
  }

  lemma {:induction false} ExtensionNewline(pairs: seq<Pair>)
    ensures NEWLINE in ExtensionText(pairs) <==> exists p <- pairs :: NEWLINE in p.key
  {
    if pairs != [] {
      TextShape(pairs);
      PairNewline(pairs[0]);
      if |pairs| > 1 { ExtensionNewline(pairs[1..]); }
    }
  }

  /**
   * Values never break a line, header fields can: a record takes exactly one line of the output
   * file when no header field (and no key) holds a newline, and more than one otherwise.
   */
  lemma OneLine(d: Device, e: Event)
    ensures NEWLINE in CefLine(d, e) <==>
            NEWLINE in SignatureOf(e) || NEWLINE in NameOf(e) || NEWLINE in e.classId
            || NEWLINE in d.vendor || NEWLINE in d.product || NEWLINE in d.version
            || exists p <- Kept(e.extension) :: NEWLINE in p.key
  {
    LineShape(d, e);
    BarredNewline(HeaderFields(d, e));
    FieldsNewline(d, e);
    ExtensionNewline(Kept(e.extension));
  }

  lemma FieldsNewline(d: Device, e: Event)
    ensures (exists f <- HeaderFields(d, e) :: NEWLINE in f) <==>
            NEWLINE in SignatureOf(e) || NEWLINE in NameOf(e) || NEWLINE in e.classId
            || NEWLINE in d.vendor || NEWLINE in d.product || NEWLINE in d.version
  {
    DigitsPlain(if e.severity < 0 then -e.severity else e.severity);
    assert NEWLINE !in PREFIX;
    var f := HeaderFields(d, e);
    assert f[1] == d.vendor && f[2] == d.product && f[3] == d.version;
    assert f[4] == SignatureOf(e) && f[5] == NameOf(e);
    if e.classId != "" { assert f[7] == e.classId; }
    if g :| g in f && NEWLINE in g {
      var i :| 0 <= i < |f| && f[i] == g;
      assert i < 7 ==> f[i] == FixedFields(d, e)[i];
    }
  }

  lemma ThotPlain()
    ensures NEWLINE !in THOT.vendor && NEWLINE !in THOT.product && NEWLINE !in THOT.version
  {
  }

  lemma NamesNewline(e: Event)
    ensures NEWLINE in SignatureOf(e) || NEWLINE in NameOf(e) <==> NEWLINE in e.signatureId || NEWLINE in e.name
  {
    assert NEWLINE !in "UNKNOWN" && NEWLINE !in "Evenement Thot Secure";
  }

  lemma PlainDeviceOneLine(d: Device, e: Event)
    requires NEWLINE !in d.vendor && NEWLINE !in d.product && NEWLINE !in d.version
    ensures NEWLINE in CefLine(d, e) <==>
            NEWLINE in e.signatureId || NEWLINE in e.name || NEWLINE in e.classId
            || exists p <- Kept(e.extension) :: NEWLINE in p.key
  {
    OneLine(d, e);
    NamesNewline(e);
  }

  /** With the forwarder's own device, an event takes one line unless its identifier, name, class or a key breaks it. */
  lemma OwnDeviceOneLine(e: Event)
    ensures NEWLINE in CefLine(THOT, e) <==>
            NEWLINE in e.signatureId || NEWLINE in e.name || NEWLINE in e.classId
            || exists p <- Kept(e.extension) :: NEWLINE in p.key
  {
    ThotPlain();
    PlainDeviceOneLine(THOT, e);
  }
}

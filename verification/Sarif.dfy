/** The aggregated SARIF report and the gate that reads the same findings. */
module Sarif {
  import opened Basics
  import opened FirstSeenOrder

  type Text = string

  /** A field the server left out is the empty text. */
  datatype Finding = Finding(id: Text, ruleId: Text, severity: Text, status: Text, score: real)

  /** A result the server produced, and whether it carries suppressions already. */
  datatype ServerResult = ServerResult(content: nat, suppressed: bool)

  /** What could be read of the server's own SARIF for a finding; nothing, when it was malformed. */
  datatype ServerSarif = ServerSarif(results: seq<ServerResult>, rules: seq<nat>)

  datatype Description = FromFinding(finding: Finding) | FromServer(rule: nat)

  datatype Rule = Rule(id: Text, description: Description)

  datatype Origin = Local | Server(content: nat)

  datatype Suppression = NotSuppressed | Kept | Added

  datatype Result = Result(finding: Finding, ruleId: Text, ruleIndex: nat, origin: Origin, suppression: Suppression)

  // --------------------------------------------------------------------- texts

  predicate IsSpace(c: char) {
    c == ' ' || '\t' <= c <= '\r' || '\U{1c}' <= c <= '\U{1f}'
  }

  function LowerChar(c: char): char {
    if 'A' <= c <= 'Z' then c + ('a' - 'A') else c
  }

  function Lower(s: Text): Text {
    seq(|s|, i requires 0 <= i < |s| => LowerChar(s[i]))
  }

  /** Lower-casing leaves no capital letter, moves capitals by the distance of the two alphabets, and nothing else. */
  lemma LowerSpec(s: Text, i: nat)
    requires i < |s|
    ensures |Lower(s)| == |s| && !('A' <= Lower(s)[i] <= 'Z')
    ensures 'A' <= s[i] <= 'Z' ==> Lower(s)[i] as int - 'a' as int == s[i] as int - 'A' as int
    ensures !('A' <= s[i] <= 'Z') ==> Lower(s)[i] == s[i]
  {
  }

  function Strip(s: Text): Text {
    if s == [] then []
    else if IsSpace(s[0]) then Strip(s[1..])
    else if IsSpace(s[|s| - 1]) then Strip(s[..|s| - 1])
    else s
  }

  lemma {:induction false} StripLower(s: Text)
    ensures Strip(Lower(s)) == Lower(Strip(s))
    decreases |s|
  {
    if s != [] {
      if IsSpace(s[0]) {
        assert Lower(s)[1..] == Lower(s[1..]);
        StripLower(s[1..]);
      } else if IsSpace(s[|s| - 1]) {
        assert Lower(s)[..|s| - 1] == Lower(s[..|s| - 1]);
        StripLower(s[..|s| - 1]);
      }
    }
  }

  // ------------------------------------------------------------------- the gate

  predicate NonBlocking(status: Text) {
    status == "acked" || status == "closed" || status == "suppressed"
  }

  function Normal(s: Text): Text {
    Lower(Strip(s))
  }

  /** The severities the gate fails on, as they were written on the command line. */
  predicate Listed(severity: Text, failOn: seq<Text>) {
    exists i :: 0 <= i < |failOn| && Normal(failOn[i]) == severity
  }

  predicate IsBlocking(f: Finding, failOn: seq<Text>) {
    !NonBlocking(Normal(f.status)) && Listed(Normal(f.severity), failOn)
  }

  /** A word has no space at either end. */
  predicate IsWord(w: Text) {
    w == [] || (!IsSpace(w[0]) && !IsSpace(w[|w| - 1]))
  }

  /** The text is the word, in any case and between any spaces. */
  ghost predicate Spells(s: Text, w: Text) {
    exists i, j :: 0 <= i <= j <= |s| && Blank(s[..i]) && Blank(s[j..]) && Lower(s[i..j]) == w
  }

  predicate Blank(s: Text) {
    forall i :: 0 <= i < |s| ==> IsSpace(s[i])
  }

  /** The word of s stands from i to j. */
  ghost predicate WordAt(s: Text, i: nat, j: nat, w: Text) {
    i <= j <= |s| && Blank(s[..i]) && Blank(s[j..]) && s[i..j] == w
  }

  lemma SpaceBefore(s: Text, i: nat, j: nat, w: Text)
    requires s != [] && IsSpace(s[0]) && WordAt(s[1..], i, j, w)
    ensures WordAt(s, i + 1, j + 1, w)
  {
    assert s[..i + 1] == [s[0]] + s[1..][..i];
    assert s[j + 1..] == s[1..][j..];
  }

  lemma SpaceBehind(s: Text, i: nat, j: nat, w: Text)
    requires s != [] && IsSpace(s[|s| - 1]) && WordAt(s[..|s| - 1], i, j, w)
    ensures WordAt(s, i, j, w)
  {
    var front := s[..|s| - 1];
    assert s[..i] == front[..i];
    assert s[j..] == front[j..] + [s[|s| - 1]];
  }

  lemma {:induction false} StripSpells(s: Text) returns (i: nat, j: nat)
    ensures WordAt(s, i, j, Strip(s)) && IsWord(Strip(s))
    decreases |s|
  {
    if s == [] {
      i, j := 0, 0;
    } else if IsSpace(s[0]) {
      i, j := StripSpells(s[1..]);
      SpaceBefore(s, i, j, Strip(s));
      i, j := i + 1, j + 1;
    } else if IsSpace(s[|s| - 1]) {
      i, j := StripSpells(s[..|s| - 1]);
      SpaceBehind(s, i, j, Strip(s));
    } else {
      i, j := 0, |s|;
      assert s[0..|s|] == s;
    }
  }

  /** Spaces around a word are what stripping takes away. */
  lemma {:induction false} StripBetween(a: Text, w: Text, b: Text)
    requires Blank(a) && Blank(b) && IsWord(w)
    ensures Strip(a + w + b) == w
    decreases |a| + |b|
  {
    var s := a + w + b;
    if a != [] {
      assert s[1..] == a[1..] + w + b;
      StripBetween(a[1..], w, b);
    } else if b != [] {
      if w == [] {
        assert s[1..] == [] + w + b[1..];
        StripBetween([], w, b[1..]);
      } else {
        assert s[..|s| - 1] == [] + w + b[..|b| - 1] && s[0] == w[0];
        StripBetween([], w, b[..|b| - 1]);
      }
    } else {
      assert s == w;
    }
  }

  lemma LowerWord(w: Text)
    ensures IsWord(Lower(w)) <==> IsWord(w)
  {
  }

  /** Normalising a text tells the word it spells. */
  lemma NormalSpells(s: Text, w: Text)
    ensures Normal(s) == w <==> IsWord(w) && Spells(s, w)
  {
    var i, j := StripSpells(s);
    LowerWord(Strip(s));
    if i', j' :| 0 <= i' <= j' <= |s| && Blank(s[..i']) && Blank(s[j'..]) && Lower(s[i'..j']) == w && IsWord(w) {
      LowerWord(s[i'..j']);
      assert s == s[..i'] + s[i'..j'] + s[j'..];
      StripBetween(s[..i'], s[i'..j'], s[j'..]);
    }
  }

  lemma NonBlockingIsWord(w: Text)
    requires NonBlocking(w)
    ensures IsWord(w)
  {
  }

  /** The status spells one of the reviewed ones. */
  ghost predicate Reviewed(status: Text) {
    exists w :: NonBlocking(w) && Spells(status, w)
  }

  /** The severity spells a word that one of those asked for spells too. */
  ghost predicate AskedFor(severity: Text, failOn: seq<Text>) {
    exists i, w :: 0 <= i < |failOn| && IsWord(w) && Spells(severity, w) && Spells(failOn[i], w)
  }

  lemma ReviewedIff(status: Text)
    ensures Reviewed(status) <==> NonBlocking(Normal(status))
  {
    NormalSpells(status, Normal(status));
    if w :| NonBlocking(w) && Spells(status, w) {
      NonBlockingIsWord(w);
      NormalSpells(status, w);
    }
  }

  lemma AskedForIff(severity: Text, failOn: seq<Text>)
    ensures AskedFor(severity, failOn) <==> Listed(Normal(severity), failOn)
  {
    var word := Normal(severity);
    NormalSpells(severity, word);
    if i :| 0 <= i < |failOn| && Normal(failOn[i]) == word {
      NormalSpells(failOn[i], word);
      assert IsWord(word) && Spells(severity, word) && Spells(failOn[i], word);
    }
    if i, w :| 0 <= i < |failOn| && IsWord(w) && Spells(severity, w) && Spells(failOn[i], w) {
      NormalSpells(severity, w);
      NormalSpells(failOn[i], w);
    }
  }

  /**
   * The gate in words: a finding blocks unless its status spells a reviewed one, when its severity and one of
   * those asked for spell the same word, whatever their case and the spaces around them.
   */
  lemma BlocksIff(f: Finding, failOn: seq<Text>)
    ensures IsBlocking(f, failOn) <==> !Reviewed(f.status) && AskedFor(f.severity, failOn)
  {
    ReviewedIff(f.status);
    AskedForIff(f.severity, failOn);
  }

  // ------------------------------------------------------- expected aggregation

  const UNKNOWN := "THOTSECURE-UNKNOWN"

  function RuleIdOf(f: Finding): Text {
    if f.ruleId == "" then UNKNOWN else f.ruleId
  }

  function RuleIds(fs: seq<Finding>): seq<Text> {
    seq(|fs|, i requires 0 <= i < |fs| => RuleIdOf(fs[i]))
  }

  function ReadSarif(server: map<Text, ServerSarif>, f: Finding): ServerSarif {
    if f.id in server then server[f.id] else ServerSarif([], [])
  }

  /** The server's first rule describes the rule when the server gave results, and the finding otherwise. */
  function Describe(server: map<Text, ServerSarif>, f: Finding): Description {
    var doc := ReadSarif(server, f);
    if doc.results != [] && doc.rules != [] then FromServer(doc.rules[0]) else FromFinding(f)
  }

  /** The server describes a rule only when it gave results and a rule; a finding's own identifier is never replaced. */
  lemma DescriptionIs(server: map<Text, ServerSarif>, f: Finding)
    ensures Describe(server, f) ==
              if f.id in server && server[f.id].results != [] && server[f.id].rules != []
              then FromServer(server[f.id].rules[0]) else FromFinding(f)
    ensures RuleIdOf(f) != "" && (f.ruleId != "" ==> RuleIdOf(f) == f.ruleId)
  {
    assert |UNKNOWN| > 0;
  }

  function LocalResult(f: Finding, index: nat): Result {
    var status := Normal(if f.status == "" then "open" else f.status);
    Result(f, RuleIdOf(f), index, Local, if NonBlocking(status) then Added else NotSuppressed)
  }

  function Adopted(f: Finding, index: nat, r: ServerResult): Result {
    Result(f, RuleIdOf(f), index, Server(r.content),
           if r.suppressed then Kept else if NonBlocking(Lower(f.status)) then Added else NotSuppressed)
  }

  /** The results of one finding: the server's, or one built here when it gave none. */
  function ResultsOf(server: map<Text, ServerSarif>, f: Finding, index: nat): (rs: seq<Result>)
    ensures |rs| >= 1
    ensures forall i :: 0 <= i < |rs| ==> rs[i].finding == f && rs[i].ruleId == RuleIdOf(f) && rs[i].ruleIndex == index
  {
    var doc := ReadSarif(server, f);
    if doc.results == [] then [LocalResult(f, index)]
    else seq(|doc.results|, i requires 0 <= i < |doc.results| => Adopted(f, index, doc.results[i]))
  }

  /** The server's results are taken over one for one, in order, with the suppressions they carry. */
  lemma TakenOver(server: map<Text, ServerSarif>, f: Finding, index: nat, i: nat)
    requires f.id in server && i < |server[f.id].results|
    ensures var rs, given := ResultsOf(server, f, index), server[f.id].results;
            && |rs| == |given| && rs[i].origin == Server(given[i].content)
            && (rs[i].suppression.Kept? <==> given[i].suppressed)
  {
  }

  lemma BuiltHere(server: map<Text, ServerSarif>, f: Finding, index: nat)
    requires f.id in server ==> server[f.id].results == []
    ensures var rs := ResultsOf(server, f, index);
            |rs| == 1 && rs[0].origin == Local && !rs[0].suppression.Kept?
  {
  }

  /** All the results, each pointing into the given order of rule identifiers. */
  function Located(server: map<Text, ServerSarif>, order: seq<Text>, fs: seq<Finding>): seq<Result> {
    if fs == [] then []
    else
      var f := fs[|fs| - 1];
      Located(server, order, fs[..|fs| - 1]) + ResultsOf(server, f, FirstAt(order, RuleIdOf(f)))
  }

  /** The rules are those of the findings, in order, each described by the first finding that names it. */
  ghost predicate RulesOf(server: map<Text, ServerSarif>, rules: seq<Rule>, fs: seq<Finding>) {
    Named(rules, FirstSeen(RuleIds(fs))) && AllDescribed(server, rules, fs)
  }

  ghost predicate Named(rules: seq<Rule>, order: seq<Text>) {
    |rules| == |order| && forall i :: 0 <= i < |rules| ==> rules[i].id == order[i]
  }

  ghost predicate AllDescribed(server: map<Text, ServerSarif>, rules: seq<Rule>, fs: seq<Finding>) {
    forall i :: 0 <= i < |rules| ==> DescribedByFirst(server, rules[i], fs)
  }

  ghost predicate DescribedByFirst(server: map<Text, ServerSarif>, rule: Rule, fs: seq<Finding>) {
    var first := FirstAt(RuleIds(fs), rule.id);
    first < |fs| && rule.description == Describe(server, fs[first])
  }

  /** The dictionary of indices agrees with the list of rules. */
  ghost predicate Indexed(rules: seq<Rule>, index: map<Text, nat>) {
    && (forall id :: id in index ==> index[id] < |rules| && rules[index[id]].id == id)
    && (forall i :: 0 <= i < |rules| ==> rules[i].id in index)
  }

  // -------------------------------------------------------------- its progress

  lemma OrderStep(seen: seq<Finding>, f: Finding)
    ensures var order := FirstSeen(RuleIds(seen));
            FirstSeen(RuleIds(seen + [f])) == if RuleIdOf(f) in order then order else order + [RuleIdOf(f)]
  {
    var ids := RuleIds(seen + [f]);
    assert ids[..|ids| - 1] == RuleIds(seen);
  }

  lemma DescribedStep(server: map<Text, ServerSarif>, rule: Rule, seen: seq<Finding>, f: Finding)
    requires DescribedByFirst(server, rule, seen)
    ensures DescribedByFirst(server, rule, seen + [f])
  {
    assert RuleIds(seen + [f]) == RuleIds(seen) + [RuleIdOf(f)];
    FirstAtSpec(RuleIds(seen), rule.id);
    FirstAtAppend(RuleIds(seen), RuleIdOf(f), rule.id);
  }

  lemma NewRuleDescribed(server: map<Text, ServerSarif>, seen: seq<Finding>, f: Finding)
    requires RuleIdOf(f) !in RuleIds(seen)
    ensures DescribedByFirst(server, Rule(RuleIdOf(f), Describe(server, f)), seen + [f])
  {
    assert RuleIds(seen + [f]) == RuleIds(seen) + [RuleIdOf(f)];
    FirstAtAppend(RuleIds(seen), RuleIdOf(f), RuleIdOf(f));
  }

  lemma InOrder(fs: seq<Finding>, id: Text)
    ensures id in FirstSeen(RuleIds(fs)) <==> id in RuleIds(fs)
  {
    FirstSeenSpec(RuleIds(fs));
  }

  lemma KnownDescribed(server: map<Text, ServerSarif>, known: seq<Rule>, seen: seq<Finding>, f: Finding)
    requires AllDescribed(server, known, seen)
    ensures AllDescribed(server, known, seen + [f])
  {
    forall i | 0 <= i < |known| ensures DescribedByFirst(server, known[i], seen + [f]) {
      DescribedStep(server, known[i], seen, f);
    }
  }

  lemma OneMoreDescribed(server: map<Text, ServerSarif>, known: seq<Rule>, rule: Rule, fs: seq<Finding>)
    requires AllDescribed(server, known, fs) && DescribedByFirst(server, rule, fs)
    ensures AllDescribed(server, known + [rule], fs)
  {
    forall i | 0 <= i < |known + [rule]| ensures DescribedByFirst(server, (known + [rule])[i], fs) {
      if i < |known| { assert DescribedByFirst(server, known[i], fs); }
    }
  }

  lemma RulesStep(server: map<Text, ServerSarif>, known: seq<Rule>, rules: seq<Rule>, seen: seq<Finding>, f: Finding)
    requires RulesOf(server, known, seen)
    requires rules == if RuleIdOf(f) in FirstSeen(RuleIds(seen)) then known
                      else known + [Rule(RuleIdOf(f), Describe(server, f))]
    ensures RulesOf(server, rules, seen + [f])
  {
    OrderStep(seen, f);
    InOrder(seen, RuleIdOf(f));
    KnownDescribed(server, known, seen, f);
    if RuleIdOf(f) !in FirstSeen(RuleIds(seen)) {
      NewRuleDescribed(server, seen, f);
      OneMoreDescribed(server, known, Rule(RuleIdOf(f), Describe(server, f)), seen + [f]);
    }
  }

  lemma KnownIds(server: map<Text, ServerSarif>, known: seq<Rule>, index: map<Text, nat>, seen: seq<Finding>, id: Text)
    requires RulesOf(server, known, seen) && Indexed(known, index)
    ensures id in index <==> id in FirstSeen(RuleIds(seen))
  {
    if id in FirstSeen(RuleIds(seen)) {
      var k :| 0 <= k < |known| && FirstSeen(RuleIds(seen))[k] == id;
      assert known[k].id == id;
    }
  }

  lemma {:induction false} LocatedStable(server: map<Text, ServerSarif>, order: seq<Text>, y: Text, fs: seq<Finding>)
    requires forall i :: 0 <= i < |fs| ==> RuleIdOf(fs[i]) in order
    ensures Located(server, order + [y], fs) == Located(server, order, fs)
  {
    if fs != [] {
      LocatedStable(server, order, y, fs[..|fs| - 1]);
      FirstAtAppend(order, y, RuleIdOf(fs[|fs| - 1]));
    }
  }

  lemma PositionInOrder(ids: seq<Text>, i: nat)
    requires i < |FirstSeen(ids)|
    ensures FirstAt(FirstSeen(ids), FirstSeen(ids)[i]) == i
  {
    FirstSeenDistinct(ids);
    FirstAtSpec(FirstSeen(ids), FirstSeen(ids)[i]);
  }

  lemma ResultsStep(server: map<Text, ServerSarif>, seen: seq<Finding>, f: Finding, i: nat)
    requires var order := FirstSeen(RuleIds(seen + [f])); i < |order| && order[i] == RuleIdOf(f)
    ensures Located(server, FirstSeen(RuleIds(seen + [f])), seen + [f])
            == Located(server, FirstSeen(RuleIds(seen)), seen) + ResultsOf(server, f, i)
  {
    var order := FirstSeen(RuleIds(seen));
    OrderStep(seen, f);
    PositionInOrder(RuleIds(seen + [f]), i);
    assert (seen + [f])[..|seen|] == seen;
    forall k | 0 <= k < |seen| ensures RuleIdOf(seen[k]) in order {
      assert RuleIds(seen)[k] == RuleIdOf(seen[k]);
      InOrder(seen, RuleIdOf(seen[k]));
    }
    LocatedStable(server, order, RuleIdOf(f), seen);
  }

  // ------------------------------------------------------------------- the code

  method EnsureRule(rules: seq<Rule>, index: map<Text, nat>, f: Finding, fallback: seq<nat>)
    returns (rules': seq<Rule>, index': map<Text, nat>, i: nat)
    requires Indexed(rules, index) && |fallback| <= 1
    ensures Indexed(rules', index') && RuleIdOf(f) in index' && index'[RuleIdOf(f)] == i
    ensures RuleIdOf(f) in index ==> rules' == rules && index' == index && i == index[RuleIdOf(f)]
    ensures RuleIdOf(f) !in index ==>
              rules' == rules + [Rule(RuleIdOf(f), if fallback == [] then FromFinding(f) else FromServer(fallback[0]))]
  {
    var id := RuleIdOf(f);
    if id in index { return rules, index, index[id]; }
    var rule := Rule(id, if fallback == [] then FromFinding(f) else FromServer(fallback[0]));
    i := |rules|;
    rules', index' := rules + [rule], index[id := i];
  }

  /** The results of one finding, which all point at the finding's own rule. */
  method AddFinding(rules: seq<Rule>, index: map<Text, nat>, f: Finding, server: map<Text, ServerSarif>)
    returns (rules': seq<Rule>, index': map<Text, nat>, i: nat, added: seq<Result>)
    requires Indexed(rules, index)
    ensures Indexed(rules', index') && i < |rules'| && rules'[i].id == RuleIdOf(f)
    ensures rules' == if RuleIdOf(f) in index then rules else rules + [Rule(RuleIdOf(f), Describe(server, f))]
    ensures added == ResultsOf(server, f, i)
  {
    var doc := ReadSarif(server, f);
    if doc.results == [] {
      rules', index', i := EnsureRule(rules, index, f, []);
      return rules', index', i, [LocalResult(f, i)];
    }
    rules', index', i := EnsureRule(rules, index, f, if |doc.rules| > 0 then [doc.rules[0]] else []);
    added := [Adopted(f, i, doc.results[0])];
    ghost var first, firstIndex := rules', index';
    for position := 1 to |doc.results|
      invariant rules' == first && index' == firstIndex && i == index'[RuleIdOf(f)]
      invariant added == ResultsOf(server, f, i)[..position]
    {
      var fallback := if position < |doc.rules| then [doc.rules[position]] else [];
      rules', index', i := EnsureRule(rules', index', f, fallback);
      added := added + [Adopted(f, i, doc.results[position])];
    }
  }

  /** The three local variables of the aggregation, after some findings. */
  ghost predicate Progress(server: map<Text, ServerSarif>, rules: seq<Rule>, index: map<Text, nat>,
                           results: seq<Result>, seen: seq<Finding>)
  {
    && Indexed(rules, index)
    && RulesOf(server, rules, seen)
    && results == Located(server, FirstSeen(RuleIds(seen)), seen)
  }

  method Aggregate(rules: seq<Rule>, index: map<Text, nat>, results: seq<Result>, f: Finding,
                   server: map<Text, ServerSarif>, ghost seen: seq<Finding>)
    returns (rules': seq<Rule>, index': map<Text, nat>, results': seq<Result>)
    requires Progress(server, rules, index, results, seen)
    ensures Progress(server, rules', index', results', seen + [f])
  {
    KnownIds(server, rules, index, seen, RuleIdOf(f));
    var i, added;
    rules', index', i, added := AddFinding(rules, index, f, server);
    RulesStep(server, rules, rules', seen, f);
    ResultsStep(server, seen, f, i);
    results' := results + added;
  }

  lemma TakeOneMore(fs: seq<Finding>, n: nat)
    requires n < |fs|
    ensures fs[..n + 1] == fs[..n] + [fs[n]]
  {
  }

  method BuildSarif(findings: seq<Finding>, server: map<Text, ServerSarif>)
    returns (rules: seq<Rule>, results: seq<Result>)
    ensures RulesOf(server, rules, findings)
    ensures results == Located(server, FirstSeen(RuleIds(findings)), findings)
  {
    rules, results := [], [];
    var index: map<Text, nat> := map[];
    ghost var seen: seq<Finding> := [];
    for n := 0 to |findings|
      invariant seen == findings[..n] && Progress(server, rules, index, results, seen)
    {
      rules, index, results := Aggregate(rules, index, results, findings[n], server, seen);
      TakeOneMore(findings, n);
      seen := seen + [findings[n]];
    }
    assert seen == findings;
  }

  // --------------------------------------------------------- what the report says

  /** Results of the first findings, then of one finding, then of the others. */
  lemma {:induction false} LocatedSplit(server: map<Text, ServerSarif>, order: seq<Text>, fs: seq<Finding>, n: nat)
    requires n < |fs|
    ensures Located(server, order, fs[..n]) + ResultsOf(server, fs[n], FirstAt(order, RuleIdOf(fs[n])))
            <= Located(server, order, fs)
    decreases |fs|
  {
    var front := fs[..|fs| - 1];
    if n < |fs| - 1 {
      assert front[..n] == fs[..n];
      LocatedSplit(server, order, front, n);
    } else {
      assert front == fs[..n];
    }
  }

  /** No finding is lost: it has a result, after those of the findings before it, that points at its own rule. */
  lemma EveryFindingReported(server: map<Text, ServerSarif>, fs: seq<Finding>, n: nat)
    requires n < |fs|
    ensures var order := FirstSeen(RuleIds(fs));
            var before, results := |Located(server, order, fs[..n])|, Located(server, order, fs);
            && before < |results|
            && results[before].finding == fs[n]
            && results[before].ruleIndex < |order|
            && order[results[before].ruleIndex] == results[before].ruleId == RuleIdOf(fs[n])
  {
    var order := FirstSeen(RuleIds(fs));
    LocatedSplit(server, order, fs, n);
    assert RuleIds(fs)[n] == RuleIdOf(fs[n]);
    InOrder(fs, RuleIdOf(fs[n]));
    FirstAtSpec(order, RuleIdOf(fs[n]));
  }

  /** Whatever the report suppresses of its own accord, the gate does not count as blocking. */
  ghost predicate Fair(r: Result, order: seq<Text>) {
    && r.ruleIndex < |order| && order[r.ruleIndex] == r.ruleId
    && (r.suppression.Added? ==> forall failOn :: !IsBlocking(r.finding, failOn))
    && (r.origin.Local? ==> (r.suppression.Added? <==> NonBlocking(Normal(r.finding.status))))
  }

  lemma LocalFair(f: Finding, order: seq<Text>)
    requires RuleIdOf(f) in order
    ensures Fair(LocalResult(f, FirstAt(order, RuleIdOf(f))), order)
  {
    FirstAtSpec(order, RuleIdOf(f));
    if f.status == "" { OpenIsNormal(); }
  }

  lemma OpenIsNormal()
    ensures !NonBlocking(Normal("open"))
  {
    assert Lower("open")[0] == 'o';
  }

  lemma NonBlockingStripped(status: Text)
    requires NonBlocking(status)
    ensures Strip(status) == status
  {
  }

  lemma AdoptedFair(f: Finding, order: seq<Text>, r: ServerResult)
    requires RuleIdOf(f) in order
    ensures Fair(Adopted(f, FirstAt(order, RuleIdOf(f)), r), order)
  {
    FirstAtSpec(order, RuleIdOf(f));
    StripLower(f.status);
    if NonBlocking(Lower(f.status)) { NonBlockingStripped(Lower(f.status)); }
  }

  lemma {:induction false} ReportFair(server: map<Text, ServerSarif>, order: seq<Text>, fs: seq<Finding>)
    requires forall i :: 0 <= i < |fs| ==> RuleIdOf(fs[i]) in order
    ensures forall i :: 0 <= i < |Located(server, order, fs)| ==> Fair(Located(server, order, fs)[i], order)
  {
    if fs != [] {
      var f := fs[|fs| - 1];
      ReportFair(server, order, fs[..|fs| - 1]);
      var rs := ResultsOf(server, f, FirstAt(order, RuleIdOf(f)));
      forall i | 0 <= i < |rs| ensures Fair(rs[i], order) {
        var doc := ReadSarif(server, f);
        if doc.results == [] { LocalFair(f, order); } else { AdoptedFair(f, order, doc.results[i]); }
      }
    }
  }

  /** Every result points at the rule it names, and none is suppressed that the gate holds against. */
  lemma ReportSound(server: map<Text, ServerSarif>, fs: seq<Finding>)
    ensures var order := FirstSeen(RuleIds(fs));
            var results := Located(server, order, fs);
            forall i :: 0 <= i < |results| ==> Fair(results[i], order)
  {
    forall i | 0 <= i < |fs| ensures RuleIdOf(fs[i]) in FirstSeen(RuleIds(fs)) {
      assert RuleIds(fs)[i] == RuleIdOf(fs[i]);
      InOrder(fs, RuleIdOf(fs[i]));
    }
    ReportFair(server, FirstSeen(RuleIds(fs)), fs);
  }

  /**
   * A result taken from the server is suppressed exactly when the gate sees a reviewed finding,
   * unless spaces surround the status: the gate strips them, this branch does not.
   */
  lemma AdoptedSuppressionIff(f: Finding, index: nat, r: ServerResult)
    requires !r.suppressed
    ensures (Adopted(f, index, r).suppression.Added? <==> NonBlocking(Normal(f.status)))
            <==> (Strip(f.status) == f.status || !NonBlocking(Normal(f.status)))
  {
    StripLower(f.status);
    if NonBlocking(Lower(f.status)) {
      NonBlockingStripped(Lower(f.status));
      StripShorter(f.status);
    }
  }

  lemma {:induction false} StripShorter(s: Text)
    ensures |Strip(s)| <= |s|
    ensures |Strip(s)| == |s| ==> Strip(s) == s
    decreases |s|
  {
    if s != [] {
      if IsSpace(s[0]) { StripShorter(s[1..]); }
      else if IsSpace(s[|s| - 1]) { StripShorter(s[..|s| - 1]); }
    }
  }

  // ---------------------------------------------------------- the gate's verdict

  function Blocking(fs: seq<Finding>, failOn: seq<Text>): seq<Finding> {
    if fs == [] then []
    else Blocking(fs[..|fs| - 1], failOn) + if IsBlocking(fs[|fs| - 1], failOn) then [fs[|fs| - 1]] else []
  }

  function SeverityOf(f: Finding): Text {
    Normal(if f.severity == "" then NO_SEVERITY else f.severity)
  }

  function OfSeverity(fs: seq<Finding>, severity: Text): nat {
    if fs == [] then 0
    else OfSeverity(fs[..|fs| - 1], severity) + if SeverityOf(fs[|fs| - 1]) == severity then 1 else 0
  }

  /** The findings with one score, in order. */
  function OfScore(fs: seq<Finding>, score: real): seq<Finding> {
    if fs == [] then [] else (if fs[0].score == score then [fs[0]] else []) + OfScore(fs[1..], score)
  }

  ghost predicate Descending(fs: seq<Finding>) {
    forall i, j :: 0 <= i < j < |fs| ==> fs[i].score >= fs[j].score
  }

  /** A stable sort by falling score. */
  function Ranked(fs: seq<Finding>): seq<Finding> {
    if fs == [] then [] else Insert(fs[0], Ranked(fs[1..]))
  }

  function Insert(f: Finding, sorted: seq<Finding>): seq<Finding> {
    if sorted == [] || f.score >= sorted[0].score then [f] + sorted else [sorted[0]] + Insert(f, sorted[1..])
  }

  lemma {:induction false} InsertSpec(f: Finding, sorted: seq<Finding>, score: real)
    requires Descending(sorted)
    ensures Descending(Insert(f, sorted))
    ensures forall g <- Insert(f, sorted) :: g == f || g in sorted
    ensures OfScore(Insert(f, sorted), score) == (if f.score == score then [f] else []) + OfScore(sorted, score)
  {
    if sorted == [] || f.score >= sorted[0].score {
      assert ([f] + sorted)[1..] == sorted;
    } else {
      InsertSpec(f, sorted[1..], score);
      var rest := Insert(f, sorted[1..]);
      assert ([sorted[0]] + rest)[1..] == rest;
      forall i | 0 <= i < |rest| ensures rest[i].score <= sorted[0].score {
        assert rest[i] in rest;
      }
    }
  }

  /** Highest score first, and findings of one score in the order they came: nothing lost, nothing added. */
  lemma {:induction false} RankedSpec(fs: seq<Finding>, score: real)
    ensures Descending(Ranked(fs))
    ensures OfScore(Ranked(fs), score) == OfScore(fs, score)
  {
    if fs != [] {
      RankedSpec(fs[1..], score);
      InsertSpec(fs[0], Ranked(fs[1..]), score);
    }
  }

  /** Where in the list a severity stands. */
  function Places(fs: seq<Finding>, severity: Text): set<nat> {
    set i: nat | i < |fs| && SeverityOf(fs[i]) == severity
  }

  lemma PlacesStep(fs: seq<Finding>, severity: Text)
    requires fs != []
    ensures var n := |fs| - 1;
            Places(fs, severity) == Places(fs[..n], severity) + if SeverityOf(fs[n]) == severity then {n} else {}
  {
  }

  /** Each severity is counted as often as it stands in the list. */
  lemma {:induction false} OfSeverityCounts(fs: seq<Finding>, severity: Text)
    ensures OfSeverity(fs, severity) == |Places(fs, severity)|
  {
    if fs != [] {
      var n := |fs| - 1;
      OfSeverityCounts(fs[..n], severity);
      PlacesStep(fs, severity);
      assert n !in Places(fs[..n], severity);
    }
  }

  const NO_SEVERITY := "inconnue"

  /** A finding counts under the word its severity spells, or under a word of its own when it has none. */
  lemma SeverityWord(f: Finding, w: Text)
    ensures f.severity != "" ==> (SeverityOf(f) == w <==> IsWord(w) && Spells(f.severity, w))
    ensures f.severity == "" ==> SeverityOf(f) == Normal(NO_SEVERITY)
  {
    if f.severity != "" { NormalSpells(f.severity, w); }
  }

  /** Blocking findings are kept, each as often as it stands in the list, and no others. */
  lemma {:induction false} BlockingAre(fs: seq<Finding>, failOn: seq<Text>, f: Finding)
    ensures multiset(Blocking(fs, failOn))[f] == if IsBlocking(f, failOn) then multiset(fs)[f] else 0
  {
    if fs != [] {
      var front, last := fs[..|fs| - 1], fs[|fs| - 1];
      BlockingAre(front, failOn, f);
      assert fs == front + [last];
    }
  }

  /** And they keep their order. */
  lemma {:induction false} BlockingInOrder(a: seq<Finding>, b: seq<Finding>, failOn: seq<Text>)
    ensures Blocking(a + b, failOn) == Blocking(a, failOn) + Blocking(b, failOn)
    decreases |b|
  {
    if b == [] {
      assert a + b == a && Blocking(a, failOn) + [] == Blocking(a, failOn);
    } else {
      var n := |b| - 1;
      assert (a + b)[..|a + b| - 1] == a + b[..n];
      BlockingInOrder(a, b[..n], failOn);
      Associate(Blocking(a, failOn), Blocking(b[..n], failOn), if IsBlocking(b[n], failOn) then [b[n]] else []);
    }
  }

  function CountOf(counts: map<Text, nat>, severity: Text): nat {
    if severity in counts then counts[severity] else 0
  }

  method EvaluateGate(fs: seq<Finding>, failOn: seq<Text>) returns (blocking: seq<Finding>, counts: map<Text, nat>)
    ensures blocking == Ranked(Blocking(fs, failOn))
    ensures forall severity {:trigger CountOf(counts, severity)} ::
              CountOf(counts, severity) == OfSeverity(fs, severity)
  {
    blocking, counts := [], map[];
    for n := 0 to |fs|
      invariant blocking == Blocking(fs[..n], failOn)
      invariant forall severity {:trigger CountOf(counts, severity)} ::
                  CountOf(counts, severity) == OfSeverity(fs[..n], severity)
    {
      assert fs[..n + 1][..n] == fs[..n];
      var severity, before := SeverityOf(fs[n]), counts;
      counts := counts[severity := CountOf(counts, severity) + 1];
      forall other ensures CountOf(counts, other) == OfSeverity(fs[..n + 1], other) {
        assert CountOf(before, other) == OfSeverity(fs[..n], other);
      }
      if IsBlocking(fs[n], failOn) { blocking := blocking + [fs[n]]; }
    }
    assert fs[..|fs|] == fs;
    blocking := Ranked(blocking);
  }

  /** The gate holds the pipeline back exactly when one of the findings blocks. */
  lemma {:induction false} VerdictIff(fs: seq<Finding>, failOn: seq<Text>)
    ensures Ranked(Blocking(fs, failOn)) != [] <==> exists i :: 0 <= i < |fs| && IsBlocking(fs[i], failOn)
    ensures Ranked(Blocking(fs, failOn)) != [] <==>
            exists i :: 0 <= i < |fs| && !Reviewed(fs[i].status) && AskedFor(fs[i].severity, failOn)
  {
    BlockingIff(fs, failOn);
    forall i | 0 <= i < |fs|
      ensures IsBlocking(fs[i], failOn) <==> !Reviewed(fs[i].status) && AskedFor(fs[i].severity, failOn)
    {
      BlocksIff(fs[i], failOn);
    }
    var blocking := Blocking(fs, failOn);
    if blocking != [] { RankedSpec(blocking, blocking[0].score); }
  }

  lemma {:induction false} BlockingIff(fs: seq<Finding>, failOn: seq<Text>)
    ensures Blocking(fs, failOn) != [] <==> exists i :: 0 <= i < |fs| && IsBlocking(fs[i], failOn)
  {
    if fs != [] {
      var front := fs[..|fs| - 1];
      BlockingIff(front, failOn);
      if i :| 0 <= i < |fs| && IsBlocking(fs[i], failOn) {
        assert i < |front| ==> front[i] == fs[i];
      }
    }
  }
}

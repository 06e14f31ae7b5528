/** When the verdict of the whole robots engine is the one that RFC 9309 asks for. */
module RobotsStandard {
  import opened Octets
  import opened Text
  import opened RobotsParser
  import opened RobotsParserLaws
  import opened RobotsRoundTrip
  import opened RobotsDecision
  import opened RobotsGrammar
  import C = Canonical
  import M = Matcher
  import ML = MatcherLaws
  import RobotsLaws

  // ---- the verdict of the standard

  ghost predicate RfcApplies(groups: seq<Group>, token: string, path: seq<Byte>, r: Rule) {
    InForce(groups, token, r) && M.RfcMatches(r.normalized, path)
  }

  ghost predicate RfcOutranksAll(groups: seq<Group>, token: string, path: seq<Byte>, a: Rule) {
    && a.directive == Allow && RfcApplies(groups, token, path, a)
    && forall d: Rule ::
         d.directive == Disallow && RfcApplies(groups, token, path, d) ==> d.specificity <= a.specificity
  }

  /** RFC 9309, section 2.2.2: the match with the most octets decides, and allow wins a tie. The octets of a match are
    * read as those that its pattern fixes, so neither `*` nor a final `$` counts. */
  ghost predicate RfcPermitted(groups: seq<Group>, token: string, path: seq<Byte>) {
    || (forall r :: !RfcApplies(groups, token, path, r))
    || exists a :: RfcOutranksAll(groups, token, path, a)
  }

  /** A parsed URL's path begins with a slash, holds no `?`, and like the query it holds no octet that is encoded. */
  predicate RealUrl(url: Url) {
    && url.path != [] && url.path[0] == SLASH && QUESTION !in url.path
    && forall b | b in FullPath(url) :: !NeverRaw(b)
  }

  lemma {:induction false} LiteralsComeFrom(s: seq<Byte>)
    ensures forall u | u in C.Units(s, C.Target) && u.Literal? :: u.octet in s || IsUnreserved(u.octet)
    decreases |s|
  {
    if s != [] {
      var n := if TripleAt(s, 0).Some? then 3 else 1;
      LiteralsComeFrom(s[n..]);
      assert C.Units(s, C.Target) == [C.Units(s, C.Target)[0]] + C.Units(s[n..], C.Target);
    }
  }

  /** The target of a real URL is a real target. */
  lemma RealUrlsGiveRealTargets(url: Url)
    requires RealUrl(url)
    ensures ML.RealTarget(TargetPath(url))
  {
    var path := FullPath(url);
    assert path[0] == SLASH;
    LiteralsComeFrom(path);
    C.UnitsAreGood(path, C.Target);
    var us := C.Units(path, C.Target);
    assert us[0] == C.Literal(SLASH);
    ML.RealUnitsAreReal(us);
  }

  /** `/%72` in place of `/r` is another spelling of the same target. */
  lemma RespeltIsEqual(rest: seq<Byte>)
    ensures C.Normalized([SLASH, PERCENT, 55, 50] + rest, C.Target) == C.Normalized([SLASH, 114] + rest, C.Target)
  {
    var s, t := [SLASH, PERCENT, 55, 50] + rest, [SLASH, 114] + rest;
    assert s[1..][3..] == rest && t[1..][1..] == rest;
    assert HexValue(55) == Some(7) && HexValue(50) == Some(2);
    assert TripleAt(s[1..], 0) == Some(114) && TripleAt(t[1..], 0).None?;
    assert C.Units(s[1..], C.Target) == [C.Literal(114)] + C.Units(rest, C.Target);
    assert C.Units(t[1..], C.Target) == [C.Literal(114)] + C.Units(rest, C.Target);
    assert TripleAt(s, 0).None? && TripleAt(t, 0).None?;
  }

  /** The URL whose path and query make up a target. */
  function CutAtQuestion(t: seq<Byte>): (url: Url)
    requires t != [] && t[0] == SLASH
    ensures FullPath(url) == t && QUESTION !in url.path && url.path != [] && url.path[0] == SLASH
  {
    var i := Find(t, QUESTION);
    if i == |t| then Url(t, None)
    else
      assert t == t[..i] + [QUESTION] + t[i + 1..];
      Url(t[..i], Some(t[i + 1..]))
  }

  /** The robots file under another spelling of its name. */
  function Respelt(url: Url): Url
    requires |url.path| >= 2
  {
    Url([SLASH, PERCENT, 55, 50] + url.path[2..], url.query)
  }

  lemma RespeltIsReal(url: Url, t: seq<Byte>)
    requires url.path == ROBOTS_TXT && FullPath(url) == t && forall b | b in t :: !NeverRaw(b)
    ensures FullPath(Respelt(url)) == [SLASH, PERCENT, 55, 50] + t[2..] && t == [SLASH, 114] + t[2..]
    ensures RealUrl(Respelt(url)) && Respelt(url).path != ROBOTS_TXT
  {
    var r := Respelt(url);
    assert t[0] == SLASH && t[1] == 114;
    assert FullPath(r) == [SLASH, PERCENT, 55, 50] + t[2..];
    assert r.path[1] == PERCENT;
    forall b | b in r.path
      ensures b != QUESTION
    {
    }
    forall b | b in FullPath(r)
      ensures !NeverRaw(b)
    {
      if b in t[2..] {
        assert b in t;
      }
    }
  }

  /** Every real target is the target of a real URL that the rules are asked about. */
  lemma RealTargetsAreReached(t: seq<Byte>) returns (url: Url)
    requires ML.RealTarget(t)
    ensures RealUrl(url) && url.path != ROBOTS_TXT && TargetPath(url) == t
  {
    hide C.Normalized;
    C.CanonicalIffFixed(t, C.Target);
    url := CutAtQuestion(t);
    if url.path == ROBOTS_TXT {
      RespeltIsReal(url, t);
      RespeltIsEqual(t[2..]);
      url := Respelt(url);
    }
  }

  /** What a file's author can check: a pattern that ends in `$` has no `*` in it, or matches no real target anyway. */
  predicate SafePattern(p: seq<Byte>) { C.EndAnchored(p) ==> ML.SafeBody(M.Body(p)) }

  lemma SafePatternAgrees(p: seq<Byte>, t: seq<Byte>)
    requires SafePattern(p) && C.IsCanonical(p, C.Pattern) && ML.RealTarget(t)
    ensures M.CodeMatches(p, t) <==> M.RfcMatches(p, t)
  {
    if C.EndAnchored(p) {
      ML.AnchoredBodyIsCanonical(p);
      ML.AnchoredSafe(M.Body(p), t);
    } else {
      ML.UnanchoredIsRfc(p, t);
    }
  }

  // ---- the groups of the standard

  /** The groups of the grammar, with the rules that restrict anything. */
  function StandardGroups(text: string): seq<Group> { Standard(GrammarGroups(text)) }

  function Standard(gs: seq<SourceGroup>): seq<Group> {
    seq(|gs|, i requires 0 <= i < |gs| => Group(i, gs[i].agents, BuiltRules(Kept(gs[i].rules)), []))
  }

  /** A product token that the evaluator accepts. */
  predicate ValidToken(token: string) { 1 <= |token| <= 64 && forall c | c in token :: AgentChar(c) }

  predicate ValidAgents(gs: seq<SourceGroup>) {
    forall g, a | g in gs && a in g.agents :: ValidAgent(a)
  }

  lemma SaidAgentIsValid(text: string)
    ensures Said(text).Agent? ==> ValidAgent(Said(text).agent)
  {
  }

  lemma ReadKeepsValid(gs: seq<SourceGroup>, line: Line)
    requires ValidAgents(gs) && (line.Agent? ==> ValidAgent(line.agent))
    ensures ValidAgents(Read(gs, line))
  {
  }

  lemma {:induction false} GrammarAgentsAreValid(lines: seq<string>, n: nat)
    requires n <= |lines|
    ensures ValidAgents(ReadAll(lines, n))
  {
    hide Said, Read;
    if n > 0 {
      GrammarAgentsAreValid(lines, n - 1);
      SaidAgentIsValid(WithoutMark(lines[n - 1], n == 1));
      ReadKeepsValid(ReadAll(lines, n - 1), Said(WithoutMark(lines[n - 1], n == 1)));
    }
  }

  predicate Ascii(s: string) { forall i | 0 <= i < |s| :: s[i] as int < 0x80 }

  lemma {:induction false} AsciiLength(s: string)
    requires Ascii(s)
    ensures ByteLength(s) == |s|
  {
    if s != "" {
      AsciiLength(s[1..]);
    }
  }

  lemma {:induction false} BoundOfLong(s: string, max: nat)
    requires Ascii(s) && |s| >= max
    ensures |Bound(s, max)| == max
    decreases |s|
  {
    AsciiLength(s);
    if |s| > max {
      BoundOfLong(s[..|s| - 1], max);
    }
  }

  /** Cutting an agent to its report length never makes it a token. */
  lemma BoundAgent(a: string, token: string)
    requires ValidAgent(a) && ValidToken(token)
    ensures Lower(Bound(a, MAX_AGENT_BYTES)) == Lower(token) <==> Lower(a) == Lower(token)
    ensures Bound(a, MAX_AGENT_BYTES) == "*" <==> a == "*"
  {
    assert forall i | 0 <= i < |a| :: a[i] in a;
    AsciiLength(a);
    if |a| > MAX_AGENT_BYTES {
      BoundOfLong(a, MAX_AGENT_BYTES);
      assert |Lower(Bound(a, MAX_AGENT_BYTES))| == MAX_AGENT_BYTES;
      assert |Lower(a)| == |a| && |Lower(token)| == |token|;
    }
  }

  lemma SameNames(g: Group, h: Group, agents: seq<string>, token: string)
    requires g.userAgents == BuiltAgents(agents) && h.userAgents == agents
    requires (forall a | a in agents :: ValidAgent(a)) && ValidToken(token)
    ensures NamesToken(g, token) <==> NamesToken(h, token)
    ensures NamesAll(g) <==> NamesAll(h)
  {
    hide Bound, Lower;
    forall i | 0 <= i < |agents|
      ensures Lower(g.userAgents[i]) == Lower(token) <==> Lower(h.userAgents[i]) == Lower(token)
      ensures g.userAgents[i] == "*" <==> h.userAgents[i] == "*"
    {
      BoundAgent(agents[i], token);
    }
    if NamesToken(h, token) {
      var i :| 0 <= i < |agents| && Lower(h.userAgents[i]) == Lower(token);
      assert g.userAgents[i] in g.userAgents;
    }
    if NamesAll(h) {
      var i :| 0 <= i < |agents| && h.userAgents[i] == "*";
      assert g.userAgents[i] in g.userAgents;
    }
  }

  /** Groups that describe the same agents and rules put the same rules in force. */
  lemma SameInForce(groups: seq<Group>, gs: seq<SourceGroup>, token: string, r: Rule)
    requires SameGroups(groups, AllWithoutEmpty(gs)) && ValidAgents(gs) && ValidToken(token)
    ensures InForce(groups, token, r) <==> InForce(Standard(gs), token, r)
  {
    hide NamesToken, NamesAll;
    var hs := Standard(gs);
    forall i | 0 <= i < |gs|
      ensures NamesToken(groups[i], token) <==> NamesToken(hs[i], token)
      ensures NamesAll(groups[i]) <==> NamesAll(hs[i])
      ensures groups[i].rules == hs[i].rules
    {
      assert gs[i] in gs && AllWithoutEmpty(gs)[i] == WithoutEmpty(gs[i]);
      SameNames(groups[i], hs[i], gs[i].agents, token);
    }
    Pointwise(groups, hs, token, r);
  }

  lemma Pointwise(gs: seq<Group>, hs: seq<Group>, token: string, r: Rule)
    requires |gs| == |hs|
    requires forall i | 0 <= i < |gs| ::
               && (NamesToken(gs[i], token) <==> NamesToken(hs[i], token)) && (NamesAll(gs[i]) <==> NamesAll(hs[i]))
               && gs[i].rules == hs[i].rules
    ensures InForce(gs, token, r) <==> InForce(hs, token, r)
  {
    OneWay(gs, hs, token, r);
    OneWay(hs, gs, token, r);
  }

  lemma OneWay(gs: seq<Group>, hs: seq<Group>, token: string, r: Rule)
    requires |gs| == |hs|
    requires forall i | 0 <= i < |gs| ::
               && (NamesToken(gs[i], token) <==> NamesToken(hs[i], token)) && (NamesAll(gs[i]) <==> NamesAll(hs[i]))
               && gs[i].rules == hs[i].rules
    ensures AnyExact(gs, token) ==> AnyExact(hs, token)
    ensures InForce(gs, token, r) && (AnyExact(hs, token) ==> AnyExact(gs, token)) ==> InForce(hs, token, r)
  {
    if AnyExact(gs, token) {
      var g :| g in gs && NamesToken(g, token);
      var i :| 0 <= i < |gs| && gs[i] == g;
      assert hs[i] in hs;
    }
    if InForce(gs, token, r) && (AnyExact(hs, token) ==> AnyExact(gs, token)) {
      var g :| g in Selected(gs, token) && r in g.rules;
      var i :| 0 <= i < |gs| && gs[i] == g;
      assert hs[i] in Selected(hs, token);
    }
  }

  /** With safe patterns in force, the whole evaluator gives the verdict of the standard on every text that both read
    * alike: without a lone carriage return, with nothing dropped, and with every group but the last substantial. */
  lemma SafeFilesFollowTheStandard(text: string, url: Url, token: string)
    requires RealUrl(url) && url.path != ROBOTS_TXT && ValidToken(token)
    requires NoLoneCr(text) && NothingDropped(Parsed(text).1) && Substantial(GrammarGroups(text))
    requires forall r :: InForce(StandardGroups(text), token, r) ==> SafePattern(r.normalized)
    ensures Verdict(text, url, token) <==> RfcPermitted(StandardGroups(text), token, TargetPath(url))
  {
    var groups, path := Parsed(text).0, TargetPath(url);
    ParsedIsOk(text);
    ParsedIsGrammarIff(text);
    GrammarAgentsAreValid(GrammarLines(text), |GrammarLines(text)|);
    RealUrlsGiveRealTargets(url);
    forall r
      ensures Applies(groups, token, path, r) <==> RfcApplies(StandardGroups(text), token, path, r)
    {
      SameInForce(groups, GrammarGroups(text), token, r);
      if InForce(groups, token, r) {
        RuleInForceIsOk(groups, token, r);
        SafePatternAgrees(r.normalized, path);
      }
    }
    assert forall a :: OutranksAll(groups, token, path, a) <==> RfcOutranksAll(StandardGroups(text), token, path, a);
  }

  lemma RuleInForceIsOk(groups: seq<Group>, token: string, r: Rule)
    requires GroupsOk(groups) && InForce(groups, token, r)
    ensures RuleOk(r)
  {
    var g :| g in Selected(groups, token) && r in g.rules;
    var i :| 0 <= i < |groups| && groups[i] == g;
    assert GroupOk(groups[i], i);
  }

  // ---- texts given line by line

  predicate PlainLine(line: string) { '\n' !in line && '\r' !in line }

  function ReadKinds(kinds: seq<Line>): seq<SourceGroup> {
    if kinds == [] then [] else Read(ReadKinds(kinds[..|kinds| - 1]), kinds[|kinds| - 1])
  }

  lemma {:induction false} ReadAllKinds(lines: seq<string>, kinds: seq<Line>, n: nat)
    requires n <= |lines| == |kinds|
    requires forall i | 0 <= i < n :: Said(WithoutMark(lines[i], i == 0)) == kinds[i]
    ensures ReadAll(lines, n) == ReadKinds(kinds[..n])
  {
    hide Said, Read;
    if n > 0 {
      ReadAllKinds(lines, kinds, n - 1);
      assert kinds[..n][..n - 1] == kinds[..n - 1];
    }
  }

  lemma {:induction false} JoinedIsPlain(lines: seq<string>)
    requires forall l | l in lines :: PlainLine(l)
    ensures '\r' !in Joined(lines, "\n")
  {
    if lines != [] {
      JoinedIsPlain(lines[1..]);
      assert lines[0] in lines;
    }
  }

  /** Where there is no carriage return at all, line ends need no unifying. */
  lemma PlainLines(text: string)
    requires '\r' !in text
    ensures Unified(text) == text && NoLoneCr(text)
  {
    UnifiedOneMore(text, "");
    assert text + "" == text;
  }

  lemma NothingSaid(first: bool)
    ensures Said(WithoutMark("", first)) == Ignored
  {
    FindNone("", '#');
  }

  /** The groups of a text that is given line by line. */
  lemma GrammarOfLines(lines: seq<string>, kinds: seq<Line>)
    requires |lines| == |kinds| && forall l | l in lines :: PlainLine(l)
    requires forall i | 0 <= i < |lines| :: Said(WithoutMark(lines[i], i == 0)) == kinds[i]
    ensures GrammarGroups(Joined(lines, "\n")) == ReadKinds(kinds) && NoLoneCr(Joined(lines, "\n"))
  {
    hide Said, Read;
    JoinedIsPlain(lines);
    PlainLines(Joined(lines, "\n"));
    SplitJoined(lines);
    NothingSaid(|lines| == 0);
    ReadAllKinds(lines + [""], kinds + [Ignored], |lines| + 1);
    assert (kinds + [Ignored])[..|lines| + 1] == kinds + [Ignored];
    NothingMore(kinds);
  }

  lemma NothingMore(kinds: seq<Line>)
    ensures ReadKinds(kinds + [Ignored]) == ReadKinds(kinds)
  {
    assert (kinds + [Ignored])[..|kinds|] == kinds;
  }

  /** What the parser makes of such a line, it says. */
  lemma SaidOf(line: string, first: bool)
    requires PlainLine(line) && Classify(line, first) != OverLimit
    ensures Said(WithoutMark(line, first)) == Classify(line, first)
  {
  }

  // ---- one rule, exactly

  function OneRule(value: string): seq<SourceGroup> {
    [SourceGroup(["*"], [SourceRule(Disallow, value)])]
  }

  lemma StarAgent()
    ensures Lower("*") == "*" && Bound("*", MAX_AGENT_BYTES) == "*"
  {
    assert |Utf8Char('*')| <= 4;
    assert "*"[1..] == "";
    assert Utf8("*") == Utf8Char('*') + Utf8("");
  }

  lemma AgentLineIsPlain(a: string)
    requires ValidAgent(a)
    ensures PlainLine(AgentText(a))
  {
    assert forall c | c in a :: c == '*' || AgentChar(c);
  }

  lemma ReadOneMore(kinds: seq<Line>, line: Line)
    ensures ReadKinds(kinds + [line]) == Read(ReadKinds(kinds), line)
  {
    assert (kinds + [line])[..|kinds|] == kinds;
  }

  /** A group of one agent and one rule. */
  lemma OneGroupIsRead(agent: string, rule: SourceRule)
    ensures ReadKinds([Agent(agent), RuleLine(rule.directive, rule.value)]) == [SourceGroup([agent], [rule])]
  {
    var x, y := Agent(agent), RuleLine(rule.directive, rule.value);
    ReadOneMore([], x);
    ReadOneMore([x], y);
    assert [] + [x] == [x] && [x] + [y] == [x, y];
    assert ReadKinds([x]) == [SourceGroup([agent], [])];
    var none: seq<SourceRule> := [];
    assert none + [rule] == [rule];
  }

  /** The grammar reads the printed rule as it is. */
  lemma OneRuleIsRead(value: string)
    requires PrintableGroups(OneRule(value)) && '\r' !in value
    ensures GrammarGroups(Printed(OneRule(value))) == OneRule(value)
  {
    hide Classify, Said, WithoutMark, ReadKinds, AgentText, RuleText;
    var g := OneRule(value)[0];
    assert Printable(g);
    var lines, kinds := [AgentText("*"), RuleText(g.rules[0])], [Agent("*"), RuleLine(Disallow, value)];
    assert "*" in g.agents && g.rules[0] in g.rules;
    assert PlainValue(value);
    OneRuleLines(value);
    ClassifyAgent("*", true);
    ClassifyRule(g.rules[0], false);
    AgentLineIsPlain("*");
    SaidOf(lines[0], true);
    SaidOf(lines[1], false);
    GrammarOfLines(lines, kinds);
    OneGroupIsRead("*", g.rules[0]);
  }

  lemma OneRuleLines(value: string)
    requires '\r' !in value && '\n' !in value
    ensures AllLines(OneRule(value)) == [AgentText("*"), RuleText(SourceRule(Disallow, value))]
    ensures PlainLine(RuleText(SourceRule(Disallow, value)))
  {
    assert OneRule(value)[1..] == [];
  }

  lemma OneGroupInForce(g: Group, rule: Rule, token: string, r: Rule)
    requires g.userAgents == ["*"] && g.rules == [rule] && Lower(token) != "*"
    ensures InForce([g], token, r) <==> r == rule
  {
    StarAgent();
    assert !NamesToken(g, token);
    assert !AnyExact([g], token);
    assert g in [g] && NamesAll(g);
    RobotsLaws.SelectedByContent([g], token, r);
  }

  lemma OneGroupPermits(g: Group, rule: Rule, token: string, t: seq<Byte>)
    requires g.userAgents == ["*"] && g.rules == [rule] && rule.directive == Disallow && Lower(token) != "*"
    ensures Permitted([g], token, t) <==> !M.CodeMatches(rule.normalized, t)
    ensures RfcPermitted([g], token, t) <==> !M.RfcMatches(rule.normalized, t)
  {
    forall r
      ensures InForce([g], token, r) <==> r == rule
    {
      OneGroupInForce(g, rule, token, r);
    }
    assert Applies([g], token, t, rule) <==> M.CodeMatches(rule.normalized, t);
    assert RfcApplies([g], token, t, rule) <==> M.RfcMatches(rule.normalized, t);
  }

  lemma OneRulePermits(value: string, token: string, t: seq<Byte>)
    requires PrintableGroups(OneRule(value)) && '\r' !in value && Lower(token) != "*"
    ensures var p := C.Normalized(Utf8(value), C.Pattern);
            && (Permitted(Parsed(Printed(OneRule(value))).0, token, t) <==> !M.CodeMatches(p, t))
            && (RfcPermitted(StandardGroups(Printed(OneRule(value))), token, t) <==> !M.RfcMatches(p, t))
  {
    hide Permitted, RfcPermitted, Parsed, Printed, GrammarGroups, Bound;
    var gs, d := OneRule(value), MakeRule(Disallow, value);
    ParseUndoesPrint(gs);
    OneRuleIsRead(value);
    StarAgent();
    KeptOne(gs[0].rules[0]);
    assert Printable(gs[0]) && gs[0].rules[0] in gs[0].rules;
    assert BuiltAll(gs) == [Built(gs[0], 0)] && Standard(gs) == [Standard(gs)[0]];
    OneGroupPermits(Built(gs[0], 0), d, token, t);
    OneGroupPermits(Standard(gs)[0], d, token, t);
  }

  lemma KeptOne(rule: SourceRule)
    ensures Kept([rule]) == if rule.value == "" then [] else [rule]
    ensures BuiltRules([rule]) == [MakeRule(rule.directive, rule.value)]
  {
    assert [rule][..0] == [] && Kept([]) == [];
  }

  /** For a file with one rule, the parsed, canonicalised and matched verdict is the standard's on every real URL
    * that the rules are asked about exactly when the pattern is safe. */
  lemma OneRuleExact(value: string, token: string)
    requires PrintableGroups(OneRule(value)) && '\r' !in value && Lower(token) != "*"
    ensures (forall url | RealUrl(url) && url.path != ROBOTS_TXT ::
               Permitted(Parsed(Printed(OneRule(value))).0, token, TargetPath(url))
               <==> RfcPermitted(StandardGroups(Printed(OneRule(value))), token, TargetPath(url)))
       <==> SafePattern(C.Normalized(Utf8(value), C.Pattern))
  {
    var p := C.Normalized(Utf8(value), C.Pattern);
    var groups, standard := Parsed(Printed(OneRule(value))).0, StandardGroups(Printed(OneRule(value)));
    C.CanonicalIffFixed(Utf8(value), C.Pattern);
    forall t
      ensures Permitted(groups, token, t) <==> !M.CodeMatches(p, t)
      ensures RfcPermitted(standard, token, t) <==> !M.RfcMatches(p, t)
    {
      OneRulePermits(value, token, t);
    }
    if SafePattern(p) {
      forall url | RealUrl(url)
        ensures M.CodeMatches(p, TargetPath(url)) <==> M.RfcMatches(p, TargetPath(url))
      {
        RealUrlsGiveRealTargets(url);
        SafePatternAgrees(p, TargetPath(url));
      }
    } else {
      ML.AnchoredBodyIsCanonical(p);
      ML.AnchoredExact(M.Body(p));
      var t :| ML.RealTarget(t) && (M.CodeMatches(p, t) <==> !M.RfcMatches(p, t));
      var url := RealTargetsAreReached(t);
      assert Permitted(groups, token, TargetPath(url)) <==> !RfcPermitted(standard, token, TargetPath(url));
    }
  }

  // ---- two texts that are read differently

  const SLASH_RULE := SourceRule(Disallow, "/")

  lemma SlashPattern(t: seq<Byte>)
    requires t != [] && t[0] == SLASH
    ensures var p := MakeRule(Disallow, "/").normalized; M.CodeMatches(p, t) && M.RfcMatches(p, t)
  {
    assert Utf8("/") == [SLASH] by { assert "/"[1..] == ""; assert Utf8Char('/') == [SLASH]; }
    assert [SLASH][1..] == [];
    assert C.Units([SLASH], C.Pattern) == [C.Literal(SLASH)];
    var p := MakeRule(Disallow, "/").normalized;
    assert p == [SLASH];
    assert t[..1] == [SLASH];
    M.LiteralRun(p, 1, t[..1]);
    assert M.MatchesPrefix(p, t, 1);
    ML.UnanchoredIsRfc(p, t);
  }

  lemma EmptyRuleSaid(line: string, first: bool)
    requires line == "Disallow:"
    ensures Unwrapped(line, first) == line && Trim(BeforeFirst(line, '#')) == line
    ensures Find(line, ':') == 8 && line[..8] == "Disallow" && line[9..] == "" && |line| == 9 && PlainLine(line)
  {
    FindNone(line, '#');
    assert line[..|line|] == line;
    TrimmedIsFixed(line);
    FindIs(line, ':', 8);
  }

  lemma EmptyRuleLine(first: bool)
    ensures Classify("Disallow:", first) == RuleLine(Disallow, "") && PlainLine("Disallow:")
  {
    hide Find, Lower, Trim, BeforeFirst, ByteLength, Unwrapped;
    EmptyRuleSaid("Disallow:", first);
    DisallowHead();
    NamesDiffer();
    TrimmedIsFixed("Disallow");
    TrimmedIsFixed("");
    Utf8IsShort("Disallow:");
  }

  lemma {:induction false} Utf8IsShort(s: string)
    ensures ByteLength(s) <= 4 * |s|
  {
    if s != "" {
      Utf8IsShort(s[1..]);
    }
  }

  /** A group for `a` with an empty rule, then a group for `b` that forbids everything. */
  function EmptyRuleText(a: string, b: string): seq<string> {
    [AgentText(a), "Disallow:", AgentText(b), RuleText(SLASH_RULE)]
  }

  /** A rule line is dropped only after as many rules as there is room for. */
  lemma {:induction false} ShortTextsDropNothing(replacements: nat, lines: seq<string>, n: nat)
    requires n <= |lines| && n <= MAX_RULES
    requires forall i | 0 <= i < n :: Classify(lines[i], i == 0) != OverLimit
    ensures var r := After(Initial(replacements), lines, n).report;
            NothingDropped(r) && r.rulesRetained <= n
  {
    hide Classify;
    if n > 0 {
      ShortTextsDropNothing(replacements, lines, n - 1);
      StepCounts(After(Initial(replacements), lines, n - 1), Classify(lines[n - 1], n == 1));
    }
  }

  lemma StepCounts(st: State, line: Line)
    requires NothingDropped(st.report) && st.report.rulesRetained < MAX_RULES && line != OverLimit
    ensures NothingDropped(Step(st, line).report)
    ensures Step(st, line).report.rulesRetained <= st.report.rulesRetained + 1
  {
  }

  lemma TokenLine(a: string, first: bool)
    requires ValidToken(a)
    ensures ValidAgent(a) && PlainLine(AgentText(a)) && Classify(AgentText(a), first) == Agent(a)
  {
    hide Classify;
    Utf8IsShort(AgentText(a));
    AgentLineIsPlain(a);
    ClassifyAgent(a, first);
  }

  lemma SlashLine(first: bool)
    ensures PlainLine(RuleText(SLASH_RULE)) && RuleText(SLASH_RULE) != ""
    ensures Classify(RuleText(SLASH_RULE), first) == RuleLine(Disallow, "/")
  {
    hide Classify;
    assert PlainValue("/");
    Utf8IsShort(RuleText(SLASH_RULE));
    ClassifyRule(SLASH_RULE, first);
    OneRuleLines("/");
  }

  lemma EmptyRuleKinds(a: string, b: string)
    ensures ReadKinds([Agent(a), RuleLine(Disallow, ""), Agent(b), RuleLine(Disallow, "/")])
         == [SourceGroup([a], [SourceRule(Disallow, "")]), SourceGroup([b], [SLASH_RULE])]
  {
    var first := SourceGroup([a], [SourceRule(Disallow, "")]);
    var kinds := [Agent(a), RuleLine(Disallow, "")];
    OneGroupIsRead(a, SourceRule(Disallow, ""));
    ReadOneMore(kinds, Agent(b));
    ReadOneMore(kinds + [Agent(b)], RuleLine(Disallow, "/"));
    assert kinds + [Agent(b)] + [RuleLine(Disallow, "/")]
        == [Agent(a), RuleLine(Disallow, ""), Agent(b), RuleLine(Disallow, "/")];
    var none: seq<SourceRule> := [];
    assert none + [SLASH_RULE] == [SLASH_RULE];
    assert [first] + [SourceGroup([b], [])] == [first, SourceGroup([b], [])];
  }

  /** The grammar has two groups, and the parser merges them. */
  lemma EmptyRuleIsForgotten(a: string, b: string)
    requires ValidToken(a) && ValidToken(b)
    ensures var text := Joined(EmptyRuleText(a, b), "\n");
            && GrammarGroups(text) == [SourceGroup([a], [SourceRule(Disallow, "")]), SourceGroup([b], [SLASH_RULE])]
            && SameGroups(Parsed(text).0, [SourceGroup([a, b], [SLASH_RULE])])
  {
    hide Classify, Said, WithoutMark, Read, ReadKinds, AgentText, RuleText, Step;
    var lines, text := EmptyRuleText(a, b), Joined(EmptyRuleText(a, b), "\n");
    var kinds := [Agent(a), RuleLine(Disallow, ""), Agent(b), RuleLine(Disallow, "/")];
    TokenLine(a, true);
    EmptyRuleLine(false);
    TokenLine(b, false);
    SlashLine(false);
    forall i | 0 <= i < 4
      ensures Said(WithoutMark(lines[i], i == 0)) == kinds[i]
    {
      SaidOf(lines[i], i == 0);
    }
    GrammarOfLines(lines, kinds);
    EmptyRuleKinds(a, b);
    SplitJoined(lines);
    EmptyLineIgnored(false);
    ShortTextsDropNothing(Replacements(text), lines + [""], 5);
    ParsedIsMerged(text);
    TwoMerged(a, b);
  }

  lemma TwoMerged(a: string, b: string)
    ensures Merged([SourceGroup([a], [SourceRule(Disallow, "")]), SourceGroup([b], [SLASH_RULE])])
         == [SourceGroup([a, b], [SLASH_RULE])]
  {
    var x, y := SourceGroup([a], [SourceRule(Disallow, "")]), SourceGroup([b], [SLASH_RULE]);
    KeptOne(x.rules[0]);
    KeptOne(SLASH_RULE);
    MergedOneMore([], x);
    MergedOneMore([x], y);
    assert [] + [x] == [x] && [x] + [y] == [x, y];
    assert Merged([x]) == [SourceGroup([a], [])];
    assert [a] + [b] == [a, b];
  }

  /** An empty rule should leave `a` free, and a group for somebody else comes to bind it. */
  lemma EmptyRuleBindsOthers(a: string, b: string, t: seq<Byte>)
    requires ValidToken(a) && ValidToken(b) && Lower(a) != Lower(b) && t != [] && t[0] == SLASH
    ensures var text := Joined(EmptyRuleText(a, b), "\n");
            !Permitted(Parsed(text).0, a, t) && RfcPermitted(StandardGroups(text), a, t)
  {
    hide Parsed, GrammarGroups, Permitted, RfcPermitted, EmptyRuleText, Joined, Standard, SameGroups;
    var text := Joined(EmptyRuleText(a, b), "\n");
    EmptyRuleIsForgotten(a, b);
    MergedForbids(Parsed(text).0, a, b, t);
    UnmergedPermits(a, b, t);
  }

  lemma UnmergedPermits(a: string, b: string, t: seq<Byte>)
    requires Lower(a) != Lower(b)
    ensures RfcPermitted(Standard([SourceGroup([a], [SourceRule(Disallow, "")]), SourceGroup([b], [SLASH_RULE])]), a, t)
  {
    hide RfcPermitted, Lower;
    KeptOne(SourceRule(Disallow, ""));
    FirstIsFree(Standard([SourceGroup([a], [SourceRule(Disallow, "")]), SourceGroup([b], [SLASH_RULE])]), a, b, t);
  }

  lemma MergedForbids(groups: seq<Group>, a: string, b: string, t: seq<Byte>)
    requires ValidToken(a) && SameGroups(groups, [SourceGroup([a, b], [SLASH_RULE])]) && t != [] && t[0] == SLASH
    ensures !Permitted(groups, a, t)
  {
    hide Permitted;
    MergedNames(groups, a, b);
    SlashPattern(t);
    OneRuleForbids(groups[0], MakeRule(Disallow, "/"), a, t);
  }

  lemma MergedNames(groups: seq<Group>, a: string, b: string)
    requires ValidToken(a) && SameGroups(groups, [SourceGroup([a, b], [SLASH_RULE])])
    ensures groups == [groups[0]] && groups[0].rules == [MakeRule(Disallow, "/")] && NamesToken(groups[0], a)
  {
    KeptOne(SLASH_RULE);
    assert forall i | 0 <= i < |a| :: a[i] in a;
    BoundAgent(a, a);
    assert groups[0].userAgents[0] == Bound(a, MAX_AGENT_BYTES) && groups[0].userAgents[0] in groups[0].userAgents;
  }

  lemma OneRuleForbids(g: Group, rule: Rule, token: string, t: seq<Byte>)
    requires NamesToken(g, token) && g.rules == [rule] && rule.directive == Disallow
    ensures M.CodeMatches(rule.normalized, t) ==> !Permitted([g], token, t)
    ensures M.RfcMatches(rule.normalized, t) ==> !RfcPermitted([g], token, t)
  {
    assert g in [g] && AnyExact([g], token);
    forall r
      ensures InForce([g], token, r) <==> r == rule
    {
      RobotsLaws.SelectedByContent([g], token, r);
    }
    assert Applies([g], token, t, rule) <==> M.CodeMatches(rule.normalized, t);
    assert RfcApplies([g], token, t, rule) <==> M.RfcMatches(rule.normalized, t);
  }

  lemma FirstIsFree(groups: seq<Group>, a: string, b: string, t: seq<Byte>)
    requires |groups| == 2 && groups[0].userAgents == [a] && groups[0].rules == []
    requires groups[1].userAgents == [b] && Lower(a) != Lower(b)
    ensures RfcPermitted(groups, a, t)
  {
    assert a in groups[0].userAgents && NamesToken(groups[0], a) && !NamesToken(groups[1], a);
    assert groups[0] in groups && AnyExact(groups, a);
    forall r
      ensures !InForce(groups, a, r)
    {
      RobotsLaws.SelectedByContent(groups, a, r);
    }
  }

  // ---- a carriage return alone

  function LoneCrText(a: string): string { AgentText(a) + "\r" + RuleText(SLASH_RULE) }

  /** As a value, the rest of the text is no product token. */
  lemma LoneCrValue(a: string, v: string)
    requires ValidToken(a) && v == a + "\r" + RuleText(SLASH_RULE)
    ensures v != "" && Trimmed(v) && '#' !in v && '\n' !in v && ParseUserAgentValue(v) == ""
  {
    hide Trim;
    assert v[0] == a[0] && a[0] in a && v[|v| - 1] == '/' && v[|a|] == '\r';
    assert forall c | c in a :: AgentChar(c);
    TrimmedIsFixed(v);
    assert v[|a|] in v && v != "*";
  }

  lemma LoneCrIsParsed(a: string)
    requires ValidToken(a)
    ensures Parsed(LoneCrText(a)).0 == []
  {
    hide Trimmed, ParseUserAgentValue, Classify, ByteLength, RuleText, Find;
    var v, text := a + "\r" + RuleText(SLASH_RULE), LoneCrText(a);
    LoneCrValue(a, v);
    AgentHead();
    assert text == "User-agent" + (": " + v) && |text| < 1000 by { LoneCrIsShort(a); }
    Utf8IsShort(text);
    ClassifyPrinted("User-agent", v, true);
    FindNone(text, '\n');
    assert Lines(text) == [text];
    assert After(Initial(Replacements(text)), [text], 1) == Step(Initial(Replacements(text)), Ignored);
  }

  lemma LoneCrIsShort(a: string)
    requires ValidToken(a)
    ensures LoneCrText(a) == "User-agent" + (": " + (a + "\r" + RuleText(SLASH_RULE))) && |LoneCrText(a)| < 1000
  {
  }

  lemma LoneCrIsRead(a: string)
    requires ValidToken(a)
    ensures GrammarGroups(LoneCrText(a)) == [SourceGroup([a], [SLASH_RULE])]
  {
    hide Classify, Said, WithoutMark, Read, ReadKinds, AgentText, RuleText;
    var one, two := AgentText(a), RuleText(SLASH_RULE);
    var kinds := [Agent(a), RuleLine(Disallow, "/")];
    TokenLine(a, true);
    SlashLine(false);
    SaidOf(one, true);
    SaidOf(two, false);
    LoneCrLines(one, two);
    ReadAllKinds([one, two], kinds, 2);
    assert kinds[..2] == kinds;
    OneGroupIsRead(a, SLASH_RULE);
  }

  lemma LoneCrLines(one: string, two: string)
    requires PlainLine(one) && PlainLine(two) && two != ""
    ensures GrammarLines(one + "\r" + two) == [one, two]
  {
    UnifiedOneMore(one, "\r" + two);
    assert one + "\r" + two == one + ("\r" + two) && ("\r" + two)[1..] == two && ("\r" + two)[1] in two;
    PlainLines(two);
    assert Unified("\r" + two) == "\n" + two;
    assert one + ("\n" + two) == one + ['\n'] + two;
    SplitFirst(one, two, '\n');
    FindNone(two, '\n');
  }

  /** A carriage return that ends a line by itself hides the rule after it. */
  lemma LoneCrFreesAgent(a: string, t: seq<Byte>)
    requires ValidToken(a) && t != [] && t[0] == SLASH
    ensures Permitted(Parsed(LoneCrText(a)).0, a, t) && !RfcPermitted(StandardGroups(LoneCrText(a)), a, t)
  {
    hide Parsed, GrammarGroups;
    LoneCrIsParsed(a);
    LoneCrIsRead(a);
    SlashPattern(t);
    KeptOne(SLASH_RULE);
    var g := StandardGroups(LoneCrText(a))[0];
    assert StandardGroups(LoneCrText(a)) == [g] && a in g.userAgents;
    OneRuleForbids(g, MakeRule(Disallow, "/"), a, t);
    forall r
      ensures !InForce([], a, r)
    {
      RobotsLaws.SelectedByContent([], a, r);
    }
  }
}

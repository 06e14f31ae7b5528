/** Parsing undoes printing, and a line that ends in CRLF says what it says with LF alone. */
module RobotsRoundTrip {
  import opened Octets
  import opened Sequences
  import opened Text
  import opened RobotsParser
  import opened RobotsParserLaws

  // ---- one printed line

  lemma TrimPadded(v: string)
    requires v != "" && Trimmed(v)
    ensures Trim(" " + v) == v
  {
    assert (" " + v)[1..] == v;
    TrimmedIsFixed(v);
  }

  predicate PlainHead(head: string) {
    head != "" && ':' !in head && '#' !in head && head[0] != '\U{FEFF}' && Trimmed(head)
  }

  lemma TrimmedLine(head: string, v: string)
    requires PlainHead(head) && v != "" && Trimmed(v) && '#' !in v
    ensures var line := head + (": " + v);
            line != "" && Trimmed(line) && '#' !in line && line[0] == head[0] && line[|line| - 1] == v[|v| - 1]
  {
  }

  /** How a printed line is cut at its colon. */
  lemma CutAtColon(head: string, v: string, first: bool)
    requires PlainHead(head) && v != "" && Trimmed(v) && '#' !in v
    ensures var line := head + (": " + v);
            && Trim(BeforeFirst(Unwrapped(line, first), '#')) == line == Unwrapped(line, first)
            && Find(line, ':') == |head| < |line|
            && Trim(line[..|head|]) == head && Trim(line[|head| + 1..]) == v
  {
    var line := head + (": " + v);
    TrimmedLine(head, v);
    FindNone(line, '#');
    assert line[..|line|] == line;
    TrimmedIsFixed(line);
    TrimmedIsFixed(head);
    assert line[..|head|] == head;
    FindIs(line, ':', |head|);
    assert line[|head| + 1..] == " " + v;
    TrimPadded(v);
  }

  lemma ClassifyPrinted(head: string, v: string, first: bool)
    requires PlainHead(head) && v != "" && Trimmed(v) && '#' !in v && ByteLength(head + (": " + v)) <= MAX_LINE_BYTES
    ensures Classify(head + (": " + v), first) == Directed(Lower(head), v)
  {
    CutAtColon(head, v, first);
  }

  lemma AgentIsTrimmed(a: string)
    requires ValidAgent(a)
    ensures Trimmed(a) && '#' !in a && '\n' !in a
  {
    if a != "*" {
      assert a[0] in a && a[|a| - 1] in a;
    }
  }

  lemma AgentHead()
    ensures PlainHead("User-agent") && Lower("User-agent") == "user-agent"
  {
    var head := "User-agent";
    assert head[1..] == "ser-agent";
    assert Lower(head)[1..] == "ser-agent";
    assert Lower(head) == ['u'] + Lower(head)[1..];
  }

  lemma AllowHead()
    ensures PlainHead("Allow") && Lower("Allow") == "allow"
  {
  }

  lemma DisallowHead()
    ensures PlainHead("Disallow") && Lower("Disallow") == "disallow"
  {
    var head := "Disallow";
    assert head[1..] == "isallow";
    assert Lower(head)[1..] == "isallow";
    assert Lower(head) == ['d'] + Lower(head)[1..];
  }

  lemma ClassifyAgent(a: string, first: bool)
    requires ValidAgent(a) && ByteLength(AgentText(a)) <= MAX_LINE_BYTES
    ensures Classify(AgentText(a), first) == Agent(a)
  {
    AgentHead();
    AgentIsTrimmed(a);
    assert AgentText(a) == "User-agent" + (": " + a);
    ClassifyPrinted("User-agent", a, first);
    TrimmedIsFixed(a);
  }

  lemma NamesDiffer()
    ensures "allow" != "user-agent" && "disallow" != "user-agent" && "allow" != "disallow"
  {
    assert |"allow"| == 5 && |"disallow"| == 8 && |"user-agent"| == 10;
  }

  lemma ClassifyAllow(v: string, first: bool)
    requires PlainValue(v) && ByteLength("Allow: " + v) <= MAX_LINE_BYTES
    ensures Classify("Allow: " + v, first) == RuleLine(Allow, v)
  {
    AllowHead();
    NamesDiffer();
    assert "Allow: " + v == "Allow" + (": " + v);
    ClassifyPrinted("Allow", v, first);
  }

  lemma ClassifyDisallow(v: string, first: bool)
    requires PlainValue(v) && ByteLength("Disallow: " + v) <= MAX_LINE_BYTES
    ensures Classify("Disallow: " + v, first) == RuleLine(Disallow, v)
  {
    DisallowHead();
    NamesDiffer();
    assert "Disallow: " + v == "Disallow" + (": " + v);
    ClassifyPrinted("Disallow", v, first);
  }

  lemma ClassifyRule(r: SourceRule, first: bool)
    requires PlainValue(r.value) && ByteLength(RuleText(r)) <= MAX_LINE_BYTES
    ensures Classify(RuleText(r), first) == RuleLine(r.directive, r.value)
    ensures '\n' !in RuleText(r)
  {
    if r.directive == Allow {
      ClassifyAllow(r.value, first);
    } else {
      ClassifyDisallow(r.value, first);
    }
  }

  // ---- runs over classified lines

  function Run(st: State, kinds: seq<Line>): State
    decreases |kinds|
  {
    if kinds == [] then st else Run(Step(st, kinds[0]), kinds[1..])
  }

  lemma {:induction false} RunConcat(st: State, a: seq<Line>, b: seq<Line>)
    ensures Run(st, a + b) == Run(Run(st, a), b)
    decreases |a|
  {
    hide Step;
    if a == [] {
      assert a + b == b;
    } else {
      RunConcat(Step(st, a[0]), a[1..], b);
      assert (a + b)[1..] == a[1..] + b;
    }
  }

  lemma {:induction false} AfterIsRun(st: State, lines: seq<string>, kinds: seq<Line>, n: nat)
    requires n <= |lines| == |kinds|
    requires forall i | 0 <= i < n :: kinds[i] == Classify(lines[i], i == 0)
    ensures After(st, lines, n) == Run(st, kinds[..n])
  {
    hide Classify, Step;
    if n > 0 {
      AfterIsRun(st, lines, kinds, n - 1);
      assert kinds[..n] == kinds[..n - 1] + [kinds[n - 1]];
      RunConcat(st, kinds[..n - 1], [kinds[n - 1]]);
    }
  }

  function AgentKinds(agents: seq<string>): seq<Line> {
    seq(|agents|, i requires 0 <= i < |agents| => Agent(agents[i]))
  }

  function RuleKinds(rules: seq<SourceRule>): seq<Line> {
    seq(|rules|, i requires 0 <= i < |rules| => RuleLine(rules[i].directive, rules[i].value))
  }

  function Kinds(gs: seq<SourceGroup>): seq<Line> {
    if gs == [] then [] else AgentKinds(gs[0].agents) + RuleKinds(gs[0].rules) + Kinds(gs[1..])
  }

  /** The printed lines are classified as the source groups they came from, and hold no line break. */
  lemma {:induction false} LinesClassify(gs: seq<SourceGroup>, first: bool)
    requires forall g | g in gs :: Printable(g)
    ensures |AllLines(gs)| == |Kinds(gs)|
    ensures forall i | 0 <= i < |AllLines(gs)| ::
              Classify(AllLines(gs)[i], first) == Kinds(gs)[i] && '\n' !in AllLines(gs)[i]
  {
    hide Classify;
    if gs != [] {
      LinesClassify(gs[1..], first);
      var g := gs[0];
      assert Printable(g);
      var lines, kinds := GroupLines(g), AgentKinds(g.agents) + RuleKinds(g.rules);
      forall i | 0 <= i < |lines|
        ensures Classify(lines[i], first) == kinds[i] && '\n' !in lines[i]
      {
        if i < |g.agents| {
          assert g.agents[i] in g.agents;
          ClassifyAgent(g.agents[i], first);
          AgentIsTrimmed(g.agents[i]);
        } else {
          assert g.rules[i - |g.agents|] in g.rules;
          ClassifyRule(g.rules[i - |g.agents|], first);
        }
      }
    }
  }

  lemma {:induction false} RunAgents(st: State, agents: seq<string>)
    requires st.current.Some? && st.current.value.rules == []
    ensures var g := st.current.value;
            var end := Run(st, AgentKinds(agents));
            && end.groups == st.groups
            && end.current == Some(g.(userAgents := g.userAgents + BuiltAgents(agents)))
            && end.report.rulesRetained == st.report.rulesRetained
    decreases |agents|
  {
    hide Bound;
    if agents == [] {
      assert st.current.value.userAgents + [] == st.current.value.userAgents;
    } else {
      var next := Step(st, Agent(agents[0]));
      RunAgents(next, agents[1..]);
      assert AgentKinds(agents) == [Agent(agents[0])] + AgentKinds(agents[1..]);
      assert BuiltAgents(agents) == [Bound(agents[0], MAX_AGENT_BYTES)] + BuiltAgents(agents[1..]);
      Associative(st.current.value.userAgents, [Bound(agents[0], MAX_AGENT_BYTES)], BuiltAgents(agents[1..]));
    }
  }

  lemma {:induction false} RunRules(st: State, rules: seq<SourceRule>)
    requires st.current.Some? && st.report.rulesRetained + |rules| <= MAX_RULES
    requires forall r | r in rules :: r.value != ""
    ensures var g := st.current.value;
            var end := Run(st, RuleKinds(rules));
            && end.groups == st.groups
            && end.current == Some(g.(rules := g.rules + BuiltRules(rules)))
            && end.report.rulesRetained == st.report.rulesRetained + |rules|
    decreases |rules|
  {
    hide MakeRule;
    if rules == [] {
      assert st.current.value.rules + [] == st.current.value.rules;
    } else {
      var next := Step(st, RuleLine(rules[0].directive, rules[0].value));
      assert rules[0] in rules;
      RunRules(next, rules[1..]);
      assert RuleKinds(rules) == [RuleLine(rules[0].directive, rules[0].value)] + RuleKinds(rules[1..]);
      var made := MakeRule(rules[0].directive, rules[0].value);
      assert BuiltRules(rules) == [made] + BuiltRules(rules[1..]);
      Associative(st.current.value.rules, [made], BuiltRules(rules[1..]));
    }
  }

  /** A user-agent line after a rule, or the first one of all, opens a group. */
  lemma OpenGroup(st: State, agent: string)
    requires st.current.Some? ==> st.current.value.rules != []
    requires st.current.None? ==> st.groups == AllGroups(st)
    ensures var end := Step(st, Agent(agent));
            && end.groups == AllGroups(st)
            && end.current == Some(Group(|AllGroups(st)|, [Bound(agent, MAX_AGENT_BYTES)], [], []))
            && end.report.rulesRetained == st.report.rulesRetained
  {
    var none: seq<string> := [];
    assert none + [Bound(agent, MAX_AGENT_BYTES)] == [Bound(agent, MAX_AGENT_BYTES)];
  }

  /** One printed group becomes one group after those already there. */
  lemma RunGroup(st: State, g: SourceGroup)
    requires Printable(g) && st.report.rulesRetained + |g.rules| <= MAX_RULES
    requires st.current.Some? ==> st.current.value.rules != []
    ensures var end := Run(st, AgentKinds(g.agents) + RuleKinds(g.rules));
            && end.groups == AllGroups(st)
            && end.current == Some(Built(g, |AllGroups(st)|))
            && end.report.rulesRetained == st.report.rulesRetained + |g.rules|
  {
    hide Step;
    var agents := AgentKinds(g.agents);
    var middle := RunGroupAgents(st, g.agents);
    forall r | r in g.rules
      ensures r.value != ""
    {
      assert PlainValue(r.value);
    }
    RunRules(middle, g.rules);
    RunConcat(st, agents, RuleKinds(g.rules));
    assert [] + BuiltRules(g.rules) == BuiltRules(g.rules);
  }

  lemma RunGroupAgents(st: State, agents: seq<string>) returns (middle: State)
    requires agents != []
    requires st.current.Some? ==> st.current.value.rules != []
    ensures middle == Run(st, AgentKinds(agents))
    ensures middle.groups == AllGroups(st)
    ensures middle.current == Some(Group(|AllGroups(st)|, BuiltAgents(agents), [], []))
    ensures middle.report.rulesRetained == st.report.rulesRetained
  {
    hide Step;
    OpenGroup(st, agents[0]);
    var started := Step(st, Agent(agents[0]));
    assert AgentKinds(agents) == [Agent(agents[0])] + AgentKinds(agents[1..]);
    RunAgents(started, agents[1..]);
    assert BuiltAgents(agents) == [Bound(agents[0], MAX_AGENT_BYTES)] + BuiltAgents(agents[1..]);
    middle := Run(started, AgentKinds(agents[1..]));
  }

  function BuiltFrom(gs: seq<SourceGroup>, index: nat): seq<Group> {
    if gs == [] then [] else [Built(gs[0], index)] + BuiltFrom(gs[1..], index + 1)
  }

  lemma {:induction false} BuiltFromAll(gs: seq<SourceGroup>, index: nat)
    ensures |BuiltFrom(gs, index)| == |gs|
    ensures forall i | 0 <= i < |gs| :: BuiltFrom(gs, index)[i] == Built(gs[i], index + i)
  {
    if gs != [] {
      BuiltFromAll(gs[1..], index + 1);
    }
  }

  lemma PrintableTail(gs: seq<SourceGroup>)
    requires PrintableGroups(gs) && gs != []
    ensures PrintableGroups(gs[1..]) && Printable(gs[0])
    ensures |gs| > 1 ==> gs[0].rules != []
  {
    forall i | 0 <= i < |gs[1..]| - 1
      ensures gs[1..][i].rules != []
    {
      assert gs[1..][i] == gs[i + 1];
    }
  }

  lemma {:induction false} RunGroups(st: State, gs: seq<SourceGroup>)
    requires PrintableGroups(gs) && st.report.rulesRetained + SourceRules(gs) <= MAX_RULES
    requires gs != [] && st.current.Some? ==> st.current.value.rules != []
    ensures AllGroups(Run(st, Kinds(gs))) == AllGroups(st) + BuiltFrom(gs, |AllGroups(st)|)
    decreases |gs|
  {
    hide Step;
    if gs == [] {
      assert AllGroups(st) + [] == AllGroups(st);
    } else {
      var head := AgentKinds(gs[0].agents) + RuleKinds(gs[0].rules);
      PrintableTail(gs);
      RunGroup(st, gs[0]);
      var next := Run(st, head);
      RunConcat(st, head, Kinds(gs[1..]));
      BuiltRulesNonempty(gs[0]);
      RunGroups(next, gs[1..]);
      Associative(AllGroups(st), [Built(gs[0], |AllGroups(st)|)], BuiltFrom(gs[1..], |AllGroups(st)| + 1));
    }
  }

  lemma BuiltRulesNonempty(g: SourceGroup)
    ensures BuiltRules(g.rules) != [] <==> g.rules != []
  {
  }

  lemma PrintedLines(gs: seq<SourceGroup>)
    requires forall g | g in gs :: Printable(g)
    ensures Lines(Printed(gs)) == AllLines(gs) + [""]
  {
    LinesClassify(gs, true);
    forall l | l in AllLines(gs)
      ensures '\n' !in l
    {
      var i :| 0 <= i < |AllLines(gs)| && AllLines(gs)[i] == l;
    }
    SplitJoined(AllLines(gs));
  }

  lemma PrintedRun(gs: seq<SourceGroup>, st: State)
    requires forall g | g in gs :: Printable(g)
    ensures var lines := Lines(Printed(gs));
            After(st, lines, |lines|) == Step(Run(st, Kinds(gs)), Ignored)
  {
    hide Classify, Step;
    PrintedLines(gs);
    LinesClassify(gs, true);
    LinesClassify(gs, false);
    var lines, kinds := Lines(Printed(gs)), Kinds(gs) + [Ignored];
    forall i | 0 <= i < |lines|
      ensures kinds[i] == Classify(lines[i], i == 0)
    {
      if i == |lines| - 1 {
        EmptyLineIgnored(i == 0);
      } else {
        assert lines[i] == AllLines(gs)[i] && kinds[i] == Kinds(gs)[i];
      }
    }
    AfterIsRun(st, lines, kinds, |lines|);
    assert kinds[..|lines|] == kinds;
    RunConcat(st, Kinds(gs), [Ignored]);
  }

  /** Parsing a printed list of groups gives those groups back. */
  lemma ParseUndoesPrint(gs: seq<SourceGroup>)
    requires PrintableGroups(gs)
    ensures Parsed(Printed(gs)).0 == BuiltAll(gs)
  {
    var st := Initial(Replacements(Printed(gs)));
    PrintedRun(gs, st);
    RunGroups(st, gs);
    BuiltFromAll(gs, 0);
    assert BuiltAll(gs) == BuiltFrom(gs, 0);
    assert AllGroups(st) + BuiltFrom(gs, 0) == BuiltFrom(gs, 0);
  }

  lemma EmptyLineIgnored(first: bool)
    ensures Classify("", first) == Ignored
  {
    FindNone("", '#');
  }

  // ---- line ends

  /** Trailing carriage returns never matter to a line. */
  lemma CarriageReturnIgnored(raw: string, first: bool)
    ensures Classify(raw + "\r", first) == Classify(raw, first)
  {
    hide Directed, Trim, BeforeFirst, Find, ByteLength, Lower;
    assert (raw + "\r")[..|raw|] == raw;
  }

  lemma {:induction false} AfterCrlf(st: State, a: seq<string>, b: seq<string>, n: nat)
    requires n <= |a| == |b|
    requires forall i | 0 <= i < n :: b[i] == a[i] || b[i] == a[i] + "\r"
    ensures After(st, a, n) == After(st, b, n)
  {
    hide Classify, Step;
    if n > 0 {
      AfterCrlf(st, a, b, n - 1);
      CarriageReturnIgnored(a[n - 1], n == 1);
    }
  }

  lemma {:induction false} JoinedCrlf(lines: seq<string>)
    ensures Joined(lines, "\r\n") == Joined(seq(|lines|, i requires 0 <= i < |lines| => lines[i] + "\r"), "\n")
  {
    if lines != [] {
      JoinedCrlf(lines[1..]);
      var cr := seq(|lines|, i requires 0 <= i < |lines| => lines[i] + "\r");
      assert cr[1..] == seq(|lines[1..]|, i requires 0 <= i < |lines[1..]| => lines[1..][i] + "\r");
      assert lines[0] + "\r\n" == cr[0] + "\n";
    }
  }

  /** A file with CRLF line ends has the groups of the same file with LF line ends. */
  lemma LineEndsDoNotMatter(lines: seq<string>)
    requires forall l | l in lines :: '\n' !in l
    ensures Parsed(Joined(lines, "\r\n")).0 == Parsed(Joined(lines, "\n")).0
  {
    var cr := seq(|lines|, i requires 0 <= i < |lines| => lines[i] + "\r");
    JoinedCrlf(lines);
    forall l | l in cr
      ensures '\n' !in l
    {
      var i :| 0 <= i < |cr| && cr[i] == l;
      assert lines[i] in lines;
    }
    SplitJoined(lines);
    SplitJoined(cr);
    var a, b := lines + [""], cr + [""];
    var s, t := Initial(Replacements(Joined(lines, "\n"))), Initial(Replacements(Joined(lines, "\r\n")));
    AfterCrlf(s, a, b, |a|);
    AfterIgnoresReplacements(Replacements(Joined(lines, "\n")), Replacements(Joined(lines, "\r\n")), b, |b|);
  }

  /** The count of replacement characters plays no part in the groups. */
  lemma {:induction false} AfterIgnoresReplacements(m: nat, k: nat, lines: seq<string>, n: nat)
    requires n <= |lines|
    ensures var s, t := After(Initial(m), lines, n), After(Initial(k), lines, n);
            t == s.(report := s.report.(invalidUtf8Replacements := k))
            && s.report.invalidUtf8Replacements == m
  {
    hide Step, Classify;
    if n > 0 {
      AfterIgnoresReplacements(m, k, lines, n - 1);
      StepIgnoresReplacements(After(Initial(m), lines, n - 1), k, Classify(lines[n - 1], n == 1));
    }
  }

  lemma StepIgnoresReplacements(s: State, k: nat, line: Line)
    ensures var t := s.(report := s.report.(invalidUtf8Replacements := k));
            Step(t, line) == Step(s, line).(report := Step(s, line).report.(invalidUtf8Replacements := k))
    ensures Step(s, line).report.invalidUtf8Replacements == s.report.invalidUtf8Replacements
  {
    hide MakeRule, Bound;
  }
}

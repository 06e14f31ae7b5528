/** The groups of a robots file as the grammar of RFC 9309, section 2.2, has them, against those of the parser.
  *
  * The grammar ends a line at CR, LF or CRLF, and opens a new group at a user-agent line after any rule, empty ones
  * included. The parser ends lines at LF alone, and forgets an empty rule at once.
  */
module RobotsGrammar {
  import opened Octets
  import opened Sequences
  import opened Text
  import opened RobotsParser
  import opened RobotsParserLaws
  import opened RobotsRoundTrip

  // ---- the reading of the grammar

  /** The text with every line end written as LF. */
  function Unified(text: string): string {
    if text == "" then ""
    else if text[0] != '\r' then [text[0]] + Unified(text[1..])
    else if |text| > 1 && text[1] == '\n' then Unified(text[1..])
    else "\n" + Unified(text[1..])
  }

  function GrammarLines(text: string): seq<string> { Split(Unified(text), '\n') }

  /** The groups after one more line; the last group is still open. */
  function Read(gs: seq<SourceGroup>, line: Line): seq<SourceGroup> {
    match line
    case Agent(agent) =>
      if gs == [] || gs[|gs| - 1].rules != [] then gs + [SourceGroup([agent], [])]
      else
        var last := gs[|gs| - 1];
        gs[|gs| - 1 := last.(agents := last.agents + [agent])]
    case RuleLine(directive, value) =>
      if gs == [] then gs
      else
        var last := gs[|gs| - 1];
        gs[|gs| - 1 := last.(rules := last.rules + [SourceRule(directive, value)])]
    case _ => gs
  }

  /** The groups after the first `n` lines. */
  function ReadAll(lines: seq<string>, n: nat): seq<SourceGroup>
    requires n <= |lines|
  {
    if n == 0 then [] else Read(ReadAll(lines, n - 1), Said(WithoutMark(lines[n - 1], n == 1)))
  }

  function GrammarGroups(text: string): seq<SourceGroup> { ReadAll(GrammarLines(text), |GrammarLines(text)|) }

  // ---- what the parser makes of groups

  /** An empty rule restricts nothing. */
  function Kept(rules: seq<SourceRule>): seq<SourceRule> {
    if rules == [] then []
    else Kept(rules[..|rules| - 1]) + if rules[|rules| - 1].value == "" then [] else [rules[|rules| - 1]]
  }

  function WithoutEmpty(g: SourceGroup): SourceGroup { g.(rules := Kept(g.rules)) }

  /** The group has no rule but empty ones. */
  predicate Vacuous(g: SourceGroup) { Kept(g.rules) == [] }

  /** One more group, or one that takes over the agents of the group before it. */
  function Attach(front: seq<SourceGroup>, g: SourceGroup, joins: bool): (r: seq<SourceGroup>)
    requires joins ==> front != []
    ensures r != [] && |r| == |front| + if joins then 0 else 1
  {
    if joins then front[..|front| - 1] + [g.(agents := front[|front| - 1].agents + g.agents)] else front + [g]
  }

  predicate EndsVacuous(gs: seq<SourceGroup>) { gs != [] && Vacuous(gs[|gs| - 1]) }

  /** The groups as the parser has them: a vacuous group that is not the last lends its agents to the next one. */
  function Merged(gs: seq<SourceGroup>): (r: seq<SourceGroup>)
    ensures r == [] <==> gs == []
  {
    if gs == [] then []
    else
      var n := |gs| - 1;
      Attach(Merged(gs[..n]), WithoutEmpty(gs[n]), EndsVacuous(gs[..n]))
  }

  lemma MergedOneMore(gs: seq<SourceGroup>, g: SourceGroup)
    ensures Merged(gs + [g]) == Attach(Merged(gs), WithoutEmpty(g), EndsVacuous(gs))
  {
    assert (gs + [g])[..|gs|] == gs;
  }

  function AllWithoutEmpty(gs: seq<SourceGroup>): seq<SourceGroup> {
    seq(|gs|, i requires 0 <= i < |gs| => WithoutEmpty(gs[i]))
  }

  /** Every group but the last has a rule that is not empty. */
  predicate Substantial(gs: seq<SourceGroup>) { forall i | 0 <= i < |gs| - 1 :: !Vacuous(gs[i]) }

  lemma SubstantialOneMore(gs: seq<SourceGroup>, g: SourceGroup)
    ensures Substantial(gs + [g]) <==> Substantial(gs) && !EndsVacuous(gs)
  {
    var all := gs + [g];
    if Substantial(all) {
      forall i | 0 <= i < |gs|
        ensures !Vacuous(gs[i])
      {
        assert all[i] == gs[i];
      }
    }
  }

  lemma {:induction false} MergedIsShorter(gs: seq<SourceGroup>)
    ensures |Merged(gs)| <= |gs|
    ensures |Merged(gs)| == |gs| <==> Substantial(gs)
  {
    if gs != [] {
      var front, g := gs[..|gs| - 1], gs[|gs| - 1];
      assert gs == front + [g];
      MergedIsShorter(front);
      SubstantialOneMore(front, g);
    }
  }

  lemma {:induction false} SubstantialStays(gs: seq<SourceGroup>)
    requires Substantial(gs)
    ensures Merged(gs) == AllWithoutEmpty(gs)
  {
    if gs != [] {
      var front, g := gs[..|gs| - 1], gs[|gs| - 1];
      assert gs == front + [g];
      SubstantialOneMore(front, g);
      SubstantialStays(front);
      assert AllWithoutEmpty(gs) == AllWithoutEmpty(front) + [WithoutEmpty(g)];
    }
  }

  // ---- one line

  /** The group holds the agents and the rules of the source group. */
  predicate Describes(g: Group, source: SourceGroup) {
    g.userAgents == BuiltAgents(source.agents) && g.rules == BuiltRules(source.rules)
  }

  predicate SameGroups(groups: seq<Group>, gs: seq<SourceGroup>) {
    |groups| == |gs| && forall i | 0 <= i < |gs| :: Describes(groups[i], gs[i])
  }

  lemma BuiltOneMore(agents: seq<string>, agent: string, rules: seq<SourceRule>, rule: SourceRule)
    ensures BuiltAgents(agents + [agent]) == BuiltAgents(agents) + [Bound(agent, MAX_AGENT_BYTES)]
    ensures BuiltRules(rules + [rule]) == BuiltRules(rules) + [MakeRule(rule.directive, rule.value)]
    ensures Kept(rules + [rule]) == Kept(rules) + if rule.value == "" then [] else [rule]
  {
    assert (rules + [rule])[..|rules|] == rules;
  }

  /** The last of the merged groups has the kept rules of the last group. */
  lemma MergedLast(gs: seq<SourceGroup>)
    requires gs != []
    ensures var m := Merged(gs); m[|m| - 1].rules == Kept(gs[|gs| - 1].rules)
  {
  }

  /** Changing the last group changes the last merged group in the same way. */
  lemma MergedUpdate(gs: seq<SourceGroup>, last: SourceGroup, more: seq<string>)
    requires gs != [] && last.agents == gs[|gs| - 1].agents + more
    ensures var m := Merged(gs);
            Merged(gs[|gs| - 1 := last])
            == m[..|m| - 1] + [SourceGroup(m[|m| - 1].agents + more, Kept(last.rules))]
  {
    var n := |gs| - 1;
    var front, before := gs[..n], gs[n];
    assert gs[n := last] == front + [last] && gs == front + [before];
    MergedOneMore(front, last);
    MergedOneMore(front, before);
    if EndsVacuous(front) {
      var m := Merged(front);
      Associative(m[|m| - 1].agents, before.agents, more);
    }
  }

  /** Parser and grammar have read the same lines. */
  predicate InStep(st: State, gs: seq<SourceGroup>) {
    SameGroups(AllGroups(st), Merged(gs)) && (st.current.None? <==> gs == []) && (st.current.None? ==> st.groups == [])
  }

  lemma SameGroupsUpdate(groups: seq<Group>, gs: seq<SourceGroup>, g: Group, source: SourceGroup)
    requires SameGroups(groups, gs) && groups != [] && Describes(g, source)
    ensures SameGroups(groups[..|groups| - 1] + [g], gs[..|gs| - 1] + [source])
  {
  }

  /** What a user-agent line does to the groups of the parser. */
  lemma AgentGroups(st: State, agent: string)
    requires st.current.None? ==> st.groups == []
    ensures var all, bounded := AllGroups(st), Bound(agent, MAX_AGENT_BYTES);
            var next := Step(st, Agent(agent));
            && next.current.Some?
            && AllGroups(next)
               == if st.current.Some? && st.current.value.rules == [] then
                    all[..|all| - 1]
                    + [st.current.value.(userAgents := st.current.value.userAgents + [bounded])]
                  else all + [Group(|all|, [bounded], [], [])]
  {
    assert [] + [Bound(agent, MAX_AGENT_BYTES)] == [Bound(agent, MAX_AGENT_BYTES)];
  }

  /** What a rule line that is not dropped does to them. */
  lemma RuleGroups(st: State, directive: Directive, value: string)
    requires st.current.Some?
    requires Step(st, RuleLine(directive, value)).report.rulesOmittedAtLimit == st.report.rulesOmittedAtLimit
    ensures var all, c := AllGroups(st), st.current.value;
            var next := Step(st, RuleLine(directive, value));
            && next.current.Some?
            && AllGroups(next)
               == all[..|all| - 1]
                  + [c.(rules := c.rules + if value == "" then [] else [MakeRule(directive, value)])]
  {
    hide MakeRule;
    assert st.current.value.rules + [] == st.current.value.rules;
  }

  lemma LastDescribed(st: State, gs: seq<SourceGroup>)
    requires InStep(st, gs) && gs != []
    ensures st.current.Some? && Describes(st.current.value, Merged(gs)[|Merged(gs)| - 1])
  {
  }

  /** Parser and merged groups change their last group in the same way. */
  lemma LastChanges(st: State, next: State, gs: seq<SourceGroup>, hs: seq<SourceGroup>, g: Group, source: SourceGroup)
    requires InStep(st, gs) && gs != [] && hs != [] && next.current.Some? && Describes(g, source)
    requires AllGroups(next) == AllGroups(st)[..|AllGroups(st)| - 1] + [g]
    requires Merged(hs) == Merged(gs)[..|Merged(gs)| - 1] + [source]
    ensures InStep(next, hs)
  {
    SameGroupsUpdate(AllGroups(st), Merged(gs), g, source);
  }

  lemma SameGroupsAppend(groups: seq<Group>, gs: seq<SourceGroup>, g: Group, source: SourceGroup)
    requires SameGroups(groups, gs) && Describes(g, source)
    ensures SameGroups(groups + [g], gs + [source])
  {
  }

  /** The agent opens a group for both. */
  lemma AgentOpensBoth(st: State, gs: seq<SourceGroup>, agent: string)
    requires InStep(st, gs) && !EndsVacuous(gs)
    ensures InStep(Step(st, Agent(agent)), gs + [SourceGroup([agent], [])])
  {
    hide Step, Bound;
    var bounded, one := Bound(agent, MAX_AGENT_BYTES), SourceGroup([agent], []);
    AgentGroups(st, agent);
    if gs != [] {
      LastDescribed(st, gs);
      MergedLast(gs);
    }
    MergedOneMore(gs, one);
    BuiltAgent(agent);
    SameGroupsAppend(AllGroups(st), Merged(gs), Group(|AllGroups(st)|, [bounded], [], []), one);
  }

  lemma BuiltAgent(agent: string)
    ensures BuiltAgents([agent]) == [Bound(agent, MAX_AGENT_BYTES)] && BuiltRules([]) == []
  {
  }

  /** The agent joins the last group of the parser, and of the merged groups. */
  lemma AgentJoinsMerged(st: State, gs: seq<SourceGroup>, hs: seq<SourceGroup>, agent: string)
    requires InStep(st, gs) && EndsVacuous(gs) && hs != []
    requires var m := Merged(gs);
             Merged(hs) == m[..|m| - 1] + [SourceGroup(m[|m| - 1].agents + [agent], [])]
    ensures InStep(Step(st, Agent(agent)), hs)
  {
    hide Step, Bound;
    var m := Merged(gs);
    AgentGroups(st, agent);
    LastDescribed(st, gs);
    MergedLast(gs);
    BuiltOneMore(m[|m| - 1].agents, agent, [], SourceRule(Allow, ""));
    var c := st.current.value;
    LastChanges(st, Step(st, Agent(agent)), gs, hs,
                c.(userAgents := c.userAgents + [Bound(agent, MAX_AGENT_BYTES)]),
                SourceGroup(m[|m| - 1].agents + [agent], []));
  }

  lemma AgentInStep(st: State, gs: seq<SourceGroup>, agent: string)
    requires InStep(st, gs)
    ensures InStep(Step(st, Agent(agent)), Read(gs, Agent(agent)))
  {
    hide Step, InStep;
    if !EndsVacuous(gs) {
      AgentOpensBoth(st, gs, agent);
    } else {
      var last, one := gs[|gs| - 1], SourceGroup([agent], []);
      if last.rules == [] {
        MergedUpdate(gs, last.(agents := last.agents + [agent]), [agent]);
        AgentJoinsMerged(st, gs, gs[|gs| - 1 := last.(agents := last.agents + [agent])], agent);
      } else {
        MergedOneMore(gs, one);
        AgentJoinsMerged(st, gs, gs + [one], agent);
      }
    }
  }

  lemma RuleDescribed(c: Group, merged: SourceGroup, rules: seq<SourceRule>, rule: SourceRule)
    requires Describes(c, merged) && merged.rules == Kept(rules)
    ensures var more := if rule.value == "" then [] else [MakeRule(rule.directive, rule.value)];
            Describes(c.(rules := c.rules + more), SourceGroup(merged.agents, Kept(rules + [rule])))
  {
    BuiltOneMore([], "", rules, rule);
    BuiltOneMore([], "", merged.rules, rule);
    assert c.rules + [] == c.rules && merged.rules + [] == merged.rules;
  }

  lemma RuleInStep(st: State, gs: seq<SourceGroup>, directive: Directive, value: string)
    requires InStep(st, gs) && gs != []
    requires Step(st, RuleLine(directive, value)).report.rulesOmittedAtLimit == st.report.rulesOmittedAtLimit
    ensures InStep(Step(st, RuleLine(directive, value)), Read(gs, RuleLine(directive, value)))
  {
    hide Step, MakeRule, Describes, InStep, Merged;
    var m, last, rule := Merged(gs), gs[|gs| - 1], SourceRule(directive, value);
    LastDescribed(st, gs);
    MergedLast(gs);
    RuleGroups(st, directive, value);
    RuleDescribed(st.current.value, m[|m| - 1], last.rules, rule);
    assert last.agents + [] == last.agents && m[|m| - 1].agents + [] == m[|m| - 1].agents;
    var hs := gs[|gs| - 1 := last.(rules := last.rules + [rule])];
    MergedUpdate(gs, last.(rules := last.rules + [rule]), []);
    var c, rules := st.current.value, if value == "" then [] else [MakeRule(directive, value)];
    LastChanges(st, Step(st, RuleLine(directive, value)), gs, hs, c.(rules := c.rules + rules),
                SourceGroup(m[|m| - 1].agents, Kept(last.rules + [rule])));
  }

  lemma RuleBeforeGroups(st: State, directive: Directive, value: string)
    requires InStep(st, [])
    ensures InStep(Step(st, RuleLine(directive, value)), [])
  {
  }

  lemma OtherInStep(st: State, gs: seq<SourceGroup>, line: Line)
    requires InStep(st, gs) && !line.Agent? && !line.RuleLine?
    ensures InStep(Step(st, line), gs)
  {
    if gs != [] {
      var m := Merged(gs);
      assert Describes(st.current.value, m[|m| - 1]);
      SameGroupsUpdate(AllGroups(st), m, Step(st, line).current.value, m[|m| - 1]);
      assert m[..|m| - 1] + [m[|m| - 1]] == m;
    }
  }

  lemma LineInStep(st: State, gs: seq<SourceGroup>, line: Line)
    requires InStep(st, gs) && Step(st, line).report.rulesOmittedAtLimit == st.report.rulesOmittedAtLimit
    ensures InStep(Step(st, line), Read(gs, line))
  {
    match line
    case Agent(agent) => AgentInStep(st, gs, agent);
    case RuleLine(directive, value) =>
      if gs == [] {
        RuleBeforeGroups(st, directive, value);
      } else {
        RuleInStep(st, gs, directive, value);
      }
    case _ => OtherInStep(st, gs, line);
  }

  // ---- all lines

  /** Nothing was dropped for being too long or one too many. */
  predicate NothingDropped(r: Report) { r.linesOverLimit == 0 && r.rulesOmittedAtLimit == 0 }

  lemma DropsAreCounted(st: State, line: Line)
    ensures st.report.linesOverLimit <= Step(st, line).report.linesOverLimit
    ensures st.report.rulesOmittedAtLimit <= Step(st, line).report.rulesOmittedAtLimit
    ensures line == OverLimit ==> st.report.linesOverLimit < Step(st, line).report.linesOverLimit
  {
  }

  /** The lines of the parser, without their trailing carriage returns, are the lines that are read. */
  lemma {:induction false} LinesInStep(st: State, lines: seq<string>, clean: seq<string>, n: nat)
    requires n <= |lines| == |clean| && forall i | 0 <= i < |lines| :: clean[i] == TrimEndCr(lines[i])
    requires st.groups == [] && st.current.None? && NothingDropped(After(st, lines, n).report)
    ensures NothingDropped(st.report)
    ensures InStep(After(st, lines, n), ReadAll(clean, n))
  {
    hide Step, Said, Read, InStep;
    if n == 0 {
      NothingReadYet(st);
    } else {
      var before, line := After(st, lines, n - 1), Classify(lines[n - 1], n == 1);
      DropsAreCounted(before, line);
      LinesInStep(st, lines, clean, n - 1);
      LineInStep(before, ReadAll(clean, n - 1), line);
    }
  }

  lemma NothingReadYet(st: State)
    requires st.groups == [] && st.current.None?
    ensures InStep(st, [])
  {
  }

  // ---- line ends

  /** Every carriage return is the first half of a CRLF. */
  predicate NoLoneCr(text: string) {
    forall i | 0 <= i < |text| && text[i] == '\r' :: i + 1 < |text| && text[i + 1] == '\n'
  }

  lemma UnifiedHead(c: char, rest: string)
    requires c != '\r'
    ensures Unified([c] + rest) == [c] + Unified(rest)
  {
    assert ([c] + rest)[1..] == rest;
  }

  lemma {:induction false} UnifiedOneMore(line: string, rest: string)
    requires '\r' !in line
    ensures Unified(line + rest) == line + Unified(rest)
  {
    hide Unified;
    if line == "" {
      assert line + rest == rest && line + Unified(rest) == Unified(rest);
    } else {
      UnifiedOneMore(line[1..], rest);
      UnifiedHead(line[0], line[1..] + rest);
      assert line == [line[0]] + line[1..];
      Associative([line[0]], line[1..], rest);
      Associative([line[0]], line[1..], Unified(rest));
    }
  }

  function WithoutCr(lines: seq<string>): seq<string> {
    seq(|lines|, i requires 0 <= i < |lines| => TrimEndCr(lines[i]))
  }

  lemma WithoutCrFirst(line: string, rest: seq<string>)
    ensures WithoutCr([line] + rest) == [TrimEndCr(line)] + WithoutCr(rest)
  {
  }

  /** A line that ends in CRLF or LF, with no other carriage return. */
  lemma UnifiedLine(line: string, cr: string, rest: string)
    requires '\r' !in line && '\n' !in line && (cr == "" || cr == "\r")
    ensures Unified(line + cr + "\n" + rest) == line + ['\n'] + Unified(rest)
    ensures TrimEndCr(line + cr) == line
  {
    var tail := "\n" + rest;
    assert tail[1..] == rest;
    assert Unified(tail) == "\n" + Unified(rest);
    if cr == "\r" {
      assert ("\r" + tail)[1..] == tail;
      assert line + cr + "\n" + rest == line + ("\r" + tail);
      UnifiedOneMore(line, "\r" + tail);
      assert (line + cr)[..|line|] == line;
    } else {
      assert line + cr + "\n" + rest == line + tail;
      UnifiedOneMore(line, tail);
      assert line + cr == line;
    }
    assert line + ("\n" + Unified(rest)) == line + ['\n'] + Unified(rest);
  }

  /** Without a lone carriage return the lines of the grammar are those of the parser. */
  lemma {:induction false} LinesAgree(text: string)
    requires NoLoneCr(text)
    ensures GrammarLines(text) == WithoutCr(Lines(text))
    decreases |text|
  {
    hide Split, Unified;
    var i := Find(text, '\n');
    if i == |text| {
      OneLine(text);
    } else {
      var piece, rest := text[..i], text[i + 1..];
      var line, cr := CutCr(text, i);
      assert text == piece + ['\n'] + rest;
      SplitFirst(piece, rest, '\n');
      WithoutCrFirst(piece, Split(rest, '\n'));
      UnifiedLine(line, cr, rest);
      assert text == line + cr + "\n" + rest;
      SplitFirst(line, Unified(rest), '\n');
      RestHasNoLoneCr(text, i);
      LinesAgree(rest);
    }
  }

  lemma RestHasNoLoneCr(text: string, i: nat)
    requires NoLoneCr(text) && i < |text|
    ensures NoLoneCr(text[i + 1..])
  {
    var rest := text[i + 1..];
    forall j | 0 <= j < |rest| && rest[j] == '\r'
      ensures j + 1 < |rest| && rest[j + 1] == '\n'
    {
      assert text[i + 1 + j] == '\r';
    }
  }

  lemma CutCr(text: string, i: nat) returns (line: string, cr: string)
    requires NoLoneCr(text) && i < |text| && text[i] == '\n' && '\n' !in text[..i]
    ensures text[..i] == line + cr && '\r' !in line && '\n' !in line && (cr == "" || cr == "\r")
  {
    var piece := text[..i];
    if piece != "" && piece[i - 1] == '\r' {
      line, cr := piece[..i - 1], "\r";
      assert piece == line + cr;
    } else {
      line, cr := piece, "";
      assert piece == line + cr;
    }
    forall j | 0 <= j < i - 1
      ensures piece[j] != '\r'
    {
      assert piece[j] == text[j] && piece[j + 1] == text[j + 1] && piece[j + 1] in piece;
    }
    assert forall j | 0 <= j < |line| :: line[j] == piece[j];
  }

  lemma OneLine(text: string)
    requires NoLoneCr(text) && '\n' !in text
    ensures GrammarLines(text) == [text] == WithoutCr(Lines(text))
  {
    forall j | 0 <= j < |text|
      ensures text[j] != '\r'
    {
      assert j + 1 < |text| ==> text[j + 1] in text;
    }
    UnifiedOneMore(text, "");
    assert text + "" == text && text + Unified("") == text;
    FindNone(text, '\n');
  }

  // ---- whole texts

  /** For every text without a lone carriage return of which nothing was dropped, the parser has the groups of the
    * grammar, save that it merges vacuous ones into the next. */
  lemma ParsedIsMerged(text: string)
    requires NoLoneCr(text) && NothingDropped(Parsed(text).1)
    ensures SameGroups(Parsed(text).0, Merged(GrammarGroups(text)))
  {
    LinesAgree(text);
    LinesInStep(Initial(Replacements(text)), Lines(text), GrammarLines(text), |Lines(text)|);
  }

  /** The parsed groups are those of the grammar, without empty rules, if and only if every group but the last has a
    * rule that is not empty. */
  lemma ParsedIsGrammarIff(text: string)
    requires NoLoneCr(text) && NothingDropped(Parsed(text).1)
    ensures SameGroups(Parsed(text).0, AllWithoutEmpty(GrammarGroups(text))) <==> Substantial(GrammarGroups(text))
  {
    var gs := GrammarGroups(text);
    ParsedIsMerged(text);
    MergedIsShorter(gs);
    if Substantial(gs) {
      SubstantialStays(gs);
    }
  }
}

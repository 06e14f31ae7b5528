/** The counters that `parse_robots` reports, line by line. */
module RobotsReport {
  import opened Octets
  import opened Text
  import opened RobotsParser
  import opened RobotsParserLaws

  /** What lines can be counted for. */
  datatype Matter = TooLong | AgentLine | RuleInGroup | EmptyDisallow | FullRule | OtherLine | OtherInGroup

  /** Some line before this one has opened a group. */
  predicate InGroup(kinds: seq<Line>, i: nat)
    requires i <= |kinds|
  {
    exists j | 0 <= j < i :: kinds[j].Agent?
  }

  predicate Counts(kinds: seq<Line>, i: nat, matter: Matter)
    requires i < |kinds|
  {
    match matter
    case TooLong => kinds[i] == OverLimit
    case AgentLine => kinds[i].Agent?
    case RuleInGroup => kinds[i].RuleLine? && InGroup(kinds, i)
    case EmptyDisallow => kinds[i] == RuleLine(Disallow, "") && InGroup(kinds, i)
    case FullRule => kinds[i].RuleLine? && kinds[i].value != "" && InGroup(kinds, i)
    case OtherLine => kinds[i].Other?
    case OtherInGroup => kinds[i].Other? && InGroup(kinds, i)
  }

  /** The lines, among the first `n`, that count. */
  ghost function Places(kinds: seq<Line>, n: nat, matter: Matter): set<nat>
    requires n <= |kinds|
  {
    set i: nat | i < n && Counts(kinds, i, matter)
  }

  ghost function CountOf(kinds: seq<Line>, n: nat, matter: Matter): nat
    requires n <= |kinds|
  {
    |Places(kinds, n, matter)|
  }

  lemma CountOneMore(kinds: seq<Line>, n: nat, matter: Matter)
    requires n < |kinds|
    ensures CountOf(kinds, n + 1, matter) == CountOf(kinds, n, matter) + if Counts(kinds, n, matter) then 1 else 0
  {
    hide Counts;
    var here: set<nat> := if Counts(kinds, n, matter) then {n} else {};
    assert Places(kinds, n + 1, matter) == Places(kinds, n, matter) + here;
  }

  function Less(a: nat, b: nat): nat { if a < b then a else b }

  /** The report of the first `n` lines, from the lines alone. */
  ghost predicate ReportIs(r: Report, advisories: nat, kinds: seq<Line>, n: nat)
    requires n <= |kinds|
  {
    var rules, full := CountOf(kinds, n, RuleInGroup), CountOf(kinds, n, FullRule);
    && r.linesSeen == n && r.linesOverLimit == CountOf(kinds, n, TooLong)
    && r.rulesSeen == rules && r.emptyDisallowRulesIgnored == CountOf(kinds, n, EmptyDisallow)
    && r.rulesRetained == Less(full, MAX_RULES) && r.rulesRetained + r.rulesOmittedAtLimit == full
    && r.linesParsed + r.rulesOmittedAtLimit
       == CountOf(kinds, n, AgentLine) + rules + CountOf(kinds, n, OtherLine)
    && r.linesParsed + r.linesIgnored == n
    && advisories == Less(CountOf(kinds, n, OtherInGroup), MAX_ADVISORIES)
  }

  lemma CountsOneMore(kinds: seq<Line>, n: nat)
    requires n < |kinds|
    ensures forall matter ::
              CountOf(kinds, n + 1, matter) == CountOf(kinds, n, matter) + if Counts(kinds, n, matter) then 1 else 0
  {
    hide CountOf, Counts;
    forall matter
      ensures CountOf(kinds, n + 1, matter) == CountOf(kinds, n, matter) + if Counts(kinds, n, matter) then 1 else 0
    {
      CountOneMore(kinds, n, matter);
    }
  }

  lemma StepReports(st: State, kinds: seq<Line>, n: nat)
    requires n < |kinds| && (st.current.Some? <==> InGroup(kinds, n))
    requires ReportIs(st.report, st.advisoriesRetained, kinds, n)
    ensures var next := Step(st, kinds[n]);
            ReportIs(next.report, next.advisoriesRetained, kinds, n + 1)
    ensures Step(st, kinds[n]).current.Some? <==> InGroup(kinds, n + 1)
  {
    hide CountOf, MakeRule, Bound;
    CountsOneMore(kinds, n);
  }

  lemma NothingCounted(kinds: seq<Line>)
    ensures forall matter :: CountOf(kinds, 0, matter) == 0
  {
    forall matter
      ensures CountOf(kinds, 0, matter) == 0
    {
      assert Places(kinds, 0, matter) == {};
    }
  }

  function KindsOf(lines: seq<string>): seq<Line> {
    seq(|lines|, i requires 0 <= i < |lines| => Classify(lines[i], i == 0))
  }

  lemma {:induction false} AfterReports(replacements: nat, lines: seq<string>, n: nat)
    requires n <= |lines|
    ensures var st := After(Initial(replacements), lines, n);
            && ReportIs(st.report, st.advisoriesRetained, KindsOf(lines), n)
            && (st.current.Some? <==> InGroup(KindsOf(lines), n))
  {
    hide Classify, Step, ReportIs;
    if n == 0 {
      StartReports(replacements, KindsOf(lines));
    } else {
      AfterReports(replacements, lines, n - 1);
      StepReports(After(Initial(replacements), lines, n - 1), KindsOf(lines), n - 1);
    }
  }

  lemma StartReports(replacements: nat, kinds: seq<Line>)
    ensures ReportIs(Initial(replacements).report, 0, kinds, 0) && !InGroup(kinds, 0)
  {
    hide CountOf;
    NothingCounted(kinds);
  }

  lemma {:induction false} ReplacementsAreCounted(text: string)
    ensures Replacements(text) == multiset(text)['\U{FFFD}']
  {
    if text != "" {
      ReplacementsAreCounted(text[1..]);
      assert text == [text[0]] + text[1..];
    }
  }

  /** For every text the report counts exactly: all lines and the over-long ones; the rules inside groups, the empty
    * `Disallow` rules among them, and of those that are not empty the first 65536 as retained and the rest as omitted;
    * as parsed the agents, the other directives and the rules inside groups that are not omitted, and all else as
    * ignored; and every replacement character. Of other directives in groups the first 32 are kept. */
  lemma ReportCounts(text: string)
    ensures var (groups, r) := Parsed(text);
            && ReportIs(r, AdvisoriesIn(groups), KindsOf(Lines(text)), |Lines(text)|)
            && r.invalidUtf8Replacements == multiset(text)['\U{FFFD}'] && r.groupsSeen == |groups|
  {
    hide Step, Classify, Replacements;
    var lines, k := Lines(text), Replacements(text);
    AfterReports(k, lines, |lines|);
    AfterIsOk(k, lines, |lines|);
    ReplacementsAreCounted(text);
    ReplacementsStay(k, lines, |lines|);
  }

  lemma {:induction false} ReplacementsStay(k: nat, lines: seq<string>, n: nat)
    requires n <= |lines|
    ensures After(Initial(k), lines, n).report.invalidUtf8Replacements == k
  {
    hide Classify, Step;
    if n > 0 {
      ReplacementsStay(k, lines, n - 1);
      StepKeepsReplacements(After(Initial(k), lines, n - 1), Classify(lines[n - 1], n == 1));
    }
  }

  lemma StepKeepsReplacements(st: State, line: Line)
    ensures Step(st, line).report.invalidUtf8Replacements == st.report.invalidUtf8Replacements
  {
    hide MakeRule, Bound;
  }

  /** A directive that is kept is kept with its name, cut to 128 bytes, and its value, cut to 512. */
  lemma AdvisoryIsKept(st: State, name: string, value: string)
    requires st.current.Some? && st.advisoriesRetained < 32
    ensures var before, after := st.current.value.advisories, Step(st, Other(name, value)).current.value.advisories;
            && |after| == |before| + 1 && after[..|before|] == before
            && after[|before|].0 <= name && ByteLength(after[|before|].0) <= 128
            && (ByteLength(name) <= 128 ==> after[|before|].0 == name)
            && after[|before|].1 <= value && ByteLength(after[|before|].1) <= 512
            && (ByteLength(value) <= 512 ==> after[|before|].1 == value)
  {
  }
}

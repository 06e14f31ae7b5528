/** `validate_plan` of `src/agent_workflow.rs`. */
module WorkflowPlan {
  import opened Octets
  import opened Json
  import T = Text
  import S = Secrets

  const PLAN_SCHEMA := "plasmate.agent-workflow.v1"
  const MAX_STEPS := 64
  const MAX_ARGUMENT_BYTES := 64 * 1024
  const MAX_NAME_BYTES := 128
  const MAX_ID_BYTES := 64
  const MAX_RESPONSE_BYTES_CEILING := 1024 * 1024

  datatype Tool =
    | OpenPage | NavigateTo | Click | TypeText | SelectOption | Scroll | Toggle | Clear | Evaluate
    | GetCookies | SetCookies | ClearCookies | TraceStatus | TraceExport | TraceClear | ReplayValidate
    | ClosePage | Unsupported

  predicate AllowedTool(t: Tool) { !t.ClosePage? && !t.Unsupported? }

  predicate MutatesPage(t: Tool) {
    || t.NavigateTo? || t.Click? || t.TypeText? || t.SelectOption? || t.Scroll? || t.Toggle? || t.Clear?
    || t.Evaluate? || t.SetCookies? || t.ClearCookies? || t.TraceClear?
  }

  predicate CookieWrite(t: Tool) { t.SetCookies? || t.ClearCookies? }

  datatype Expectation = Expectation(isError: bool, pointer: Option<string>, equals: Option<Json>)

  datatype Step = Step(id: string, tool: Tool, arguments: Json, expected: Expectation)

  datatype Limits = Limits(stepTimeoutMs: nat, workflowTimeoutMs: nat, responseBytes: nat, stderrBytes: nat,
                           memoryMb: nat, failFast: bool)

  datatype Plan = Plan(schema: string, name: string, trace: bool, limits: Limits, steps: seq<Step>)

  datatype Options = Options(dryRun: bool, allowEvaluate: bool, allowCookieWrites: bool, confirmSteps: seq<string>)

  predicate LabelChar(c: char) {
    'a' <= c <= 'z' || 'A' <= c <= 'Z' || '0' <= c <= '9' || c == '-' || c == '_' || c == '.' || c == ' '
  }

  predicate LabelOk(value: string, max: nat) {
    value != "" && T.ByteLength(value) <= max && forall c | c in value :: LabelChar(c)
  }

  predicate LimitsOk(l: Limits) {
    && 10 <= l.stepTimeoutMs <= 60000
    && l.stepTimeoutMs <= l.workflowTimeoutMs <= 600000
    && 1024 <= l.responseBytes <= MAX_RESPONSE_BYTES_CEILING
    && l.stderrBytes <= MAX_RESPONSE_BYTES_CEILING
    && l.memoryMb <= 16 * 1024
  }

  predicate ExpectationOk(e: Expectation) {
    && (e.pointer.None? ==> e.equals.None?)
    && (e.pointer.Some? ==> e.pointer.value == "" || e.pointer.value[0] == '/')
  }

  /** What is asked of one step on its own; `size` is the length of the serialised arguments. */
  predicate StepOk(s: Step, options: Options, size: Json -> nat) {
    && LabelOk(s.id, MAX_ID_BYTES) && AllowedTool(s.tool)
    && s.arguments.Obj? && Get(s.arguments, "session_id").None?
    && (s.tool.OpenPage? ==> Get(s.arguments, "trace").None?)
    && size(s.arguments) <= MAX_ARGUMENT_BYTES
    && S.WellFormed(s.arguments)
    && (s.tool.Evaluate? ==> options.allowEvaluate)
    && (CookieWrite(s.tool) ==> options.allowCookieWrites)
    && ExpectationOk(s.expected)
  }

  predicate AllOk(steps: seq<Step>, options: Options, size: Json -> nat) {
    forall i | 0 <= i < |steps| :: StepOk(steps[i], options, size)
  }

  predicate Distinct<T(==)>(items: seq<T>) {
    forall i, j | 0 <= i < j < |items| :: items[i] != items[j]
  }

  function Ids(steps: seq<Step>): seq<string> {
    seq(|steps|, i requires 0 <= i < |steps| => steps[i].id)
  }

  /** A plan that may be run: the session is opened by the first step and by no other, step ids are unique, and
    * every step that changes a page is approved by name. */
  predicate PlanOk(plan: Plan, options: Options, size: Json -> nat) {
    && plan.schema == PLAN_SCHEMA
    && LabelOk(plan.name, MAX_NAME_BYTES)
    && 1 <= |plan.steps| <= MAX_STEPS
    && LimitsOk(plan.limits)
    && plan.steps[0].tool.OpenPage?
    && AllOk(plan.steps, options, size)
    && (forall i | 0 < i < |plan.steps| :: !plan.steps[i].tool.OpenPage?)
    && Distinct(Ids(plan.steps))
    && Distinct(options.confirmSteps)
    && (forall id | id in options.confirmSteps :: id in Ids(plan.steps))
    && (forall i | 0 <= i < |plan.steps| && MutatesPage(plan.steps[i].tool) :: plan.steps[i].id in options.confirmSteps)
  }

  ghost function SecretsOf(steps: seq<Step>): set<string> {
    set i, n | 0 <= i < |steps| && n in S.Names(steps[i].arguments) :: n
  }

  lemma SecretsOfAppend(steps: seq<Step>, s: Step)
    ensures SecretsOf(steps + [s]) == SecretsOf(steps) + S.Names(s.arguments)
  {
    var all := steps + [s];
    forall n
      ensures n in SecretsOf(all) <==> n in SecretsOf(steps) || n in S.Names(s.arguments)
    {
      if n in SecretsOf(steps) {
        var i :| 0 <= i < |steps| && n in S.Names(steps[i].arguments);
        assert all[i] == steps[i];
      }
      if n in S.Names(s.arguments) {
        assert all[|steps|] == s;
      }
    }
  }

  /** One round of the loop over the steps. */
  method CheckStep(s: Step, options: Options, size: Json -> nat, secrets: set<string>)
    returns (ok: bool, more: set<string>)
    ensures ok <==> StepOk(s, options, size)
    ensures ok ==> more == secrets + S.Names(s.arguments)
  {
    more := secrets;
    if !LabelOk(s.id, MAX_ID_BYTES) || !AllowedTool(s.tool) || !s.arguments.Obj? {
      return false, more;
    }
    if Get(s.arguments, "session_id").Some? || (s.tool.OpenPage? && Get(s.arguments, "trace").Some?) {
      return false, more;
    }
    if size(s.arguments) > MAX_ARGUMENT_BYTES {
      return false, more;
    }
    var fine;
    fine, more := S.CollectSecretRefs(s.arguments, secrets);
    if !fine {
      return false, more;
    }
    if (s.tool.Evaluate? && !options.allowEvaluate) || (CookieWrite(s.tool) && !options.allowCookieWrites) {
      return false, more;
    }
    ok := ExpectationOk(s.expected);
  }

  lemma OnlyFirstOpens(steps: seq<Step>)
    requires steps != [] && steps[0].tool.OpenPage?
    ensures OpenCount(steps) == 1 <==> forall i | 0 < i < |steps| :: !steps[i].tool.OpenPage?
    ensures OpenCount(steps) >= 1
  {
    var n := |steps| - 1;
    if n > 0 {
      OnlyFirstOpens(steps[..n]);
    }
  }

  function OpenCount(steps: seq<Step>): nat {
    if steps == [] then 0 else OpenCount(steps[..|steps| - 1]) + if steps[|steps| - 1].tool.OpenPage? then 1 else 0
  }

  lemma AllOkAppend(steps: seq<Step>, n: nat, options: Options, size: Json -> nat)
    requires n < |steps|
    ensures AllOk(steps[..n + 1], options, size)
       <==> AllOk(steps[..n], options, size) && StepOk(steps[n], options, size)
    ensures AllOk(steps, options, size) ==> AllOk(steps[..n + 1], options, size)
  {
    hide StepOk;
    if AllOk(steps[..n + 1], options, size) {
      forall i | 0 <= i < n
        ensures StepOk(steps[..n][i], options, size)
      {
        assert steps[..n][i] == steps[..n + 1][i];
      }
      assert steps[..n + 1][n] == steps[n];
    }
  }

  /** The loop over the steps: unique ids, a running count of open steps, and the set of secret names. */
  method CheckSteps(steps: seq<Step>, options: Options, size: Json -> nat)
    returns (ok: bool, ids: set<string>, secrets: set<string>, openCount: nat)
    ensures ok <==> AllOk(steps, options, size) && Distinct(Ids(steps))
    ensures ok ==> secrets == SecretsOf(steps) && openCount == OpenCount(steps)
    ensures ok ==> forall id :: id in ids <==> id in Ids(steps)
  {
    hide StepOk;
    ids, secrets, openCount := {}, {}, 0;
    for n := 0 to |steps|
      invariant AllOk(steps[..n], options, size) && Distinct(Ids(steps[..n]))
      invariant forall id :: id in ids <==> id in Ids(steps[..n])
      invariant secrets == SecretsOf(steps[..n]) && openCount == OpenCount(steps[..n])
    {
      IdsAppend(steps, n);
      AllOkAppend(steps, n, options, size);
      if steps[n].id in ids {
        return false, ids, secrets, openCount;
      }
      var fine;
      fine, secrets := CheckStep(steps[n], options, size, secrets);
      if !fine {
        return false, ids, secrets, openCount;
      }
      SecretsOfAppend(steps[..n], steps[n]);
      OpenCountAppend(steps, n);
      ids := ids + {steps[n].id};
      if steps[n].tool.OpenPage? {
        openCount := openCount + 1;
      }
    }
    assert steps[..|steps|] == steps;
    ok := true;
  }

  lemma OpenCountAppend(steps: seq<Step>, n: nat)
    requires n < |steps|
    ensures steps[..n + 1] == steps[..n] + [steps[n]]
    ensures OpenCount(steps[..n + 1]) == OpenCount(steps[..n]) + if steps[n].tool.OpenPage? then 1 else 0
  {
    assert steps[..n + 1][..n] == steps[..n];
  }

  lemma IdsAppend(steps: seq<Step>, n: nat)
    requires n < |steps|
    ensures Ids(steps[..n + 1]) == Ids(steps[..n]) + [steps[n].id]
    ensures Distinct(Ids(steps[..n])) && steps[n].id !in Ids(steps[..n]) ==> Distinct(Ids(steps[..n + 1]))
    ensures forall id :: id in Ids(steps[..n + 1]) <==> id in Ids(steps[..n]) || id == steps[n].id
    ensures steps[n].id in Ids(steps[..n]) ==> !Distinct(Ids(steps))
  {
    var before, after := Ids(steps[..n]), Ids(steps[..n + 1]);
    assert after == before + [steps[n].id];
    if steps[n].id in before {
      var i :| 0 <= i < n && before[i] == steps[n].id;
      assert Ids(steps)[i] == Ids(steps)[n];
    }
  }

  /** The loop over the approvals. */
  method CheckApprovals(confirm: seq<string>, ids: set<string>) returns (ok: bool, approvals: set<string>)
    ensures ok <==> Distinct(confirm) && forall id | id in confirm :: id in ids
    ensures ok ==> forall id :: id in approvals <==> id in confirm
  {
    approvals := {};
    for n := 0 to |confirm|
      invariant Distinct(confirm[..n]) && forall id | id in confirm[..n] :: id in ids
      invariant forall id :: id in approvals <==> id in confirm[..n]
    {
      if confirm[n] in approvals {
        var i :| 0 <= i < n && confirm[i] == confirm[n];
        return false, approvals;
      }
      if confirm[n] !in ids {
        return false, approvals;
      }
      assert confirm[..n + 1] == confirm[..n] + [confirm[n]];
      approvals := approvals + {confirm[n]};
    }
    assert confirm[..|confirm|] == confirm;
    ok := true;
  }

  /** Every step that changes a page must be approved. */
  method CheckMutations(steps: seq<Step>, approvals: set<string>) returns (ok: bool)
    ensures ok <==> forall i | 0 <= i < |steps| && MutatesPage(steps[i].tool) :: steps[i].id in approvals
  {
    for n := 0 to |steps|
      invariant forall i | 0 <= i < n && MutatesPage(steps[i].tool) :: steps[i].id in approvals
    {
      if MutatesPage(steps[n].tool) && steps[n].id !in approvals {
        return false;
      }
    }
    ok := true;
  }

  /** `validate_plan`: on acceptance, the names of all secrets the plan refers to. */
  method ValidatePlan(plan: Plan, options: Options, size: Json -> nat) returns (r: Option<set<string>>)
    ensures r.Some? <==> PlanOk(plan, options, size)
    ensures r.Some? ==> r.value == SecretsOf(plan.steps)
  {
    if plan.schema != PLAN_SCHEMA || !LabelOk(plan.name, MAX_NAME_BYTES) {
      return None;
    }
    if |plan.steps| == 0 || |plan.steps| > MAX_STEPS || !LimitsOk(plan.limits) || !plan.steps[0].tool.OpenPage? {
      return None;
    }
    var ok, ids, secrets, openCount := CheckSteps(plan.steps, options, size);
    if !ok {
      return None;
    }
    OnlyFirstOpens(plan.steps);
    if openCount != 1 {
      return None;
    }
    var approved, approvals := CheckApprovals(options.confirmSteps, ids);
    if !approved {
      return None;
    }
    var mutationsApproved := CheckMutations(plan.steps, approvals);
    if !mutationsApproved {
      return None;
    }
    r := Some(secrets);
  }

  // ---- the rules of a plan, in numbers and names

  const MUTATING: set<Tool> := {NavigateTo, Click, TypeText, SelectOption, Scroll, Toggle, Clear, Evaluate, SetCookies,
                                ClearCookies, TraceClear}

  const HARMLESS: set<Tool> := {OpenPage, GetCookies, TraceStatus, TraceExport, ReplayValidate}

  /** Letters, digits, hyphens, underscores, periods and spaces, at least one and at most so many bytes. */
  predicate IsLabel(value: string, max: nat) {
    && 1 <= |value| && T.ByteLength(value) <= max
    && forall i | 0 <= i < |value| ::
         || 'a' <= value[i] <= 'z' || 'A' <= value[i] <= 'Z' || '0' <= value[i] <= '9'
         || value[i] == '-' || value[i] == '_' || value[i] == '.' || value[i] == ' '
  }

  /** What a plan may ask of a step. */
  predicate MayRun(s: Step, options: Options, size: Json -> nat) {
    && IsLabel(s.id, 64) && s.tool in MUTATING + HARMLESS
    && s.arguments.Obj? && S.WellFormed(s.arguments) && size(s.arguments) <= 65536
    && Get(s.arguments, "session_id").None? && (s.tool == OpenPage ==> Get(s.arguments, "trace").None?)
    && (s.tool == Evaluate ==> options.allowEvaluate)
    && (s.tool in {SetCookies, ClearCookies} ==> options.allowCookieWrites)
    && (s.expected.equals.Some? ==> s.expected.pointer.Some?)
    && (s.expected.pointer.Some? ==> s.expected.pointer.value == "" || s.expected.pointer.value[0] == '/')
  }

  lemma StepRules(s: Step, options: Options, size: Json -> nat)
    ensures StepOk(s, options, size) <==> MayRun(s, options, size)
  {
    hide T.ByteLength;
    LabelRules(s.id, 64);
    assert s.tool in MUTATING + HARMLESS <==> AllowedTool(s.tool);
    hide LabelOk, IsLabel;
  }

  lemma LabelRules(value: string, max: nat)
    ensures LabelOk(value, max) <==> IsLabel(value, max)
  {
    assert forall i | 0 <= i < |value| :: value[i] in value;
  }

  lemma ToolRules(t: Tool)
    ensures MutatesPage(t) <==> t in MUTATING
  {
  }

  /** Which plans are accepted: at most 64 steps of known tools with distinct names, the session opened first and once,
    * every mutating tool approved by the name of its step, no approval that names nothing or comes twice, and all
    * limits in their ranges. */
  lemma PlanRules(plan: Plan, options: Options, size: Json -> nat)
    ensures PlanOk(plan, options, size) <==>
              && plan.schema == "plasmate.agent-workflow.v1" && IsLabel(plan.name, 128)
              && 1 <= |plan.steps| <= 64
              && 10 <= plan.limits.stepTimeoutMs <= 60_000 && plan.limits.workflowTimeoutMs <= 600_000
              && plan.limits.stepTimeoutMs <= plan.limits.workflowTimeoutMs
              && 1024 <= plan.limits.responseBytes <= 1_048_576 && plan.limits.stderrBytes <= 1_048_576
              && plan.limits.memoryMb <= 16_384
              && (forall i | 0 <= i < |plan.steps| ::
                    && MayRun(plan.steps[i], options, size) && (plan.steps[i].tool == OpenPage <==> i == 0)
                    && (plan.steps[i].tool in MUTATING ==> plan.steps[i].id in options.confirmSteps))
              && (forall i, j | 0 <= i < j < |plan.steps| :: plan.steps[i].id != plan.steps[j].id)
              && (forall i, j | 0 <= i < j < |options.confirmSteps| ::
                    options.confirmSteps[i] != options.confirmSteps[j])
              && (forall id | id in options.confirmSteps :: exists i | 0 <= i < |plan.steps| :: plan.steps[i].id == id)
  {
    hide StepOk, MayRun, MutatesPage;
    LabelRules(plan.name, 128);
    hide LabelOk, IsLabel;
    forall i | 0 <= i < |plan.steps|
      ensures StepOk(plan.steps[i], options, size) <==> MayRun(plan.steps[i], options, size)
      ensures MutatesPage(plan.steps[i].tool) <==> plan.steps[i].tool in MUTATING
    {
      StepRules(plan.steps[i], options, size);
      ToolRules(plan.steps[i].tool);
    }
    var ids := Ids(plan.steps);
    assert |ids| == |plan.steps| && forall i | 0 <= i < |ids| :: ids[i] == plan.steps[i].id;
    forall id
      ensures id in ids <==> exists i | 0 <= i < |plan.steps| :: plan.steps[i].id == id
    {
      if i :| 0 <= i < |plan.steps| && plan.steps[i].id == id {
        assert ids[i] == id;
      }
    }
    assert Distinct(ids) <==> forall i, j | 0 <= i < j < |plan.steps| :: plan.steps[i].id != plan.steps[j].id;
  }
}

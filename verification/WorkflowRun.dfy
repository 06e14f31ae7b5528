/** The workflow runner of `src/agent_workflow.rs`. The child, the clock and the environment are a `World` of
  * arbitrary answers; what is sent to the child is recorded in order.
  */
module WorkflowRun {
  import opened Octets
  import opened Json
  import opened WorkflowPlan
  import T = Text
  import S = Secrets

  datatype Failure =
    | WorkflowTimeout | StepTimeout | OversizedResponse | EarlyExit | WriteFailed | ReadFailed
    | MalformedResponse | ProtocolMismatch | JsonRpcError | MissingResult
    | ToolErrorExpectation | PathMissing | ExpectationMismatch
    | InvalidSession | MissingSession | FailFast
    | MissingSecret | InvalidReference | SecretTooLarge | ArgumentsTooLarge
    | SpawnFailed | SchemaDrift | ArgumentSchemaInvalid

  /** What one exchange with the child yields; a reply that is not JSON has no body. */
  datatype Exchange = NoReply(failure: Failure) | Reply(body: Option<Json>)

  /** An attempt to use the child: whether any time is left for it, and what would come back. */
  datatype Turn = Turn(timeLeft: bool, exchange: Exchange)

  datatype Exit = Exited(code: int) | Signaled | TimedOut

  datatype World = World(env: S.Environment, spawns: bool, initialize: Turn, notified: Option<Failure>, list: Turn,
                         overTime: nat -> bool, turns: nat -> Turn, close: Turn, exit: Exit)

  /** Library calls: serialised size, JSON parsing, JSON pointers, and what the argument validator finds wrong. */
  datatype Library = Library(size: Json -> nat, parse: string -> Option<Json>,
                             pointer: (Json, string) -> Option<Json>, check: (Json, Json) -> Option<Failure>)

  datatype Request =
    | Initialize(id: nat)
    | ListTools(id: nat)
    | Call(id: nat, tool: Tool, arguments: Json, step: nat)
    | Close(id: nat, session: string)

  datatype Status = Succeeded | Failed | Skipped

  datatype StepReport = StepReport(status: Status, approved: bool, failure: Option<Failure>)

  datatype WorkflowStatus = Validated | AllSucceeded | NotSucceeded

  datatype Report = Report(status: WorkflowStatus, succeeded: nat, failed: nat, skipped: nat, steps: seq<StepReport>,
                           exit: Option<Exit>)

  // ---- one exchange

  datatype Answer = Good(response: Json) | Bad(failure: Failure)

  predicate IsId(value: Option<Json>, id: nat) { match value case Some(Int(n)) => n == id case _ => false }

  /** `rpc_request`. */
  function RpcRequest(turn: Turn, id: nat): Answer {
    if !turn.timeLeft then Bad(WorkflowTimeout)
    else
      match turn.exchange
      case NoReply(f) => Bad(f)
      case Reply(None) => Bad(MalformedResponse)
      case Reply(Some(response)) =>
        if Get(response, "jsonrpc") != Some(Str("2.0")) || !IsId(Get(response, "id"), id) then Bad(ProtocolMismatch)
        else if Get(response, "error").Some? then Bad(JsonRpcError)
        else if Get(response, "result").None? then Bad(MissingResult)
        else Good(response)
  }

  datatype Evaluated = Accepted(payload: Option<Json>) | Refused(failure: Failure)

  function FirstText(result: Json): Option<string> {
    match Get(result, "content")
    case Some(Arr(items)) =>
      if items == [] then None
      else (match Get(items[0], "text") case Some(Str(text)) => Some(text) case _ => None)
    case _ => None
  }

  /** `evaluate_response`, for a response that has a result. */
  function EvaluateResponse(response: Json, expected: Expectation, lib: Library): Evaluated {
    match Get(response, "result")
    case None => Refused(MissingResult)
    case Some(result) =>
      var isError := Get(result, "isError") == Some(Bool(true));
      if isError != expected.isError then Refused(ToolErrorExpectation)
      else
        var payload := match FirstText(result) case Some(text) => lib.parse(text) case None => None;
        if expected.pointer.None? then Accepted(payload)
        else
          var actual := if payload.Some? then lib.pointer(payload.value, expected.pointer.value) else None;
          if actual.None? then Refused(PathMissing)
          else if expected.equals.Some? && actual.value != expected.equals.value then Refused(ExpectationMismatch)
          else Accepted(payload)
  }

  /** The session id a payload offers, if it is usable. */
  function SessionOf(payload: Option<Json>): Option<string> {
    if payload.None? then None
    else
      match Get(payload.value, "session_id")
      case Some(Str(id)) => if id != "" && T.ByteLength(id) <= 64 then Some(id) else None
      case _ => None
  }

  /** `Map::insert`. */
  function Insert(j: Json, key: string, value: Json): (r: Json)
    requires j.Obj?
    ensures r.Obj? && Get(r, key) == Some(value)
    ensures forall other | other != key :: Get(r, other) == Get(j, other)
  {
    Obj(InsertMember(j.members, key, value, 0))
  }

  function InsertMember(members: seq<Member>, key: string, value: Json, i: nat): (r: seq<Member>)
    requires i <= |members| && forall k | 0 <= k < i :: members[k].key != key
    ensures GetMember(r, key, 0) == Some(value)
    ensures |r| >= |members|
    ensures forall m | m in members && m.key != key :: m in r
    ensures forall other | other != key :: GetMember(r, other, 0) == GetMember(members, other, 0)
    decreases |members| - i
  {
    if i == |members| then
      var r := members + [Member(key, value)];
      GetMemberAt(r, key, 0, i);
      OthersAreKept(members, r, key, i, 0);
      r
    else if members[i].key == key then
      var r := members[i := Member(key, value)];
      GetMemberAt(r, key, 0, i);
      OthersAreKept(members, r, key, i, 0);
      assert forall m | m in members && m.key != key :: m in r by {
        forall m | m in members && m.key != key
          ensures m in r
        {
          var k :| 0 <= k < |members| && members[k] == m;
          assert r[k] == m;
        }
      }
      r
    else InsertMember(members, key, value, i + 1)
  }

  lemma {:induction false} GetMemberAt(members: seq<Member>, key: string, from: nat, i: nat)
    requires from <= i < |members| && members[i].key == key && forall k | from <= k < i :: members[k].key != key
    ensures GetMember(members, key, from) == Some(members[i].value)
    decreases i - from
  {
    if from < i {
      GetMemberAt(members, key, from + 1, i);
    }
  }

  /** A member that is put at a place where there was none of another key changes no lookup but its own. */
  lemma {:induction false} OthersAreKept(before: seq<Member>, after: seq<Member>, key: string, i: nat, from: nat)
    requires i < |after| && after[i].key == key && from <= |before| <= |after| <= |before| + 1
    requires |after| > |before| ==> i == |before|
    requires i < |before| ==> before[i].key == key
    requires forall k | 0 <= k < |before| && k != i :: after[k] == before[k]
    ensures forall other | other != key :: GetMember(after, other, from) == GetMember(before, other, from)
    decreases |before| - from
  {
    if from < |before| {
      OthersAreKept(before, after, key, i, from + 1);
    }
  }

  // ---- the loop over the steps

  /** What stays fixed while the steps run. */
  datatype Context = Context(plan: Plan, approved: set<string>, arguments: seq<Json>, world: World, lib: Library)

  predicate Ready(c: Context) {
    |c.arguments| == |c.plan.steps| && forall i | 0 <= i < |c.arguments| :: c.arguments[i].Obj?
  }

  datatype RunState = RunState(steps: seq<StepReport>, session: Option<string>, stop: bool, transportFailed: bool,
                               requestId: nat, sent: seq<Request>)

  function BaseSteps(steps: seq<Step>, approved: set<string>): seq<StepReport> {
    seq(|steps|, i requires 0 <= i < |steps| => StepReport(Skipped, steps[i].id in approved, None))
  }

  function Begin(c: Context): RunState {
    RunState(BaseSteps(c.plan.steps, c.approved), None, false, false, 2, [])
  }

  function Mark(steps: seq<StepReport>, i: nat, status: Status, failure: Option<Failure>): seq<StepReport>
    requires i < |steps|
  {
    steps[i := steps[i].(status := status, failure := failure)]
  }

  /** The arguments a step is called with. */
  function CallArguments(c: Context, i: nat, session: string): Json
    requires Ready(c) && i < |c.plan.steps|
  {
    if c.plan.steps[i].tool.OpenPage? then Insert(c.arguments[i], "trace", Bool(c.plan.trace))
    else Insert(c.arguments[i], "session_id", Str(session))
  }

  /** The state after the first `n` steps. */
  function After(c: Context, n: nat): (s: RunState)
    requires Ready(c) && n <= |c.plan.steps|
    ensures |s.steps| == |c.plan.steps|
    decreases n, 0
  {
    if n == 0 then Begin(c) else AfterStep(c, n - 1)
  }

  /** Step `i` is skipped, fails without a call, or is called. */
  function AfterStep(c: Context, i: nat): (t: RunState)
    requires Ready(c) && i < |c.plan.steps|
    ensures |t.steps| == |c.plan.steps|
    decreases i, 3
  {
    var s := After(c, i);
    if s.stop then s.(steps := Mark(s.steps, i, Skipped, Some(FailFast)))
    else if c.world.overTime(i) then s.(steps := Mark(s.steps, i, Failed, Some(WorkflowTimeout)), stop := true)
    else if !c.plan.steps[i].tool.OpenPage? && s.session.None? then
      s.(steps := Mark(s.steps, i, Failed, Some(MissingSession)), stop := c.plan.limits.failFast)
    else AfterCall(c, i)
  }

  /** The request step `i` makes, under the next id and with the session held so far. */
  function NextCall(c: Context, i: nat): Request
    requires Ready(c) && i < |c.plan.steps|
    decreases i, 1
  {
    var s := After(c, i);
    Call(s.requestId + 1, c.plan.steps[i].tool, CallArguments(c, i, s.session.GetOr("")), i)
  }

  function AfterCall(c: Context, i: nat): (t: RunState)
    requires Ready(c) && i < |c.plan.steps|
    ensures |t.steps| == |c.plan.steps|
    decreases i, 2
  {
    var s := After(c, i);
    var step, turn, id := c.plan.steps[i], c.world.turns(i), s.requestId + 1;
    var t := s.(requestId := id, sent := if turn.timeLeft then s.sent + [NextCall(c, i)] else s.sent);
    match RpcRequest(turn, id)
    case Bad(f) => t.(steps := Mark(t.steps, i, Failed, Some(f)), stop := true, transportFailed := true)
    case Good(response) =>
      match EvaluateResponse(response, step.expected, c.lib)
      case Refused(f) => t.(steps := Mark(t.steps, i, Failed, Some(f)), stop := c.plan.limits.failFast)
      case Accepted(payload) =>
        if !step.tool.OpenPage? then t.(steps := Mark(t.steps, i, Succeeded, None))
        else if SessionOf(payload).None? then
          t.(steps := Mark(t.steps, i, Failed, Some(InvalidSession)), session := None, stop := c.plan.limits.failFast)
        else t.(steps := Mark(t.steps, i, Succeeded, None), session := SessionOf(payload))
  }

  /** The loop of the runner. */
  method RunSteps(c: Context) returns (s: RunState)
    requires Ready(c)
    ensures s == After(c, |c.plan.steps|)
  {
    var steps := BaseSteps(c.plan.steps, c.approved);
    var session: Option<string>, stop, transportFailed := None, false, false;
    var requestId: nat, sent: seq<Request> := 2, [];
    for index := 0 to |c.plan.steps|
      invariant RunState(steps, session, stop, transportFailed, requestId, sent) == After(c, index)
    {
      assert After(c, index + 1) == AfterStep(c, index);
      var step := c.plan.steps[index];
      if stop {
        steps := Mark(steps, index, Skipped, Some(FailFast));
        continue;
      }
      if c.world.overTime(index) {
        steps := Mark(steps, index, Failed, Some(WorkflowTimeout));
        stop := true;
        continue;
      }
      var arguments;
      if step.tool.OpenPage? {
        arguments := Insert(c.arguments[index], "trace", Bool(c.plan.trace));
      } else if session.Some? {
        arguments := Insert(c.arguments[index], "session_id", Str(session.value));
      } else {
        steps := Mark(steps, index, Failed, Some(MissingSession));
        stop := c.plan.limits.failFast;
        continue;
      }
      assert AfterStep(c, index) == AfterCall(c, index);
      requestId := requestId + 1;
      assert Call(requestId, step.tool, arguments, index) == NextCall(c, index);
      var turn := c.world.turns(index);
      if turn.timeLeft {
        sent := sent + [Call(requestId, step.tool, arguments, index)];
      }
      match RpcRequest(turn, requestId)
      case Bad(failure) =>
        steps := Mark(steps, index, Failed, Some(failure));
        stop := true;
        transportFailed := true;
      case Good(response) =>
        match EvaluateResponse(response, step.expected, c.lib)
        case Refused(failure) =>
          steps := Mark(steps, index, Failed, Some(failure));
          stop := c.plan.limits.failFast;
        case Accepted(payload) =>
          if step.tool.OpenPage? {
            session := SessionOf(payload);
            if session.None? {
              steps := Mark(steps, index, Failed, Some(InvalidSession));
              stop := c.plan.limits.failFast;
              continue;
            }
          }
          steps := Mark(steps, index, Succeeded, None);
    }
    s := RunState(steps, session, stop, transportFailed, requestId, sent);
  }

  // ---- before the loop

  /** The argument trees with their secrets filled in, or the first failure. */
  function ResolveAll(steps: seq<Step>, env: S.Environment): (r: S.Resolution<seq<Json>>)
    ensures r.Ok? ==> |r.value| == |steps|
    ensures r.Ok? ==> forall i | 0 <= i < |steps| :: S.Resolve(steps[i].arguments, env) == S.Ok(r.value[i])
    ensures !r.Ok? ==> exists i | 0 <= i < |steps| :: !S.Resolve(steps[i].arguments, env).Ok?
  {
    if steps == [] then S.Ok([])
    else
      match ResolveAll(steps[..|steps| - 1], env)
      case Ok(front) =>
        (match S.Resolve(steps[|steps| - 1].arguments, env)
         case Ok(last) => S.Ok(front + [last])
         case InvalidReference => S.InvalidReference
         case MissingSecret => S.MissingSecret
         case SecretTooLarge => S.SecretTooLarge)
      case InvalidReference => S.InvalidReference
      case MissingSecret => S.MissingSecret
      case SecretTooLarge => S.SecretTooLarge
  }

  function ResolutionFailure(r: S.Resolution<seq<Json>>): Failure {
    match r
    case MissingSecret => MissingSecret
    case SecretTooLarge => SecretTooLarge
    case _ => InvalidReference
  }

  /** The tool names a child may advertise. */
  function ToolName(t: Tool): string {
    match t
    case OpenPage => "open_page"
    case NavigateTo => "navigate_to"
    case Click => "click"
    case TypeText => "type_text"
    case SelectOption => "select_option"
    case Scroll => "scroll"
    case Toggle => "toggle"
    case Clear => "clear"
    case Evaluate => "evaluate"
    case GetCookies => "get_cookies"
    case SetCookies => "set_cookies"
    case ClearCookies => "clear_cookies"
    case TraceStatus => "trace_status"
    case TraceExport => "trace_export"
    case TraceClear => "trace_clear"
    case ReplayValidate => "replay_validate"
    case ClosePage => "close_page"
    case Unsupported => ""
  }

  /** `advertised_schemas`: every tool has a name and a schema, and no name comes twice. */
  function Schemas(tools: seq<Json>): Option<map<string, Json>> {
    if tools == [] then Some(map[])
    else
      match Schemas(tools[..|tools| - 1])
      case None => None
      case Some(known) =>
        var tool := tools[|tools| - 1];
        match Get(tool, "name")
        case Some(Str(name)) =>
          if Get(tool, "inputSchema").None? || name in known then None
          else Some(known[name := Get(tool, "inputSchema").value])
        case _ => None
  }

  function AdvertisedSchemas(response: Json): Option<map<string, Json>> {
    match Get(response, "result")
    case Some(result) => (match Get(result, "tools") case Some(Arr(tools)) => Schemas(tools) case _ => None)
    case None => None
  }

  /** What is wrong with the arguments of one step, as far as can be told before there is a session. */
  function Mismatch(step: Step, trace: bool, arguments: Json, schemas: map<string, Json>, lib: Library)
    : Option<Failure>
  {
    if ToolName(step.tool) !in schemas then Some(SchemaDrift)
    else if !arguments.Obj? then Some(ArgumentSchemaInvalid)
    else
      lib.check(if step.tool.OpenPage? then Insert(arguments, "trace", Bool(trace))
                else Insert(arguments, "session_id", Str("validated-session-placeholder")),
                schemas[ToolName(step.tool)])
  }

  predicate MatchesUpTo(plan: Plan, arguments: seq<Json>, schemas: map<string, Json>, lib: Library, n: nat)
    requires n <= |plan.steps| == |arguments|
  {
    forall i | 0 <= i < n :: Mismatch(plan.steps[i], plan.trace, arguments[i], schemas, lib).None?
  }

  predicate Matches(plan: Plan, arguments: seq<Json>, schemas: map<string, Json>, lib: Library) {
    && ToolName(ClosePage) in schemas
    && |arguments| == |plan.steps| && MatchesUpTo(plan, arguments, schemas, lib, |plan.steps|)
  }

  /** `failure` is the first thing wrong with the advertised schemas. */
  ghost predicate FirstMismatch(plan: Plan, arguments: seq<Json>, schemas: map<string, Json>, lib: Library,
                                failure: Failure)
    requires |arguments| == |plan.steps|
  {
    if ToolName(ClosePage) !in schemas then failure == SchemaDrift
    else
      exists i | 0 <= i < |plan.steps| ::
        && MatchesUpTo(plan, arguments, schemas, lib, i)
        && Mismatch(plan.steps[i], plan.trace, arguments[i], schemas, lib) == Some(failure)
  }

  /** `validate_advertised_arguments`. */
  method CheckAdvertised(plan: Plan, arguments: seq<Json>, schemas: map<string, Json>, lib: Library)
    returns (failure: Option<Failure>)
    requires |arguments| == |plan.steps|
    ensures failure.None? <==> Matches(plan, arguments, schemas, lib)
    ensures failure.Some? ==> FirstMismatch(plan, arguments, schemas, lib, failure.value)
  {
    if ToolName(ClosePage) !in schemas {
      return Some(SchemaDrift);
    }
    for i := 0 to |plan.steps|
      invariant MatchesUpTo(plan, arguments, schemas, lib, i)
    {
      failure := Mismatch(plan.steps[i], plan.trace, arguments[i], schemas, lib);
      if failure.Some? {
        return;
      }
    }
    failure := None;
  }

  predicate Handshake(plan: Plan, arguments: seq<Json>, world: World, lib: Library) {
    && RpcRequest(world.initialize, 1).Good?
    && world.notified.None?
    && RpcRequest(world.list, 2).Good?
    && AdvertisedSchemas(RpcRequest(world.list, 2).response).Some?
    && Matches(plan, arguments, AdvertisedSchemas(RpcRequest(world.list, 2).response).value, lib)
  }

  /** Everything the parent can settle before there is a child. */
  predicate Prepared(plan: Plan, options: Options, world: World, lib: Library) {
    && !options.dryRun
    && ResolveAll(plan.steps, world.env).Ok?
    && (forall j | j in ResolveAll(plan.steps, world.env).value :: lib.size(j) <= MAX_ARGUMENT_BYTES)
    && world.spawns
  }

  /** The steps are reached: nothing before them fails. */
  predicate Launched(plan: Plan, options: Options, world: World, lib: Library) {
    && Prepared(plan, options, world, lib)
    && Handshake(plan, ResolveAll(plan.steps, world.env).value, world, lib)
  }

  ghost function LaunchContext(plan: Plan, options: Options, world: World, lib: Library): Context
    requires Launched(plan, options, world, lib)
  {
    Context(plan, (set id | id in options.confirmSteps), ResolveAll(plan.steps, world.env).value, world, lib)
  }

  function CountStatus(steps: seq<StepReport>, status: Status): nat {
    if steps == [] then 0
    else CountStatus(steps[..|steps| - 1], status) + if steps[|steps| - 1].status == status then 1 else 0
  }

  /** The steps of a status. */
  ghost function Places(steps: seq<StepReport>, status: Status): set<nat> {
    set i: nat | i < |steps| && steps[i].status == status
  }

  lemma {:induction false} CountsAddUp(steps: seq<StepReport>)
    ensures CountStatus(steps, Succeeded) + CountStatus(steps, Failed) + CountStatus(steps, Skipped) == |steps|
    ensures forall status :: CountStatus(steps, status) == |steps| <==> forall r | r in steps :: r.status == status
  {
    if steps != [] {
      var front, last := steps[..|steps| - 1], steps[|steps| - 1];
      CountsAddUp(front);
      assert steps == front + [last];
    }
  }

  lemma {:induction false} CountsPlaces(steps: seq<StepReport>, status: Status)
    ensures CountStatus(steps, status) == |Places(steps, status)|
  {
    if steps != [] {
      var n := |steps| - 1;
      CountsPlaces(steps[..n], status);
      var here: set<nat> := if steps[n].status == status then {n} else {};
      assert Places(steps, status) == Places(steps[..n], status) + here;
    }
  }

  /** `finish_summary`: what is neither succeeded nor failed is skipped. */
  function Summarized(steps: seq<StepReport>, exit: Option<Exit>): Report {
    CountsAddUp(steps);
    var succeeded, failed := CountStatus(steps, Succeeded), CountStatus(steps, Failed);
    var skipped := |steps| - succeeded - failed;
    Report(if failed == 0 && skipped == 0 then AllSucceeded else NotSucceeded, succeeded, failed, skipped, steps, exit)
  }

  /** `mark_all_skipped`. */
  function AllSkipped(steps: seq<StepReport>, failure: Failure, exit: Option<Exit>): Report {
    Summarized(seq(|steps|, i requires 0 <= i < |steps| => steps[i].(failure := Some(failure))), exit)
  }

  /** The request that closes the session, if one is due and there is time for it. */
  function CloseRequests(s: RunState, world: World): seq<Request> {
    if !s.transportFailed && s.session.Some? && world.close.timeLeft then [Close(s.requestId + 1, s.session.value)]
    else []
  }

  /** The report of a run that never came to its steps: all are skipped, for one reason. */
  predicate Unreached(report: Report, plan: Plan, options: Options, status: WorkflowStatus, failure: Option<Failure>) {
    && report.status == status && |report.steps| == |plan.steps|
    && report.succeeded == 0 && report.failed == 0 && report.skipped == |plan.steps|
    && forall i | 0 <= i < |plan.steps| ::
         report.steps[i] == StepReport(Skipped, plan.steps[i].id in options.confirmSteps, failure)
  }

  /** Why there is no child, for a plan that is no dry run. */
  ghost function Unprepared(plan: Plan, world: World, lib: Library): Failure {
    if exists n | n in SecretsOf(plan.steps) :: n !in world.env then MissingSecret
    else if exists n | n in SecretsOf(plan.steps) :: T.ByteLength(world.env[n]) > S.MAX_STRING_BYTES then SecretTooLarge
    else if ResolveAll(plan.steps, world.env).Ok?
            && exists j | j in ResolveAll(plan.steps, world.env).value :: lib.size(j) > MAX_ARGUMENT_BYTES then
      ArgumentsTooLarge
    else SpawnFailed
  }

  /** Why a child is sent nothing but the handshake. */
  ghost predicate HandshakeFails(plan: Plan, arguments: seq<Json>, world: World, lib: Library, failure: Failure)
    requires |arguments| == |plan.steps|
  {
    if RpcRequest(world.initialize, 1).Bad? then RpcRequest(world.initialize, 1) == Bad(failure)
    else if world.notified.Some? then world.notified == Some(failure)
    else if RpcRequest(world.list, 2).Bad? || AdvertisedSchemas(RpcRequest(world.list, 2).response).None? then
      failure == SchemaDrift
    else FirstMismatch(plan, arguments, AdvertisedSchemas(RpcRequest(world.list, 2).response).value, lib, failure)
  }

  /** What a child is sent before the steps. */
  function HandshakeSent(world: World): seq<Request> {
    (if world.initialize.timeLeft then [Initialize(1)] else [])
    + if RpcRequest(world.initialize, 1).Good? && world.notified.None? && world.list.timeLeft then [ListTools(2)]
      else []
  }

  /** The checks before the spawn, in their order, find this. */
  lemma UnpreparedIs(plan: Plan, world: World, lib: Library)
    requires forall i | 0 <= i < |plan.steps| :: S.WellFormed(plan.steps[i].arguments)
    ensures var r, f := ResolveAll(plan.steps, world.env), Unprepared(plan, world, lib);
            if exists n | n in SecretsOf(plan.steps) :: n !in world.env then f == MissingSecret && !r.Ok?
            else if !r.Ok? then f == ResolutionFailure(r)
            else if exists j | j in r.value :: lib.size(j) > MAX_ARGUMENT_BYTES then f == ArgumentsTooLarge
            else f == SpawnFailed
  {
    SecretsResolve(plan.steps, world.env);
  }

  method Prepare(plan: Plan, options: Options, secrets: set<string>, world: World, lib: Library, steps: seq<StepReport>)
    returns (arguments: Option<seq<Json>>, report: Report)
    requires secrets == SecretsOf(plan.steps)
    requires forall i | 0 <= i < |plan.steps| :: S.WellFormed(plan.steps[i].arguments)
    requires plan.steps != [] && steps == BaseSteps(plan.steps, set id | id in options.confirmSteps)
    ensures arguments.Some? <==> Prepared(plan, options, world, lib)
    ensures arguments.Some? ==> S.Ok(arguments.value) == ResolveAll(plan.steps, world.env)
    ensures arguments.None? ==>
              if options.dryRun then Unreached(report, plan, options, Validated, None)
              else Unreached(report, plan, options, NotSucceeded, Some(Unprepared(plan, world, lib)))
    ensures arguments.None? ==> report.exit == None
  {
    hide Unprepared, ResolveAll, AllSkipped, ResolutionFailure;
    UnpreparedIs(plan, world, lib);
    SkippedIsNotSucceeded(steps);
    report := Report(Validated, 0, 0, |steps|, steps, None);
    if options.dryRun {
      return None, report;
    }
    if exists n | n in secrets :: n !in world.env {
      return None, AllSkipped(steps, MissingSecret, None);
    }
    var resolution := ResolveAll(plan.steps, world.env);
    if !resolution.Ok? {
      return None, AllSkipped(steps, ResolutionFailure(resolution), None);
    }
    if exists j | j in resolution.value :: lib.size(j) > MAX_ARGUMENT_BYTES {
      return None, AllSkipped(steps, ArgumentsTooLarge, None);
    }
    if !world.spawns {
      return None, AllSkipped(steps, SpawnFailed, None);
    }
    arguments := Some(resolution.value);
  }

  method Greet(plan: Plan, options: Options, arguments: seq<Json>, world: World, lib: Library, steps: seq<StepReport>)
    returns (ok: bool, sent: seq<Request>, report: Report)
    requires plan.steps != [] && steps == BaseSteps(plan.steps, set id | id in options.confirmSteps)
    requires |arguments| == |plan.steps|
    ensures ok <==> Handshake(plan, arguments, world, lib)
    ensures sent == HandshakeSent(world) && (ok ==> sent == [Initialize(1), ListTools(2)])
    ensures !ok ==> exists f :: HandshakeFails(plan, arguments, world, lib, f)
                                && Unreached(report, plan, options, NotSucceeded, Some(f))
    ensures !ok ==> report.exit == Some(world.exit)
  {
    hide AllSkipped, Matches, FirstMismatch, AdvertisedSchemas;
    SkippedIsNotSucceeded(steps);
    sent := if world.initialize.timeLeft then [Initialize(1)] else [];
    var initialized := RpcRequest(world.initialize, 1);
    if initialized.Bad? {
      assert HandshakeFails(plan, arguments, world, lib, initialized.failure);
      return false, sent, AllSkipped(steps, initialized.failure, Some(world.exit));
    }
    if world.notified.Some? {
      assert HandshakeFails(plan, arguments, world, lib, world.notified.value);
      return false, sent, AllSkipped(steps, world.notified.value, Some(world.exit));
    }
    sent := if world.list.timeLeft then sent + [ListTools(2)] else sent;
    var listed := RpcRequest(world.list, 2);
    report := AllSkipped(steps, SchemaDrift, Some(world.exit));
    if listed.Bad? || AdvertisedSchemas(listed.response).None? {
      assert HandshakeFails(plan, arguments, world, lib, SchemaDrift);
      return false, sent, report;
    }
    var mismatch := CheckAdvertised(plan, arguments, AdvertisedSchemas(listed.response).value, lib);
    if mismatch.Some? {
      assert HandshakeFails(plan, arguments, world, lib, mismatch.value);
      return false, sent, AllSkipped(steps, mismatch.value, Some(world.exit));
    }
    ok := true;
  }

  /** After the loop: close the session, wait for the child and sum up. */
  method Finish(s: RunState, world: World) returns (report: Report, closing: seq<Request>)
    requires s.steps != []
    ensures closing == CloseRequests(s, world)
    ensures report.steps == s.steps && report.exit == Some(world.exit) && report.status != Validated
    ensures report.status == AllSucceeded
       <==> world.exit == Exited(0) && forall r | r in s.steps :: r.status == Succeeded
    ensures report.succeeded == |Places(s.steps, Succeeded)| && report.failed == |Places(s.steps, Failed)|
    ensures report.succeeded + report.failed + report.skipped == |s.steps|
  {
    closing := [];
    if !s.transportFailed {
      if s.session.Some? {
        if world.close.timeLeft {
          closing := [Close(s.requestId + 1, s.session.value)];
        }
      }
    }
    report := Summarized(s.steps, Some(world.exit));
    CountsAddUp(s.steps);
    CountsPlaces(s.steps, Succeeded);
    CountsPlaces(s.steps, Failed);
    if world.exit != Exited(0) {
      report := report.(status := NotSucceeded);
    }
  }

  /** `execute_with_child_environment`. */
  method Execute(plan: Plan, options: Options, secrets: set<string>, world: World, lib: Library)
    returns (report: Report, sent: seq<Request>)
    requires PlanOk(plan, options, lib.size) && secrets == SecretsOf(plan.steps)
    ensures Launched(plan, options, world, lib) ==>
              var s := After(LaunchContext(plan, options, world, lib), |plan.steps|);
              && report.steps == s.steps
              && sent == [Initialize(1), ListTools(2)] + s.sent + CloseRequests(s, world)
              && (report.status == AllSucceeded <==>
                    world.exit == Exited(0) && forall r | r in report.steps :: r.status == Succeeded)
              && report.status != Validated && report.exit == Some(world.exit)
    ensures Launched(plan, options, world, lib) ==>
              && report.succeeded == |Places(report.steps, Succeeded)|
              && report.failed == |Places(report.steps, Failed)|
              && report.succeeded + report.failed + report.skipped == |plan.steps|
    ensures Prepared(plan, options, world, lib) && !Launched(plan, options, world, lib) ==>
              sent == HandshakeSent(world) && report.exit == Some(world.exit)
    ensures !Prepared(plan, options, world, lib) ==> sent == [] && report.exit == None
    ensures options.dryRun ==> Unreached(report, plan, options, Validated, None)
    ensures !options.dryRun && !Prepared(plan, options, world, lib) ==>
              Unreached(report, plan, options, NotSucceeded, Some(Unprepared(plan, world, lib)))
    ensures Prepared(plan, options, world, lib) && !Launched(plan, options, world, lib) ==>
              exists f :: HandshakeFails(plan, ResolveAll(plan.steps, world.env).value, world, lib, f)
                          && Unreached(report, plan, options, NotSucceeded, Some(f))
  {
    var approved := set id | id in options.confirmSteps;
    var steps := BaseSteps(plan.steps, approved);
    assert forall i | 0 <= i < |plan.steps| :: S.WellFormed(plan.steps[i].arguments) by {
      forall i | 0 <= i < |plan.steps|
        ensures S.WellFormed(plan.steps[i].arguments)
      {
        assert StepOk(plan.steps[i], options, lib.size);
      }
    }
    sent := [];
    var arguments;
    arguments, report := Prepare(plan, options, secrets, world, lib, steps);
    if arguments.None? {
      return;
    }
    var ok;
    ok, sent, report := Greet(plan, options, arguments.value, world, lib, steps);
    if !ok {
      return;
    }
    var s := RunSteps(Context(plan, approved, arguments.value, world, lib));
    var closing;
    report, closing := Finish(s, world);
    sent := sent + s.sent + closing;
  }

  lemma {:induction false} AllBlamed(steps: seq<Step>, env: S.Environment)
    requires forall i | 0 <= i < |steps| :: S.WellFormed(steps[i].arguments)
    ensures S.Blamed(ResolveAll(steps, env), SecretsOf(steps), env)
  {
    if steps != [] {
      var front, last := steps[..|steps| - 1], steps[|steps| - 1];
      assert steps == front + [last];
      SecretsOfAppend(front, last);
      AllBlamed(front, env);
      S.FailureIsBlamed(last.arguments, env);
      var r := ResolveAll(steps, env);
      if !ResolveAll(front, env).Ok? {
        S.BlamedByMore(ResolveAll(front, env), SecretsOf(front), SecretsOf(steps), env, r);
      } else if !r.Ok? {
        S.BlamedByMore(S.Resolve(last.arguments, env), S.Names(last.arguments), SecretsOf(steps), env, r);
      }
    }
  }

  /** Resolution fails exactly for a missing name or an over-long value. */
  lemma SecretsResolve(steps: seq<Step>, env: S.Environment)
    requires forall i | 0 <= i < |steps| :: S.WellFormed(steps[i].arguments)
    ensures ResolveAll(steps, env).Ok? <==> S.AllSupplied(SecretsOf(steps), env)
    ensures S.Blamed(ResolveAll(steps, env), SecretsOf(steps), env)
  {
    AllBlamed(steps, env);
    forall i | 0 <= i < |steps|
      ensures S.Resolve(steps[i].arguments, env).Ok? <==> S.AllSupplied(S.Names(steps[i].arguments), env)
    {
      S.ResolveExactly(steps[i].arguments, env);
    }
  }

  lemma NoneCounted(steps: seq<StepReport>, status: Status)
    requires forall r | r in steps :: r.status != status
    ensures CountStatus(steps, status) == 0
  {
    CountsPlaces(steps, status);
    assert Places(steps, status) == {};
  }

  lemma SkippedIsNotSucceeded(steps: seq<StepReport>)
    requires steps != [] && forall r | r in steps :: r.status == Skipped
    ensures forall f, e :: var report := AllSkipped(steps, f, e);
              && report.status == NotSucceeded && |report.steps| == |steps| && report.exit == e
              && report.succeeded == 0 && report.failed == 0 && report.skipped == |steps|
              && forall i | 0 <= i < |steps| :: report.steps[i] == StepReport(Skipped, steps[i].approved, Some(f))
  {
    forall f, e
      ensures AllSkipped(steps, f, e).succeeded == 0 && AllSkipped(steps, f, e).failed == 0
    {
      var marked := AllSkipped(steps, f, e).steps;
      CountsAddUp(marked);
      NoneCounted(marked, Succeeded);
      NoneCounted(marked, Failed);
    }
  }
}

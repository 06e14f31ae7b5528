/** What the report of `src/agent_workflow.rs` says of each step, in terms of the replies of the child. */
module WorkflowVerdict {
  import opened Octets
  import opened Json
  import opened WorkflowPlan
  import opened WorkflowRun
  import opened WorkflowLaws
  import T = Text

  // ---- replies, as JSON

  /** A reply of the right protocol to request `id`. */
  predicate Addressed(response: Json, id: nat) {
    && Get(response, "jsonrpc") == Some(Str("2.0"))
    && Get(response, "id").Some? && Get(response, "id").value.Int? && Get(response, "id").value.n == id
  }

  /** A reply in time to request `id`, with a result and no error. */
  predicate Answers(turn: Turn, id: nat, response: Json) {
    && turn.timeLeft && turn.exchange == Reply(Some(response)) && Addressed(response, id)
    && Get(response, "error").None? && Get(response, "result").Some?
  }

  /** The first text of the result holds this JSON. */
  ghost predicate Carries(response: Json, lib: Library, payload: Json) {
    exists result, items, text ::
      && Get(response, "result") == Some(result)
      && Get(result, "content") == Some(Arr(items)) && items != []
      && Get(items[0], "text") == Some(Str(text)) && lib.parse(text) == Some(payload)
  }

  /** The result is an error or not, as expected. */
  ghost predicate ErrorAsExpected(response: Json, expected: Expectation) {
    exists result :: Get(response, "result") == Some(result)
                     && (expected.isError <==> Get(result, "isError") == Some(Bool(true)))
  }

  /** The payload has this value where the expectation points. */
  ghost predicate PointsAt(response: Json, expected: Expectation, lib: Library, actual: Json) {
    exists payload :: Carries(response, lib, payload)
                      && expected.pointer.Some? && lib.pointer(payload, expected.pointer.value) == Some(actual)
  }

  ghost predicate ValueAsExpected(response: Json, expected: Expectation, lib: Library) {
    expected.pointer.Some? ==>
      exists actual :: PointsAt(response, expected, lib, actual)
                       && (expected.equals.Some? ==> actual == expected.equals.value)
  }

  /** The payload has a session id that can be used. */
  ghost predicate Offers(response: Json, lib: Library, session: string) {
    && (exists payload :: Carries(response, lib, payload) && Get(payload, "session_id") == Some(Str(session)))
    && 1 <= |session| && T.ByteLength(session) <= 64
  }

  // ---- a call

  lemma AnswersIff(turn: Turn, id: nat)
    ensures RpcRequest(turn, id).Good? <==> exists response :: Answers(turn, id, response)
    ensures forall response :: Answers(turn, id, response) ==> RpcRequest(turn, id) == Good(response)
  {
    if RpcRequest(turn, id).Good? {
      assert Answers(turn, id, RpcRequest(turn, id).response);
    }
  }

  /** The payload is what the response carries. */
  function PayloadOf(response: Json, lib: Library): Option<Json> {
    match Get(response, "result")
    case None => None
    case Some(result) => match FirstText(result) case Some(text) => lib.parse(text) case None => None
  }

  lemma PayloadIsCarried(response: Json, lib: Library)
    ensures forall payload :: Carries(response, lib, payload) <==> PayloadOf(response, lib) == Some(payload)
  {
    if PayloadOf(response, lib).Some? {
      var result := Get(response, "result").value;
      assert Get(result, "content") == Some(Arr(Get(result, "content").value.items));
    }
  }

  lemma AcceptedIff(response: Json, expected: Expectation, lib: Library)
    requires Get(response, "result").Some?
    ensures EvaluateResponse(response, expected, lib).Accepted?
       <==> ErrorAsExpected(response, expected) && ValueAsExpected(response, expected, lib)
    ensures EvaluateResponse(response, expected, lib).Accepted? ==>
              EvaluateResponse(response, expected, lib).payload == PayloadOf(response, lib)
  {
    PayloadIsCarried(response, lib);
    if expected.pointer.Some? && PayloadOf(response, lib).Some? {
      var actual := lib.pointer(PayloadOf(response, lib).value, expected.pointer.value);
      assert forall v :: PointsAt(response, expected, lib, v) <==> actual == Some(v);
    }
  }

  // ---- one step

  /** The child gave an answer to request `id` that the code can use. */
  ghost predicate Answered(turn: Turn, id: nat) { exists response :: Answers(turn, id, response) }

  /** The reply is what a step expects, and if the step opens the session it has one. */
  ghost predicate Meets(response: Json, step: Step, lib: Library) {
    && ErrorAsExpected(response, step.expected) && ValueAsExpected(response, step.expected, lib)
    && (step.tool.OpenPage? ==> exists session :: Offers(response, lib, session))
  }

  ghost predicate Fulfilled(turn: Turn, id: nat, step: Step, lib: Library) {
    exists response :: Answers(turn, id, response) && Meets(response, step, lib)
  }

  lemma SessionIsOffered(response: Json, lib: Library)
    ensures forall session :: Offers(response, lib, session) <==> SessionOf(PayloadOf(response, lib)) == Some(session)
  {
    PayloadIsCarried(response, lib);
  }

  /** Why a call failed, if it did: what came back, or did not. */
  ghost predicate Explains(turn: Turn, id: nat, step: Step, lib: Library, f: Failure) {
    if !turn.timeLeft then f == WorkflowTimeout
    else
      match turn.exchange
      case NoReply(g) => f == g
      case Reply(None) => f == MalformedResponse
      case Reply(Some(response)) =>
        if Answers(turn, id, response) then ReplyExplains(response, step, lib, f)
        else
          match f
          case ProtocolMismatch => !Addressed(response, id)
          case JsonRpcError => Addressed(response, id) && Get(response, "error").Some?
          case MissingResult =>
            Addressed(response, id) && Get(response, "error").None? && Get(response, "result").None?
          case _ => false
  }

  ghost predicate ReplyExplains(response: Json, step: Step, lib: Library, f: Failure) {
    match f
    case ToolErrorExpectation => !ErrorAsExpected(response, step.expected)
    case PathMissing =>
      && ErrorAsExpected(response, step.expected) && step.expected.pointer.Some?
      && !exists actual :: PointsAt(response, step.expected, lib, actual)
    case ExpectationMismatch =>
      && ErrorAsExpected(response, step.expected)
      && exists actual :: PointsAt(response, step.expected, lib, actual) && Some(actual) != step.expected.equals
                          && step.expected.equals.Some?
    case InvalidSession =>
      && step.tool.OpenPage? && ErrorAsExpected(response, step.expected)
      && ValueAsExpected(response, step.expected, lib) && !exists session :: Offers(response, lib, session)
    case _ => false
  }

  lemma RefusedWhy(response: Json, step: Step, lib: Library)
    requires Get(response, "result").Some? && EvaluateResponse(response, step.expected, lib).Refused?
    ensures ReplyExplains(response, step, lib, EvaluateResponse(response, step.expected, lib).failure)
  {
    var expected := step.expected;
    PayloadIsCarried(response, lib);
    if expected.pointer.Some? && PayloadOf(response, lib).Some? {
      var actual := lib.pointer(PayloadOf(response, lib).value, expected.pointer.value);
      assert forall v :: PointsAt(response, expected, lib, v) <==> actual == Some(v);
    }
  }

  lemma BadWhy(turn: Turn, id: nat, step: Step, lib: Library)
    requires RpcRequest(turn, id).Bad?
    ensures !Answered(turn, id) && Explains(turn, id, step, lib, RpcRequest(turn, id).failure)
  {
    AnswersIff(turn, id);
  }

  lemma GoodVerdict(c: Context, i: nat, response: Json)
    requires Ready(c) && i < |c.plan.steps|
    requires RpcRequest(c.world.turns(i), After(c, i).requestId + 1) == Good(response)
    requires Answers(c.world.turns(i), After(c, i).requestId + 1, response)
    ensures var r, step := AfterCall(c, i).steps[i], c.plan.steps[i];
            && (r.status == Succeeded <==> Meets(response, step, c.lib))
            && (r.status == Succeeded ==> r.failure.None?)
            && (r.status == Failed ==> r.failure.Some? && ReplyExplains(response, step, c.lib, r.failure.value))
            && (!After(c, i).stop ==> (AfterCall(c, i).stop <==> r.status == Failed && c.plan.limits.failFast))
  {
    hide RpcRequest, EvaluateResponse, ErrorAsExpected, ValueAsExpected, Offers, SessionOf, NextCall, Answers;
    var step := c.plan.steps[i];
    GoodHasResult(c.world.turns(i), After(c, i).requestId + 1);
    AcceptedIff(response, step.expected, c.lib);
    SessionIsOffered(response, c.lib);
    if EvaluateResponse(response, step.expected, c.lib).Refused? {
      RefusedWhy(response, step, c.lib);
    }
  }

  lemma GoodHasResult(turn: Turn, id: nat)
    ensures RpcRequest(turn, id).Good? ==> Get(RpcRequest(turn, id).response, "result").Some?
  {
  }

  /** What a call makes of the step and of the run. */
  lemma CallVerdict(c: Context, i: nat)
    requires Ready(c) && i < |c.plan.steps|
    ensures var s, t := After(c, i), AfterCall(c, i);
            var r, turn, id, step := t.steps[i], c.world.turns(i), s.requestId + 1, c.plan.steps[i];
            && (r.status == Succeeded <==> Fulfilled(turn, id, step, c.lib))
            && (r.status == Succeeded ==> r.failure.None?)
            && (r.status == Failed ==> r.failure.Some? && Explains(turn, id, step, c.lib, r.failure.value))
            && (!s.stop ==> (t.stop <==> r.status == Failed && (c.plan.limits.failFast || !Answered(turn, id))))
  {
    hide RpcRequest, EvaluateResponse, Meets, ReplyExplains, SessionOf, NextCall;
    var turn, id, step := c.world.turns(i), After(c, i).requestId + 1, c.plan.steps[i];
    AnswersIff(turn, id);
    if RpcRequest(turn, id).Bad? {
      BadWhy(turn, id, step, c.lib);
    } else {
      var response :| Answers(turn, id, response);
      GoodVerdict(c, i, response);
    }
  }

  // ---- the whole run

  /** The state from which step `i` is tried can call it: in time, and with a session unless it opens one. */
  predicate Tried(c: Context, i: nat)
    requires Ready(c) && i < |c.plan.steps|
  {
    !After(c, i).stop && !c.world.overTime(i) && (c.plan.steps[i].tool.OpenPage? || After(c, i).session.Some?)
  }

  lemma TriedIsCall(c: Context, i: nat)
    requires Ready(c) && i < |c.plan.steps|
    ensures Tried(c, i) ==> After(c, i + 1) == AfterCall(c, i)
    ensures !Tried(c, i) ==>
              After(c, i + 1).sent == After(c, i).sent && After(c, i + 1).requestId == After(c, i).requestId
  {
    assert After(c, i + 1) == AfterStep(c, i);
  }

  /** What is not tried says why. */
  lemma UntriedVerdict(c: Context, i: nat)
    requires Ready(c) && i < |c.plan.steps| && !Tried(c, i)
    ensures var s, t := After(c, i), After(c, i + 1);
            && (s.stop ==> t.stop && t.steps[i].status == Skipped && t.steps[i].failure == Some(FailFast))
            && (!s.stop ==> t.steps[i].status == Failed)
            && (!s.stop && c.world.overTime(i) ==> t.stop && t.steps[i].failure == Some(WorkflowTimeout))
            && (!s.stop && !c.world.overTime(i) ==>
                  && t.steps[i].failure == Some(MissingSession) && (t.stop <==> c.plan.limits.failFast)
                  && !c.plan.steps[i].tool.OpenPage? && s.session.None?)
  {
    assert After(c, i + 1) == AfterStep(c, i);
  }

  /** A step that is called is called under the id that is three more than its place. */
  lemma {:induction false} RequestIds(c: Context, n: nat)
    requires OpensFirst(c) && n <= |c.plan.steps| && !After(c, n).stop && (n > 0 ==> After(c, n).session.Some?)
    ensures After(c, n).requestId == n + 2
  {
    if n > 0 {
      RunningSkipsNothing(c, n);
      SessionIsAccepted(c, n);
      SessionIsAccepted(c, n - 1);
      NextFacts(c, n - 1);
      assert After(c, n - 1).session == After(c, n).session || n == 1;
      RequestIds(c, n - 1);
      TriedIsCall(c, n - 1);
      CallSends(c, n - 1);
      if !Tried(c, n - 1) {
        UntriedVerdict(c, n - 1);
      }
    }
  }

  lemma {:induction false} StepStays(c: Context, i: nat, n: nat)
    requires Ready(c) && i < n <= |c.plan.steps|
    ensures After(c, n).steps[i] == After(c, i + 1).steps[i]
    decreases n
  {
    if i + 1 < n {
      StepStays(c, i, n - 1);
      NextFacts(c, n - 1);
    }
  }

  /** The request of step `i` is among those sent. */
  predicate Called(sent: seq<Request>, i: nat) { exists r | r in sent :: r.Call? && r.step == i }

  lemma SentByStep(c: Context, i: nat)
    requires OpensFirst(c) && i < |c.plan.steps|
    ensures After(c, i + 1).sent
         == After(c, i).sent + if Tried(c, i) && c.world.turns(i).timeLeft then [NextCall(c, i)] else []
    ensures forall r | r in After(c, i).sent :: r.Call? && r.step < i
  {
    hide AfterCall, CallOk, CallArguments;
    SentIsOk(c, i);
    TriedIsCall(c, i);
    CallSends(c, i);
    assert After(c, i).sent + [] == After(c, i).sent;
    forall r | r in After(c, i).sent
      ensures r.Call? && r.step < i
    {
      assert CallOk(c, r, i);
      CallStep(c, r, i);
    }
  }

  lemma CallStep(c: Context, r: Request, n: nat)
    requires OpensFirst(c) && CallOk(c, r, n)
    ensures r.Call? && r.step < n
  {
  }

  lemma {:induction false} CalledOnce(c: Context, i: nat, n: nat)
    requires OpensFirst(c) && i < n <= |c.plan.steps|
    ensures Called(After(c, n).sent, i) <==> Tried(c, i) && c.world.turns(i).timeLeft
    decreases n
  {
    hide After, Tried, NextCall;
    SentByStep(c, n - 1);
    if i + 1 < n {
      CalledOnce(c, i, n - 1);
    }
    var s := After(c, n - 1).sent;
    NextCallIs(c, n - 1);
    OneMore(s, NextCall(c, n - 1), i);
    assert s + [] == s;
  }

  lemma NextCallIs(c: Context, i: nat)
    requires Ready(c) && i < |c.plan.steps|
    ensures NextCall(c, i).Call? && NextCall(c, i).step == i
  {
  }

  lemma OneMore(sent: seq<Request>, call: Request, i: nat)
    requires call.Call?
    ensures Called(sent + [call], i) <==> Called(sent, i) || call.step == i
  {
    var all := sent + [call];
    assert all[|sent|] == call;
    if Called(sent, i) {
      var r :| r in sent && r.Call? && r.step == i;
      assert r in all;
    }
  }

  /** A step succeeds if and only if it was called and the child's reply to that request, in time, is what the step
    * expects; the first step also needs a session id in it. */
  lemma SucceededIff(c: Context, i: nat)
    requires OpensFirst(c) && i < |c.plan.steps|
    ensures var s := After(c, |c.plan.steps|);
            s.steps[i].status == Succeeded
            <==> Called(s.sent, i) && Fulfilled(c.world.turns(i), i + 3, c.plan.steps[i], c.lib)
  {
    StepVerdict(c, i);
    StepStays(c, i, |c.plan.steps|);
    CalledOnce(c, i, |c.plan.steps|);
  }

  lemma StepVerdict(c: Context, i: nat)
    requires OpensFirst(c) && i < |c.plan.steps|
    ensures var r, turn, step := After(c, i + 1).steps[i], c.world.turns(i), c.plan.steps[i];
            && (r.status == Succeeded <==> Tried(c, i) && Fulfilled(turn, i + 3, step, c.lib))
            && (r.status == Succeeded ==> r.failure.None?)
            && (r.status == Failed && Tried(c, i) ==>
                  r.failure.Some? && Explains(turn, i + 3, step, c.lib, r.failure.value))
            && (Tried(c, i) ==> (After(c, i + 1).stop <==>
                  r.status == Failed && (c.plan.limits.failFast || !Answered(turn, i + 3))))
  {
    TriedIsCall(c, i);
    if Tried(c, i) {
      assert i > 0 ==> After(c, i).session.Some?;
      RequestIds(c, i);
      CallVerdict(c, i);
    } else {
      UntriedVerdict(c, i);
    }
  }

  /** What the failure class of a step says is what happened. */
  ghost predicate FailedRightly(c: Context, s: RunState, i: nat)
    requires |s.steps| == |c.plan.steps| && i < |c.plan.steps|
  {
    match s.steps[i].status
    case Succeeded => s.steps[i].failure.None?
    case Skipped => s.steps[i].failure == Some(FailFast) && !Called(s.sent, i)
    case Failed =>
      && s.steps[i].failure.Some?
      && if c.world.overTime(i) then s.steps[i].failure == Some(WorkflowTimeout) && !Called(s.sent, i)
         else if i > 0 && s.steps[0].status != Succeeded then
           s.steps[i].failure == Some(MissingSession) && !Called(s.sent, i)
         else Explains(c.world.turns(i), i + 3, c.plan.steps[i], c.lib, s.steps[i].failure.value)
  }

  lemma TriedMeans(c: Context, i: nat)
    requires OpensFirst(c) && i < |c.plan.steps|
    ensures var s := After(c, |c.plan.steps|);
            && (After(c, i).stop <==> s.steps[i].status == Skipped)
            && (i > 0 ==> (After(c, i).session.Some? <==> s.steps[0].status == Succeeded))
  {
    StepStays(c, i, |c.plan.steps|);
    NextFacts(c, i);
    if i > 0 {
      SessionIsAccepted(c, i);
      StepStays(c, 0, i);
      StepStays(c, 0, |c.plan.steps|);
    }
  }

  lemma FailuresAreTrue(c: Context, i: nat)
    requires OpensFirst(c) && i < |c.plan.steps|
    ensures FailedRightly(c, After(c, |c.plan.steps|), i)
  {
    StepVerdict(c, i);
    TriedMeans(c, i);
    StepStays(c, i, |c.plan.steps|);
    CalledOnce(c, i, |c.plan.steps|);
    if !Tried(c, i) {
      UntriedVerdict(c, i);
    }
  }

  /** Exactly these steps are called: those that are not skipped, are reached in time and have a session or open it. */
  lemma CalledIff(c: Context, i: nat)
    requires OpensFirst(c) && i < |c.plan.steps|
    ensures var s := After(c, |c.plan.steps|);
            Called(s.sent, i)
            <==> && s.steps[i].status != Skipped && !c.world.overTime(i) && c.world.turns(i).timeLeft
                 && (i > 0 ==> s.steps[0].status == Succeeded)
  {
    TriedMeans(c, i);
    CalledOnce(c, i, |c.plan.steps|);
  }

  /** A failed step that ends the run: under fail-fast, out of time, or without a usable answer from the child. */
  ghost predicate EndsRun(c: Context, s: RunState, k: nat)
    requires |s.steps| == |c.plan.steps| && k < |c.plan.steps|
  {
    && s.steps[k].status == Failed
    && (c.plan.limits.failFast || c.world.overTime(k)
        || ((k > 0 ==> s.steps[0].status == Succeeded) && !Answered(c.world.turns(k), k + 3)))
  }

  lemma EndsRunIff(c: Context, k: nat)
    requires OpensFirst(c) && k < |c.plan.steps| && !After(c, k).stop
    ensures After(c, k + 1).stop <==> EndsRun(c, After(c, |c.plan.steps|), k)
  {
    StepVerdict(c, k);
    TriedMeans(c, k);
    StepStays(c, k, |c.plan.steps|);
    if !Tried(c, k) {
      UntriedVerdict(c, k);
    }
  }

  lemma {:induction false} StoppedIff(c: Context, i: nat)
    requires OpensFirst(c) && i <= |c.plan.steps|
    ensures After(c, i).stop <==> exists k | 0 <= k < i :: EndsRun(c, After(c, |c.plan.steps|), k)
  {
    if i > 0 {
      StoppedIff(c, i - 1);
      NextFacts(c, i - 1);
      if After(c, i - 1).stop {
        StoppedOnlySkips(c, i - 1, i);
      } else {
        EndsRunIff(c, i - 1);
      }
    }
  }

  /** A step is skipped exactly when an earlier step has ended the run. */
  lemma SkippedIff(c: Context, i: nat)
    requires OpensFirst(c) && i < |c.plan.steps|
    ensures var s := After(c, |c.plan.steps|);
            s.steps[i].status == Skipped <==> exists k | 0 <= k < i :: EndsRun(c, s, k)
  {
    TriedMeans(c, i);
    StoppedIff(c, i);
  }

  // ---- the handshake

  /** The tool has this name and this schema of its arguments. */
  predicate Describes(tool: Json, name: string, schema: Json) {
    Get(tool, "name") == Some(Str(name)) && Get(tool, "inputSchema") == Some(schema)
  }

  predicate Offered(tools: seq<Json>, name: string, schema: Json) {
    exists i | 0 <= i < |tools| :: Describes(tools[i], name, schema)
  }

  /** Every tool has a name and a schema, and no two have the same name. */
  predicate WellListed(tools: seq<Json>) {
    && (forall i | 0 <= i < |tools| ::
          Get(tools[i], "name").Some? && Get(tools[i], "name").value.Str? && Get(tools[i], "inputSchema").Some?)
    && forall i, j | 0 <= i < j < |tools| :: Get(tools[i], "name") != Get(tools[j], "name")
  }

  lemma OneToolMore(tools: seq<Json>, tool: Json)
    ensures WellListed(tools + [tool]) <==>
              && WellListed(tools)
              && Get(tool, "name").Some? && Get(tool, "name").value.Str? && Get(tool, "inputSchema").Some?
              && forall i | 0 <= i < |tools| :: Get(tools[i], "name") != Get(tool, "name")
    ensures forall name, schema ::
              Offered(tools + [tool], name, schema) <==> Offered(tools, name, schema) || Describes(tool, name, schema)
  {
    var all := tools + [tool];
    assert all[|tools|] == tool && forall i | 0 <= i < |tools| :: all[i] == tools[i];
    forall name, schema
      ensures Offered(all, name, schema) <==> Offered(tools, name, schema) || Describes(tool, name, schema)
    {
      if Offered(tools, name, schema) {
        var i :| 0 <= i < |tools| && Describes(tools[i], name, schema);
        assert Describes(all[i], name, schema);
      }
      if Describes(tool, name, schema) {
        assert Describes(all[|tools|], name, schema);
      }
    }
    if WellListed(all) {
      forall i, j | 0 <= i < j < |tools|
        ensures Get(tools[i], "name") != Get(tools[j], "name")
      {
        assert Get(all[i], "name") != Get(all[j], "name");
      }
      forall i | 0 <= i < |tools|
        ensures Get(tools[i], "name") != Get(tool, "name")
      {
        assert Get(all[i], "name") != Get(all[|tools|], "name");
      }
    }
  }

  lemma OneSchemaMore(tools: seq<Json>, tool: Json)
    ensures var before, name, schema := Schemas(tools), Get(tool, "name"), Get(tool, "inputSchema");
            Schemas(tools + [tool])
            == if before.None? || name.None? || !name.value.Str? || schema.None? || name.value.s in before.value
               then None
               else Some(before.value[name.value.s := schema.value])
  {
    assert (tools + [tool])[..|tools|] == tools;
  }

  /** The map has exactly what the tools offer. */
  ghost predicate Knows(known: map<string, Json>, tools: seq<Json>) {
    forall name, schema :: Offered(tools, name, schema) <==> name in known && known[name] == schema
  }

  lemma {:induction false} SchemasAreListed(tools: seq<Json>)
    ensures Schemas(tools).Some? <==> WellListed(tools)
    ensures Schemas(tools).Some? ==> Knows(Schemas(tools).value, tools)
  {
    if tools != [] {
      var front, tool := tools[..|tools| - 1], tools[|tools| - 1];
      assert tools == front + [tool];
      SchemasAreListed(front);
      OneToolMore(front, tool);
      OneSchemaMore(front, tool);
      if WellListed(front) && Get(tool, "name").Some? && Get(tool, "name").value.Str? {
        NamesKnown(front, tool, Schemas(front).value);
        hide Schemas, WellListed, Offered;
      } else {
        hide Schemas, Offered, Knows;
      }
    }
  }

  /** A name is known already exactly when an earlier tool has it. */
  lemma NamesKnown(tools: seq<Json>, tool: Json, known: map<string, Json>)
    requires WellListed(tools) && Get(tool, "name").Some? && Get(tool, "name").value.Str? && Knows(known, tools)
    ensures Get(tool, "name").value.s in known
       <==> exists i | 0 <= i < |tools| :: Get(tools[i], "name") == Get(tool, "name")
  {
    var name := Get(tool, "name").value.s;
    if i :| 0 <= i < |tools| && Get(tools[i], "name") == Get(tool, "name") {
      assert Describes(tools[i], name, Get(tools[i], "inputSchema").value);
      assert Offered(tools, name, Get(tools[i], "inputSchema").value);
    }
    if name in known {
      assert Offered(tools, name, known[name]);
    }
  }

  /** A tool of the step's name is offered, and the arguments with what the runner adds pass its schema. */
  ghost predicate Fits(tools: seq<Json>, step: Step, trace: bool, arguments: Json, lib: Library) {
    && arguments.Obj?
    && exists schema ::
         && Offered(tools, ToolName(step.tool), schema)
         && lib.check(if step.tool.OpenPage? then Insert(arguments, "trace", Bool(trace))
                      else Insert(arguments, "session_id", Str("validated-session-placeholder")), schema).None?
  }

  lemma FitsIff(tools: seq<Json>, step: Step, trace: bool, arguments: Json, lib: Library)
    requires WellListed(tools)
    ensures Schemas(tools).Some?
    ensures Mismatch(step, trace, arguments, Schemas(tools).value, lib).None?
       <==> Fits(tools, step, trace, arguments, lib)
  {
    hide Schemas, WellListed, Offered;
    SchemasAreListed(tools);
    var known := Schemas(tools).value;
    if ToolName(step.tool) in known {
      assert Offered(tools, ToolName(step.tool), known[ToolName(step.tool)]);
    }
  }

  /** The reply lists these tools. */
  ghost predicate ListsTools(response: Json, tools: seq<Json>) {
    exists result :: Get(response, "result") == Some(result) && Get(result, "tools") == Some(Arr(tools))
  }

  /** The child is greeted as it should be, says which tools it has, and has all that the plan needs. */
  ghost predicate Greeted(plan: Plan, arguments: seq<Json>, world: World, lib: Library) {
    && Answered(world.initialize, 1) && world.notified.None?
    && exists response, tools ::
         && Answers(world.list, 2, response) && ListsTools(response, tools) && WellListed(tools)
         && (exists schema :: Offered(tools, "close_page", schema))
         && |arguments| == |plan.steps|
         && forall i | 0 <= i < |plan.steps| :: Fits(tools, plan.steps[i], plan.trace, arguments[i], lib)
  }

  /** The steps are reached exactly after such a greeting. */
  lemma HandshakeIff(plan: Plan, arguments: seq<Json>, world: World, lib: Library)
    ensures Handshake(plan, arguments, world, lib) <==> Greeted(plan, arguments, world, lib)
  {
    hide RpcRequest, Answers, Mismatch, Fits, Schemas, WellListed, Offered;
    AnswersIff(world.initialize, 1);
    AnswersIff(world.list, 2);
    if RpcRequest(world.list, 2).Good? {
      var response :| Answers(world.list, 2, response);
      ToolsAdvertised(response);
      forall tools | ListsTools(response, tools) && WellListed(tools)
        ensures Handshake(plan, arguments, world, lib) <==> Greeted(plan, arguments, world, lib)
      {
        SchemasAreListed(tools);
        MatchesIff(plan, arguments, tools, lib);
      }
      if AdvertisedSchemas(response).Some? {
        var tools :| ListsTools(response, tools) && WellListed(tools);
      }
    }
  }

  lemma ToolsAdvertised(response: Json)
    ensures AdvertisedSchemas(response).Some? <==> exists tools :: ListsTools(response, tools) && WellListed(tools)
    ensures forall tools :: ListsTools(response, tools) ==> AdvertisedSchemas(response) == Schemas(tools)
  {
    if AdvertisedSchemas(response).Some? {
      var tools := Get(Get(response, "result").value, "tools").value.items;
      SchemasAreListed(tools);
      assert ListsTools(response, tools);
    }
    forall tools | ListsTools(response, tools)
      ensures Schemas(tools).Some? <==> WellListed(tools)
    {
      SchemasAreListed(tools);
    }
  }

  lemma MatchesIff(plan: Plan, arguments: seq<Json>, tools: seq<Json>, lib: Library)
    requires WellListed(tools)
    ensures Schemas(tools).Some?
    ensures Matches(plan, arguments, Schemas(tools).value, lib) <==>
              && (exists schema :: Offered(tools, "close_page", schema))
              && |arguments| == |plan.steps|
              && forall i | 0 <= i < |plan.steps| :: Fits(tools, plan.steps[i], plan.trace, arguments[i], lib)
  {
    hide Mismatch, Fits, Schemas, WellListed, Offered;
    SchemasAreListed(tools);
    var known := Schemas(tools).value;
    if "close_page" in known {
      assert Offered(tools, "close_page", known["close_page"]);
    }
    if |arguments| == |plan.steps| {
      forall i | 0 <= i < |plan.steps|
        ensures Mismatch(plan.steps[i], plan.trace, arguments[i], Schemas(tools).value, lib).None?
           <==> Fits(tools, plan.steps[i], plan.trace, arguments[i], lib)
      {
        FitsIff(tools, plan.steps[i], plan.trace, arguments[i], lib);
      }
    }
  }

  /** The tools under the names of the protocol. */
  lemma ToolsByName()
    ensures ToolName(OpenPage) == "open_page" && ToolName(NavigateTo) == "navigate_to" && ToolName(Click) == "click"
    ensures ToolName(TypeText) == "type_text" && ToolName(SelectOption) == "select_option"
    ensures ToolName(Scroll) == "scroll" && ToolName(Toggle) == "toggle" && ToolName(Clear) == "clear"
    ensures ToolName(Tool.Evaluate) == "evaluate" && ToolName(GetCookies) == "get_cookies"
    ensures ToolName(SetCookies) == "set_cookies" && ToolName(ClearCookies) == "clear_cookies"
    ensures ToolName(TraceStatus) == "trace_status" && ToolName(TraceExport) == "trace_export"
    ensures ToolName(TraceClear) == "trace_clear" && ToolName(ReplayValidate) == "replay_validate"
    ensures ToolName(ClosePage) == "close_page"
  {
  }
}

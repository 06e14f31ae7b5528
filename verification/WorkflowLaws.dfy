/** What holds of every run of a validated plan, whatever the child and the clock do. */
module WorkflowLaws {
  import opened Octets
  import opened Json
  import opened WorkflowPlan
  import opened WorkflowRun

  /** The plan opens its session in the first step and nowhere else. */
  predicate OpensFirst(c: Context) {
    Ready(c) && c.plan.steps != [] && c.plan.steps[0].tool.OpenPage?
    && forall i | 0 < i < |c.plan.steps| :: !c.plan.steps[i].tool.OpenPage?
  }

  /** The session id that step 0 was given, if its reply was accepted and offered one. */
  function AcceptedSession(c: Context): Option<string>
    requires OpensFirst(c)
  {
    match RpcRequest(c.world.turns(0), 3)
    case Bad(_) => None
    case Good(response) =>
      match EvaluateResponse(response, c.plan.steps[0].expected, c.lib)
      case Refused(_) => None
      case Accepted(payload) => SessionOf(payload)
  }

  /** `call` is the request of its step, made with the accepted session. */
  predicate CallOk(c: Context, call: Request, n: nat)
    requires OpensFirst(c)
  {
    && call.Call? && call.step < n <= |c.plan.steps|
    && call.tool == c.plan.steps[call.step].tool
    && (call.step > 0 ==> AcceptedSession(c).Some?)
    && call.arguments == CallArguments(c, call.step, AcceptedSession(c).GetOr(""))
  }

  /** Everything a step can do to the state. */
  lemma NextFacts(c: Context, i: nat)
    requires Ready(c) && i < |c.plan.steps|
    ensures var s, t := After(c, i), After(c, i + 1);
            && (forall k | 0 <= k < |s.steps| ::
                  t.steps[k].approved == s.steps[k].approved && (k != i ==> t.steps[k] == s.steps[k]))
            && (s.stop ==> t.steps[i].status == Skipped && t == s.(steps := t.steps))
            && (!s.stop ==> t.steps[i].status != Skipped)
            && (!s.stop && t.stop ==> t.steps[i].status == Failed)
            && (!s.stop && t.steps[i].status == Failed && c.plan.limits.failFast ==> t.stop)
            && (t.transportFailed ==> s.transportFailed || t.stop)
            && (!c.plan.steps[i].tool.OpenPage? ==> t.session == s.session)
  {
    assert After(c, i + 1) == AfterStep(c, i);
    CallFacts(c, i);
    CallStops(c, i);
  }

  lemma CallRuns(c: Context, i: nat)
    requires Ready(c) && i < |c.plan.steps|
    ensures AfterCall(c, i).steps[i].status != Skipped
  {
    hide EvaluateResponse, RpcRequest, SessionOf, NextCall;
  }

  lemma CallFacts(c: Context, i: nat)
    requires Ready(c) && i < |c.plan.steps|
    ensures var s, t := After(c, i), AfterCall(c, i);
            && (forall k | 0 <= k < |s.steps| ::
                  t.steps[k].approved == s.steps[k].approved && (k != i ==> t.steps[k] == s.steps[k]))
            && t.steps[i].status != Skipped
  {
    hide EvaluateResponse, RpcRequest, SessionOf, NextCall;
    CallRuns(c, i);
  }

  lemma CallStops(c: Context, i: nat)
    requires Ready(c) && i < |c.plan.steps|
    ensures var s, t := After(c, i), AfterCall(c, i);
            && (!s.stop && t.stop ==> t.steps[i].status == Failed)
            && (t.steps[i].status == Failed && c.plan.limits.failFast ==> t.stop)
            && (t.transportFailed ==> s.transportFailed || t.stop)
            && (!c.plan.steps[i].tool.OpenPage? ==> t.session == s.session)
  {
  }

  /** What a step can send. */
  lemma NextSends(c: Context, i: nat)
    requires Ready(c) && i < |c.plan.steps|
    ensures var s, t := After(c, i), After(c, i + 1);
            var call := NextCall(c, i);
            && (t.sent == s.sent || t.sent == s.sent + [call])
            && s.requestId <= t.requestId
            && (t.sent != s.sent ==>
                  !s.stop && t.requestId == s.requestId + 1 && (c.plan.steps[i].tool.OpenPage? || s.session.Some?))
            && (t.steps[i].status == Succeeded && !s.stop ==> t.sent == s.sent + [call])
  {
    assert After(c, i + 1) == AfterStep(c, i);
    CallSends(c, i);
  }

  lemma CallSends(c: Context, i: nat)
    requires Ready(c) && i < |c.plan.steps|
    ensures var s, t := After(c, i), AfterCall(c, i);
            var call := NextCall(c, i);
            && t.sent == (if c.world.turns(i).timeLeft then s.sent + [call] else s.sent)
            && t.requestId == s.requestId + 1
            && (t.steps[i].status == Succeeded ==> c.world.turns(i).timeLeft)
  {
  }

  // ---- the shape of the report

  /** Once stopped, a run only skips. */
  lemma {:induction false} StoppedOnlySkips(c: Context, n: nat, m: nat)
    requires Ready(c) && n <= m <= |c.plan.steps| && After(c, n).stop
    ensures var s, t := After(c, n), After(c, m);
            && t == s.(steps := t.steps)
            && (forall k | 0 <= k < n :: t.steps[k] == s.steps[k])
            && forall k | n <= k < m :: t.steps[k].status == Skipped
    decreases m
  {
    if n < m {
      StoppedOnlySkips(c, n, m - 1);
      NextFacts(c, m - 1);
    }
  }

  /** A run that has not stopped has skipped nothing, and under fail-fast has failed nothing. */
  lemma {:induction false} RunningSkipsNothing(c: Context, n: nat)
    requires Ready(c) && n <= |c.plan.steps| && !After(c, n).stop
    ensures forall k | 0 <= k < n :: After(c, n).steps[k].status != Skipped
    ensures c.plan.limits.failFast ==> forall k | 0 <= k < n :: After(c, n).steps[k].status == Succeeded
    ensures forall k | 0 <= k < n :: !After(c, k).stop
  {
    if n > 0 {
      NextFacts(c, n - 1);
      RunningSkipsNothing(c, n - 1);
    }
  }

  /** A stopped run stopped at a failed step. */
  lemma {:induction false} StopPoint(c: Context, n: nat) returns (f: nat)
    requires Ready(c) && n <= |c.plan.steps| && After(c, n).stop
    ensures f < n && !After(c, f).stop && After(c, f + 1).stop && After(c, f + 1).steps[f].status == Failed
  {
    if After(c, n - 1).stop {
      f := StopPoint(c, n - 1);
    } else {
      f := n - 1;
      NextFacts(c, f);
    }
  }

  /** The statuses of a report: no step skipped, or a failed step with exactly the steps after it skipped. */
  predicate Shape(steps: seq<StepReport>, f: nat) {
    && f <= |steps|
    && (forall i | 0 <= i < |steps| :: steps[i].status == Skipped <==> i > f)
    && (f < |steps| ==> steps[f].status == Failed)
  }

  /** Skipped steps are a suffix, and a failed step comes right before them. */
  lemma SkippedAreASuffix(c: Context)
    requires Ready(c)
    ensures exists f :: Shape(After(c, |c.plan.steps|).steps, f)
  {
    var n := |c.plan.steps|;
    if After(c, n).stop {
      var f := StopPoint(c, n);
      StoppedOnlySkips(c, f + 1, n);
      RunningSkipsNothing(c, f);
      NextFacts(c, f);
      assert Shape(After(c, n).steps, f);
    } else {
      RunningSkipsNothing(c, n);
      assert Shape(After(c, n).steps, n);
    }
  }

  /** Under fail-fast a report reads: succeeded steps, at most one failed step, skipped steps. */
  lemma FailFastShape(c: Context)
    requires Ready(c) && c.plan.limits.failFast
    ensures exists f :: Shape(After(c, |c.plan.steps|).steps, f)
                        && forall i | 0 <= i < f :: After(c, |c.plan.steps|).steps[i].status == Succeeded
  {
    var n := |c.plan.steps|;
    if After(c, n).stop {
      var f := StopPoint(c, n);
      StoppedOnlySkips(c, f + 1, n);
      RunningSkipsNothing(c, f);
      NextFacts(c, f);
      assert Shape(After(c, n).steps, f);
    } else {
      RunningSkipsNothing(c, n);
      assert Shape(After(c, n).steps, n);
    }
  }

  // ---- what is sent

  predicate CallsInOrder(sent: seq<Request>) {
    (forall r | r in sent :: r.Call?)
    && forall i, j | 0 <= i < j < |sent| :: sent[i].id < sent[j].id && sent[i].step < sent[j].step
  }

  lemma FirstStep(c: Context)
    requires OpensFirst(c)
    ensures After(c, 1).session.Some? ==> After(c, 1).session == AcceptedSession(c)
    ensures After(c, 1).session.Some? <==> After(c, 1).steps[0].status == Succeeded
  {
    assert After(c, 1) == AfterStep(c, 0);
    assert After(c, 0) == Begin(c);
  }

  /** The session a run holds is the one step 0 was given. */
  lemma {:induction false} SessionIsAccepted(c: Context, n: nat)
    requires OpensFirst(c) && n <= |c.plan.steps|
    ensures After(c, n).session.Some? ==> n > 0 && After(c, n).session == AcceptedSession(c)
    ensures n > 0 ==> (After(c, n).session.Some? <==> After(c, n).steps[0].status == Succeeded)
  {
    if n == 1 {
      FirstStep(c);
    } else if n > 1 {
      SessionIsAccepted(c, n - 1);
      NextFacts(c, n - 1);
    }
  }

  predicate SentOk(c: Context, sent: seq<Request>, n: nat, requestId: nat)
    requires OpensFirst(c)
  {
    CallsInOrder(sent) && forall r | r in sent :: 2 < r.id <= requestId && CallOk(c, r, n)
  }

  lemma {:induction false} SentIsOk(c: Context, n: nat)
    requires OpensFirst(c) && n <= |c.plan.steps|
    ensures SentOk(c, After(c, n).sent, n, After(c, n).requestId) && After(c, n).requestId >= 2
  {
    if n > 0 {
      SentIsOk(c, n - 1);
      SessionIsAccepted(c, n - 1);
      var s := After(c, n - 1);
      NextSends(c, n - 1);
      if After(c, n).sent != s.sent {
        var call := After(c, n).sent[|s.sent|];
        assert CallOk(c, call, n) by {
          if n == 1 {
            assert s == Begin(c);
          }
        }
        AppendOk(c, s.sent, call, n, s.requestId);
      }
    }
  }

  lemma AppendOk(c: Context, sent: seq<Request>, call: Request, n: nat, requestId: nat)
    requires OpensFirst(c) && 0 < n <= |c.plan.steps| && requestId >= 2
    requires SentOk(c, sent, n - 1, requestId) && CallOk(c, call, n) && call.id == requestId + 1 && call.step == n - 1
    ensures SentOk(c, sent + [call], n, requestId + 1)
  {
    var all := sent + [call];
    forall i, j | 0 <= i < j < |all|
      ensures all[i].Call? && all[j].Call? && all[i].id < all[j].id && all[i].step < all[j].step
    {
      assert all[i] == sent[i] && sent[i] in sent;
      if j < |sent| {
        assert all[j] == sent[j] && sent[j] in sent;
      }
    }
  }

  /** Request ids strictly increase, calls follow the order of the steps, and every call but the first carries the
    * session that step 0 was given, the first the trace flag of the plan, and all the other arguments of the step. */
  lemma CallsAreOwned(c: Context)
    requires OpensFirst(c)
    ensures var s := After(c, |c.plan.steps|);
            && CallsInOrder(s.sent)
            && (forall r | r in s.sent :: 2 < r.id <= s.requestId)
            && (forall r | r in s.sent && r.step > 0 ::
                  AcceptedSession(c).Some? && Get(r.arguments, "session_id") == Some(Str(AcceptedSession(c).value)))
            && (forall r | r in s.sent ::
                  r.step < |c.plan.steps| && r.tool == c.plan.steps[r.step].tool && (r.tool.OpenPage? <==> r.step == 0))
            && (forall r | r in s.sent && r.step == 0 :: Get(r.arguments, "trace") == Some(Bool(c.plan.trace)))
            && (forall r, key | r in s.sent && key != (if r.step == 0 then "trace" else "session_id") ::
                  Get(r.arguments, key) == Get(c.arguments[r.step], key))
  {
    SentIsOk(c, |c.plan.steps|);
  }

  /** After a step request fails in transport, no step request is sent any more. */
  lemma SilentAfterTransportFailure(c: Context, n: nat, m: nat)
    requires Ready(c) && n <= m <= |c.plan.steps| && After(c, n).transportFailed
    ensures After(c, m).sent == After(c, n).sent && After(c, m).transportFailed
  {
    TransportStops(c, n);
    StoppedOnlySkips(c, n, m);
  }

  lemma {:induction false} TransportStops(c: Context, n: nat)
    requires Ready(c) && n <= |c.plan.steps| && After(c, n).transportFailed
    ensures After(c, n).stop
  {
    if n > 0 {
      NextFacts(c, n - 1);
      if After(c, n - 1).transportFailed {
        TransportStops(c, n - 1);
        StoppedOnlySkips(c, n - 1, n);
      }
    }
  }

  lemma {:induction false} ApprovalsStay(c: Context, n: nat)
    requires Ready(c) && n <= |c.plan.steps|
    ensures forall i | 0 <= i < |c.plan.steps| :: After(c, n).steps[i].approved == (c.plan.steps[i].id in c.approved)
  {
    if n > 0 {
      ApprovalsStay(c, n - 1);
      NextFacts(c, n - 1);
    }
  }

  /** A step that succeeded was called. */
  lemma {:induction false} SucceededWereCalled(c: Context, n: nat, i: nat)
    requires OpensFirst(c) && i < n <= |c.plan.steps| && After(c, n).steps[i].status == Succeeded
    ensures exists r | r in After(c, n).sent :: r.Call? && r.step == i
  {
    var s := After(c, n - 1);
    NextFacts(c, n - 1);
    NextSends(c, n - 1);
    if i == n - 1 {
      var r := After(c, n).sent[|s.sent|];
      assert r in After(c, n).sent && r.step == i;
    } else {
      SucceededWereCalled(c, n - 1, i);
      var r :| r in s.sent && r.Call? && r.step == i;
      assert r in After(c, n).sent;
    }
  }

  // ---- validated plans

  lemma LaunchedIsReady(plan: Plan, options: Options, world: World, lib: Library)
    requires PlanOk(plan, options, lib.size) && Launched(plan, options, world, lib)
    ensures OpensFirst(LaunchContext(plan, options, world, lib))
  {
  }

  /** `r` is a step request, and if it changes a page its step was approved by name and is reported so. */
  predicate ApprovedCall(r: Request, plan: Plan, options: Options, steps: seq<StepReport>) {
    && r.Call? && r.step < |plan.steps| == |steps|
    && (MutatesPage(r.tool) ==> plan.steps[r.step].id in options.confirmSteps && steps[r.step].approved)
  }

  /** Every call that changes a page belongs to a step that was approved by name, and its report says so. */
  lemma MutationsAreApproved(plan: Plan, options: Options, world: World, lib: Library)
    requires PlanOk(plan, options, lib.size) && Launched(plan, options, world, lib)
    ensures var s := After(LaunchContext(plan, options, world, lib), |plan.steps|);
            forall r | r in s.sent :: ApprovedCall(r, plan, options, s.steps)
  {
    var c := LaunchContext(plan, options, world, lib);
    LaunchedIsReady(plan, options, world, lib);
    SentIsOk(c, |plan.steps|);
    ApprovalsStay(c, |plan.steps|);
  }

  /** A session that was opened is closed with its own id under a fresh request id, unless the transport failed or
    * no time is left; nothing else is ever closed. */
  lemma OpenedSessionsAreClosed(c: Context)
    requires OpensFirst(c)
    ensures var s := After(c, |c.plan.steps|);
            var closing := CloseRequests(s, c.world);
            && (closing != [] <==> s.steps[0].status == Succeeded && !s.transportFailed && c.world.close.timeLeft)
            && (closing != [] ==>
                  && AcceptedSession(c).Some? && closing == [Close(s.requestId + 1, AcceptedSession(c).value)]
                  && forall r | r in s.sent :: r.id <= s.requestId)
  {
    SessionIsAccepted(c, |c.plan.steps|);
    SentIsOk(c, |c.plan.steps|);
  }
}

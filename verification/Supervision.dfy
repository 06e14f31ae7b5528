/** The cancel and kill protocol of `src/process_supervisor.rs`.
  *
  * A supervisor thread runs `supervise_blocking`; the caller of `supervise_with_env_policy` holds a cancellation
  * guard and may fire it at any moment, on a timeout, on a failed join or when its future is dropped. The child
  * and its descendants run on their own. A state holds what the three share; each actor's step is one atomic
  * access of the code.
  */
module Supervision {

  datatype Result = Finished(timedOut: bool) | Cancelled | SpawnFailed | MissingPipe | WaitFailed | CollectorFailed

  /** Where the supervisor thread stands. */
  datatype Supervisor =
    | Starting       // before the spawn
    | Spawned        // the child runs, its pid is not published
    | Published      // the pid is stored, there is no tree guard yet
    | Guarded        // the tree guard is armed; pipes and threads are set up
    | Checking       // about to read the cancel flag
    | Polling        // about to ask whether the child has exited
    | Timing         // about to compare the clock with the timeout
    | Sleeping
    | CancelKill | CancelReap
    | TimeoutKill | TimeoutReap
    | Finishing(timedOut: bool)   // out of the loop, about to terminate what is left of the tree
    | Joining(timedOut: bool)     // waiting for the stream threads
    | Unwinding(result: Result)   // about to drop the tree guard, if there is one
    | Done(result: Result)

  /** Where the caller stands; `seen` is whether it read a published pid. */
  datatype Caller =
    | Awaiting
    | FlagSet
    | PidRead(seen: bool)
    | GaveUp(seen: bool)
    | Disarmed(result: Result)

  datatype State = State(
    sup: Supervisor,
    caller: Caller,
    published: bool,      // CancellationState.pid is not zero
    flag: bool,           // CancellationState.cancelled
    guardMade: bool,
    armed: bool,          // ProcessTreeGuard.armed
    guardKills: nat,
    callerKills: nat,
    spawned: bool,
    rootExited: bool,
    tree: bool,           // some process of the child's group is alive
    reaped: bool,         // the exit status of the child has been collected
    passes: nat,          // flag checks that let the loop go on
    pipesMissing: bool,   // the spawned child came without its pipes
    waitFailed: bool      // a call that asks for the exit status has failed
  )

  const INITIAL :=
    State(Starting, Awaiting, false, false, false, false, 0, 0, false, false, false, false, 0, false, false)

  /** SIGKILL to the process group. */
  function Killed(s: State): State { s.(tree := false, rootExited := s.rootExited || s.spawned) }

  /** `ProcessTreeGuard::terminate`. */
  function Terminated(s: State): State {
    if s.armed then Killed(s).(armed := false, guardKills := s.guardKills + 1) else s
  }

  predicate SpawnStep(s: State, t: State) {
    match s.sup
    case Starting =>
      || t == s.(sup := Unwinding(SpawnFailed))
      || t == s.(sup := Spawned, spawned := true, tree := true)
    case Spawned => t == s.(sup := Published, published := true)
    case _ => false
  }

  predicate GuardStep(s: State, t: State) {
    match s.sup
    case Published => t == s.(sup := Guarded, guardMade := true, armed := true)
    case Guarded => t == s.(sup := Checking) || t == s.(sup := Unwinding(MissingPipe), pipesMissing := true)
    case _ => false
  }

  predicate FlagStep(s: State, t: State) {
    match s.sup
    case Sleeping => t == s.(sup := Checking)
    case Checking =>
      if s.flag then t == s.(sup := CancelKill) else t == s.(sup := Polling, passes := s.passes + 1)
    case _ => false
  }

  predicate PollStep(s: State, t: State) {
    match s.sup
    case Polling =>
      || t == s.(sup := Unwinding(WaitFailed), waitFailed := true)
      || (s.rootExited && t == s.(sup := Finishing(false), reaped := true))
      || (!s.rootExited && t == s.(sup := Timing))
    case Timing => t == s.(sup := TimeoutKill) || t == s.(sup := Sleeping)
    case _ => false
  }

  /** `wait` returns only once the child has exited; here its error is ignored. */
  predicate CancelStep(s: State, t: State) {
    match s.sup
    case CancelKill => t == Terminated(s).(sup := CancelReap)
    case CancelReap =>
      && s.rootExited
      && (|| t == s.(sup := Unwinding(Cancelled), reaped := true)
          || t == s.(sup := Unwinding(Cancelled), waitFailed := true))
    case _ => false
  }

  predicate TimeoutStep(s: State, t: State) {
    match s.sup
    case TimeoutKill => t == Terminated(s).(sup := TimeoutReap)
    case TimeoutReap =>
      && s.rootExited
      && (|| t == s.(sup := Finishing(true), reaped := true)
          || t == s.(sup := Unwinding(WaitFailed), waitFailed := true))
    case _ => false
  }

  /** The stream threads end once nobody in the tree holds the pipes; returning drops the tree guard. */
  predicate EndStep(s: State, t: State) {
    match s.sup
    case Finishing(timedOut) => t == Terminated(s).(sup := Joining(timedOut))
    case Joining(timedOut) =>
      !s.tree && (t == s.(sup := Unwinding(Finished(timedOut))) || t == s.(sup := Unwinding(CollectorFailed)))
    case Unwinding(result) => t == Terminated(s).(sup := Done(result))
    case _ => false
  }

  predicate SupervisorStep(s: State, t: State) {
    || SpawnStep(s, t) || GuardStep(s, t) || FlagStep(s, t) || PollStep(s, t)
    || CancelStep(s, t) || TimeoutStep(s, t) || EndStep(s, t)
  }

  /** The caller gives up, or takes the result of a supervisor that is done. */
  predicate DecideStep(s: State, t: State) {
    && s.caller.Awaiting?
    && (|| t == s.(caller := FlagSet, flag := true)
        || (s.sup.Done? && t == s.(caller := Disarmed(s.sup.result))))
  }

  /** `CancellationGuard::cancel` after the flag is stored: load the pid, and kill its group if there is one. */
  predicate KillPidStep(s: State, t: State) {
    match s.caller
    case FlagSet => t == s.(caller := PidRead(s.published))
    case PidRead(seen) =>
      t == (if seen then Killed(s).(callerKills := s.callerKills + 1) else s).(caller := GaveUp(seen))
    case _ => false
  }

  predicate CallerStep(s: State, t: State) { DecideStep(s, t) || KillPidStep(s, t) }

  /** The child exits, or the last of its descendants does. */
  predicate ChildStep(s: State, t: State) {
    s.tree && (t == s.(rootExited := true) || (s.rootExited && t == s.(tree := false)))
  }

  predicate Step(s: State, t: State) { SupervisorStep(s, t) || CallerStep(s, t) || ChildStep(s, t) }

  ghost predicate Run(states: seq<State>) {
    && states != [] && states[0] == INITIAL
    && forall i | 0 <= i < |states| - 1 :: Step(states[i], states[i + 1])
  }

  // ---- what every step keeps

  /** How far setting up has come: spawned, published, guarded. */
  function Stage(p: Supervisor): nat {
    match p
    case Starting => 0
    case Spawned => 1
    case Published => 2
    case Unwinding(result) => if result == SpawnFailed then 0 else 3
    case Done(result) => if result == SpawnFailed then 0 else 3
    case _ => 3
  }

  /** Places that are only reached through a kill of the tree. */
  predicate MustHaveKilled(p: Supervisor) {
    match p
    case CancelReap => true
    case TimeoutReap => true
    case Finishing(timedOut) => timedOut
    case Joining(_) => true
    case Done(result) => result != SpawnFailed
    case _ => false
  }

  predicate MayHaveKilled(p: Supervisor) { MustHaveKilled(p) || p.Unwinding? }

  predicate TreeInv(s: State) {
    && s.spawned == (Stage(s.sup) >= 1) && s.published == (Stage(s.sup) >= 2) && s.guardMade == (Stage(s.sup) == 3)
    && s.armed == (s.guardMade && s.guardKills == 0) && s.guardKills <= 1
    && (MustHaveKilled(s.sup) ==> s.guardKills == 1)
    && (s.guardKills == 1 ==> MayHaveKilled(s.sup) && s.guardMade && !s.tree)
    && (s.tree ==> s.spawned)
    && (s.spawned && !s.tree ==> s.rootExited)
  }

  /** How often the flag has let the loop go on, whether the child is reaped, and what that says of the result. */
  predicate PassesAt(p: Supervisor, passed: bool, reaped: bool, flag: bool) {
    match p
    case Starting => !passed && !reaped
    case Spawned => !passed && !reaped
    case Published => !passed && !reaped
    case Guarded => !passed && !reaped
    case Checking => !reaped
    case Polling => passed && !reaped
    case Timing => passed && !reaped
    case Sleeping => passed && !reaped
    case CancelKill => flag && !reaped
    case CancelReap => flag && !reaped
    case TimeoutKill => passed && !reaped
    case TimeoutReap => passed && !reaped
    case Finishing(_) => passed && reaped
    case Joining(_) => passed && reaped
    case Unwinding(result) => ResultAfter(result, passed, reaped, flag)
    case Done(result) => ResultAfter(result, passed, reaped, flag)
  }

  predicate ResultAfter(result: Result, passed: bool, reaped: bool, flag: bool) {
    match result
    case Finished(_) => passed && reaped
    case CollectorFailed => passed && reaped
    case WaitFailed => passed && !reaped
    case MissingPipe => !passed && !reaped
    case SpawnFailed => !passed && !reaped
    case Cancelled => flag
  }

  /** A fault ends the supervision, and leaves a spawned child unreaped; without one the child is reaped in the end. */
  predicate FaultsOfPlace(s: State) {
    match s.sup
    case Unwinding(result) => FaultsAfter(s, result)
    case Done(result) => FaultsAfter(s, result)
    case _ => !s.pipesMissing && !s.waitFailed
  }

  predicate FaultsAfter(s: State, result: Result) {
    if result == SpawnFailed then !s.pipesMissing && !s.waitFailed
    else s.reaped == (!s.pipesMissing && !s.waitFailed) && (s.pipesMissing <==> result == MissingPipe)
  }

  predicate PassesOfPlace(s: State) { PassesAt(s.sup, s.passes > 0, s.reaped, s.flag) }

  predicate CallerOfPlace(s: State) {
    match s.caller
    case Awaiting => !s.flag && s.callerKills == 0
    case FlagSet => s.flag && s.callerKills == 0
    case PidRead(seen) => s.flag && s.callerKills == 0 && (if seen then s.published else s.passes == 0)
    case GaveUp(seen) =>
      s.flag && if seen then s.callerKills == 1 && s.spawned && !s.tree else s.callerKills == 0 && s.passes == 0
    case Disarmed(result) => !s.flag && s.callerKills == 0 && s.sup == Done(result)
  }

  /** How many of its own steps the supervisor can still make once the flag is up. */
  function StepsLeft(p: Supervisor): (n: nat)
    ensures n <= 13
  {
    match p
    case Starting => 13
    case Spawned => 12
    case Published => 11
    case Guarded => 10
    case Polling => 9
    case Timing => 8
    case Sleeping => 7
    case Checking => 6
    case CancelKill => 3
    case CancelReap => 2
    case TimeoutKill => 5
    case TimeoutReap => 4
    case Finishing(_) => 3
    case Joining(_) => 2
    case Unwinding(_) => 1
    case Done(_) => 0
  }

  /** A supervisor step never touches the flag, and with the flag up it brings the end closer. */
  predicate Onward(s: State, t: State) {
    t.flag == s.flag && t.sup != s.sup && (s.flag ==> t.passes == s.passes && StepsLeft(t.sup) < StepsLeft(s.sup))
  }

  predicate Inv(s: State) { TreeInv(s) && PassesOfPlace(s) && FaultsOfPlace(s) && CallerOfPlace(s) }

  lemma SpawnStepKeepsInv(s: State, t: State)
    requires Inv(s) && SpawnStep(s, t)
    ensures Inv(t) && Onward(s, t)
  {
  }

  lemma GuardStepKeepsInv(s: State, t: State)
    requires Inv(s) && GuardStep(s, t)
    ensures Inv(t) && Onward(s, t)
  {
  }

  lemma FlagStepKeepsInv(s: State, t: State)
    requires Inv(s) && FlagStep(s, t)
    ensures Inv(t) && Onward(s, t)
  {
  }

  lemma PollStepKeepsInv(s: State, t: State)
    requires Inv(s) && PollStep(s, t)
    ensures Inv(t) && Onward(s, t)
  {
  }

  lemma CancelStepKeepsInv(s: State, t: State)
    requires Inv(s) && CancelStep(s, t)
    ensures Inv(t) && Onward(s, t)
  {
  }

  lemma TimeoutStepKeepsInv(s: State, t: State)
    requires Inv(s) && TimeoutStep(s, t)
    ensures Inv(t) && Onward(s, t)
  {
  }

  lemma EndStepKeepsInv(s: State, t: State)
    requires Inv(s) && EndStep(s, t)
    ensures Inv(t) && Onward(s, t)
  {
  }

  lemma SupervisorKeepsInv(s: State, t: State)
    requires Inv(s) && SupervisorStep(s, t)
    ensures Inv(t) && Onward(s, t)
  {
    if SpawnStep(s, t) { SpawnStepKeepsInv(s, t); }
    else if GuardStep(s, t) { GuardStepKeepsInv(s, t); }
    else if FlagStep(s, t) { FlagStepKeepsInv(s, t); }
    else if PollStep(s, t) { PollStepKeepsInv(s, t); }
    else if CancelStep(s, t) { CancelStepKeepsInv(s, t); }
    else if TimeoutStep(s, t) { TimeoutStepKeepsInv(s, t); }
    else { EndStepKeepsInv(s, t); }
  }

  lemma DecideKeepsInv(s: State, t: State)
    requires Inv(s) && DecideStep(s, t)
    ensures Inv(t) && t.sup == s.sup && t.passes == s.passes && !s.flag
  {
    FlagOnlyHelps(s.sup, s.passes > 0, s.reaped);
  }

  lemma KillPidKeepsInv(s: State, t: State)
    requires Inv(s) && KillPidStep(s, t)
    ensures Inv(t) && t.sup == s.sup && t.passes == s.passes && t.flag
  {
  }

  lemma FlagOnlyHelps(p: Supervisor, passed: bool, reaped: bool)
    requires PassesAt(p, passed, reaped, false) || PassesAt(p, passed, reaped, true)
    ensures PassesAt(p, passed, reaped, true)
  {
  }

  lemma ChildKeepsInv(s: State, t: State)
    requires Inv(s) && ChildStep(s, t)
    ensures Inv(t) && t.sup == s.sup
  {
  }

  lemma {:induction false} RunKeepsInv(states: seq<State>, i: nat)
    requires Run(states) && i < |states|
    ensures Inv(states[i])
  {
    if i > 0 {
      RunKeepsInv(states, i - 1);
      var s, t := states[i - 1], states[i];
      assert Step(s, t);
      if SupervisorStep(s, t) {
        SupervisorKeepsInv(s, t);
      } else if DecideStep(s, t) {
        DecideKeepsInv(s, t);
      } else if KillPidStep(s, t) {
        KillPidKeepsInv(s, t);
      } else {
        ChildKeepsInv(s, t);
      }
    }
  }

  // ---- what holds of every run

  /** Whatever path the supervisor returns by, no process of the child's tree is left, and the tree guard has
    * killed exactly once if there was a child and never otherwise. */
  lemma NoTreeSurvives(states: seq<State>, i: nat)
    requires Run(states) && i < |states| && states[i].sup.Done?
    ensures !states[i].tree
    ensures states[i].guardKills == if states[i].spawned then 1 else 0
    ensures states[i].spawned <==> states[i].sup.result != SpawnFailed
  {
    RunKeepsInv(states, i);
  }

  /** A cancel is never lost. When the caller has given up, either it has killed the tree itself, or no flag check
    * has let the supervisor through yet, and then the supervisor cannot end by watching the child. */
  lemma CancelIsNeverLost(states: seq<State>, i: nat)
    requires Run(states) && i < |states| && states[i].caller.GaveUp?
    ensures states[i].flag
    ensures states[i].caller.seen ==> states[i].spawned && !states[i].tree
    ensures !states[i].caller.seen ==> states[i].passes == 0
    ensures !states[i].caller.seen && states[i].sup.Done? ==>
              states[i].sup.result in {Cancelled, SpawnFailed, MissingPipe}
  {
    RunKeepsInv(states, i);
  }

  /** A caller that was given a result has never raised the flag nor killed anything. */
  lemma DisarmedIsHarmless(states: seq<State>, i: nat)
    requires Run(states) && i < |states| && states[i].caller.Disarmed?
    ensures !states[i].flag && states[i].callerKills == 0
    ensures states[i].sup == Done(states[i].caller.result) && states[i].caller.result != Cancelled
  {
    RunKeepsInv(states, i);
  }

  /** Whatever happens in between, a spawned child has been reaped at the end if and only if it had its pipes and no
    * call that asks for its exit status failed; a cancel makes no difference. */
  lemma ReapedIff(states: seq<State>, i: nat)
    requires Run(states) && i < |states| && states[i].sup.Done? && states[i].spawned
    ensures states[i].reaped <==> !states[i].pipesMissing && !states[i].waitFailed
    ensures states[i].sup.result == MissingPipe <==> states[i].pipesMissing
    ensures states[i].sup.result.Finished? || states[i].sup.result.CollectorFailed? ==> states[i].reaped
  {
    RunKeepsInv(states, i);
  }

  /** A run that ends with the child dead and unreaped. */
  lemma UnreapedRun() returns (states: seq<State>)
    ensures Run(states)
    ensures var last := states[|states| - 1];
            last.sup == Done(WaitFailed) && last.spawned && !last.tree && !last.reaped
  {
    var s0 := INITIAL;
    var s1 := s0.(sup := Spawned, spawned := true, tree := true);
    var s2 := s1.(sup := Published, published := true);
    var s3 := s2.(sup := Guarded, guardMade := true, armed := true);
    var s4 := s3.(sup := Checking);
    var s5 := s4.(sup := Polling, passes := 1);
    var s6 := s5.(sup := Unwinding(WaitFailed), waitFailed := true);
    var s7 := Terminated(s6).(sup := Done(WaitFailed));
    states := [s0, s1, s2, s3, s4, s5, s6, s7];
    assert SpawnStep(s0, s1) && SpawnStep(s1, s2) && GuardStep(s2, s3) && GuardStep(s3, s4);
    assert FlagStep(s4, s5) && PollStep(s5, s6) && EndStep(s6, s7);
  }

  /** The supervisor can always move until it is done: it kills before it waits or joins, so it never blocks. */
  lemma NeverBlocks(states: seq<State>, i: nat) returns (t: State)
    requires Run(states) && i < |states| && !states[i].sup.Done?
    ensures SupervisorStep(states[i], t)
  {
    RunKeepsInv(states, i);
    var s := states[i];
    match s.sup
    case Starting => t := s.(sup := Unwinding(SpawnFailed));
    case Spawned => t := s.(sup := Published, published := true);
    case Published => t := s.(sup := Guarded, guardMade := true, armed := true);
    case Guarded => t := s.(sup := Checking);
    case Checking => t := if s.flag then s.(sup := CancelKill) else s.(sup := Polling, passes := s.passes + 1);
    case Polling => t := s.(sup := Unwinding(WaitFailed), waitFailed := true);
    case Timing => t := s.(sup := Sleeping);
    case Sleeping => t := s.(sup := Checking);
    case CancelKill => t := Terminated(s).(sup := CancelReap);
    case CancelReap => t := s.(sup := Unwinding(Cancelled), reaped := true);
    case TimeoutKill => t := Terminated(s).(sup := TimeoutReap);
    case TimeoutReap => t := s.(sup := Finishing(true), reaped := true);
    case Finishing(timedOut) => t := Terminated(s).(sup := Joining(timedOut));
    case Joining(timedOut) => t := s.(sup := Unwinding(Finished(timedOut)));
    case Unwinding(result) => t := Terminated(s).(sup := Done(result));
  }

  /** The supervisor's own steps between two places of a run. */
  function Moves(states: seq<State>, i: nat, j: nat): nat
    requires i <= j < |states|
    decreases j - i
  {
    if i == j then 0 else Moves(states, i, j - 1) + if states[j].sup != states[j - 1].sup then 1 else 0
  }

  /** With the flag up a step lets nothing through and never moves the supervisor away from its end. */
  predicate Closing(s: State, t: State) {
    s.flag ==> t.flag && t.passes == s.passes && (t.sup == s.sup || StepsLeft(t.sup) < StepsLeft(s.sup))
  }

  lemma StepIsClosing(states: seq<State>, i: nat)
    requires Run(states) && i + 1 < |states|
    ensures Closing(states[i], states[i + 1])
  {
    RunKeepsInv(states, i);
    var s, t := states[i], states[i + 1];
    assert Step(s, t);
    if SupervisorStep(s, t) {
      SupervisorKeepsInv(s, t);
    } else if DecideStep(s, t) {
      DecideKeepsInv(s, t);
    } else if KillPidStep(s, t) {
      KillPidKeepsInv(s, t);
    }
  }

  lemma {:induction false} ClosingAddsUp(states: seq<State>, i: nat, j: nat)
    requires i <= j < |states| && states[i].flag
    requires forall k | i <= k < j :: Closing(states[k], states[k + 1])
    ensures states[j].flag && states[j].passes == states[i].passes
    ensures Moves(states, i, j) + StepsLeft(states[j].sup) <= StepsLeft(states[i].sup)
    decreases j - i
  {
    if i < j {
      ClosingAddsUp(states, i, j - 1);
      assert Closing(states[j - 1], states[j - 1 + 1]);
    }
  }

  /** After the flag is raised no flag check lets the loop go on, and the supervisor is done within thirteen
    * steps of its own. */
  lemma CancelIsPrompt(states: seq<State>, i: nat, j: nat)
    requires Run(states) && i <= j < |states| && states[i].flag
    ensures states[j].flag && states[j].passes == states[i].passes
    ensures Moves(states, i, j) + StepsLeft(states[j].sup) <= 13
  {
    forall k | i <= k < j
      ensures Closing(states[k], states[k + 1])
    {
      StepIsClosing(states, k);
    }
    ClosingAddsUp(states, i, j);
  }

  // ---- what the reported outcome means

  /** Some step of the supervisor has led away from the kill on a timeout. */
  ghost predicate KilledOnTimeout(states: seq<State>, i: nat)
    requires i < |states|
  {
    exists k | 0 <= k < i :: states[k].sup.TimeoutKill? && states[k + 1].sup != states[k].sup
  }

  ghost predicate KilledOnCancel(states: seq<State>, i: nat)
    requires i < |states|
  {
    exists k | 0 <= k < i :: states[k].sup.CancelKill? && states[k + 1].sup != states[k].sup
  }

  /** A poll has found that the child had exited, and has collected its exit status. */
  ghost predicate SawExit(states: seq<State>, i: nat)
    requires i < |states|
  {
    exists k | 0 <= k < i ::
      && states[k].sup.Polling? && states[k + 1].sup != states[k].sup
      && states[k].rootExited && !states[k].reaped && states[k + 1].reaped
  }

  /** What has happened on the way to a place. */
  predicate WayTo(p: Supervisor, killed: bool, cancelled: bool, exited: bool) {
    match p
    case CancelReap => !killed && cancelled && !exited
    case TimeoutReap => killed && !cancelled && !exited
    case Finishing(timedOut) => killed == timedOut && !cancelled && exited == !timedOut
    case Joining(timedOut) => killed == timedOut && !cancelled && exited == !timedOut
    case Unwinding(result) => WayToResult(result, killed, cancelled, exited)
    case Done(result) => WayToResult(result, killed, cancelled, exited)
    case _ => !killed && !cancelled && !exited
  }

  predicate WayToResult(result: Result, killed: bool, cancelled: bool, exited: bool) {
    match result
    case Finished(timedOut) => killed == timedOut && !cancelled && exited == !timedOut
    case CollectorFailed => killed == !exited && !cancelled
    case WaitFailed => !cancelled && !exited
    case Cancelled => !killed && cancelled && !exited
    case _ => !killed && !cancelled && !exited
  }

  /** What one step adds. */
  lemma OneStepMore(states: seq<State>, i: nat)
    requires i + 1 < |states|
    ensures KilledOnTimeout(states, i + 1)
       <==> KilledOnTimeout(states, i) || (states[i].sup.TimeoutKill? && states[i + 1].sup != states[i].sup)
    ensures KilledOnCancel(states, i + 1)
       <==> KilledOnCancel(states, i) || (states[i].sup.CancelKill? && states[i + 1].sup != states[i].sup)
    ensures SawExit(states, i + 1)
       <==> SawExit(states, i) || (states[i + 1].sup != states[i].sup && SeesExit(states[i], states[i + 1]))
  {
  }

  predicate SeesExit(s: State, t: State) { s.sup.Polling? && s.rootExited && !s.reaped && t.reaped }

  lemma SpawnGoesOn(s: State, t: State, killed: bool, cancelled: bool, exited: bool)
    requires Inv(s) && SpawnStep(s, t) && WayTo(s.sup, killed, cancelled, exited)
    ensures WayTo(t.sup, killed || s.sup.TimeoutKill?, cancelled || s.sup.CancelKill?, exited || SeesExit(s, t))
  {
  }

  lemma GuardGoesOn(s: State, t: State, killed: bool, cancelled: bool, exited: bool)
    requires Inv(s) && GuardStep(s, t) && WayTo(s.sup, killed, cancelled, exited)
    ensures WayTo(t.sup, killed || s.sup.TimeoutKill?, cancelled || s.sup.CancelKill?, exited || SeesExit(s, t))
  {
  }

  lemma FlagGoesOn(s: State, t: State, killed: bool, cancelled: bool, exited: bool)
    requires Inv(s) && FlagStep(s, t) && WayTo(s.sup, killed, cancelled, exited)
    ensures WayTo(t.sup, killed || s.sup.TimeoutKill?, cancelled || s.sup.CancelKill?, exited || SeesExit(s, t))
  {
  }

  lemma PollGoesOn(s: State, t: State, killed: bool, cancelled: bool, exited: bool)
    requires Inv(s) && PollStep(s, t) && WayTo(s.sup, killed, cancelled, exited)
    ensures WayTo(t.sup, killed || s.sup.TimeoutKill?, cancelled || s.sup.CancelKill?, exited || SeesExit(s, t))
  {
  }

  lemma CancelGoesOn(s: State, t: State, killed: bool, cancelled: bool, exited: bool)
    requires Inv(s) && CancelStep(s, t) && WayTo(s.sup, killed, cancelled, exited)
    ensures WayTo(t.sup, killed || s.sup.TimeoutKill?, cancelled || s.sup.CancelKill?, exited || SeesExit(s, t))
  {
  }

  lemma TimeoutGoesOn(s: State, t: State, killed: bool, cancelled: bool, exited: bool)
    requires Inv(s) && TimeoutStep(s, t) && WayTo(s.sup, killed, cancelled, exited)
    ensures WayTo(t.sup, killed || s.sup.TimeoutKill?, cancelled || s.sup.CancelKill?, exited || SeesExit(s, t))
  {
  }

  lemma EndGoesOn(s: State, t: State, killed: bool, cancelled: bool, exited: bool)
    requires Inv(s) && EndStep(s, t) && WayTo(s.sup, killed, cancelled, exited)
    ensures WayTo(t.sup, killed || s.sup.TimeoutKill?, cancelled || s.sup.CancelKill?, exited || SeesExit(s, t))
  {
  }

  lemma WayGoesOn(s: State, t: State, killed: bool, cancelled: bool, exited: bool)
    requires Inv(s) && SupervisorStep(s, t) && WayTo(s.sup, killed, cancelled, exited)
    ensures WayTo(t.sup, killed || s.sup.TimeoutKill?, cancelled || s.sup.CancelKill?, exited || SeesExit(s, t))
  {
    hide WayTo, SeesExit, SpawnStep, GuardStep, FlagStep, PollStep, CancelStep, TimeoutStep, EndStep, Inv;
    if SpawnStep(s, t) { SpawnGoesOn(s, t, killed, cancelled, exited); }
    else if GuardStep(s, t) { GuardGoesOn(s, t, killed, cancelled, exited); }
    else if FlagStep(s, t) { FlagGoesOn(s, t, killed, cancelled, exited); }
    else if PollStep(s, t) { PollGoesOn(s, t, killed, cancelled, exited); }
    else if CancelStep(s, t) { CancelGoesOn(s, t, killed, cancelled, exited); }
    else if TimeoutStep(s, t) { TimeoutGoesOn(s, t, killed, cancelled, exited); }
    else { EndGoesOn(s, t, killed, cancelled, exited); }
  }

  lemma OthersStayThere(s: State, t: State)
    requires Inv(s) && (CallerStep(s, t) || ChildStep(s, t))
    ensures t.sup == s.sup
  {
    hide Inv, DecideStep, KillPidStep, ChildStep;
    if DecideStep(s, t) {
      DecideKeepsInv(s, t);
    } else if KillPidStep(s, t) {
      KillPidKeepsInv(s, t);
    } else {
      ChildKeepsInv(s, t);
    }
  }

  lemma {:induction false} RunFollowsWay(states: seq<State>, i: nat)
    requires Run(states) && i < |states|
    ensures WayTo(states[i].sup, KilledOnTimeout(states, i), KilledOnCancel(states, i), SawExit(states, i))
  {
    hide WayTo, Inv, SupervisorStep, CallerStep, ChildStep, SeesExit;
    if i == 0 {
      NothingYet();
    } else {
      RunFollowsWay(states, i - 1);
      RunKeepsInv(states, i - 1);
      OneStepMore(states, i - 1);
      var s, t := states[i - 1], states[i];
      assert Step(states[i - 1], states[i - 1 + 1]);
      if SupervisorStep(s, t) {
        SupervisorKeepsInv(s, t);
        WayGoesOn(s, t, KilledOnTimeout(states, i - 1), KilledOnCancel(states, i - 1), SawExit(states, i - 1));
      } else {
        OthersStayThere(s, t);
      }
    }
  }

  lemma NothingYet()
    ensures WayTo(INITIAL.sup, false, false, false) && INITIAL.sup == Starting
  {
  }

  /** A finished supervision reports a timeout exactly if it killed the tree on a timeout, and an exit exactly if a
    * poll saw the child exited; it reports a cancel exactly if it killed the tree on a cancel. */
  lemma OutcomeIsTrue(states: seq<State>, i: nat)
    requires Run(states) && i < |states| && states[i].sup.Done?
    ensures states[i].sup.result.Finished? ==>
              && (states[i].sup.result.timedOut <==> KilledOnTimeout(states, i))
              && (!states[i].sup.result.timedOut <==> SawExit(states, i))
    ensures states[i].sup.result.Cancelled? <==> KilledOnCancel(states, i)
    ensures states[i].sup.result.CollectorFailed? ==> (KilledOnTimeout(states, i) <==> !SawExit(states, i))
  {
    RunFollowsWay(states, i);
  }

  // ---- every outcome occurs

  lemma Extend(states: seq<State>, t: State)
    requires Run(states) && Step(states[|states| - 1], t)
    ensures Run(states + [t])
  {
    var all := states + [t];
    forall i | 0 <= i < |all| - 1
      ensures Step(all[i], all[i + 1])
    {
      if i < |states| - 1 {
        assert Step(states[i], states[i + 1]);
      }
    }
  }

  const SPAWNED := INITIAL.(sup := Spawned, spawned := true, tree := true)
  const GUARDED := SPAWNED.(sup := Guarded, published := true, guardMade := true, armed := true)
  const POLLING := GUARDED.(sup := Polling, passes := 1)
  const KILLED := POLLING.(tree := false, rootExited := true, armed := false, guardKills := 1)

  lemma RunToGuarded() returns (states: seq<State>)
    ensures Run(states) && states[|states| - 1] == GUARDED
  {
    var published := SPAWNED.(sup := Published, published := true);
    states := [INITIAL, SPAWNED, published, GUARDED];
    assert SpawnStep(INITIAL, SPAWNED) && SpawnStep(SPAWNED, published) && GuardStep(published, GUARDED);
  }

  lemma RunToPolling() returns (states: seq<State>)
    ensures Run(states) && states[|states| - 1] == POLLING
  {
    var before := RunToGuarded();
    var checking := GUARDED.(sup := Checking);
    assert GuardStep(GUARDED, checking) && FlagStep(checking, POLLING);
    Extend(before, checking);
    Extend(before + [checking], POLLING);
    states := before + [checking] + [POLLING];
  }

  /** Time is up, and the tree is killed and reaped. */
  lemma RunToTimeout() returns (states: seq<State>)
    ensures Run(states) && states[|states| - 1] == KILLED.(sup := Finishing(true), reaped := true)
  {
    var before := RunToPolling();
    var timing, killing, reaping := POLLING.(sup := Timing), POLLING.(sup := TimeoutKill), KILLED.(sup := TimeoutReap);
    var end := KILLED.(sup := Finishing(true), reaped := true);
    assert PollStep(POLLING, timing) && PollStep(timing, killing);
    assert TimeoutStep(killing, reaping) && TimeoutStep(reaping, end);
    Extend(before, timing);
    Extend(before + [timing], killing);
    Extend(before + [timing] + [killing], reaping);
    Extend(before + [timing] + [killing] + [reaping], end);
    states := before + [timing] + [killing] + [reaping] + [end];
  }

  /** The child exits by itself, a poll sees it, and what is left of the tree is killed. */
  lemma RunToExit() returns (states: seq<State>)
    ensures Run(states) && states[|states| - 1] == KILLED.(sup := Joining(false), reaped := true)
  {
    var before := RunToPolling();
    var exited := POLLING.(rootExited := true);
    var seen, end := exited.(sup := Finishing(false), reaped := true), KILLED.(sup := Joining(false), reaped := true);
    assert ChildStep(POLLING, exited) && PollStep(exited, seen) && EndStep(seen, end);
    Extend(before, exited);
    Extend(before + [exited], seen);
    Extend(before + [exited] + [seen], end);
    states := before + [exited] + [seen] + [end];
  }

  /** The caller gives up while the supervisor is at work. */
  lemma RunToCancel() returns (states: seq<State>)
    ensures Run(states) && states[|states| - 1].sup == Unwinding(Cancelled)
  {
    var before := RunToGuarded();
    var checking, flagged := GUARDED.(sup := Checking), GUARDED.(sup := Checking, caller := FlagSet, flag := true);
    var killing, reaping := flagged.(sup := CancelKill), Terminated(flagged).(sup := CancelReap);
    var end := reaping.(sup := Unwinding(Cancelled), reaped := true);
    assert GuardStep(GUARDED, checking) && DecideStep(checking, flagged) && FlagStep(flagged, killing);
    assert CancelStep(killing, reaping) && CancelStep(reaping, end);
    Extend(before, checking);
    Extend(before + [checking], flagged);
    Extend(before + [checking] + [flagged], killing);
    Extend(before + [checking] + [flagged] + [killing], reaping);
    Extend(before + [checking] + [flagged] + [killing] + [reaping], end);
    states := before + [checking] + [flagged] + [killing] + [reaping] + [end];
  }

  lemma RunToUnwinding(result: Result) returns (states: seq<State>)
    ensures Run(states) && states[|states| - 1].sup == Unwinding(result)
  {
    match result
    case SpawnFailed =>
      var end := INITIAL.(sup := Unwinding(SpawnFailed));
      assert SpawnStep(INITIAL, end);
      states := [INITIAL, end];
    case MissingPipe =>
      states := RunToGuarded();
      var end := GUARDED.(sup := Unwinding(MissingPipe), pipesMissing := true);
      assert GuardStep(GUARDED, end);
      Extend(states, end);
      states := states + [end];
    case WaitFailed =>
      states := RunToPolling();
      var end := POLLING.(sup := Unwinding(WaitFailed), waitFailed := true);
      assert PollStep(POLLING, end);
      Extend(states, end);
      states := states + [end];
    case Cancelled => states := RunToCancel();
    case CollectorFailed =>
      states := RunToExit();
      var joining := states[|states| - 1];
      var end := joining.(sup := Unwinding(CollectorFailed));
      assert EndStep(joining, end);
      Extend(states, end);
      states := states + [end];
    case Finished(timedOut) =>
      if timedOut {
        var before := RunToTimeout();
        var finishing := before[|before| - 1];
        var joining := finishing.(sup := Joining(true));
        assert EndStep(finishing, joining);
        Extend(before, joining);
        states := before + [joining];
      } else {
        states := RunToExit();
      }
      var joining := states[|states| - 1];
      var end := joining.(sup := Unwinding(Finished(timedOut)));
      assert EndStep(joining, end);
      Extend(states, end);
      states := states + [end];
  }

  /** There is a run to every result. */
  lemma EveryOutcomeOccurs(result: Result) returns (states: seq<State>)
    ensures Run(states) && states[|states| - 1].sup == Done(result)
  {
    states := RunToUnwinding(result);
    var last := states[|states| - 1];
    var end := Terminated(last).(sup := Done(result));
    assert EndStep(last, end);
    Extend(states, end);
    states := states + [end];
  }
}

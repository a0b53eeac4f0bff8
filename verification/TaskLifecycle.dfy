// The periodic task as a protocol between any number of Start and Close callers,
// the loop goroutine of each run, and the goroutine that runs Execute.
module TaskLifecycle {
  import Executions
  import opened Wrappers

  // The goroutine around one Execute call: created, running, result sent.
  datatype Body = Absent | Created | Executing | Sent

  // Where a run's loop is. Awaiting is the first select inside execute, Draining
  // the unconditional receive after a timeout or cancellation.
  datatype Loop = Fresh(first: bool) | Awaiting | Draining | Selecting | Exited

  // One run: its loop, its body, and whether its context is cancelled. The done
  // channel of the run is closed exactly when the loop has exited.
  datatype Run = Run(loop: Loop, body: Body, cancelled: bool) {
    predicate Alive() { loop != Exited }
  }

  // A Close call: the run it captured under the mutex and how far it got.
  datatype Closer =
    | Idle                  // there was nothing to close
    | Captured(run: nat)    // about to cancel
    | Waiting(run: nat)     // receiving from done
    | Joined(run: nat)      // about to take the mutex again
    | Returned(run: nat)

  // current stands for the fields cancel and done, which are set and cleared
  // together; a run is named by its position in runs.
  datatype State = State(
    valid: bool,
    reloadable: bool,
    current: Option<nat>,
    runs: seq<Run>,
    closers: seq<Closer>,
    reloads: nat)

  datatype Step =
    | Start(first: bool)
    | CloseCapture
    | CloseCancel(caller: nat)
    | CloseJoin(caller: nat)
    | CloseFinish(caller: nat)
    | LoopBegin(run: nat)
    | LoopTick(run: nat)
    | LoopExit(run: nat)
    | BodyBegin(run: nat)
    | BodyEnd(run: nat)
    | Receive(run: nat)
    | Expire(run: nat)
    | TakeReload

  predicate Init(s: State) {
    s.current == None && s.runs == [] && s.closers == [] && s.reloads == 0
  }

  function WithRun(s: State, r: nat, run: Run): State
    requires r < |s.runs|
  {
    s.(runs := s.runs[r := run])
  }

  // Whether a step can be taken.
  predicate Enabled(s: State, step: Step) {
    match step
    case Start(_) => true
    case CloseCapture => true
    case CloseCancel(i) => i < |s.closers| && s.closers[i].Captured? && s.closers[i].run < |s.runs|
    case CloseJoin(i) =>
      i < |s.closers| && s.closers[i].Waiting? && s.closers[i].run < |s.runs| && !s.runs[s.closers[i].run].Alive()
    case CloseFinish(i) => i < |s.closers| && s.closers[i].Joined?
    case LoopBegin(r) => r < |s.runs| && s.runs[r].loop.Fresh?
    case LoopTick(r) => r < |s.runs| && s.runs[r].loop == Selecting
    case LoopExit(r) => r < |s.runs| && s.runs[r].loop == Selecting && s.runs[r].cancelled
    case BodyBegin(r) => r < |s.runs| && s.runs[r].body == Created
    case BodyEnd(r) => r < |s.runs| && s.runs[r].body == Executing
    case Receive(r) => r < |s.runs| && s.runs[r].loop in {Awaiting, Draining} && s.runs[r].body == Sent
    case Expire(r) => r < |s.runs| && s.runs[r].loop == Awaiting
    case TakeReload => s.reloads > 0
  }

  // The state after an enabled step.
  function Apply(s: State, step: Step): State
    requires Enabled(s, step)
  {
    match step
    case Start(first) =>
      if s.current.Some? || !s.valid then s
      else s.(current := Some(|s.runs|), runs := s.runs + [Run(Fresh(first), Absent, false)])
    case CloseCapture =>
      s.(closers := s.closers + [if s.current.Some? then Captured(s.current.value) else Idle])
    case CloseCancel(i) =>
      var r := s.closers[i].run;
      WithRun(s, r, s.runs[r].(cancelled := true)).(closers := s.closers[i := Waiting(r)])
    case CloseJoin(i) => s.(closers := s.closers[i := Joined(s.closers[i].run)])
    case CloseFinish(i) =>
      var r := s.closers[i].run;
      s.(closers := s.closers[i := Returned(r)], current := if s.current == Some(r) then None else s.current)
    case LoopBegin(r) =>
      WithRun(s, r, if s.runs[r].loop.first then s.runs[r].(loop := Awaiting, body := Created)
                    else s.runs[r].(loop := Selecting))
    case LoopTick(r) => WithRun(s, r, s.runs[r].(loop := Awaiting, body := Created))
    case LoopExit(r) => WithRun(s, r, s.runs[r].(loop := Exited))
    case BodyBegin(r) => WithRun(s, r, s.runs[r].(body := Executing))
    case BodyEnd(r) => WithRun(s, r, s.runs[r].(body := Sent))
    case Receive(r) => WithRun(s, r, s.runs[r].(loop := Selecting, body := Absent))
    case Expire(r) =>
      // The reload channel holds one signal; a full channel drops it.
      WithRun(s, r, s.runs[r].(loop := Draining)).(
        reloads := if !s.runs[r].cancelled && s.reloadable && s.reloads == 0 then 1 else s.reloads)
    case TakeReload => s.(reloads := s.reloads - 1)
  }

  ghost predicate Next(s: State, s': State) {
    exists step :: Enabled(s, step) && s' == Apply(s, step)
  }

  // A run of the whole system, one step at a time.
  ghost predicate Execution(states: seq<State>) {
    Executions.Execution(Init, Next, states)
  }

  // Only the current run can be alive; a body exists exactly inside execute.
  ghost predicate RunsInv(s: State) {
    && (s.current.Some? ==> s.current.value < |s.runs|)
    && s.reloads <= 1
    && forall r :: 0 <= r < |s.runs| ==>
         && (s.runs[r].Alive() ==> s.current == Some(r))
         && (!s.runs[r].Alive() ==> s.runs[r].cancelled)
         && (s.runs[r].body == Absent <==> s.runs[r].loop !in {Awaiting, Draining})
  }

  // How far a Close got says what has happened to its run.
  ghost predicate ClosersInv(s: State) {
    forall i :: 0 <= i < |s.closers| && s.closers[i] != Idle ==>
      && s.closers[i].run < |s.runs|
      && (!s.closers[i].Captured? ==> s.runs[s.closers[i].run].cancelled)
      && (s.closers[i].Joined? || s.closers[i].Returned? ==> !s.runs[s.closers[i].run].Alive())
  }

  ghost predicate Inv(s: State) { RunsInv(s) && ClosersInv(s) }

  lemma StepKeepsRuns(s: State, step: Step)
    requires Inv(s) && Enabled(s, step)
    ensures RunsInv(Apply(s, step))
  {
  }

  lemma StepKeepsClosers(s: State, step: Step)
    requires Inv(s) && Enabled(s, step)
    ensures ClosersInv(Apply(s, step))
  {
    StepKeepsEnded(s, step);
  }

  // Runs are never forgotten, cancellation is permanent, and an ended run stays
  // exactly as it is.
  lemma StepKeepsEnded(s: State, step: Step)
    requires Inv(s) && Enabled(s, step)
    ensures |s.runs| <= |Apply(s, step).runs|
    ensures forall r :: 0 <= r < |s.runs| ==>
      && (s.runs[r].cancelled ==> Apply(s, step).runs[r].cancelled)
      && (!s.runs[r].Alive() ==> Apply(s, step).runs[r] == s.runs[r])
  {
  }

  lemma ExecutionKeepsInv(states: seq<State>)
    requires Execution(states)
    ensures forall i :: 0 <= i < |states| ==> Inv(states[i])
  {
    forall s, s' | Inv(s) && Next(s, s') ensures Inv(s') {
      var step :| Enabled(s, step) && s' == Apply(s, step);
      StepKeepsRuns(s, step);
      StepKeepsClosers(s, step);
    }
    Executions.Invariance(Init, Next, Inv, states);
  }

  lemma StepTaken(states: seq<State>, i: nat) returns (step: Step)
    requires Execution(states) && i + 1 < |states|
    ensures Inv(states[i]) && Enabled(states[i], step) && states[i + 1] == Apply(states[i], step)
  {
    ExecutionKeepsInv(states);
    assert Executions.StepsAt(Next, states, i);
    step :| Enabled(states[i], step) && states[i + 1] == Apply(states[i], step);
  }

  // At most one loop is alive and at most one Execute body exists, across all
  // runs, at every moment of every execution.
  lemma MutualExclusion(states: seq<State>, i: nat, r: nat, q: nat)
    requires Execution(states) && i < |states| && r < |states[i].runs| && q < |states[i].runs|
    ensures states[i].runs[r].Alive() && states[i].runs[q].Alive() ==> r == q
    ensures states[i].runs[r].body != Absent && states[i].runs[q].body != Absent ==> r == q
    ensures states[i].runs[r].body != Absent ==> states[i].current == Some(r)
  {
    ExecutionKeepsInv(states);
  }

  // Every run that has ended in s is unchanged in s'.
  ghost predicate KeepsEnded(s: State, s': State) {
    && |s.runs| <= |s'.runs|
    && forall r :: 0 <= r < |s.runs| && !s.runs[r].Alive() ==> s'.runs[r] == s.runs[r]
  }

  lemma EndedForGood(states: seq<State>, i: nat, j: nat)
    requires Execution(states) && i <= j < |states|
    ensures KeepsEnded(states[i], states[j])
  {
    ExecutionKeepsInv(states);
    forall s, s' | Inv(s) && Next(s, s') ensures KeepsEnded(s, s') {
      var step :| Enabled(s, step) && s' == Apply(s, step);
      StepKeepsEnded(s, step);
    }
    Executions.Monotony(Init, Next, Inv, KeepsEnded, states, i, j);
  }

  // When a Close that captured a run has returned, that run is over: its loop
  // has exited and no Execute of it is running, then and ever after.
  lemma CloseWaitsForTheEnd(states: seq<State>, i: nat, j: nat, caller: nat)
    requires Execution(states) && i <= j < |states|
    requires caller < |states[i].closers| && states[i].closers[caller].Returned?
    ensures var r := states[i].closers[caller].run;
            && r < |states[j].runs| && !states[j].runs[r].Alive()
            && states[j].runs[r].body == Absent && states[j].runs[r].cancelled
  {
    ExecutionKeepsInv(states);
    EndedForGood(states, i, j);
  }

  // The fields of a run are cleared only after that run has ended, and never by
  // a Close that captured an older run.
  lemma LateCloseIsHarmless(states: seq<State>, i: nat, q: nat)
    requires Execution(states) && i + 1 < |states| && states[i].current == Some(q)
    requires states[i + 1].current != Some(q)
    ensures q < |states[i].runs| && !states[i].runs[q].Alive()
    ensures states[i + 1].current == None
    ensures exists caller :: 0 <= caller < |states[i].closers| && states[i].closers[caller] == Joined(q) &&
              caller < |states[i + 1].closers| && states[i + 1].closers[caller] == Returned(q)
  {
    var step := StepTaken(states, i);
    assert step.CloseFinish?;
    assert states[i].closers[step.caller] == Joined(q) && states[i + 1].closers[step.caller] == Returned(q);
  }

  // A new run is created only when no earlier loop is alive.
  lemma StartsAlone(states: seq<State>, i: nat)
    requires Execution(states) && i + 1 < |states| && |states[i + 1].runs| > |states[i].runs|
    ensures forall r :: 0 <= r < |states[i].runs| ==> !states[i].runs[r].Alive() && states[i].runs[r].body == Absent
    ensures states[i + 1].current == Some(|states[i].runs|)
  {
    hide Inv, Enabled, Apply;
    var step := StepTaken(states, i);
    StepStartsAlone(states[i], step);
  }

  lemma StepStartsAlone(s: State, step: Step)
    requires Inv(s) && Enabled(s, step) && |Apply(s, step).runs| > |s.runs|
    ensures forall r :: 0 <= r < |s.runs| ==> !s.runs[r].Alive() && s.runs[r].body == Absent
    ensures Apply(s, step).current == Some(|s.runs|)
  {
  }

  // ---------- What a Start achieves ----------

  // A run that goes on until somebody closes it.
  ghost predicate Serving(s: State) {
    s.current.Some? && s.current.value < |s.runs| && s.runs[s.current.value].Alive() && !s.runs[s.current.value].cancelled
  }

  // The current run has been cancelled, and its fields are not cleared yet.
  predicate Closing(s: State) {
    s.current.Some? && s.current.value < |s.runs| && s.runs[s.current.value].cancelled
  }

  // Start reports success for every valid task. It then runs if and only if
  // no close of the run before it is under way: between the cancellation of a run
  // and the clearing of its fields a Start does nothing.
  lemma StartServesIff(states: seq<State>, i: nat, first: bool)
    requires Execution(states) && i < |states| && states[i].valid
    ensures Serving(Apply(states[i], Start(first))) <==> !Closing(states[i])
  {
    ExecutionKeepsInv(states);
  }

  // For example a Start after a Close has cancelled the run and before it has
  // cleared the fields: nothing runs, and nothing has been started.
  lemma StartDuringClose(first: bool) returns (states: seq<State>)
    ensures Execution(states) && |states| == 4
    ensures states[3].valid && !Serving(Apply(states[3], Start(first))) && Apply(states[3], Start(first)) == states[3]
  {
    var s0 := State(true, false, None, [], [], 0);
    var s1 := Apply(s0, Start(first));
    var s2 := Apply(s1, CloseCapture);
    var s3 := Apply(s2, CloseCancel(0));
    states := [s0, s1, s2, s3];
    assert Next(s0, s1) && Next(s1, s2) && Next(s2, s3);
    forall i | 0 <= i < 3 ensures Executions.StepsAt(Next, states, i) {
    }
  }

  // A run that is started with its first call due, and one whose tick comes, create
  // a body, which runs and hands over its result; then the loop waits for the next
  // tick.
  lemma BodyRuns(s: State, r: nat)
    requires r < |s.runs| && s.runs[r].body == Absent
    requires s.runs[r].loop == Fresh(true) || s.runs[r].loop == Selecting
    ensures var begin := if s.runs[r].loop == Selecting then LoopTick(r) else LoopBegin(r);
            && Enabled(s, begin)
            && var s1 := Apply(s, begin);
            && Enabled(s1, BodyBegin(r))
            && var s2 := Apply(s1, BodyBegin(r));
            && s2.runs[r].body == Executing && Enabled(s2, BodyEnd(r))
            && var s3 := Apply(s2, BodyEnd(r));
            && Enabled(s3, Receive(r))
            && Apply(s3, Receive(r)) == s.(runs := s.runs[r := Run(Selecting, Absent, s.runs[r].cancelled)])
  {
  }

  // A run that is started without its first call waits for its tick.
  lemma LaterRunWaits(s: State, r: nat)
    requires r < |s.runs| && s.runs[r].loop == Fresh(false)
    ensures Enabled(s, LoopBegin(r))
    ensures Apply(s, LoopBegin(r)) == s.(runs := s.runs[r := s.runs[r].(loop := Selecting)])
  {
  }

  // ---------- A waiting Close is never stuck ----------

  // The number of steps of its own that a cancelled run is away from its end.
  function Distance(run: Run): nat {
    match run.loop
    case Fresh(first) => if first then 5 else 2
    case Awaiting => if run.body == Created then 4 else if run.body == Executing then 3 else 2
    case Draining => if run.body == Created then 4 else if run.body == Executing then 3 else 2
    case Selecting => 1
    case Exited => 0
  }

  // The step that brings a cancelled run closer to its end.
  function Shortcut(run: Run, r: nat): Step {
    match run.loop
    case Fresh(_) => LoopBegin(r)
    case Selecting => LoopExit(r)
    case _ => if run.body == Created then BodyBegin(r) else if run.body == Executing then BodyEnd(r) else Receive(r)
  }

  // A Close waiting for a run always has it within five enabled steps of that
  // run alone, after which the Close can go on.
  lemma CloseCanFinish(states: seq<State>, i: nat, caller: nat)
    requires Execution(states) && i < |states|
    requires caller < |states[i].closers| && states[i].closers[caller].Waiting?
    ensures var s, r := states[i], states[i].closers[caller].run;
            && r < |s.runs| && Distance(s.runs[r]) <= 5
            && (if Distance(s.runs[r]) == 0 then Enabled(s, CloseJoin(caller))
                else && Enabled(s, Shortcut(s.runs[r], r))
                     && Distance(Apply(s, Shortcut(s.runs[r], r)).runs[r]) == Distance(s.runs[r]) - 1
                     && Apply(s, Shortcut(s.runs[r], r)).closers == s.closers)
  {
    ExecutionKeepsInv(states);
  }

  // ---------- A Close ends the task ----------

  function StepsLeft(s: State, caller: nat): nat
    requires caller < |s.closers|
  {
    match s.closers[caller]
    case Captured(_) => 8
    case Waiting(r) => if r < |s.runs| then Distance(s.runs[r]) + 2 else 2
    case Joined(_) => 1
    case _ => 0
  }

  // The Close goes on to end the run it captured.
  ghost predicate Ends(s: State, caller: nat, r: nat) {
    && caller < |s.closers| && s.closers[caller] != Idle && s.closers[caller].run == r
    && (s.closers[caller].Returned? ==> s.current == None)
    && (!s.closers[caller].Returned? ==> s.current == Some(r))
  }

  lemma CloseLeadsOn(s: State, caller: nat, r: nat) returns (step: Step)
    requires Inv(s) && Ends(s, caller, r) && !s.closers[caller].Returned?
    ensures Enabled(s, step) && Ends(Apply(s, step), caller, r)
    ensures StepsLeft(Apply(s, step), caller) < StepsLeft(s, caller) <= 8
  {
    match s.closers[caller]
    case Captured(_) => step := CloseCancel(caller);
    case Waiting(_) => step := if s.runs[r].Alive() then Shortcut(s.runs[r], r) else CloseJoin(caller);
    case Joined(_) => step := CloseFinish(caller);
  }

  lemma {:induction false} CloseGoesOn(states: seq<State>, caller: nat, r: nat) returns (more: seq<State>)
    requires Execution(states) && Ends(states[|states| - 1], caller, r)
    ensures Execution(states + more) && |more| <= StepsLeft(states[|states| - 1], caller)
    ensures var s := (states + more)[|states + more| - 1];
            Ends(s, caller, r) && s.closers[caller].Returned?
    decreases StepsLeft(states[|states| - 1], caller)
  {
    var s := states[|states| - 1];
    ExecutionKeepsInv(states);
    more := [];
    if s.closers[caller].Returned? {
      assert states + [] == states;
    } else {
      var step := CloseLeadsOn(s, caller, r);
      assert Next(s, Apply(s, step));
      Executions.Extension(Init, Next, states, Apply(s, step));
      var rest := CloseGoesOn(states + [Apply(s, step)], caller, r);
      more := [Apply(s, step)] + rest;
      assert states + more == states + [Apply(s, step)] + rest;
    }
  }

  // From every moment of every execution a Close of the task can end it in at most
  // nine steps: it returns, no run is alive, and the task can be started again.
  lemma CloseEndsTask(states: seq<State>) returns (more: seq<State>)
    requires Execution(states) && states[|states| - 1].current.Some?
    ensures Execution(states + more) && 1 <= |more| <= 9
    ensures more[0] == Apply(states[|states| - 1], CloseCapture)
    ensures var s, caller := (states + more)[|states + more| - 1], |states[|states| - 1].closers|;
            && caller < |s.closers| && s.closers[caller] == Returned(states[|states| - 1].current.value)
            && s.current == None && forall r :: 0 <= r < |s.runs| ==> !s.runs[r].Alive()
  {
    var s := states[|states| - 1];
    var s1 := Apply(s, CloseCapture);
    assert Next(s, s1);
    Executions.Extension(Init, Next, states, s1);
    var rest := CloseGoesOn(states + [s1], |s.closers|, s.current.value);
    more := [s1] + rest;
    assert states + more == states + [s1] + rest;
    ExecutionKeepsInv(states + more);
  }

  // A call that runs out of its time asks for a reload, if the task has somewhere
  // to ask, is not being closed, and no request is waiting.
  lemma TimeoutAsksForReload(s: State, r: nat)
    requires Enabled(s, Expire(r))
    ensures Apply(s, Expire(r)).reloads ==
      if s.reloadable && !s.runs[r].cancelled && s.reloads == 0 then 1 else s.reloads
    ensures s.reloads > 0 ==> Apply(s, TakeReload).reloads == s.reloads - 1
  {
  }
}

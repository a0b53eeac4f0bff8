// A TUIC server session as a protocol: authentication attempts, waiting streams
// and datagrams, the authentication timeout and connection close, all racing.
module AuthSession {
  import Executions
  import opened Wrappers

  type User = nat

  datatype Error = Timeout | Rejected | Repeated | ContextDone | Other(code: nat)

  // ---------- authAccess, authUser, authDone ----------

  // A goroutine that received an Authenticate command.
  datatype Attempt =
    | Credentials             // about to ask the authenticator
    | Approved(user: User)    // about to take authAccess
    | Holding(user: User)     // holds authAccess, before the select
    | Wrote(user: User)       // has set authUser, about to close authDone
    | Announced(user: User)   // has closed authDone, about to release authAccess
    | Over
  {
    predicate HasLock() { Holding? || Wrote? || Announced? }
  }

  // The last two fields record history: the users the authenticator approved and
  // the number of writes to authUser.
  datatype Auth = Auth(
    attempts: seq<Attempt>,
    lock: Option<nat>,
    user: Option<User>,
    done: bool,
    approved: set<User>,
    writes: nat)

  datatype AuthStep =
    | Arrive
    | Ask(i: nat, verdict: Option<User>)
    | Lock(i: nat)
    | Decide(i: nat)
    | Announce(i: nat)
    | Unlock(i: nat)

  predicate AuthEnabled(a: Auth, step: AuthStep) {
    match step
    case Arrive => true
    case Ask(i, _) => i < |a.attempts| && a.attempts[i].Credentials?
    case Lock(i) => i < |a.attempts| && a.attempts[i].Approved? && a.lock == None
    case Decide(i) => i < |a.attempts| && a.attempts[i].Holding?
    case Announce(i) => i < |a.attempts| && a.attempts[i].Wrote?
    case Unlock(i) => i < |a.attempts| && a.attempts[i].Announced?
  }

  function ApplyAuth(a: Auth, step: AuthStep): Auth
    requires AuthEnabled(a, step)
  {
    match step
    case Arrive => a.(attempts := a.attempts + [Credentials])
    case Ask(i, None) => a.(attempts := a.attempts[i := Over])
    case Ask(i, Some(user)) => a.(attempts := a.attempts[i := Approved(user)], approved := a.approved + {user})
    case Lock(i) => a.(attempts := a.attempts[i := Holding(a.attempts[i].user)], lock := Some(i))
    case Decide(i) =>
      if a.done then a.(attempts := a.attempts[i := Over], lock := None)
      else a.(attempts := a.attempts[i := Wrote(a.attempts[i].user)],
              user := Some(a.attempts[i].user), writes := a.writes + 1)
    case Announce(i) => a.(attempts := a.attempts[i := Announced(a.attempts[i].user)], done := true)
    case Unlock(i) => a.(attempts := a.attempts[i := Over], lock := None)
  }

  // The error with which an attempt ends, if this step ends it that way.
  function AuthFailure(a: Auth, step: AuthStep): Option<Error> {
    match step
    case Ask(_, None) => Some(Rejected)
    case Decide(_) => if a.done then Some(Repeated) else None
    case _ => None
  }

  // The lock excludes, authUser is set once, and authDone closes after it.
  ghost predicate AuthInv(a: Auth) {
    && (forall i :: 0 <= i < |a.attempts| ==> (a.attempts[i].HasLock() <==> a.lock == Some(i)))
    && (a.lock.Some? ==> a.lock.value < |a.attempts|)
    && a.writes == (if a.user.Some? then 1 else 0)
    && (a.done ==> a.user.Some?)
    && (a.user.Some? ==> a.user.value in a.approved)
    && (a.user.Some? && !a.done ==> a.lock.Some? && a.attempts[a.lock.value] == Wrote(a.user.value))
    && (forall i :: 0 <= i < |a.attempts| ==>
          && (a.attempts[i].Approved? || a.attempts[i].Holding? ==> a.attempts[i].user in a.approved)
          && (a.attempts[i].Wrote? ==> a.user == Some(a.attempts[i].user) && !a.done)
          && (a.attempts[i].Announced? ==> a.done))
  }

  lemma AuthStepKeepsInv(a: Auth, step: AuthStep)
    requires AuthInv(a) && AuthEnabled(a, step)
    ensures AuthInv(ApplyAuth(a, step))
  {
  }

  // A written user is final, and so is the closing of authDone.
  lemma AuthStepIsFinal(a: Auth, step: AuthStep)
    requires AuthInv(a) && AuthEnabled(a, step)
    ensures a.done ==> ApplyAuth(a, step).done
    ensures a.user.Some? ==> ApplyAuth(a, step).user == a.user
  {
  }

  // ---------- connAccess, connErr, connDone ----------

  // A call of closeWithError.
  datatype Closer =
    | Failing(error: Error)   // about to take connAccess
    | Closing(error: Error)   // holds connAccess, before the select
    | Stored(error: Error)    // has set connErr, about to close connDone
    | Closed
  {
    predicate HasLock() { Closing? || Stored? }
  }

  // offered records the errors in the order of the critical sections.
  datatype Conn = Conn(closers: seq<Closer>, lock: Option<nat>, err: Option<Error>, done: bool, offered: seq<Error>)

  datatype ConnStep = Call(error: Error) | LockConn(i: nat) | DecideConn(i: nat) | CloseConn(i: nat)

  predicate ConnEnabled(c: Conn, step: ConnStep) {
    match step
    case Call(_) => true
    case LockConn(i) => i < |c.closers| && c.closers[i].Failing? && c.lock == None
    case DecideConn(i) => i < |c.closers| && c.closers[i].Closing?
    case CloseConn(i) => i < |c.closers| && c.closers[i].Stored?
  }

  function ApplyConn(c: Conn, step: ConnStep): Conn
    requires ConnEnabled(c, step)
  {
    match step
    case Call(error) => c.(closers := c.closers + [Failing(error)])
    case LockConn(i) => c.(closers := c.closers[i := Closing(c.closers[i].error)], lock := Some(i))
    case DecideConn(i) =>
      var error := c.closers[i].error;
      if c.done then c.(closers := c.closers[i := Closed], lock := None, offered := c.offered + [error])
      else c.(closers := c.closers[i := Stored(error)], err := Some(error), offered := c.offered + [error])
    case CloseConn(i) => c.(closers := c.closers[i := Closed], done := true, lock := None)
  }

  // The lock excludes, and connErr is the first error offered.
  ghost predicate ConnInv(c: Conn) {
    && (forall i :: 0 <= i < |c.closers| ==> (c.closers[i].HasLock() <==> c.lock == Some(i)))
    && (c.lock.Some? ==> c.lock.value < |c.closers|)
    && c.err == (if c.offered == [] then None else Some(c.offered[0]))
    && (c.done ==> c.err.Some?)
    && (c.err.Some? && !c.done ==> c.lock.Some? && c.closers[c.lock.value] == Stored(c.err.value))
    && (forall i :: 0 <= i < |c.closers| ==>
          && (c.closers[i].Stored? ==> c.err == Some(c.closers[i].error) && !c.done)
          && (c.closers[i].Closed? ==> c.done))
  }

  lemma ConnStepKeepsInv(c: Conn, step: ConnStep)
    requires ConnInv(c) && ConnEnabled(c, step)
    ensures ConnInv(ApplyConn(c, step))
  {
  }

  // The first error stays, connDone stays closed, calls are never forgotten.
  lemma ConnStepIsFinal(c: Conn, step: ConnStep)
    requires ConnInv(c) && ConnEnabled(c, step)
    ensures c.done ==> ApplyConn(c, step).done
    ensures c.err.Some? ==> ApplyConn(c, step).err == c.err
    ensures |c.closers| <= |ApplyConn(c, step).closers|
  {
  }

  // ---------- Streams, datagrams and the timeout ----------

  // What waits for authentication. A bidirectional stream that fails is only
  // closed itself; a uni-stream or a datagram that fails closes the connection.
  datatype Kind = BidiStream | UniStream | Datagram

  datatype Job =
    | Pending(kind: Kind)     // in waitAuth
    | Admitted(kind: Kind)    // waitAuth returned nil
    | Served(kind: Kind, user: User)
    | Released(kind: Kind, error: Error)

  // The goroutine of handleAuthTimeout; Fired names its closeWithError call.
  datatype Timer = Armed | Quit | Fired(closer: nat)

  // served records which job was handed to the handler, with which user.
  datatype State = State(
    auth: Auth,
    conn: Conn,
    ctxDone: bool,
    timer: Timer,
    jobs: seq<Job>,
    served: seq<(nat, User)>)

  datatype Step =
    | OfAuth(auth: AuthStep)
    | OfConn(conn: ConnStep)
    | ArriveJob(kind: Kind)
    | WakeContext(i: nat)
    | WakeClosed(i: nat)
    | WakeAuth(i: nat)
    | Serve(i: nat)
    | CancelContext
    | TimerQuit
    | TimerFire

  predicate Init(s: State) {
    s == State(Auth([], None, None, false, {}, 0), Conn([], None, None, false, []), false, Armed, [], [])
  }

  predicate Enabled(s: State, step: Step) {
    match step
    case OfAuth(a) => AuthEnabled(s.auth, a)
    case OfConn(c) => ConnEnabled(s.conn, c)
    case ArriveJob(_) => true
    case WakeContext(i) => i < |s.jobs| && s.jobs[i].Pending? && s.ctxDone
    case WakeClosed(i) => i < |s.jobs| && s.jobs[i].Pending? && s.conn.done && s.conn.err.Some?
    case WakeAuth(i) => i < |s.jobs| && s.jobs[i].Pending? && s.auth.done
    case Serve(i) => i < |s.jobs| && s.jobs[i].Admitted? && s.auth.user.Some?
    case CancelContext => true
    case TimerQuit => s.timer == Armed && (s.conn.done || s.auth.done)
    case TimerFire => s.timer == Armed
  }

  function CloseWithError(s: State, error: Error): State {
    s.(conn := ApplyConn(s.conn, Call(error)))
  }

  // A released job returns its error; what is not a bidirectional stream then
  // closes the connection with it.
  function Release(s: State, i: nat, error: Error): State
    requires i < |s.jobs| && s.jobs[i].Pending?
  {
    var s' := s.(jobs := s.jobs[i := Released(s.jobs[i].kind, error)]);
    if s.jobs[i].kind == BidiStream then s' else CloseWithError(s', error)
  }

  function Apply(s: State, step: Step): State
    requires Enabled(s, step)
  {
    match step
    case OfAuth(a) =>
      var s' := s.(auth := ApplyAuth(s.auth, a));
      var failure := AuthFailure(s.auth, a);
      if failure.Some? then CloseWithError(s', failure.value) else s'
    case OfConn(c) => s.(conn := ApplyConn(s.conn, c))
    case ArriveJob(kind) => s.(jobs := s.jobs + [Pending(kind)])
    case WakeContext(i) => Release(s, i, ContextDone)
    case WakeClosed(i) => Release(s, i, s.conn.err.value)
    case WakeAuth(i) => s.(jobs := s.jobs[i := Admitted(s.jobs[i].kind)])
    case Serve(i) =>
      var user := s.auth.user.value;
      s.(jobs := s.jobs[i := Served(s.jobs[i].kind, user)], served := s.served + [(i, user)])
    case CancelContext => s.(ctxDone := true)
    case TimerQuit => s.(timer := Quit)
    case TimerFire => CloseWithError(s, Timeout).(timer := Fired(|s.conn.closers|))
  }

  ghost predicate Next(s: State, s': State) {
    exists step :: Enabled(s, step) && s' == Apply(s, step)
  }

  ghost predicate Execution(states: seq<State>) {
    Executions.Execution(Init, Next, states)
  }

  // Jobs are admitted by authentication only and served with its user.
  ghost predicate JobOk(s: State, job: Job) {
    match job
    case Pending(_) => true
    case Admitted(_) => s.auth.done
    case Served(_, user) => s.auth.done && s.auth.user == Some(user)
    case Released(_, error) => (error == ContextDone && s.ctxDone) || (s.conn.done && s.conn.err == Some(error))
  }

  ghost predicate JobsInv(s: State) {
    forall i :: 0 <= i < |s.jobs| ==> JobOk(s, s.jobs[i])
  }

  // The service log names each served job exactly once.
  ghost predicate LogInv(jobs: seq<Job>, served: seq<(nat, User)>) {
    && (forall k :: 0 <= k < |served| ==> served[k].0 < |jobs|)
    && (forall k :: 0 <= k < |served| ==> jobs[served[k].0].Served? && jobs[served[k].0].user == served[k].1)
    && (forall k, l :: 0 <= k < l < |served| ==> served[k].0 != served[l].0)
    && (forall i :: 0 <= i < |jobs| && jobs[i].Served? ==> (i, jobs[i].user) in served)
  }

  ghost predicate TimerInv(s: State) {
    && (s.timer == Quit ==> s.conn.done || s.auth.done)
    && (s.timer.Fired? ==> s.timer.closer < |s.conn.closers|)
  }

  ghost predicate Inv(s: State) {
    AuthInv(s.auth) && ConnInv(s.conn) && JobsInv(s) && LogInv(s.jobs, s.served) && TimerInv(s)
  }

  // Neither channel reopens, and what was decided when it closed is final.
  ghost predicate KeepsDecisions(s: State, s': State) {
    && (s.auth.done ==> s'.auth.done)
    && (s.auth.user.Some? ==> s'.auth.user == s.auth.user)
    && (s.conn.done ==> s'.conn.done)
    && (s.conn.err.Some? ==> s'.conn.err == s.conn.err)
    && |s.conn.closers| <= |s'.conn.closers|
    && (s.ctxDone ==> s'.ctxDone)
  }

  lemma StepKeepsParts(s: State, step: Step)
    requires AuthInv(s.auth) && ConnInv(s.conn) && Enabled(s, step)
    ensures var s' := Apply(s, step); AuthInv(s'.auth) && ConnInv(s'.conn) && KeepsDecisions(s, s')
  {
    hide AuthInv, ConnInv, AuthEnabled, ApplyAuth, ApplyConn;
    if step.OfAuth? {
      AuthStepKeepsInv(s.auth, step.auth);
      AuthStepIsFinal(s.auth, step.auth);
    }
    forall c | ConnEnabled(s.conn, c)
      ensures ConnInv(ApplyConn(s.conn, c))
      ensures s.conn.done ==> ApplyConn(s.conn, c).done
      ensures s.conn.err.Some? ==> ApplyConn(s.conn, c).err == s.conn.err
      ensures |s.conn.closers| <= |ApplyConn(s.conn, c).closers|
    {
      ConnStepKeepsInv(s.conn, c);
      ConnStepIsFinal(s.conn, c);
    }
  }

  lemma StepKeepsJobs(s: State, step: Step)
    requires Inv(s) && Enabled(s, step)
    ensures JobsInv(Apply(s, step))
  {
    hide AuthInv, AuthEnabled, ConnEnabled, ApplyAuth, ApplyConn, LogInv;
    StepKeepsParts(s, step);
  }

  lemma StepKeepsLog(s: State, step: Step)
    requires LogInv(s.jobs, s.served) && Enabled(s, step)
    ensures LogInv(Apply(s, step).jobs, Apply(s, step).served)
  {
    hide AuthEnabled, ConnEnabled, ApplyAuth, ApplyConn;
    if step.Serve? {
      var s' := Apply(s, step);
      forall i | 0 <= i < |s'.jobs| && s'.jobs[i].Served? ensures (i, s'.jobs[i].user) in s'.served {
        assert s'.served[|s.served|] == (step.i, s.auth.user.value);
      }
    }
  }

  lemma StepKeepsTimer(s: State, step: Step)
    requires Inv(s) && Enabled(s, step)
    ensures TimerInv(Apply(s, step))
  {
  }

  lemma ExecutionKeepsInv(states: seq<State>)
    requires Execution(states)
    ensures forall i :: 0 <= i < |states| ==> Inv(states[i])
  {
    forall s, s' | Inv(s) && Next(s, s') ensures Inv(s') {
      var step :| Enabled(s, step) && s' == Apply(s, step);
      StepKeepsParts(s, step);
      StepKeepsJobs(s, step);
      StepKeepsLog(s, step);
      StepKeepsTimer(s, step);
    }
    Executions.Invariance(Init, Next, Inv, states);
  }

  // ---------- Main results ----------

  lemma StepTaken(states: seq<State>, i: nat) returns (step: Step)
    requires Execution(states) && i + 1 < |states|
    ensures Inv(states[i]) && Enabled(states[i], step) && states[i + 1] == Apply(states[i], step)
  {
    ExecutionKeepsInv(states);
    assert Executions.StepsAt(Next, states, i);
    step :| Enabled(states[i], step) && states[i + 1] == Apply(states[i], step);
  }

  lemma DecisionsAreFinal(states: seq<State>, i: nat, j: nat)
    requires Execution(states) && i <= j < |states|
    ensures KeepsDecisions(states[i], states[j])
  {
    ExecutionKeepsInv(states);
    forall s, s' | Inv(s) && Next(s, s') ensures KeepsDecisions(s, s') {
      var step :| Enabled(s, step) && s' == Apply(s, step);
      StepKeepsParts(s, step);
    }
    Executions.Monotony(Init, Next, Inv, KeepsDecisions, states, i, j);
  }

  // authUser is written at most once, with a user the authenticator approved,
  // and before authDone is closed; from then on it never changes.
  lemma AuthenticatedOnce(states: seq<State>, i: nat, j: nat)
    requires Execution(states) && i <= j < |states|
    ensures states[j].auth.writes <= 1
    ensures states[i].auth.done ==>
      && states[i].auth.user.Some? && states[i].auth.user.value in states[i].auth.approved
      && states[j].auth.done && states[j].auth.user == states[i].auth.user
  {
    ExecutionKeepsInv(states);
    DecisionsAreFinal(states, i, j);
  }

  // The handler only ever runs with the authenticated user, after authentication.
  lemma ServedAsTheUser(states: seq<State>, i: nat, j: nat, k: nat)
    requires Execution(states) && i <= j < |states| && k < |states[i].served|
    ensures states[i].auth.done && states[j].auth.user == Some(states[i].served[k].1)
    ensures states[i].served[k].1 in states[i].auth.approved
  {
    ExecutionKeepsInv(states);
    DecisionsAreFinal(states, i, j);
    assert states[i].jobs[states[i].served[k].0].Served?;
  }

  // connErr keeps the first error that any closeWithError call brought.
  lemma FirstErrorStays(states: seq<State>, i: nat, j: nat)
    requires Execution(states) && i <= j < |states| && states[i].conn.offered != []
    ensures states[j].conn.err == Some(states[i].conn.offered[0])
    ensures states[i].conn.done ==> states[j].conn.done
  {
    ExecutionKeepsInv(states);
    DecisionsAreFinal(states, i, j);
  }

  // A stream or datagram that waited is in exactly one of three situations:
  // still on its way and never handled; handled, exactly once; or released with
  // an error, the first one of the connection or the end of its context, and
  // never handled.
  lemma HandledOnceOrReleased(states: seq<State>, i: nat, job: nat)
    requires Execution(states) && i < |states| && job < |states[i].jobs|
    ensures var s := states[i];
            if s.jobs[job].Served? then
              exists k :: 0 <= k < |s.served| && s.served[k].0 == job &&
                forall l :: 0 <= l < |s.served| && s.served[l].0 == job ==> l == k
            else
              && (forall k :: 0 <= k < |s.served| ==> s.served[k].0 != job)
              && (s.jobs[job].Released? ==>
                    s.jobs[job].error == ContextDone || s.conn.err == Some(s.jobs[job].error))
  {
    ExecutionKeepsInv(states);
    var s := states[i];
    if s.jobs[job].Served? {
      var k :| 0 <= k < |s.served| && s.served[k] == (job, s.jobs[job].user);
      assert forall l :: 0 <= l < |s.served| && s.served[l].0 == job ==> l == k;
    } else {
      assert JobOk(s, s.jobs[job]);
    }
  }

  // ---------- Nothing waits for ever ----------

  // How many steps a session is away from one of the two channels being closed: a
  // holder of connAccess is at work on it, or else the timeout has called
  // closeWithError, or else the timeout is still to come.
  function Distance(s: State): nat {
    if s.conn.done || s.auth.done then 0
    else if s.conn.lock.Some? then
      if s.conn.lock.value < |s.conn.closers| && s.conn.closers[s.conn.lock.value].Stored? then 1 else 2
    else if s.timer.Fired? then 3
    else 4
  }

  // The step that gets a session closer.
  function Shortcut(s: State): Step {
    if s.conn.lock.Some? then
      if Distance(s) == 1 then OfConn(CloseConn(s.conn.lock.value)) else OfConn(DecideConn(s.conn.lock.value))
    else if s.timer.Fired? then OfConn(LockConn(s.timer.closer))
    else TimerFire
  }

  // While a channel is to be closed yet the next step towards it can be taken and
  // touches nobody who waits.
  lemma ShortcutLeadsOn(s: State)
    requires Inv(s) && Distance(s) > 0
    ensures Enabled(s, Shortcut(s))
    ensures Distance(Apply(s, Shortcut(s))) == Distance(s) - 1
    ensures Apply(s, Shortcut(s)).jobs == s.jobs && Distance(s) <= 4
  {
    if s.conn.lock.Some? {
      assert s.conn.closers[s.conn.lock.value].HasLock();
    } else if s.timer.Fired? {
      assert !s.conn.closers[s.timer.closer].HasLock();
    }
  }

  // The step that serves or releases a stream once a channel is closed.
  function Ending(s: State, job: nat): Step
    requires job < |s.jobs|
  {
    if s.jobs[job].Admitted? then Serve(job)
    else if s.auth.done then WakeAuth(job)
    else WakeClosed(job)
  }

  predicate Waits(s: State, job: nat) { job < |s.jobs| && (s.jobs[job].Pending? || s.jobs[job].Admitted?) }

  function StepsLeft(s: State, job: nat): nat {
    if !Waits(s, job) then 0
    else if s.jobs[job].Admitted? then 1
    else Distance(s) + 2
  }

  lemma WaiterLeadsOn(s: State, job: nat) returns (step: Step)
    requires Inv(s) && Waits(s, job)
    ensures Enabled(s, step) && job < |Apply(s, step).jobs|
    ensures StepsLeft(Apply(s, step), job) < StepsLeft(s, job) <= 6
  {
    if s.jobs[job].Pending? && Distance(s) > 0 {
      ShortcutLeadsOn(s);
      step := Shortcut(s);
    } else {
      assert JobOk(s, s.jobs[job]);
      step := Ending(s, job);
    }
  }

  // Every stream or datagram that waits can end: from every moment of every
  // execution it is at most six steps away from being served or released, even if
  // no one ever authenticates.
  lemma {:induction false} WaitersAreReleased(states: seq<State>, job: nat) returns (more: seq<State>)
    requires Execution(states) && job < |states[|states| - 1].jobs|
    ensures Execution(states + more) && |more| <= StepsLeft(states[|states| - 1], job) <= 6
    ensures var s := (states + more)[|states + more| - 1];
            job < |s.jobs| && (s.jobs[job].Served? || s.jobs[job].Released?)
    decreases StepsLeft(states[|states| - 1], job)
  {
    var s := states[|states| - 1];
    more := [];
    if Waits(s, job) {
      ExecutionKeepsInv(states);
      var step := WaiterLeadsOn(s, job);
      assert Next(s, Apply(s, step));
      Executions.Extension(Init, Next, states, Apply(s, step));
      var rest := WaitersAreReleased(states + [Apply(s, step)], job);
      more := [Apply(s, step)] + rest;
      assert states + more == states + [Apply(s, step)] + rest;
    } else {
      assert states + [] == states;
    }
  }

  // ---------- What closes the connection ----------

  // A rejected or repeated authentication, the failure of a uni-stream or datagram
  // that waited, the timeout, and whatever else fails each call closeWithError, with
  // that error; nothing else does.
  function CallMade(s: State, step: Step): Option<Error>
    requires Enabled(s, step)
  {
    match step
    case OfAuth(Ask(_, verdict)) => if verdict.None? then Some(Rejected) else None
    case OfAuth(Decide(_)) => if s.auth.done then Some(Repeated) else None
    case OfConn(Call(error)) => Some(error)
    case WakeContext(i) => if s.jobs[i].kind != BidiStream then Some(ContextDone) else None
    case WakeClosed(i) => if s.jobs[i].kind != BidiStream then s.conn.err else None
    case TimerFire => Some(Timeout)
    case _ => None
  }

  lemma CallsAreMade(s: State, step: Step)
    requires Enabled(s, step)
    ensures var calls := s.conn.closers;
            if CallMade(s, step).Some? then Apply(s, step).conn.closers == calls + [Failing(CallMade(s, step).value)]
            else |Apply(s, step).conn.closers| == |calls|
  {
    hide AuthEnabled, ApplyAuth;
  }

  // How many steps a call is away from the end of the connection.
  function CloseDistance(c: Conn): nat {
    if c.done then 0
    else if c.lock.None? then 3
    else if c.lock.value < |c.closers| && c.closers[c.lock.value].Stored? then 1
    else 2
  }

  // Every call of closeWithError can end the connection: from every moment of every
  // execution that is at most three steps away, whoever holds the lock.
  lemma {:induction false} CallsClose(states: seq<State>, i: nat) returns (more: seq<State>)
    requires Execution(states) && i < |states[|states| - 1].conn.closers|
    ensures Execution(states + more) && |more| <= CloseDistance(states[|states| - 1].conn) <= 3
    ensures (states + more)[|states + more| - 1].conn.done
    decreases CloseDistance(states[|states| - 1].conn)
  {
    var s := states[|states| - 1];
    ExecutionKeepsInv(states);
    more := [];
    if s.conn.done {
      assert states + [] == states;
    } else {
      var step := CloseStep(s, i);
      assert Next(s, Apply(s, step));
      Executions.Extension(Init, Next, states, Apply(s, step));
      var rest := CallsClose(states + [Apply(s, step)], i);
      more := [Apply(s, step)] + rest;
      assert states + more == states + [Apply(s, step)] + rest;
    }
  }

  lemma CloseStep(s: State, i: nat) returns (step: Step)
    requires ConnInv(s.conn) && i < |s.conn.closers| && !s.conn.done
    ensures Enabled(s, step) && |Apply(s, step).conn.closers| == |s.conn.closers|
    ensures CloseDistance(Apply(s, step).conn) == CloseDistance(s.conn) - 1
  {
    if s.conn.lock.Some? {
      var holder := s.conn.lock.value;
      assert s.conn.closers[holder].HasLock();
      step := OfConn(if s.conn.closers[holder].Stored? then CloseConn(holder) else DecideConn(holder));
    } else {
      assert !s.conn.closers[i].HasLock();
      step := OfConn(LockConn(i));
    }
  }

  // ---------- Who is approved gets in ----------

  // How many steps an approved attempt is away from the end of authentication.
  function AuthDistance(a: Auth): nat {
    if a.done then 0
    else if a.lock.None? then 3
    else if a.lock.value < |a.attempts| && a.attempts[a.lock.value].Wrote? then 1
    else 2
  }

  lemma AuthLeadsOn(s: State, i: nat) returns (step: Step)
    requires AuthInv(s.auth) && i < |s.auth.attempts| && !s.auth.done
    requires s.auth.attempts[i].Approved? || s.auth.lock.Some?
    ensures Enabled(s, step) && |Apply(s, step).auth.attempts| == |s.auth.attempts|
    ensures AuthDistance(Apply(s, step).auth) == AuthDistance(s.auth) - 1
    ensures !Apply(s, step).auth.done ==> Apply(s, step).auth.lock.Some?
    ensures Apply(s, step).conn == s.conn
  {
    if s.auth.lock.Some? {
      var holder := s.auth.lock.value;
      assert s.auth.attempts[holder].HasLock();
      step := OfAuth(if s.auth.attempts[holder].Wrote? then Announce(holder) else Decide(holder));
    } else {
      step := OfAuth(Lock(i));
    }
  }

  // Once the authenticator has approved somebody the session can be authenticated,
  // as a user it approved, in at most three steps from every moment of every
  // execution, and nothing of that closes the connection.
  lemma {:induction false} ApprovedGetIn(states: seq<State>, i: nat) returns (more: seq<State>)
    requires Execution(states) && i < |states[|states| - 1].auth.attempts|
    requires var a := states[|states| - 1].auth; a.attempts[i].Approved? || a.lock.Some? || a.done
    ensures Execution(states + more) && |more| <= AuthDistance(states[|states| - 1].auth) <= 3
    ensures var s := (states + more)[|states + more| - 1];
            && s.auth.done && s.auth.user.Some? && s.auth.user.value in s.auth.approved
            && s.conn == states[|states| - 1].conn
    decreases AuthDistance(states[|states| - 1].auth)
  {
    var s := states[|states| - 1];
    ExecutionKeepsInv(states);
    more := [];
    if s.auth.done {
      assert states + [] == states;
    } else {
      var step := AuthLeadsOn(s, i);
      assert Next(s, Apply(s, step));
      Executions.Extension(Init, Next, states, Apply(s, step));
      var rest := ApprovedGetIn(states + [Apply(s, step)], i);
      more := [Apply(s, step)] + rest;
      assert states + more == states + [Apply(s, step)] + rest;
    }
  }

  // ---------- Nobody keeps the lock ----------

  // How far an attempt is from its end by its own steps alone.
  function Rank(attempt: Attempt): nat {
    match attempt
    case Credentials => 1
    case Approved(_) => 4
    case Holding(_) => 3
    case Wrote(_) => 2
    case Announced(_) => 1
    case Over => 0
  }

  // An approved attempt may have to wait for the one that holds the lock.
  function AttemptLeft(a: Auth, i: nat): nat
    requires i < |a.attempts|
  {
    Rank(a.attempts[i]) +
    if a.attempts[i].Approved? && a.lock.Some? && a.lock.value < |a.attempts| then Rank(a.attempts[a.lock.value]) else 0
  }

  lemma AttemptLeadsOn(s: State, i: nat) returns (step: Step)
    requires AuthInv(s.auth) && i < |s.auth.attempts| && s.auth.attempts[i] != Over
    ensures Enabled(s, step) && i < |Apply(s, step).auth.attempts|
    ensures AttemptLeft(Apply(s, step).auth, i) < AttemptLeft(s.auth, i) <= 7
  {
    var a := s.auth;
    var j: nat := if a.attempts[i].Approved? && a.lock.Some? then a.lock.value else i;
    assert a.lock.Some? ==> a.attempts[a.lock.value].HasLock();
    step := OfAuth(match a.attempts[j]
                   case Credentials => Ask(j, None)
                   case Approved(_) => Lock(j)
                   case Holding(_) => Decide(j)
                   case Wrote(_) => Announce(j)
                   case _ => Unlock(j));
  }

  // Every attempt can end, and has given back the lock then, within seven steps from
  // every moment of every execution.
  lemma {:induction false} AttemptsEnd(states: seq<State>, i: nat) returns (more: seq<State>)
    requires Execution(states) && i < |states[|states| - 1].auth.attempts|
    ensures Execution(states + more) && |more| <= AttemptLeft(states[|states| - 1].auth, i) <= 7
    ensures var a := (states + more)[|states + more| - 1].auth;
            i < |a.attempts| && a.attempts[i] == Over && a.lock != Some(i)
    decreases AttemptLeft(states[|states| - 1].auth, i)
  {
    var s := states[|states| - 1];
    ExecutionKeepsInv(states);
    more := [];
    if s.auth.attempts[i] == Over {
      assert states + [] == states;
      assert !s.auth.attempts[i].HasLock();
    } else {
      var step := AttemptLeadsOn(s, i);
      assert Next(s, Apply(s, step));
      Executions.Extension(Init, Next, states, Apply(s, step));
      var rest := AttemptsEnd(states + [Apply(s, step)], i);
      more := [Apply(s, step)] + rest;
      assert states + more == states + [Apply(s, step)] + rest;
    }
  }

  // An approval of the first attempt that gets as far authenticates its user.
  lemma ApprovalCounts(s: State, i: nat, user: User)
    requires AuthInv(s.auth) && Enabled(s, OfAuth(Ask(i, Some(user)))) && s.auth.lock == None && !s.auth.done
    ensures var s1 := Apply(s, OfAuth(Ask(i, Some(user))));
            && Enabled(s1, OfAuth(Lock(i)))
            && var s2 := Apply(s1, OfAuth(Lock(i)));
            && Enabled(s2, OfAuth(Decide(i)))
            && var s3 := Apply(s2, OfAuth(Decide(i)));
            && Enabled(s3, OfAuth(Announce(i)))
            && var s4 := Apply(s3, OfAuth(Announce(i)));
            && s4.auth.done && s4.auth.user == Some(user) && user in s4.auth.approved
  {
  }

  // ---------- What may happen at any time ----------

  // A client may connect streams, send datagrams and try to authenticate at any time,
  // and the context may end; then everything that waits can be released with that.
  lemma AnyTime(s: State, kind: Kind)
    ensures Enabled(s, OfAuth(Arrive)) && Enabled(s, ArriveJob(kind)) && Enabled(s, CancelContext)
    ensures Apply(s, ArriveJob(kind)) == s.(jobs := s.jobs + [Pending(kind)])
    ensures Apply(s, OfAuth(Arrive)) == s.(auth := s.auth.(attempts := s.auth.attempts + [Credentials]))
    ensures var s' := Apply(s, CancelContext);
            && s' == s.(ctxDone := true)
            && forall i: nat :: i < |s.jobs| && s.jobs[i].Pending? ==>
                 && Enabled(s', WakeContext(i))
                 && Apply(s', WakeContext(i)).jobs == s.jobs[i := Released(s.jobs[i].kind, ContextDone)]
  {
  }

  // The timeout quits once a channel is closed, and fires at most once.
  lemma TimeoutQuits(s: State)
    ensures s.timer == Armed && (s.conn.done || s.auth.done) <==> Enabled(s, TimerQuit)
    ensures Enabled(s, TimerQuit) ==> Apply(s, TimerQuit) == s.(timer := Quit)
    ensures s.timer == Armed <==> Enabled(s, TimerFire)
    ensures Enabled(s, TimerFire) ==> !Enabled(Apply(s, TimerFire), TimerFire)
  {
  }

  // A new session is neither authenticated nor closed, and its timeout runs.
  lemma Fresh(s: State)
    requires Init(s)
    ensures !s.auth.done && !s.conn.done && !s.ctxDone && s.timer == Armed && s.jobs == [] && s.served == []
    ensures s.auth.user == None && s.auth.approved == {} && s.conn.err == None
  {
  }
}

// How often a node tries to switch to the version the panel asks for.
module Backoff {
  import opened Wrappers

  // Time counts nanoseconds.
  const MINUTE := 60_000_000_000
  const MAX_ATTEMPT_BACKOFF := 30 * MINUTE

  // The next attempt may start at next; None stands for the zero time, which is
  // before every reading of the clock.
  datatype State = State(target: string, fails: nat, next: Option<int>)

  function Pow2(n: nat): nat { if n == 0 then 1 else 2 * Pow2(n - 1) }

  // The pause after the given number of failures.
  function Pause(fails: nat): int
    requires fails > 0
  {
    Min(Pow2(Min(fails - 1, 5)) * MINUTE, MAX_ATTEMPT_BACKOFF)
  }

  predicate Due(s: State, now: int) { s.next.None? || now >= s.next.value }

  // ---------- Implementation ----------

  // What an attempt comes to: some step fails, or the binary is replaced and the
  // restart is asked for, which may fail too.
  datatype Outcome = StepFails | Replaced(restartOk: bool)

  datatype Answer = Unneeded | Waiting | Failed | Restarted(ok: bool)

  class Attempts {
    var target: string
    var fails: nat
    var next: Option<int>

    constructor ()
      ensures S() == State("", 0, None)
    {
      target, fails, next := "", 0, None;
    }

    ghost function S(): State
      reads this
    {
      State(target, fails, next)
    }

    method ShouldAttempt(wanted: string, now: int) returns (yes: bool)
      modifies this
      ensures yes == (wanted != old(target) || Due(old(S()), now))
      ensures S() == if wanted != old(target) then State(wanted, 0, None) else old(S())
    {
      if wanted != target {
        target, fails, next := wanted, 0, None;
        return true;
      }
      return next == None || now >= next.value;
    }

    method NoteFailure(wanted: string, now: int)
      modifies this
      ensures S() == if wanted != old(target) then old(S())
                     else State(wanted, old(fails) + 1, Some(now + Pause(old(fails) + 1)))
    {
      if wanted != target {
        return;
      }
      fails := fails + 1;
      var backoff := Pow2(Min(fails - 1, 5)) * MINUTE;
      if backoff > MAX_ATTEMPT_BACKOFF {
        backoff := MAX_ATTEMPT_BACKOFF;
      }
      next := Some(now + backoff);
    }

    // Whether the versions differ, what the steps come to, and the two readings of
    // the clock are parameters.
    method ApplyTargetVersion(differs: bool, wanted: string, outcome: Outcome, now: int, later: int)
      returns (answer: Answer)
      modifies this
      ensures !differs ==> answer == Unneeded && S() == old(S())
      ensures differs ==> S() == Handled(old(S()), Call(wanted, outcome, now, later))
      ensures differs ==> (answer == Waiting <==> !Tries(old(S()), Call(wanted, outcome, now, later)))
      ensures answer.Failed? ==> outcome == StepFails
      ensures answer.Restarted? ==> outcome == Replaced(answer.ok)
    {
      if !differs {
        return Unneeded;
      }
      var yes := ShouldAttempt(wanted, now);
      if !yes {
        return Waiting;
      }
      if outcome == StepFails {
        NoteFailure(wanted, later);
        return Failed;
      }
      return Restarted(outcome.restartOk);
    }
  }

  // ---------- Runs ----------

  // A call that finds the versions different: when it starts and when its attempt,
  // if it makes one, is over.
  datatype Call = Call(target: string, outcome: Outcome, start: int, end: int)

  predicate Tries(s: State, c: Call) { c.target != s.target || Due(s, c.start) }

  function Handled(s: State, c: Call): State {
    var ready := if c.target != s.target then State(c.target, 0, None) else s;
    if Tries(s, c) && c.outcome == StepFails then
      State(c.target, ready.fails + 1, Some(c.end + Pause(ready.fails + 1)))
    else ready
  }

  // When the attempts of a run of calls start.
  function Starts(s: State, calls: seq<Call>): seq<int>
    decreases |calls|
  {
    if calls == [] then []
    else (if Tries(s, calls[0]) then [calls[0].start] else []) + Starts(Handled(s, calls[0]), calls[1..])
  }

  // One target, one call after the other, and every attempt ends in a failure.
  predicate AllFail(calls: seq<Call>, target: string) {
    forall i :: 0 <= i < |calls| ==>
      && calls[i].target == target && calls[i].outcome == StepFails
      && calls[i].start <= calls[i].end
  }

  // How long after the first attempt the one after n failures can start.
  function Wait(n: nat): int { if n == 0 then 0 else Wait(n - 1) + Pause(n) }

  // 2^n - 1 minutes for the first ones, and half an hour for each further one.
  lemma {:induction false} WaitInMinutes(n: nat)
    ensures Wait(n) == (if n <= 5 then Pow2(n) - 1 else 31 + 30 * (n - 5)) * 60_000_000_000
  {
    assert Pow2(1) == 2 && Pow2(2) == 4 && Pow2(3) == 8 && Pow2(4) == 16 && Pow2(5) == 32;
    if n > 0 {
      WaitInMinutes(n - 1);
    }
  }

  lemma {:induction false} LaterStarts(s: State, calls: seq<Call>, base: int)
    requires AllFail(calls, s.target) && s.fails > 0
    requires s.next.Some? && s.next.value >= base + Wait(s.fails)
    ensures forall i :: 0 <= i < |Starts(s, calls)| ==> Starts(s, calls)[i] >= base + Wait(s.fails + i)
    decreases |calls|
  {
    if calls != [] {
      var s' := Handled(s, calls[0]);
      LaterStarts(s', calls[1..], base);
      var rest := Starts(s', calls[1..]);
      if Tries(s, calls[0]) {
        forall i | 1 <= i < 1 + |rest| ensures Starts(s, calls)[i] >= base + Wait(s.fails + i) {
          assert Starts(s, calls)[i] == rest[i - 1];
        }
      }
    }
  }

  // The attempts at a target that was not being tried before, while each of them
  // fails: the one after n failures starts no sooner than Wait(n) after the first.
  lemma {:induction false} AttemptsBackOff(s: State, calls: seq<Call>, target: string, n: nat)
    requires AllFail(calls, target)
    requires s.target != target || s == State(target, 0, None)
    requires n < |Starts(s, calls)|
    ensures Starts(s, calls)[n] >= Starts(s, calls)[0] + Wait(n)
  {
    var s' := Handled(s, calls[0]);
    assert s'.fails == 1 && Wait(1) == Wait(0) + Pause(1);
    LaterStarts(s', calls[1..], calls[0].start);
    if n > 0 {
      assert Starts(s, calls)[n] == Starts(s', calls[1..])[n - 1];
    }
  }

  // When the next call for the same target makes an attempt: always after a
  // replacement, whatever became of its restart, and after a failed step exactly
  // when the pause is over, which it is within half an hour.
  lemma NextAttempt(s: State, c: Call, c': Call)
    requires c.target == c'.target && Tries(s, c) && c.start <= c'.start
    ensures Tries(Handled(s, c), c') <==>
      c.outcome != StepFails || c'.start >= c.end + Pause(if c.target == s.target then s.fails + 1 else 1)
    ensures c'.start >= c.end + 1_800_000_000_000 ==> Tries(Handled(s, c), c')
  {
  }

  // Calls for one target, one starting after the other.
  predicate Ordered(calls: seq<Call>, target: string) {
    && (forall i :: 0 <= i < |calls| ==> calls[i].target == target)
    && (forall i, j :: 0 <= i < j < |calls| ==> calls[i].start <= calls[j].start)
  }

  // From an attempt on, whatever failures of the target came before it, attempts
  // follow one another at every call as long as each of them replaces the binary,
  // even if all their restarts fail: those are not counted.
  lemma {:induction false} FailedRestartsAreNotCounted(s: State, calls: seq<Call>, target: string)
    requires Ordered(calls, target) && (calls != [] ==> Tries(s, calls[0]))
    requires forall i :: 0 <= i < |calls| ==> calls[i].outcome.Replaced?
    ensures Starts(s, calls) == seq(|calls|, i requires 0 <= i < |calls| => calls[i].start)
    decreases |calls|
  {
    if |calls| > 1 {
      NextAttempt(s, calls[0], calls[1]);
    }
    if calls != [] {
      FailedRestartsAreNotCounted(Handled(s, calls[0]), calls[1..], target);
    }
  }
}

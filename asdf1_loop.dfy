/**
  The loop fragment of `src/asdf1.py`, an earlier draft of the loop in `__main__.main`.
  It differs in one test: tests are regenerated when the stagnation counter EQUALS its
  maximum (3), where `main` asks whether it exceeds the maximum minus one. The fragment
  also never decreases `idx`, so it too can end only by a passing run.

  Its free names (`run_pytest`, `test_file`, the models, `corrected_function`) are bound
  as in `main`: the test run and the correction reply are the observation, and
  `corrected_function` is unbound until the first correction.
*/
module Asdf1Loop {
  import opened Wrappers
  import opened Controller
  import opened MainLoop
  import Synthesis

  /** One pass through the body of `while idx > 0`. */
  function Iteration(s: State, o: Observation): StepResult
  {
    if o.returncode == 0 then StepResult(s, Passed, true)
    else
      var counter := if s.previous == Some(o.failed) then s.counter + 1 else s.counter;
      if counter == FailedCasesChangedMax then
        match s.corrected
        case None => StepResult(s.(counter := counter), NameError, true)
        case Some(source) =>
          var temperature := RegenerationTemperature(counter, FailedCasesChangedMax);
          StepResult(s.(idx := InitialIdx, counter := 0), Regenerated(counter, temperature, source), false)
      else
        var code := Synthesis.CorrectedFunction(s.functionToTest, o.correctionReply);
        var next := s.(counter := counter, functionToTest := code, corrected := Some(code), previous := Some(o.failed));
        StepResult(next, Corrected(counter, CorrectionTemperature(counter), code), false)
  }

  /** The loop from state `s` over the observations `obs`. */
  function Loop(s: State, obs: seq<Observation>): Trace<Event, State>
    decreases |obs|
  {
    if s.idx <= 0 then Trace([], s, LoopExited)
    else if obs == [] then Trace([], s, OutOfObservations)
    else
      var r := Iteration(s, obs[0]);
      if r.stop then Trace([r.event], r.next, if r.event == Passed then AllPassed else Raised)
      else Prefixed([r.event], Loop(r.next, obs[1..]))
  }

  /** The fragment as written, over the observations `obs`. */
  method RunAsdf1(functionToTest: string, obs: seq<Observation>) returns (events: seq<Event>, outcome: Outcome)
    ensures events == Loop(Init(functionToTest), obs).events
    ensures outcome == Loop(Init(functionToTest), obs).outcome
  {
    var previousFailedCases: Option<seq<string>> := None;
    var failedCasesChanged := 0;
    var functionUnderTest := functionToTest;
    var correctedFunction: Option<string> := None;
    var idx := 3;
    var refIdx := idx;
    var i := 0;
    events := [];
    outcome := LoopExited;
    while idx > 0
      invariant 0 <= i <= |obs| && refIdx == InitialIdx
      invariant outcome == LoopExited
      invariant Loop(Init(functionToTest), obs)
             == Prefixed(events, Loop(State(idx, failedCasesChanged, previousFailedCases, functionUnderTest, correctedFunction), obs[i..]))
      decreases |obs| - i
    {
      if i == |obs| {
        outcome := OutOfObservations;
        break;
      }
      var o := obs[i];
      ghost var s := State(idx, failedCasesChanged, previousFailedCases, functionUnderTest, correctedFunction);
      ghost var r := Iteration(s, o);
      ghost var before := events;
      LoopUnfold(s, obs, i);
      i := i + 1;
      if o.returncode == 0 {
        events := events + [Passed];
        outcome := AllPassed;
        break;
      }
      var failedTestCases := o.failed;
      if previousFailedCases == Some(failedTestCases) {
        failedCasesChanged := failedCasesChanged + 1;
      }
      if failedCasesChanged == FailedCasesChangedMax {
        if correctedFunction.None? {
          events := events + [NameError];
          outcome := Raised;
          break;
        }
        var temperature := RegenerationTemperature(failedCasesChanged, FailedCasesChangedMax);
        events := events + [Regenerated(failedCasesChanged, temperature, correctedFunction.value)];
        idx := refIdx;
        failedCasesChanged := 0;
        assert r.next == State(idx, failedCasesChanged, previousFailedCases, functionUnderTest, correctedFunction);
        PrefixedTwice(before, r.event, Loop(r.next, obs[i..]));
        continue;
      }
      var corrected := Synthesis.CorrectedFunction(functionUnderTest, o.correctionReply);
      events := events + [Corrected(failedCasesChanged, CorrectionTemperature(failedCasesChanged), corrected)];
      correctedFunction := Some(corrected);
      functionUnderTest := corrected;
      previousFailedCases := Some(failedTestCases);
      assert r.next == State(idx, failedCasesChanged, previousFailedCases, functionUnderTest, correctedFunction);
      PrefixedTwice(before, r.event, Loop(r.next, obs[i..]));
    }
  }

  /** The loop at the `i`-th observation is one iteration followed by the rest. */
  lemma LoopUnfold(s: State, obs: seq<Observation>, i: nat)
    requires s.idx > 0 && i < |obs|
    ensures var r := Iteration(s, obs[i]);
      Loop(s, obs[i..]) == if r.stop then Trace([r.event], r.next, if r.event == Passed then AllPassed else Raised)
                           else Prefixed([r.event], Loop(r.next, obs[i + 1..]))
  {
    assert obs[i..][0] == obs[i] && obs[i..][1..] == obs[i + 1..];
  }

  /** A passing run decides the iteration before the failed cases are looked at: the
      iteration does not depend on them. */
  lemma PassIgnoresFailures(s: State, o: Observation, failed: seq<string>)
    requires o.returncode == 0
    ensures Iteration(s, o) == Iteration(s, o.(failed := failed))
    ensures Iteration(s, o) == StepResult(s, Passed, true)
  {
  }

  /** While the counter is at most 2 at the loop head, the draft's `==` test and the
      `>` test of `main` choose the same branch: the counter is at most 3 after the
      increment, and the iteration is exactly that of `main`. */
  lemma IterationAgreesWithMain(s: State, o: Observation)
    requires 0 <= s.counter <= FailedCasesChangedMax - 1
    ensures Iteration(s, o) == Step(s, o)
    ensures Iteration(s, o).next.counter <= FailedCasesChangedMax
  {
  }

  /** From every state of `main`'s invariant, the draft runs exactly like `main`; in
      particular the counter never exceeds 3 (it is at most 2 at every loop head), the
      loop ends only on the first passing run, and NameError never occurs. */
  lemma {:induction false} LoopAgreesWithMain(s: State, obs: seq<Observation>)
    requires Inv(s)
    ensures Loop(s, obs) == Run(s, obs)
    decreases |obs|
  {
    if obs != [] {
      IterationAgreesWithMain(s, obs[0]);
      StepKeepsInv(s, obs[0]);
      LoopAgreesWithMain(Step(s, obs[0]).next, obs[1..]);
    }
  }

  /** The whole fragment from its start: it ends by a passing run exactly when one is
      observed, never raises NameError, and its counter is at most 2 when it stops. A
      regeneration is taken to return; its IndexError on a reply without a fence is not
      part of this loop. */
  lemma Asdf1Run(functionToTest: string, obs: seq<Observation>)
    ensures var t := Loop(Init(functionToTest), obs);
      && (t.outcome == AllPassed || t.outcome == OutOfObservations)
      && (t.outcome == AllPassed <==> exists k :: 0 <= k < |obs| && obs[k].returncode == 0)
      && 0 <= t.final.counter <= FailedCasesChangedMax - 1
      && (forall k :: 0 <= k < |t.events| ==> t.events[k] != NameError)
  {
    LoopAgreesWithMain(Init(functionToTest), obs);
    MainRun(functionToTest, obs);
    RunFromInv(Init(functionToTest), obs);
  }

  /** Outside that invariant the two tests differ: a counter that has already passed
      the maximum never equals it again, so the draft keeps correcting where `main`
      regenerates. */
  lemma EqualityTestMissesLargerCounts()
    ensures var s := State(InitialIdx, 3, Some([]), "f", Some("f"));
      var o := Observation(1, [], "");
      && Iteration(s, o).event.Corrected?
      && Step(s, o).event.Regenerated?
  {
  }
}

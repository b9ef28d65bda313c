/**
  The test-and-repair loop of `__main__.main`: run the tests; stop when they pass;
  count how often the failed cases repeat; after three repeats regenerate the tests from
  the last corrected function; otherwise ask for a correction and remember the failures.

  `idx` is set back to `ref_idx` on regeneration and never decreased, so the loop can end
  only by a passing run. The model's loop also ends when the observations run out.
*/
module MainLoop {
  import opened Wrappers
  import opened Controller
  import Synthesis

  const FailedCasesChangedMax: int := 3
  const InitialIdx: int := 3

  /** The loop's variables: `idx`, `failed_cases_changed`, `previous_failed_cases`,
      `function_to_test`, and `corrected_function` (None while still unbound). */
  datatype State = State(idx: int, counter: int, previous: Option<seq<string>>,
                         functionToTest: string, corrected: Option<string>)

  /** What one iteration does. */
  datatype Event =
    | Passed
    | Regenerated(counter: int, temperature: real, source: string)
    | Corrected(counter: int, temperature: real, code: string)
    | NameError

  datatype StepResult = StepResult(next: State, event: Event, stop: bool)

  function Init(functionToTest: string): State
  {
    State(InitialIdx, 0, None, functionToTest, None)
  }

  /** One pass through the body of `while idx > 0` on the observation `o`. */
  function Step(s: State, o: Observation): StepResult
  {
    if o.returncode == 0 then StepResult(s, Passed, true)
    else
      var counter := if s.previous == Some(o.failed) then s.counter + 1 else s.counter;
      if counter > FailedCasesChangedMax - 1 then
        match s.corrected
        case None => StepResult(s.(counter := counter), NameError, true)
        case Some(source) =>
          var temperature := RegenerationTemperature(counter, FailedCasesChangedMax);
          StepResult(s.(idx := InitialIdx, counter := 0), Regenerated(counter, temperature, source), false)
      else
        var code := Synthesis.CorrectedFunction(s.functionToTest, o.correctionReply);
        var next := s.(counter := counter, functionToTest := code, corrected := Some(code), previous := Some(o.failed));
        StepResult(next, Corrected(counter, CorrectionTemperature(counter), code), false)
  }

  /** The loop from state `s` over the observations `obs`. */
  function Run(s: State, obs: seq<Observation>): Trace<Event, State>
    decreases |obs|
  {
    if s.idx <= 0 then Trace([], s, LoopExited)
    else if obs == [] then Trace([], s, OutOfObservations)
    else
      var r := Step(s, obs[0]);
      if r.stop then Trace([r.event], r.next, if r.event == Passed then AllPassed else Raised)
      else Prefixed([r.event], Run(r.next, obs[1..]))
  }

  /** The loop at the `i`-th observation is one iteration followed by the rest. */
  lemma RunUnfold(s: State, obs: seq<Observation>, i: nat)
    requires s.idx > 0 && i < |obs|
    ensures var r := Step(s, obs[i]);
      Run(s, obs[i..]) == if r.stop then Trace([r.event], r.next, if r.event == Passed then AllPassed else Raised)
                          else Prefixed([r.event], Run(r.next, obs[i + 1..]))
  {
    assert obs[i..][0] == obs[i] && obs[i..][1..] == obs[i + 1..];
  }

  /** The loop as the source writes it, over the observations `obs`. */
  method RunMain(functionToTest: string, obs: seq<Observation>) returns (events: seq<Event>, outcome: Outcome)
    ensures events == Run(Init(functionToTest), obs).events
    ensures outcome == Run(Init(functionToTest), obs).outcome
  {
    var previousFailedCases: Option<seq<string>> := None;
    var failedCasesChanged := 0;
    var functionUnderTest := functionToTest;
    var correctedFunction: Option<string> := None;
    var idx := 3;
    var refIdx := idx;
    var i := 0;
    events := [];
    outcome := LoopExited;
    while idx > 0
      invariant 0 <= i <= |obs| && refIdx == InitialIdx
      invariant outcome == LoopExited
      invariant Run(Init(functionToTest), obs)
             == Prefixed(events, Run(State(idx, failedCasesChanged, previousFailedCases, functionUnderTest, correctedFunction), obs[i..]))
      decreases |obs| - i
    {
      if i == |obs| {
        outcome := OutOfObservations;
        break;
      }
      var o := obs[i];
      ghost var s := State(idx, failedCasesChanged, previousFailedCases, functionUnderTest, correctedFunction);
      ghost var r := Step(s, o);
      ghost var before := events;
      RunUnfold(s, obs, i);
      i := i + 1;
      if o.returncode == 0 {
        events := events + [Passed];
        outcome := AllPassed;
        break;
      }
      if previousFailedCases == Some(o.failed) {
        failedCasesChanged := failedCasesChanged + 1;
      }
      if failedCasesChanged > FailedCasesChangedMax - 1 {
        if correctedFunction.None? {
          events := events + [NameError];
          outcome := Raised;
          break;
        }
        var temperature := RegenerationTemperature(failedCasesChanged, FailedCasesChangedMax);
        events := events + [Regenerated(failedCasesChanged, temperature, correctedFunction.value)];
        idx := refIdx;
        failedCasesChanged := 0;
        assert r.next == State(idx, failedCasesChanged, previousFailedCases, functionUnderTest, correctedFunction);
        PrefixedTwice(before, r.event, Run(r.next, obs[i..]));
        continue;
      }
      var corrected := Synthesis.CorrectedFunction(functionUnderTest, o.correctionReply);
      events := events + [Corrected(failedCasesChanged, CorrectionTemperature(failedCasesChanged), corrected)];
      correctedFunction := Some(corrected);
      functionUnderTest := corrected;
      previousFailedCases := Some(o.failed);
      assert r.next == State(idx, failedCasesChanged, previousFailedCases, functionUnderTest, correctedFunction);
      PrefixedTwice(before, r.event, Run(r.next, obs[i..]));
    }
  }

  // ---------------------------------------------------------------------------
  // What the loop guarantees

  /** The invariant of every loop head reached from `Init`: `idx` is still 3, the counter
      is at most 2, a positive counter means a correction has happened, and the corrected
      function is the function under test. */
  predicate Inv(s: State)
  {
    && s.idx == InitialIdx
    && 0 <= s.counter <= FailedCasesChangedMax - 1
    && (s.counter > 0 ==> s.corrected.Some?)
    && (s.corrected.Some? ==> s.corrected.value == s.functionToTest)
  }

  /** From a state satisfying the invariant, one iteration never raises NameError, keeps
      the invariant, regenerates only at a count of exactly 3 (temperature 1.0) from the
      current function, and corrects at a count of at most 2 (temperature at most 0.6). */
  lemma StepKeepsInv(s: State, o: Observation)
    requires Inv(s)
    ensures var r := Step(s, o);
      && r.event != NameError
      && (r.stop <==> o.returncode == 0)
      && Inv(r.next)
      && (r.event.Regenerated? ==>
            r.event.counter == 3 && r.event.temperature == 1.0 && r.event.source == s.functionToTest)
      && (r.event.Corrected? ==> 0 <= r.event.counter <= 2 && r.event.temperature <= 0.6)
  {
    var r := Step(s, o);
    if r.event.Regenerated? {
      RegenerationAtMaximum(FailedCasesChangedMax);
    }
  }

  /** The stagnation counter: a failing run whose failures equal the previous ones adds
      one; different failures leave it as it was (it is not reset); only a regeneration
      sets it back to 0, and a regeneration leaves the previous failures in place. */
  lemma CounterUpdate(s: State, o: Observation)
    requires Inv(s) && o.returncode != 0
    ensures var r := Step(s, o);
      var repeated := s.previous == Some(o.failed);
      && (r.event.Regenerated? <==> repeated && s.counter == 2)
      && (r.event.Regenerated? ==> r.next.counter == 0 && r.next.previous == s.previous)
      && (!r.event.Regenerated? ==> r.next.counter == if repeated then s.counter + 1 else s.counter)
      && (!r.event.Regenerated? ==> r.next.previous == Some(o.failed))
  {
  }

  /** The loop ends only by a passing run, and then on the first one; otherwise it uses
      every observation. Every regeneration runs at temperature 1.0 at a count of 3,
      every correction at a count of at most 2, and NameError never occurs. */
  lemma {:induction false} RunFromInv(s: State, obs: seq<Observation>)
    requires Inv(s)
    ensures var t := Run(s, obs);
      && (t.outcome == AllPassed <==> FirstPass(obs).Some?)
      && (t.outcome != AllPassed ==> t.outcome == OutOfObservations && |t.events| == |obs|)
      && (t.outcome == AllPassed ==>
            |t.events| == FirstPass(obs).value + 1 && t.events[|t.events| - 1] == Passed)
      && Inv(t.final)
      && (forall k :: 0 <= k < |t.events| ==> t.events[k] != NameError)
      && (forall k :: 0 <= k < |t.events| && t.events[k].Regenerated? ==>
            t.events[k].counter == 3 && t.events[k].temperature == 1.0)
      && (forall k :: 0 <= k < |t.events| && t.events[k].Corrected? ==>
            t.events[k].counter <= 2 && t.events[k].temperature <= 0.6)
    decreases |obs|
  {
    if obs != [] {
      var r := Step(s, obs[0]);
      StepKeepsInv(s, obs[0]);
      if !r.stop {
        RunFromInv(r.next, obs[1..]);
        var rest := Run(r.next, obs[1..]);
        var t := Run(s, obs);
        assert t.events == [r.event] + rest.events;
        forall k | 0 < k < |t.events| ensures t.events[k] == rest.events[k - 1] {}
        if FirstPass(obs[1..]).Some? {
          assert FirstPass(obs) == Some(FirstPass(obs[1..]).value + 1);
        }
      }
    }
  }

  /** The whole loop from its start. */
  lemma MainRun(functionToTest: string, obs: seq<Observation>)
    ensures var t := Run(Init(functionToTest), obs);
      && (t.outcome == AllPassed || t.outcome == OutOfObservations)
      && (t.outcome == AllPassed <==> exists k :: 0 <= k < |obs| && obs[k].returncode == 0)
      && (forall k :: 0 <= k < |t.events| ==> t.events[k] != NameError)
  {
    RunFromInv(Init(functionToTest), obs);
    if FirstPass(obs).Some? {
      assert obs[FirstPass(obs).value].returncode == 0;
    }
  }

  /** The same failures three times in a row after a correction force a regeneration on
      the third: from a state whose previous failures are `failed`, failing runs that
      keep reporting `failed` correct until the count reaches 3 and then regenerate. */
  lemma {:induction false} RepeatedFailuresRegenerate(s: State, failed: seq<string>, obs: seq<Observation>)
    requires Inv(s) && s.previous == Some(failed)
    requires |obs| >= FailedCasesChangedMax - s.counter
    requires forall k :: 0 <= k < |obs| ==> obs[k].returncode != 0 && obs[k].failed == failed
    ensures var n := FailedCasesChangedMax - 1 - s.counter; var t := Run(s, obs);
      && |t.events| == |obs|
      && t.events[n].Regenerated?
      && forall k :: 0 <= k < n ==> t.events[k].Corrected? && t.events[k].counter == s.counter + k + 1
    decreases |obs|
  {
    RunFromInv(s, obs);
    var r := Step(s, obs[0]);
    var t := Run(s, obs);
    var rest := Run(r.next, obs[1..]);
    assert t.events == [r.event] + rest.events;
    if s.counter < 2 {
      assert r.next.previous == Some(failed) && r.next.counter == s.counter + 1;
      StepKeepsInv(s, obs[0]);
      RepeatedFailuresRegenerate(r.next, failed, obs[1..]);
      forall k | 0 < k < FailedCasesChangedMax - 1 - s.counter
        ensures t.events[k].Corrected? && t.events[k].counter == s.counter + k + 1
      {
        assert t.events[k] == rest.events[k - 1];
      }
    }
  }
}

/**
  The loop of `main` in `build/lib/src/asdf2.py`: after one initial generation, at most
  three times run the tests, stop when they pass, stop when the failed cases are those
  remembered from before, and otherwise correct the function and regenerate the tests
  from the correction.

  `previous_failed_cases` is set to None and never assigned again, while the extractor
  always returns a list, so the `break` on unchanged failed cases can never be taken.
  `correct_function` is the one with the fallback to the original text.

  Each iteration begins with `test_result, test_output = run_pytest(test_file)`. The
  repository's `run_pytest` returns a three-key dict, so as written that unpacking
  raises ValueError in the first iteration; what `run_pytest` returns is the input
  `pytest`, and the intended program receives the pair of return code and output.
*/
module BuildAsdf2Loop {
  import opened Wrappers
  import opened Controller
  import Synthesis

  const Iterations: nat := 3

  /** The intended result of `run_pytest`: pytest's return code and output. */
  const PytestIntended: PytestResult := CodeAndOutput

  /** The loop's variables: `function_to_test`, `previous_failed_cases` and
      `tests_changed`. */
  datatype State = State(functionToTest: string, previous: Option<seq<string>>, testsChanged: bool)

  /** What one iteration does: the unpacking of the test run's result fails, the tests
      pass, the failed cases are unchanged, or the function is corrected to `code` and
      the tests are regenerated from `code`. */
  datatype Event = ValueError | Passed | Unchanged | Repaired(code: string)

  datatype StepResult = StepResult(next: State, event: Event, stop: bool)

  function Init(functionToTest: string): State
  {
    State(functionToTest, None, true)
  }

  /** The rest of a pass through the body of `for _ in range(0, 3)`, once the test run's
      result is unpacked. */
  function Step(s: State, o: Observation): StepResult
  {
    if o.returncode == 0 then StepResult(s, Passed, true)
    else if s.previous == Some(o.failed) then StepResult(s.(testsChanged := false), Unchanged, true)
    else
      var code := Synthesis.CorrectedFunction(s.functionToTest, o.correctionReply);
      StepResult(s.(functionToTest := code), Repaired(code), false)
  }

  /** The loop from state `s` with `left` iterations to go, over the observations `obs`. */
  function Run(s: State, obs: seq<Observation>, left: nat, pytest: PytestResult): Trace<Event, State>
    decreases left
  {
    if left == 0 then Trace([], s, LoopExited)
    else if !UnpacksIntoTwo(pytest) then Trace([ValueError], s, Raised)
    else if obs == [] then Trace([], s, OutOfObservations)
    else
      var r := Step(s, obs[0]);
      if r.stop then Trace([r.event], r.next, if r.event == Passed then AllPassed else Stagnated)
      else Prefixed([r.event], Run(r.next, obs[1..], left - 1, pytest))
  }

  /** The loop as written, over the observations `obs`; `testsChanged` is the flag's
      value after the loop. */
  method RunBuildAsdf2(functionToTest: string, obs: seq<Observation>, pytest: PytestResult)
    returns (events: seq<Event>, outcome: Outcome, testsChanged: bool)
    ensures events == Run(Init(functionToTest), obs, Iterations, pytest).events
    ensures outcome == Run(Init(functionToTest), obs, Iterations, pytest).outcome
    ensures testsChanged == Run(Init(functionToTest), obs, Iterations, pytest).final.testsChanged
  {
    var previousFailedCases: Option<seq<string>> := None;
    testsChanged := true;
    var functionUnderTest := functionToTest;
    events := [];
    outcome := LoopExited;
    for n := 0 to Iterations
      invariant n <= |obs| || n == 0
      invariant outcome == LoopExited
      invariant Run(Init(functionToTest), obs, Iterations, pytest)
             == Prefixed(events, Run(State(functionUnderTest, previousFailedCases, testsChanged), obs[n..], Iterations - n, pytest))
    {
      if !UnpacksIntoTwo(pytest) {
        events := events + [ValueError];
        outcome := Raised;
        break;
      }
      if n == |obs| {
        outcome := OutOfObservations;
        break;
      }
      var o := obs[n];
      ghost var s := State(functionUnderTest, previousFailedCases, testsChanged);
      ghost var r := Step(s, o);
      assert obs[n..][0] == o && obs[n..][1..] == obs[n + 1..];
      var failedTestCases := o.failed;
      if o.returncode == 0 {
        events := events + [Passed];
        outcome := AllPassed;
        break;
      }
      if previousFailedCases == Some(failedTestCases) {
        testsChanged := false;
        events := events + [Unchanged];
        outcome := Stagnated;
        break;
      }
      var corrected := Synthesis.CorrectedFunction(functionUnderTest, o.correctionReply);
      events := events + [Repaired(corrected)];
      functionUnderTest := corrected;
      PrefixedTwice(events[..|events| - 1], r.event, Run(r.next, obs[n + 1..], Iterations - n - 1, pytest));
      assert events[..|events| - 1] + [r.event] == events;
    }
  }

  // ---------------------------------------------------------------------------
  // As written

  /** As written, the first iteration raises ValueError unpacking the repository's
      `run_pytest` result, after the initial generation and before any test result is
      looked at, whatever the observations. */
  lemma UnpackingRaises(functionToTest: string, obs: seq<Observation>)
    ensures var t := Run(Init(functionToTest), obs, Iterations, RepositoryRunPytest);
      t.events == [ValueError] && t.outcome == Raised && t.final == Init(functionToTest)
  {
  }

  // ---------------------------------------------------------------------------
  // As intended

  /** In the intended program, from a state whose remembered failed cases are None, as
      the loop's always are: the loop never stops on unchanged failed cases, raises
      nothing other than the regeneration's IndexError (not modelled), keeps
      `tests_changed` as it was, and corrects in every iteration that does not pass. */
  lemma {:induction false} NeverUnchanged(s: State, obs: seq<Observation>, left: nat)
    requires s.previous == None
    ensures var t := Run(s, obs, left, PytestIntended);
      && t.outcome != Stagnated && t.outcome != Raised
      && t.final.testsChanged == s.testsChanged
      && t.final.previous == None
      && (forall k :: 0 <= k < |t.events| ==> t.events[k] != Unchanged)
    decreases left
  {
    if left > 0 && obs != [] {
      var r := Step(s, obs[0]);
      if !r.stop {
        NeverUnchanged(r.next, obs[1..], left - 1);
        var rest := Run(r.next, obs[1..], left - 1, PytestIntended);
        var t := Run(s, obs, left, PytestIntended);
        assert t.events == [r.event] + rest.events;
        forall k | 0 < k < |t.events| ensures t.events[k] == rest.events[k - 1] {}
      }
    }
  }

  /** In the intended program the loop runs at most `left` iterations and consumes one observation each; it
      stops on the first passing run within them, and only a stop cuts it short. */
  lemma {:induction false} RunLength(s: State, obs: seq<Observation>, left: nat)
    ensures var t := Run(s, obs, left, PytestIntended);
      && |t.events| <= left && |t.events| <= |obs|
      && (t.outcome == LoopExited ==> |t.events| == left)
      && (t.outcome == OutOfObservations ==> |t.events| == |obs| < left)
      && (t.outcome == AllPassed ==> obs[|t.events| - 1].returncode == 0)
      && (forall k :: 0 <= k < |t.events| - 1 ==> obs[k].returncode != 0)
      && ((t.outcome == LoopExited || t.outcome == OutOfObservations) ==>
            forall k :: 0 <= k < |t.events| ==> obs[k].returncode != 0)
    decreases left
  {
    if left > 0 && obs != [] {
      var r := Step(s, obs[0]);
      if !r.stop {
        RunLength(r.next, obs[1..], left - 1);
        var rest := Run(r.next, obs[1..], left - 1, PytestIntended);
        var t := Run(s, obs, left, PytestIntended);
        assert t.events == [r.event] + rest.events;
        forall k | 0 < k < |obs| ensures obs[k] == obs[1..][k - 1] {}
      }
    }
  }

  /** A run that holds a correction did not stop at its first observation. */
  lemma RepairedStep(s: State, obs: seq<Observation>, left: nat, k: nat)
    requires k < |Run(s, obs, left, PytestIntended).events| && Run(s, obs, left, PytestIntended).events[k].Repaired?
    ensures left > 0 && obs != [] && !Step(s, obs[0]).stop
    ensures Run(s, obs, left, PytestIntended).events
         == [Step(s, obs[0]).event] + Run(Step(s, obs[0]).next, obs[1..], left - 1, PytestIntended).events
  {
  }

  /** The corrections chain: the `k`-th correction starts from the `(k-1)`-th, and the
      first from the function read at the start. */
  lemma {:induction false} CorrectionsChain(s: State, obs: seq<Observation>, left: nat, k: nat)
    requires k < |Run(s, obs, left, PytestIntended).events| && Run(s, obs, left, PytestIntended).events[k].Repaired?
    ensures k < |obs|
    ensures k > 0 ==> Run(s, obs, left, PytestIntended).events[k - 1].Repaired?
    ensures Run(s, obs, left, PytestIntended).events[k].code
         == Synthesis.CorrectedFunction(if k == 0 then s.functionToTest else Run(s, obs, left, PytestIntended).events[k - 1].code,
                                        obs[k].correctionReply)
    decreases left
  {
    RepairedStep(s, obs, left, k);
    var r := Step(s, obs[0]);
    var t := Run(s, obs, left, PytestIntended);
    if k > 0 {
      var rest := Run(r.next, obs[1..], left - 1, PytestIntended);
      assert t.events[k] == rest.events[k - 1];
      CorrectionsChain(r.next, obs[1..], left - 1, k - 1);
      if k == 1 {
        assert t.events[0] == r.event;
      } else {
        assert t.events[k - 1] == rest.events[k - 2];
      }
    }
  }

  /** The whole intended program from its start: at most three iterations, no stop on
      unchanged failed cases, no exception other than the regeneration's IndexError (not
      modelled), `tests_changed` still true afterwards, and a pass exactly when one of
      the first three runs passes. */
  lemma BuildAsdf2Run(functionToTest: string, obs: seq<Observation>)
    ensures var t := Run(Init(functionToTest), obs, Iterations, PytestIntended);
      && |t.events| <= 3
      && t.outcome != Stagnated && t.outcome != Raised
      && t.final.testsChanged
      && (t.outcome == AllPassed <==> exists k :: 0 <= k < |obs| && k < 3 && obs[k].returncode == 0)
  {
    NeverUnchanged(Init(functionToTest), obs, Iterations);
    RunLength(Init(functionToTest), obs, Iterations);
    var t := Run(Init(functionToTest), obs, Iterations, PytestIntended);
    if t.outcome == AllPassed {
      assert obs[|t.events| - 1].returncode == 0;
    }
  }
}

/**
  The loop of `main` in the installed `src/asdf1.py`: at most three times generate the
  tests, run them, stop when they pass, stop when the failed cases equal those of the
  previous iteration, and otherwise correct the function and remember the failed
  cases. After the loop a notice is logged when the tests stopped changing.

  Two statements of the first iteration raise before any test result is looked at.
  The generation call passes `print_text=FALSE`; `FALSE` is bound nowhere, so evaluating
  the call's arguments raises NameError. With the evidently intended `False`, the tests
  are generated, but `test_result, test_output = run_pytest(test_file)` unpacks the
  three-key dict the repository's `run_pytest` returns and raises ValueError. The
  argument's value is the input `printText` (None when the name is unbound), and what
  `run_pytest` returns is the input `pytest`; the intended program has `False` and a
  pair.
*/
module EnvAsdf1Loop {
  import opened Wrappers
  import opened Controller
  import Synthesis

  const Iterations: nat := 3

  /** The value of `print_text=FALSE` as written: the name has no binding. */
  const PrintTextAsWritten: Option<bool> := None
  /** The intended `print_text=False`. */
  const PrintTextIntended: Option<bool> := Some(false)
  /** The intended result of `run_pytest`: pytest's return code and output. */
  const PytestIntended: PytestResult := CodeAndOutput

  /** The loop's variables: `function_to_test`, `previous_failed_cases` and
      `tests_changed`. */
  datatype State = State(functionToTest: string, previous: Option<seq<string>>, testsChanged: bool)

  /** What one iteration does, after generating tests from `source`: the tests pass, the
      failed cases are those of the previous iteration, or the function is corrected
      to `code`. NameError is the failed evaluation of the generation's arguments, and
      ValueError the failed unpacking of the test run's result. */
  datatype Event =
    | NameError
    | ValueError(source: string)
    | Passed(source: string)
    | Unchanged(source: string)
    | Corrected(source: string, code: string)

  datatype StepResult = StepResult(next: State, event: Event, stop: bool)

  function Init(functionToTest: string): State
  {
    State(functionToTest, None, true)
  }

  /** The exception an iteration raises before it looks at the test run, if any. */
  function Raises(s: State, printText: Option<bool>, pytest: PytestResult): Option<Event>
  {
    if printText.None? then Some(NameError)
    else if !UnpacksIntoTwo(pytest) then Some(ValueError(s.functionToTest))
    else None
  }

  /** The rest of a pass through the body of `for _ in range(0, 3)`, once the test
      run's result is unpacked. */
  function Step(s: State, o: Observation): StepResult
  {
    if o.returncode == 0 then StepResult(s, Passed(s.functionToTest), true)
    else if s.previous == Some(o.failed) then
      StepResult(s.(testsChanged := false), Unchanged(s.functionToTest), true)
    else
      var code := Synthesis.CorrectedFunction(s.functionToTest, o.correctionReply);
      StepResult(s.(functionToTest := code, previous := Some(o.failed)), Corrected(s.functionToTest, code), false)
  }

  function Ending(e: Event): Outcome
  {
    match e
    case Passed(_) => AllPassed
    case Unchanged(_) => Stagnated
    case _ => Raised
  }

  /** The loop from state `s` with `left` iterations to go, over the observations `obs`. */
  function Run(s: State, obs: seq<Observation>, left: nat, printText: Option<bool>, pytest: PytestResult)
    : Trace<Event, State>
    decreases left
  {
    if left == 0 then Trace([], s, LoopExited)
    else if Raises(s, printText, pytest).Some? then Trace([Raises(s, printText, pytest).value], s, Raised)
    else if obs == [] then Trace([], s, OutOfObservations)
    else
      var r := Step(s, obs[0]);
      if r.stop then Trace([r.event], r.next, Ending(r.event))
      else Prefixed([r.event], Run(r.next, obs[1..], left - 1, printText, pytest))
  }

  /** The loop and the notice after it, over the observations `obs`; `notice` says
      whether the regeneration notice is logged. */
  method RunEnvAsdf1(functionToTest: string, obs: seq<Observation>, printText: Option<bool>, pytest: PytestResult)
    returns (events: seq<Event>, outcome: Outcome, notice: bool)
    ensures events == Run(Init(functionToTest), obs, Iterations, printText, pytest).events
    ensures outcome == Run(Init(functionToTest), obs, Iterations, printText, pytest).outcome
    ensures notice == (outcome == Stagnated)
  {
    var previousFailedCases: Option<seq<string>> := None;
    var testsChanged := true;
    var functionUnderTest := functionToTest;
    events := [];
    outcome := LoopExited;
    for n := 0 to Iterations
      invariant n <= |obs| || n == 0
      invariant outcome == LoopExited && testsChanged
      invariant Run(Init(functionToTest), obs, Iterations, printText, pytest)
             == Prefixed(events, Run(State(functionUnderTest, previousFailedCases, testsChanged), obs[n..], Iterations - n, printText, pytest))
    {
      if printText.None? {
        events := events + [NameError];
        outcome := Raised;
        break;
      }
      var source := functionUnderTest;
      if !UnpacksIntoTwo(pytest) {
        events := events + [ValueError(source)];
        outcome := Raised;
        break;
      }
      if n == |obs| {
        outcome := OutOfObservations;
        break;
      }
      var o := obs[n];
      ghost var s := State(functionUnderTest, previousFailedCases, testsChanged);
      ghost var r := Step(s, o);
      assert obs[n..][0] == o && obs[n..][1..] == obs[n + 1..];
      var failedTestCases := o.failed;
      if o.returncode == 0 {
        events := events + [Passed(source)];
        outcome := AllPassed;
        break;
      }
      if previousFailedCases == Some(failedTestCases) {
        testsChanged := false;
        events := events + [Unchanged(source)];
        outcome := Stagnated;
        break;
      }
      var corrected := Synthesis.CorrectedFunction(functionUnderTest, o.correctionReply);
      events := events + [Corrected(source, corrected)];
      functionUnderTest := corrected;
      previousFailedCases := Some(failedTestCases);
      PrefixedTwice(events[..|events| - 1], r.event, Run(r.next, obs[n + 1..], Iterations - n - 1, printText, pytest));
      assert events[..|events| - 1] + [r.event] == events;
    }
    notice := !testsChanged;
  }

  // ---------------------------------------------------------------------------
  // As written

  /** As written, the first iteration raises NameError before generating anything, and
      the loop ends there whatever the observations and whatever `run_pytest` returns. */
  lemma FalseIsUnbound(functionToTest: string, obs: seq<Observation>, pytest: PytestResult)
    ensures var t := Run(Init(functionToTest), obs, Iterations, PrintTextAsWritten, pytest);
      t.events == [NameError] && t.outcome == Raised && t.final == Init(functionToTest)
  {
  }

  /** With `False` restored, the first iteration generates tests from the function it
      started with and then raises ValueError unpacking the repository's `run_pytest`
      result, whatever the observations. */
  lemma UnpackingRaises(functionToTest: string, obs: seq<Observation>)
    ensures var t := Run(Init(functionToTest), obs, Iterations, PrintTextIntended, RepositoryRunPytest);
      t.events == [ValueError(functionToTest)] && t.outcome == Raised && t.final == Init(functionToTest)
  {
  }

  // ---------------------------------------------------------------------------
  // As intended

  /** In the intended program an iteration raises nothing other than the generation's
      IndexError (not modelled); it generates from the current function, stops exactly
      on a pass or on failed cases equal to the previous ones (clearing `tests_changed`
      only then), and otherwise replaces both the function and the remembered failed
      cases. */
  lemma StepIntended(s: State, o: Observation)
    ensures Raises(s, PrintTextIntended, PytestIntended) == None
    ensures var r := Step(s, o);
      && (r.event.Passed? || r.event.Unchanged? || r.event.Corrected?)
      && r.event.source == s.functionToTest
      && (r.stop <==> o.returncode == 0 || s.previous == Some(o.failed))
      && (r.stop ==> Ending(r.event) != Raised)
      && (r.next.testsChanged <==> s.testsChanged && !r.event.Unchanged?)
      && (!r.stop ==> r.next.functionToTest == r.event.code && r.next.previous == Some(o.failed))
  {
  }

  /** In the intended program: at most `left` iterations, no exception other than the
      generation's IndexError (not modelled), and `tests_changed` cleared exactly when
      the loop stops on unchanged failed cases. */
  lemma {:induction false} RunIntended(s: State, obs: seq<Observation>, left: nat)
    requires s.testsChanged
    ensures var t := Run(s, obs, left, PrintTextIntended, PytestIntended);
      && |t.events| <= left && |t.events| <= |obs|
      && t.outcome != Raised
      && (t.outcome == Stagnated <==> !t.final.testsChanged)
      && (forall k :: 0 <= k < |t.events| ==> !t.events[k].NameError? && !t.events[k].ValueError?)
    decreases left
  {
    if left > 0 && obs != [] {
      var r := Step(s, obs[0]);
      if !r.stop {
        RunIntended(r.next, obs[1..], left - 1);
        var rest := Run(r.next, obs[1..], left - 1, PrintTextIntended, PytestIntended);
        var t := Run(s, obs, left, PrintTextIntended, PytestIntended);
        assert t.events == [r.event] + rest.events;
        forall k | 0 < k < |t.events| ensures t.events[k] == rest.events[k - 1] {}
      }
    }
  }

  /** In the intended program, each iteration generates from the function the
      iteration before corrected to, and the first from the function it started with. */
  lemma {:induction false} SourcesChain(s: State, obs: seq<Observation>, left: nat, k: nat)
    requires k < |Run(s, obs, left, PrintTextIntended, PytestIntended).events|
    ensures !Run(s, obs, left, PrintTextIntended, PytestIntended).events[k].NameError?
    ensures k > 0 ==> Run(s, obs, left, PrintTextIntended, PytestIntended).events[k - 1].Corrected?
    ensures Run(s, obs, left, PrintTextIntended, PytestIntended).events[k].source
         == if k == 0 then s.functionToTest else Run(s, obs, left, PrintTextIntended, PytestIntended).events[k - 1].code
    decreases left
  {
    var r := Step(s, obs[0]);
    var t := Run(s, obs, left, PrintTextIntended, PytestIntended);
    if k > 0 {
      var rest := Run(r.next, obs[1..], left - 1, PrintTextIntended, PytestIntended);
      assert t.events == [r.event] + rest.events;
      assert t.events[k] == rest.events[k - 1];
      SourcesChain(r.next, obs[1..], left - 1, k - 1);
      if k == 1 {
        assert t.events[0] == r.event;
      } else {
        assert t.events[k - 1] == rest.events[k - 2];
      }
    }
  }

  /** In the intended program, the loop stops on unchanged failed cases only when
      the last run fails with the failed cases of the iteration before (or, in the
      first iteration, with those remembered at the start). */
  lemma {:induction false} StagnationCause(s: State, obs: seq<Observation>, left: nat)
    ensures var t := Run(s, obs, left, PrintTextIntended, PytestIntended);
      t.outcome == Stagnated ==>
        var n := |t.events| - 1;
        && 0 <= n < |obs|
        && obs[n].returncode != 0
        && Some(obs[n].failed) == (if n == 0 then s.previous else Some(obs[n - 1].failed))
    decreases left
  {
    if left > 0 && obs != [] {
      var r := Step(s, obs[0]);
      if !r.stop {
        StagnationCause(r.next, obs[1..], left - 1);
        var rest := Run(r.next, obs[1..], left - 1, PrintTextIntended, PytestIntended);
        var t := Run(s, obs, left, PrintTextIntended, PytestIntended);
        assert t.events == [r.event] + rest.events;
        if t.outcome == Stagnated {
          var n := |t.events| - 1;
          assert obs[n] == obs[1..][n - 1];
          if n > 1 { assert obs[n - 1] == obs[1..][n - 2]; }
        }
      }
    }
  }

  /** From the start of the intended program, two failing runs in a row with the
      same failed cases stop the loop in its second iteration, and the notice is
      logged. */
  lemma RepeatedFailuresStop(functionToTest: string, obs: seq<Observation>)
    requires |obs| >= 2 && obs[0].returncode != 0 && obs[1].returncode != 0
    requires obs[0].failed == obs[1].failed
    ensures var t := Run(Init(functionToTest), obs, Iterations, PrintTextIntended, PytestIntended);
      |t.events| == 2 && t.outcome == Stagnated && !t.final.testsChanged
  {
    var s := Init(functionToTest);
    var r := Step(s, obs[0]);
    assert obs[1..][0] == obs[1];
    assert Run(r.next, obs[1..], Iterations - 1, PrintTextIntended, PytestIntended).events == [Step(r.next, obs[1]).event];
  }

  /** In the intended program `extract_failed_test_cases` receives pytest's stdout, a
      string; indexing it with "stdout" raises TypeError, which the extractor turns into
      []. With every run's failed cases empty, a second failing run always repeats the
      first: the loop corrects at most once, in its first iteration, and it stops in its
      second iteration, on a pass or on unchanged failed cases. */
  lemma EmptyFailuresStagnate(functionToTest: string, obs: seq<Observation>)
    requires forall k :: 0 <= k < |obs| ==> obs[k].failed == []
    ensures var t := Run(Init(functionToTest), obs, Iterations, PrintTextIntended, PytestIntended);
      && |t.events| <= 2
      && (forall k :: 0 < k < |t.events| ==> !t.events[k].Corrected?)
      && (t.outcome == Stagnated <==> |obs| >= 2 && obs[0].returncode != 0 && obs[1].returncode != 0)
      && (t.outcome == AllPassed <==> (|obs| >= 1 && obs[0].returncode == 0) || (|obs| >= 2 && obs[1].returncode == 0))
  {
    var s := Init(functionToTest);
    if obs != [] && obs[0].returncode != 0 {
      var r := Step(s, obs[0]);
      assert r.next.previous == Some([]);
      var rest := Run(r.next, obs[1..], Iterations - 1, PrintTextIntended, PytestIntended);
      if |obs| >= 2 {
        assert obs[1..][0] == obs[1];
        assert rest.events == [Step(r.next, obs[1]).event];
      }
    }
  }

  /** The whole intended program from its start: at most three
      iterations, no exception other than the generation's IndexError (not modelled),
      and the notice is logged exactly when the loop stopped
      on failed cases equal to those of the iteration before. */
  /** Conversely, in the intended program, when every run up to the `n`-th fails and
      the `n`-th fails with the same cases as the one before it, the loop stagnates
      (possibly earlier, on an even older repetition). */
  lemma {:induction false} StagnatesOnRepeat(s: State, obs: seq<Observation>, left: nat, n: nat)
    requires 0 < n < |obs| && n < left
    requires forall k :: 0 <= k <= n ==> obs[k].returncode != 0
    requires obs[n].failed == obs[n - 1].failed
    ensures Run(s, obs, left, PrintTextIntended, PytestIntended).outcome == Stagnated
    decreases n
  {
    assert obs[0].returncode != 0;
    var r := Step(s, obs[0]);
    if !r.stop {
      assert r.next.previous == Some(obs[0].failed);
      var rest := obs[1..];
      if n == 1 {
        assert rest[0] == obs[1];
        assert Step(r.next, rest[0]).stop;
      } else {
        forall k | 0 <= k <= n - 1
          ensures rest[k].returncode != 0
        {
          assert rest[k] == obs[k + 1];
        }
        assert rest[n - 1] == obs[n] && rest[n - 2] == obs[n - 1];
        StagnatesOnRepeat(r.next, rest, left - 1, n - 1);
      }
    }
  }

  lemma EnvAsdf1Run(functionToTest: string, obs: seq<Observation>)
    ensures var t := Run(Init(functionToTest), obs, Iterations, PrintTextIntended, PytestIntended);
      && |t.events| <= 3
      && t.outcome != Raised
      && (t.outcome == Stagnated <==> !t.final.testsChanged)
      && (t.outcome == Stagnated ==>
            var n := |t.events| - 1;
            n > 0 && obs[n].returncode != 0 && obs[n].failed == obs[n - 1].failed)
      && (forall n ::
            (&& 0 < n < |obs| && n < Iterations
             && (forall k :: 0 <= k <= n ==> obs[k].returncode != 0)
             && obs[n].failed == obs[n - 1].failed)
            ==> t.outcome == Stagnated)
  {
    RunIntended(Init(functionToTest), obs, Iterations);
    StagnationCause(Init(functionToTest), obs, Iterations);
    forall n | 0 < n < |obs| && n < Iterations
        && (forall k :: 0 <= k <= n ==> obs[k].returncode != 0)
        && obs[n].failed == obs[n - 1].failed
      ensures Run(Init(functionToTest), obs, Iterations, PrintTextIntended, PytestIntended).outcome == Stagnated
    {
      StagnatesOnRepeat(Init(functionToTest), obs, Iterations, n);
    }
  }
}

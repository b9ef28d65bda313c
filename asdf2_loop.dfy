/**
  The loop fragment of `src/asdf2.py`: run the tests, stop when they pass, count
  unchanged failed cases, reset the counter once it reaches `max_attempts`, and
  regenerate the tests from the original function on every failing run.

  The statements after the `continue` that ends the body are never reached, so
  `previous_failed_cases` keeps its initial None. The failed cases come from an
  extractor the fragment calls on `test_flow`; the model takes its result as a Python
  value that is either None or a list, so the counter moves only when the extractor
  yields None. The fragment's free names are inputs: the function that every
  regeneration starts from (`args.class_or_method`) and `failed_cases_changed_max`,
  which the temperature divides by.
*/
module Asdf2Loop {
  import opened Wrappers
  import opened Controller

  const MaxAttempts: int := 3

  /** One test run: pytest's return code and what the extractor returned (None or a
      list of failed cases). */
  datatype Report = Report(returncode: int, failed: Option<seq<string>>)

  /** The loop's variables: `failed_cases_changed` and `previous_failed_cases`. */
  datatype State = State(counter: int, previous: Option<seq<string>>)

  /** A passing run, or a new `UnitTestFlow` whose tests are regenerated from `source`
      at `temperature`, with the counter as it is after a possible reset. */
  datatype Event = Passed | Regenerated(counter: int, temperature: real, source: string)

  datatype StepResult = StepResult(next: State, event: Event, stop: bool)

  function Init(): State
  {
    State(0, None)
  }

  /** One pass through the body of `while failed_cases_changed < max_attempts`. */
  function Step(s: State, o: Report, source: string, changedMax: int): StepResult
    requires changedMax != 0
  {
    if o.returncode == 0 then StepResult(s, Passed, true)
    else
      var counted := if o.failed == s.previous then s.counter + 1 else s.counter;
      var counter := if counted >= MaxAttempts then 0 else counted;
      StepResult(s.(counter := counter), Regenerated(counter, RegenerationTemperature(counter, changedMax), source), false)
  }

  /** The loop from state `s` over the reports `obs`. */
  function Run(s: State, obs: seq<Report>, source: string, changedMax: int): Trace<Event, State>
    requires changedMax != 0
    decreases |obs|
  {
    if s.counter >= MaxAttempts then Trace([], s, LoopExited)
    else if obs == [] then Trace([], s, OutOfObservations)
    else
      var r := Step(s, obs[0], source, changedMax);
      if r.stop then Trace([r.event], r.next, AllPassed)
      else Prefixed([r.event], Run(r.next, obs[1..], source, changedMax))
  }

  /** The fragment as written, over the reports `obs`. */
  method RunAsdf2(classOrMethod: string, changedMax: int, obs: seq<Report>) returns (events: seq<Event>, outcome: Outcome)
    requires changedMax != 0
    ensures events == Run(Init(), obs, classOrMethod, changedMax).events
    ensures outcome == Run(Init(), obs, classOrMethod, changedMax).outcome
  {
    var previousFailedCases: Option<seq<string>> := None;
    var failedCasesChanged := 0;
    var i := 0;
    events := [];
    outcome := LoopExited;
    while failedCasesChanged < MaxAttempts
      invariant 0 <= i <= |obs|
      invariant outcome == LoopExited
      invariant Run(Init(), obs, classOrMethod, changedMax)
             == Prefixed(events, Run(State(failedCasesChanged, previousFailedCases), obs[i..], classOrMethod, changedMax))
      decreases |obs| - i
    {
      if i == |obs| {
        outcome := OutOfObservations;
        break;
      }
      var o := obs[i];
      ghost var s := State(failedCasesChanged, previousFailedCases);
      ghost var r := Step(s, o, classOrMethod, changedMax);
      assert obs[i..][0] == o && obs[i..][1..] == obs[i + 1..];
      i := i + 1;
      if o.returncode == 0 {
        events := events + [Passed];
        outcome := AllPassed;
        break;
      }
      var failedCases := o.failed;
      if failedCases == previousFailedCases {
        failedCasesChanged := failedCasesChanged + 1;
      }
      if failedCasesChanged >= MaxAttempts {
        failedCasesChanged := 0;
      }
      var temperature := RegenerationTemperature(failedCasesChanged, changedMax);
      events := events + [Regenerated(failedCasesChanged, temperature, classOrMethod)];
      PrefixedTwice(events[..|events| - 1], r.event, Run(r.next, obs[i..], classOrMethod, changedMax));
      assert events[..|events| - 1] + [r.event] == events;
    }
  }

  /** One iteration keeps the counter below `max_attempts` (so the loop guard never
      fails), never changes `previous_failed_cases`, counts a run exactly when the
      extractor's result equals the previous failed cases, and regenerates from the
      original function on every failing run. */
  lemma StepBounds(s: State, o: Report, source: string, changedMax: int)
    requires changedMax != 0 && 0 <= s.counter < MaxAttempts
    ensures var r := Step(s, o, source, changedMax);
      && 0 <= r.next.counter < MaxAttempts
      && r.next.previous == s.previous
      && (r.stop <==> o.returncode == 0)
      && (!r.stop ==> r.event.Regenerated? && r.event.source == source)
      && (!r.stop && o.failed != s.previous ==> r.next.counter == s.counter)
      && (!r.stop && o.failed == s.previous ==>
            r.next.counter == if s.counter + 1 == MaxAttempts then 0 else s.counter + 1)
  {
  }

  /** From a state whose counter is below `max_attempts`, the loop never exits through
      its guard: it ends on the first passing run and otherwise uses every report; the
      previous failed cases are never updated, and every failing run regenerates. */
  lemma {:induction false} RunBounds(s: State, obs: seq<Report>, source: string, changedMax: int)
    requires changedMax != 0 && 0 <= s.counter < MaxAttempts
    ensures var t := Run(s, obs, source, changedMax);
      && t.outcome != LoopExited
      && (t.outcome == AllPassed <==> exists k :: 0 <= k < |obs| && obs[k].returncode == 0)
      && (t.outcome == OutOfObservations ==> |t.events| == |obs|)
      && t.final.previous == s.previous
      && 0 <= t.final.counter < MaxAttempts
      && (forall k :: 0 <= k < |t.events| && k < |obs| && obs[k].returncode != 0 ==>
            t.events[k].Regenerated? && t.events[k].source == source)
    decreases |obs|
  {
    if obs != [] {
      var r := Step(s, obs[0], source, changedMax);
      StepBounds(s, obs[0], source, changedMax);
      if !r.stop {
        RunBounds(r.next, obs[1..], source, changedMax);
        var rest := Run(r.next, obs[1..], source, changedMax);
        var t := Run(s, obs, source, changedMax);
        assert t.events == [r.event] + rest.events;
        forall k | 0 < k < |t.events| ensures t.events[k] == rest.events[k - 1] {}
        if exists k :: 0 <= k < |obs[1..]| && obs[1..][k].returncode == 0 {
          var k :| 0 <= k < |obs[1..]| && obs[1..][k].returncode == 0;
          assert obs[k + 1].returncode == 0;
        }
        if exists k :: 0 <= k < |obs| && obs[k].returncode == 0 {
          var k :| 0 <= k < |obs| && obs[k].returncode == 0;
          assert k > 0 && obs[1..][k - 1].returncode == 0;
        }
      } else {
        assert obs[0].returncode == 0;
      }
    }
  }

  /** With an extractor that always returns a list, nothing equals the initial None:
      the counter stays 0 and every regeneration runs at temperature 0.4. */
  lemma {:induction false} ListsNeverCount(s: State, obs: seq<Report>, source: string, changedMax: int)
    requires changedMax != 0 && s == Init()
    requires forall k :: 0 <= k < |obs| ==> obs[k].failed.Some?
    ensures var t := Run(s, obs, source, changedMax);
      && t.final == Init()
      && forall k :: 0 <= k < |t.events| && t.events[k].Regenerated? ==>
           t.events[k].counter == 0 && t.events[k].temperature == 0.4
    decreases |obs|
  {
    if obs != [] {
      var r := Step(s, obs[0], source, changedMax);
      if !r.stop {
        assert r.next == Init();
        ListsNeverCount(r.next, obs[1..], source, changedMax);
        var rest := Run(r.next, obs[1..], source, changedMax);
        var t := Run(s, obs, source, changedMax);
        assert t.events == [r.event] + rest.events;
        forall k | 0 < k < |t.events| ensures t.events[k] == rest.events[k - 1] {}
      }
    }
  }
}

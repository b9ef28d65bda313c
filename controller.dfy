/**
  What the test-and-repair loops observe and decide, shared by every draft of the loop.

  Each iteration runs the generated tests once; the test run and the extraction of the
  failed cases are one observation. The correction the language-model service returns
  for that iteration is part of the observation too, so that a loop over a finite list of
  observations is a function of its inputs. Temperatures are exact rationals.
*/
module Controller {
  import opened Wrappers

  /** One iteration's inputs: pytest's return code, the extracted failed cases, and the
      reply the service gives when asked for a correction. */
  datatype Observation = Observation(returncode: int, failed: seq<string>, correctionReply: string)

  /** How a loop ends: the success `break`, its guard or iteration bound running out,
      the `break` on unchanged failed cases, an exception, or (in the model only) no
      further observation. */
  datatype Outcome = AllPassed | LoopExited | Stagnated | Raised | OutOfObservations

  /** What the loops receive from `run_pytest`. The repository's own `run_pytest` returns
      a dict with the keys "returncode", "stdout" and "stderr"; the statement
      `test_result, test_output = run_pytest(test_file)` expects the pair of pytest's
      return code and output. */
  datatype PytestResult = ReportDict | CodeAndOutput

  /** What the repository's `run_pytest` returns. */
  const RepositoryRunPytest: PytestResult := ReportDict

  /** How many values unpacking the result yields: iterating a dict yields its keys. */
  function UnpackedValues(r: PytestResult): nat
  {
    match r
    case ReportDict => 3
    case CodeAndOutput => 2
  }

  /** `a, b = value` binds both names only when `value` yields exactly two items, and
      raises ValueError otherwise. */
  predicate UnpacksIntoTwo(r: PytestResult)
  {
    UnpackedValues(r) == 2
  }

  /** What a loop does over its observations: the events of its iterations in order,
      its variables when it ends, and how it ends. */
  datatype Trace<Event, State> = Trace(events: seq<Event>, final: State, outcome: Outcome)

  /** The trace `t` after the earlier events `events`. */
  function Prefixed<Event, State>(events: seq<Event>, t: Trace<Event, State>): Trace<Event, State>
  {
    Trace(events + t.events, t.final, t.outcome)
  }

  lemma PrefixedTwice<Event, State>(a: seq<Event>, e: Event, t: Trace<Event, State>)
    ensures Prefixed(a, Prefixed([e], t)) == Prefixed(a + [e], t)
  {
    assert a + ([e] + t.events) == (a + [e]) + t.events;
  }

  /** Index of the first passing observation, if any. */
  function FirstPass(obs: seq<Observation>): (k: Option<nat>)
    ensures k.Some? ==> k.value < |obs| && obs[k.value].returncode == 0
    ensures k.Some? ==> forall j :: 0 <= j < k.value ==> obs[j].returncode != 0
    ensures k.None? ==> forall j :: 0 <= j < |obs| ==> obs[j].returncode != 0
  {
    if obs == [] then None
    else if obs[0].returncode == 0 then Some(0)
    else match FirstPass(obs[1..]) case Some(k) => Some(k + 1) case None => None
  }

  /** `0.4 + 0.1 * failed_cases_changed`, the temperature of a correction. */
  function CorrectionTemperature(counter: int): real
  {
    0.4 + 0.1 * counter as real
  }

  /** `0.4 + 0.6 * failed_cases_changed / failed_cases_changed_max`, the temperature of a
      regeneration. */
  function RegenerationTemperature(counter: int, max: int): real
    requires max != 0
  {
    0.4 + 0.6 * counter as real / max as real
  }

  /** The correction temperature grows with the counter and stays at or below 0.6 while
      the counter is at most 2. */
  lemma CorrectionTemperatureBounds(counter: int)
    requires 0 <= counter <= 2
    ensures 0.4 <= CorrectionTemperature(counter) <= 0.6
  {
  }

  /** A regeneration at the maximum count runs at temperature 1.0. */
  lemma RegenerationAtMaximum(max: int)
    requires max != 0
    ensures RegenerationTemperature(max, max) == 1.0
  {
    assert 0.6 * max as real / max as real == 0.6;
  }
}

/**
  Running every example of a version: one at a time in fixture order,
  stopping at the first failure, or all at once, reporting some failure.
*/
module Scheduler {
  import opened Wrappers
  import opened Fixtures
  import opened Runner

  predicate Passes(tc: TestCase, f: Converter) {
    RunSingleTest(tc, f).Pass?
  }

  predicate AllPass(cases: seq<TestCase>, f: Converter) {
    forall i :: 0 <= i < |cases| ==> Passes(cases[i], f)
  }

  /** The Markdown inputs of the examples, in fixture order. */
  function Inputs(cases: seq<TestCase>): seq<string> {
    seq(|cases|, i requires 0 <= i < |cases| => cases[i].markdown)
  }

  /** Index of the lowest failing example, or `|cases|` when every example passes. */
  function FirstFailure(cases: seq<TestCase>, f: Converter): (k: nat)
    ensures k <= |cases|
    ensures forall i :: 0 <= i < k ==> Passes(cases[i], f)
    ensures k < |cases| ==> !Passes(cases[k], f)
  {
    if |cases| == 0 then 0
    else if !Passes(cases[0], f) then 0
    else 1 + FirstFailure(cases[1..], f)
  }

  /** A run's outcome and the inputs handed to the caller's function, in call order. */
  datatype Run = Run(outcome: Verdict, inputs: seq<string>)

  /** How many calls a sequential run makes: up to and including the first failure. */
  function SequentialCalls(cases: seq<TestCase>, f: Converter): nat {
    var k := FirstFailure(cases, f);
    if k < |cases| then k + 1 else k
  }

  /** `inputs` are the Markdown inputs of the first `|inputs|` examples, in fixture order. */
  predicate InFixtureOrder(inputs: seq<string>, cases: seq<TestCase>) {
    |inputs| <= |cases| && forall i :: 0 <= i < |inputs| ==> inputs[i] == cases[i].markdown
  }

  /**
    Sequential mode: examples are run in fixture order until one fails. The
    outcome is that example's failure, and the function was called on every
    example up to and including it; with no failure, it was called on all.
  */
  function RunSequential(cases: seq<TestCase>, f: Converter): (r: Run)
    ensures r.outcome.Pass? <==> AllPass(cases, f)
    ensures FirstFailure(cases, f) < |cases| ==> r.outcome == RunSingleTest(cases[FirstFailure(cases, f)], f)
    ensures |r.inputs| == SequentialCalls(cases, f)
    ensures InFixtureOrder(r.inputs, cases)
  {
    if |cases| == 0 then Run(Pass, [])
    else
      var first := RunSingleTest(cases[0], f);
      if first.Fail? then
        Run(first, [cases[0].markdown])
      else
        var rest := RunSequential(cases[1..], f);
        assert AllPass(cases[1..], f) ==> AllPass(cases, f);
        Run(rest.outcome, [cases[0].markdown] + rest.inputs)
  }

  /**
    Concurrent mode, outcome only: every example is run, in an order left
    open, and the result is `Pass` exactly when all pass; otherwise it is the
    failure of some failing example, whichever the scheduler saw first.
  */
  method RunConcurrently(cases: seq<TestCase>, f: Converter) returns (r: Verdict, inputs: seq<string>)
    ensures multiset(inputs) == multiset(Inputs(cases))
    ensures r.Pass? <==> AllPass(cases, f)
    ensures r.Fail? ==>
      exists k :: 0 <= k < |cases| && !Passes(cases[k], f) && r == RunSingleTest(cases[k], f)
  {
    var failures: map<nat, Failure> := map[];
    inputs := [];
    var i := 0;
    while i < |cases|
      invariant 0 <= i <= |cases|
      invariant inputs == Inputs(cases)[..i]
      invariant forall k :: k in failures <==> 0 <= k < i && !Passes(cases[k], f)
      invariant forall k :: k in failures ==> Fail(failures[k]) == RunSingleTest(cases[k], f)
    {
      var v := RunSingleTest(cases[i], f);
      inputs := inputs + [cases[i].markdown];
      if v.Fail? {
        failures := failures[i := v.error];
      }
      i := i + 1;
    }
    assert inputs == Inputs(cases);
    if failures == map[] {
      r := Pass;
    } else {
      var k :| k in failures;
      r := Fail(failures[k]);
    }
  }

  // ------------------------------------------------------------------
  //  Conversion functions the harness is exercised with
  // ------------------------------------------------------------------

  /** No two examples give the same input different expected outputs. */
  predicate Consistent(cases: seq<TestCase>) {
    forall i, j :: 0 <= i < |cases| && 0 <= j < |cases| && cases[i].markdown == cases[j].markdown ==>
      cases[i].html == cases[j].html
  }

  /** A table lookup answering each recorded input with its recorded output. */
  function Lookup(cases: seq<TestCase>, md: string): Output {
    if |cases| == 0 then Output("", Some("not found"))
    else if cases[0].markdown == md then Output(cases[0].html, None)
    else Lookup(cases[1..], md)
  }

  lemma {:induction false} LookupFindsRecorded(cases: seq<TestCase>, i: nat)
    requires Consistent(cases)
    requires i < |cases|
    ensures Lookup(cases, cases[i].markdown) == Output(cases[i].html, None)
  {
    if cases[0].markdown != cases[i].markdown {
      assert Consistent(cases[1..]) by {
        forall a, b | 0 <= a < |cases| - 1 && 0 <= b < |cases| - 1 && cases[1..][a].markdown == cases[1..][b].markdown
          ensures cases[1..][a].html == cases[1..][b].html
        {
          assert cases[a + 1].markdown == cases[b + 1].markdown;
        }
      }
      LookupFindsRecorded(cases[1..], i - 1);
    }
  }

  /** A function that answers every recorded input with its recorded output passes every example. */
  lemma GoldenFunctionPasses(cases: seq<TestCase>)
    requires Consistent(cases)
    ensures AllPass(cases, md => Lookup(cases, md))
  {
    forall i | 0 <= i < |cases|
      ensures Passes(cases[i], md => Lookup(cases, md))
    {
      LookupFindsRecorded(cases, i);
    }
  }

  /** A function that always fails stops a sequential run after its first call. */
  lemma AlwaysFailingStopsAtFirst(cases: seq<TestCase>, f: Converter)
    requires |cases| > 0
    requires forall md :: f(md).err.Some?
    ensures RunSequential(cases, f) == Run(RunSingleTest(cases[0], f), [cases[0].markdown])
    ensures RunSingleTest(cases[0], f).Fail? && RunSingleTest(cases[0], f).error.FunctionError?
  {
  }

  /** A function that always returns the same text fails with a mismatch unless every example expects that text. */
  lemma ConstantOutputMismatch(cases: seq<TestCase>, html: string)
    requires exists i :: 0 <= i < |cases| && cases[i].html != html
    ensures !AllPass(cases, md => Output(html, None))
    ensures RunSequential(cases, md => Output(html, None)).outcome.Fail?
    ensures RunSequential(cases, md => Output(html, None)).outcome.error.Mismatch?
  {
  }
}

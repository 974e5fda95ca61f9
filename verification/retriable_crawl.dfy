/**
  RetriableCrawl: calls the wrapped crawl until one call ends normally,
  trying again after every RuntimeException while trials are left. The
  number of trials left is a field of the object, so trials used up by one
  `crawl()` are gone for the next one.
 */
module Retriable {

  import opened Outcomes
  import opened Scripts

  /** The decorator's state: the trials it has left (a Java int). */
  datatype RetriableCrawl = RetriableCrawl(retrials: int)

  /** RetriableCrawl(crawl): three trials. */
  function Default(): (c: RetriableCrawl)
    ensures c.retrials == 3
  {
    WithTrials(3)
  }

  /** RetriableCrawl(crawl, retrials): the trials as given, negative ones included. */
  function WithTrials(retrials: int): (c: RetriableCrawl)
    ensures c.retrials == retrials
  {
    RetriableCrawl(retrials)
  }

  /**
    What one `crawl()` of a decorator with `retrials` trials left does, when
    the wrapped crawl has already been called `made` times: it calls the
    wrapped crawl `invoked` times, ends as `run` and keeps `left` trials.
    With no trials it never calls and throws the null exception it holds.
    Otherwise every call but the last threw a RuntimeException, the last
    call's outcome is the decorator's, and the last call is the final trial
    whenever it threw a RuntimeException too.
   */
  predicate Settles(retrials: int, script: seq<Run>, made: nat, run: Run, left: int, invoked: nat) {
    if retrials <= 0 then
      invoked == 0 && run == Raised(NullPointer) && left == retrials
    else
      && 1 <= invoked <= retrials
      && (forall i :: made <= i < made + invoked - 1 ==> Nth(script, i).RaisedRuntime())
      && run == Nth(script, made + invoked - 1)
      && (if run.RaisedRuntime() then invoked == retrials && left == 0
          else left == retrials - (invoked - 1))
  }

  /** RetriableCrawl.crawl, one call of it. */
  method Crawl(c: RetriableCrawl, script: seq<Run>, made: nat)
    returns (run: Run, c': RetriableCrawl, invoked: nat)
    ensures Settles(c.retrials, script, made, run, c'.retrials, invoked)
  {
    var retrials := c.retrials;
    var success := false;
    var exception: Option<Fault> := None;
    invoked := 0;
    while retrials > 0 && !success
      invariant c.retrials <= 0 ==> invoked == 0 && retrials == c.retrials && !success
      invariant c.retrials > 0 ==> 0 <= retrials && invoked <= c.retrials
      invariant success ==> 1 <= invoked && Nth(script, made + invoked - 1) == Done
      invariant success ==> retrials == c.retrials - (invoked - 1)
      invariant !success ==> retrials == c.retrials - invoked
      invariant forall i :: made <= i < made + invoked - (if success then 1 else 0) ==> Nth(script, i).RaisedRuntime()
      invariant !success ==> (exception.None? <==> invoked == 0)
      invariant exception.Some? && !success ==> Raised(exception.value) == Nth(script, made + invoked - 1)
      decreases retrials, if success then 0 else 1
    {
      var outcome := Nth(script, made + invoked);
      invoked := invoked + 1;
      match outcome
      case Done =>
        success := true;
      case Raised(f) =>
        if !f.IsRuntime() {
          // a DataExportException is not caught: it leaves crawl() at once
          return outcome, RetriableCrawl(retrials), invoked;
        }
        retrials := retrials - 1;
        exception := Some(f);
    }
    c' := RetriableCrawl(retrials);
    if success {
      run := Done;
    } else if exception.None? {
      // `throw exception` with exception still null
      run := Raised(NullPointer);
    } else {
      run := Raised(exception.value);
    }
  }

  /** Settles pins down one outcome: the calls, the result and the trials left. */
  lemma SettlesIsUnique(retrials: int, script: seq<Run>, made: nat,
                        run1: Run, left1: int, invoked1: nat,
                        run2: Run, left2: int, invoked2: nat)
    requires Settles(retrials, script, made, run1, left1, invoked1)
    requires Settles(retrials, script, made, run2, left2, invoked2)
    ensures invoked1 == invoked2 && run1 == run2 && left1 == left2
  {
  }

  /** The wrapped crawl is called at most as often as there are trials, and
      after a normal end no further call is made. */
  lemma CallsBounded(retrials: int, script: seq<Run>, made: nat, run: Run, left: int, invoked: nat)
    requires Settles(retrials, script, made, run, left, invoked)
    ensures invoked <= if retrials > 0 then retrials else 0
    ensures run == Done ==> (Nth(script, made + invoked - 1) == Done &&
              forall i :: made <= i < made + invoked - 1 ==> Nth(script, i) != Done)
  {
  }

  /** Once a crawl has used up every trial, the next crawl() on the same
      decorator calls nothing and throws a NullPointerException. */
  lemma TrialsAreNotRestored(retrials: int, script: seq<Run>, made: nat, run: Run, left: int, invoked: nat,
                             run2: Run, left2: int, invoked2: nat)
    requires Settles(retrials, script, made, run, left, invoked)
    requires run.RaisedRuntime()
    requires Settles(left, script, made + invoked, run2, left2, invoked2)
    ensures invoked2 == 0 && run2 == Raised(NullPointer)
  {
  }

  // ---------------------------------------------------------------------------
  // RetriableCrawlTestCase

  /** crawlSuccessfulFromFirstTrial: one call with the default trials. */
  lemma SuccessfulFromFirstTrial(run: Run, left: int, invoked: nat)
    requires Settles(Default().retrials, [Done], 0, run, left, invoked)
    ensures invoked == 1 && run == Done
  {
    SettlesIsUnique(3, [Done], 0, run, left, invoked, Done, 3, 1);
  }

  /** crawlSuccessfulFromThirdTrial: two failures, then success, with five trials. */
  lemma SuccessfulFromThirdTrial(m1: string, m2: string, run: Run, left: int, invoked: nat)
    requires Settles(5, [Raised(Runtime(m1)), Raised(Runtime(m2)), Done], 0, run, left, invoked)
    ensures invoked == 3 && run == Done && left == 3
  {
    var script := [Raised(Runtime(m1)), Raised(Runtime(m2)), Done];
    assert Nth(script, 0).RaisedRuntime() && Nth(script, 1).RaisedRuntime();
    SettlesIsUnique(5, script, 0, run, left, invoked, Done, 3, 3);
  }

  /** crawlSuccessfulAtLastTrial: four failures, then success on the fifth and last trial. */
  lemma SuccessfulAtLastTrial(m: string, run: Run, left: int, invoked: nat)
    requires Settles(5, [Raised(Runtime(m)), Raised(Runtime(m)), Raised(Runtime(m)), Raised(Runtime(m)), Done], 0, run, left, invoked)
    ensures invoked == 5 && run == Done && left == 1
  {
    var script := [Raised(Runtime(m)), Raised(Runtime(m)), Raised(Runtime(m)), Raised(Runtime(m)), Done];
    forall i | 0 <= i < 4 ensures Nth(script, i).RaisedRuntime() {
    }
    SettlesIsUnique(5, script, 0, run, left, invoked, Done, 1, 5);
  }

  /** crawlThrowsDeeSecondTime: a DataExportException on the second call ends the crawl there. */
  lemma ThrowsDeeSecondTime(m1: string, m2: string, run: Run, left: int, invoked: nat)
    requires Settles(Default().retrials, [Raised(Runtime(m1)), Raised(Export(m2)), Done], 0, run, left, invoked)
    ensures invoked == 2 && run == Raised(Export(m2))
  {
    var script := [Raised(Runtime(m1)), Raised(Export(m2)), Done];
    assert Nth(script, 0).RaisedRuntime();
    SettlesIsUnique(3, script, 0, run, left, invoked, Raised(Export(m2)), 2, 2);
  }

  /** crawlFailsAfterAllRetrials: a crawl that always fails is called three times
      and its exception surfaces. */
  lemma FailsAfterAllRetrials(m: string, run: Run, left: int, invoked: nat)
    requires Settles(Default().retrials, [Raised(Runtime(m))], 0, run, left, invoked)
    ensures invoked == 3 && run == Raised(Runtime(m)) && left == 0
  {
    var script := [Raised(Runtime(m))];
    assert forall i: nat :: Nth(script, i) == Raised(Runtime(m));
    SettlesIsUnique(3, script, 0, run, left, invoked, Raised(Runtime(m)), 0, 3);
  }
}

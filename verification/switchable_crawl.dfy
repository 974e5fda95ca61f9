/**
  SwitchableCrawl: runs the initial crawl and, only if that throws a
  RuntimeException, the failsafe crawl once. A DataExportException of the
  initial crawl is not caught.
 */
module Switchable {

  import opened Outcomes
  import opened Scripts

  /** SwitchableCrawl.crawl, one call of it: the initial crawl has been called
      `initialMade` times before and the failsafe `failsafeMade` times. */
  method Crawl(initial: seq<Run>, initialMade: nat, failsafe: seq<Run>, failsafeMade: nat)
    returns (run: Run, initialCalls: nat, failsafeCalls: nat)
    ensures initialCalls == 1
    ensures failsafeCalls == (if Nth(initial, initialMade).RaisedRuntime() then 1 else 0)
    ensures failsafeCalls == 0 ==> run == Nth(initial, initialMade)
    ensures failsafeCalls == 1 ==> run == Nth(failsafe, failsafeMade)
  {
    initialCalls, failsafeCalls := 1, 0;
    run := Nth(initial, initialMade);
    if run.RaisedRuntime() {
      failsafeCalls := 1;
      run := Nth(failsafe, failsafeMade);
    }
  }

  /**
    Between them the two crawls run to a normal end at most once per call:
    the failsafe only runs after the initial crawl threw, so pages are never
    exported by both; and whatever surfaces is the outcome of the crawl that
    ran last.
   */
  lemma AtMostOneCompletes(initial: seq<Run>, initialMade: nat, failsafe: seq<Run>, failsafeMade: nat,
                           run: Run, initialCalls: nat, failsafeCalls: nat)
    requires initialCalls == 1
    requires failsafeCalls == (if Nth(initial, initialMade).RaisedRuntime() then 1 else 0)
    requires failsafeCalls == 0 ==> run == Nth(initial, initialMade)
    requires failsafeCalls == 1 ==> run == Nth(failsafe, failsafeMade)
    ensures !(Nth(initial, initialMade) == Done && failsafeCalls == 1)
    ensures run == Done <==> (Nth(initial, initialMade) == Done ||
                              (Nth(initial, initialMade).RaisedRuntime() && Nth(failsafe, failsafeMade) == Done))
    ensures run.Raised? && Nth(initial, initialMade).Raised? && Nth(initial, initialMade).fault.Export? ==>
              run == Nth(initial, initialMade) && failsafeCalls == 0
  {
  }

  // ---------------------------------------------------------------------------
  // SwitchableCrawlTestCase

  /** initialCrawlWorksFine: the initial crawl ends normally; the failsafe is never called. */
  method InitialCrawlWorksFine() returns (run: Run, initialCalls: nat, failsafeCalls: nat)
    ensures run == Done && initialCalls == 1 && failsafeCalls == 0
  {
    run, initialCalls, failsafeCalls := Crawl([Done], 0, [], 0);
  }

  /** initialCrawlThrowsDee: the DataExportException surfaces; the failsafe is never called. */
  method InitialCrawlThrowsDee(m: string) returns (run: Run, initialCalls: nat, failsafeCalls: nat)
    ensures run == Raised(Export(m)) && initialCalls == 1 && failsafeCalls == 0
  {
    run, initialCalls, failsafeCalls := Crawl([Raised(Export(m))], 0, [], 0);
  }

  /** failsafeWorksFine: the initial crawl throws, the failsafe ends normally. */
  method FailsafeWorksFine(m: string) returns (run: Run, initialCalls: nat, failsafeCalls: nat)
    ensures run == Done && initialCalls == 1 && failsafeCalls == 1
  {
    run, initialCalls, failsafeCalls := Crawl([Raised(Runtime(m))], 0, [Done], 0);
  }

  /** bothCrawlsFail: the failsafe's exception surfaces, not the initial one's. */
  method BothCrawlsFail(m1: string, m2: string) returns (run: Run, initialCalls: nat, failsafeCalls: nat)
    ensures run == Raised(Runtime(m2)) && initialCalls == 1 && failsafeCalls == 1
  {
    run, initialCalls, failsafeCalls := Crawl([Raised(Runtime(m1))], 0, [Raised(Runtime(m2))], 0);
  }
}

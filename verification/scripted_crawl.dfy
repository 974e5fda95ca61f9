/**
  A wrapped WebCrawl seen only through what its `crawl()` calls do, as a
  Mockito stub scripts them: the i-th call (counting from 0) ends as the i-th
  entry of the script, the last entry repeats once the script runs out, and
  an empty script stands for `doNothing()`.
 */
module Scripts {

  import opened Outcomes

  /** How the call numbered `i` of a scripted crawl ends. */
  function Nth(script: seq<Run>, i: nat): (r: Run)
    ensures script == [] ==> r == Done
    ensures i < |script| ==> r == script[i]
    ensures script != [] && i >= |script| ==> r == script[|script| - 1]
  {
    if script == [] then Done
    else if i < |script| then script[i]
    else script[|script| - 1]
  }
}

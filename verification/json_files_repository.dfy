/**
  JsonFilesRepository: writes each exported page to its own JSON file in a
  directory, and stops at the first page it cannot write. Whether a write
  succeeds is left abstract: `writes(path, page)` tells.
 */
module JsonFiles {

  import opened Outcomes
  import opened Snapshots
  import opened JavaStrings

  /** The directory, always ending with "/". */
  datatype JsonFilesRepository = JsonFilesRepository(dir: string)

  /** JsonFilesRepository(dir): a "/" is added unless `dir` ends with one. */
  function New(dir: string): (repo: JsonFilesRepository)
    ensures EndsWith(repo.dir, "/")
    ensures EndsWith(dir, "/") ==> repo.dir == dir
    ensures !EndsWith(dir, "/") ==> repo.dir == dir + "/"
  {
    if EndsWith(dir, "/") then JsonFilesRepository(dir)
    else
      assert (dir + "/")[|dir + "/"| - 1..] == "/";
      JsonFilesRepository(dir + "/")
  }

  /** Normalising a normalised directory changes nothing. */
  lemma NewIsIdempotent(dir: string)
    ensures New(New(dir).dir) == New(dir)
  {
  }

  /** The file a page goes to: the directory, the page name ("null" when the
      page has none) and ".json". */
  function PathOf(repo: JsonFilesRepository, page: Snapshot): (path: string)
    ensures StartsWith(path, repo.dir) && EndsWith(path, ".json")
    ensures page.name.Some? ==> path == repo.dir + page.name.value + ".json"
    ensures page.name.None? ==> path == repo.dir + "null.json"
  {
    repo.dir + (if page.name.Some? then page.name.value else "null") + ".json"
  }

  /** The DataExportException for a page that could not be written. */
  function ExportFailure(page: Snapshot): Fault {
    Fault.Export("Page with url " + page.url + " could not be exported! Check the logs for errors.")
  }

  /**
    JsonFilesRepository.export: writes the pages in list order and reports
    the paths it tried. The first write that fails ends the export with a
    DataExportException naming that page's url; later pages are not tried.
   */
  method Export(repo: JsonFilesRepository, pages: seq<Snapshot>, writes: (string, Snapshot) -> bool)
    returns (run: Run, tried: seq<string>)
    ensures |tried| <= |pages|
    ensures forall i :: 0 <= i < |tried| ==> tried[i] == PathOf(repo, pages[i])
    ensures forall i :: 0 <= i < |tried| - 1 ==> writes(tried[i], pages[i])
    ensures run == Done <==> |tried| == |pages| && forall i :: 0 <= i < |pages| ==> writes(tried[i], pages[i])
    ensures run != Done ==> |tried| >= 1 && !writes(tried[|tried| - 1], pages[|tried| - 1])
    ensures run != Done ==> run == Raised(ExportFailure(pages[|tried| - 1]))
  {
    tried := [];
    var k := 0;
    while k < |pages|
      invariant 0 <= k <= |pages| && |tried| == k
      invariant forall i :: 0 <= i < k ==> tried[i] == PathOf(repo, pages[i]) && writes(tried[i], pages[i])
    {
      var path := PathOf(repo, pages[k]);
      tried := tried + [path];
      if !writes(path, pages[k]) {
        return Raised(ExportFailure(pages[k])), tried;
      }
      k := k + 1;
    }
    return Done, tried;
  }
}

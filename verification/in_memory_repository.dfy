/**
  InMemoryRepository: keeps every exported page in a list, in the order
  exported.
 */
module InMemory {

  import opened Outcomes
  import opened Snapshots

  /** The stored list (getCrawledPages). */
  datatype InMemoryRepository = InMemoryRepository(pgs: seq<Snapshot>)

  /** A new repository holds no pages. */
  function New(): (repo: InMemoryRepository)
    ensures repo.pgs == []
  {
    InMemoryRepository([])
  }

  /** InMemoryRepository.export with a list other than the store itself:
      adds the pages one by one at the end of the list, and does not throw. */
  method Export(repo: InMemoryRepository, pages: seq<Snapshot>) returns (run: Run, repo': InMemoryRepository)
    ensures run == Done
    ensures |repo'.pgs| == |repo.pgs| + |pages|
    ensures repo'.pgs[..|repo.pgs|] == repo.pgs
    ensures forall i :: 0 <= i < |pages| ==> repo'.pgs[|repo.pgs| + i] == pages[i]
  {
    var pgs := repo.pgs;
    var k := 0;
    while k < |pages|
      invariant 0 <= k <= |pages|
      invariant pgs == repo.pgs + pages[..k]
    {
      pgs := pgs + [pages[k]];
      k := k + 1;
      assert pages[..k] == pages[..k - 1] + [pages[k - 1]];
    }
    assert pages[..k] == pages;
    return Done, InMemoryRepository(pgs);
  }

  /** Stands for the ConcurrentModificationException an ArrayList iterator
      throws once the list has grown under it. */
  const ConcurrentModification: string := "java.util.ConcurrentModificationException"

  /**
    repo.export(repo.getCrawledPages()): the loop iterates over the very list
    it adds to. An empty store ends at once; otherwise the first page is
    appended, and the iterator's next step finds the list modified and throws.
   */
  method ExportOwn(repo: InMemoryRepository) returns (run: Run, repo': InMemoryRepository)
    ensures repo.pgs == [] <==> run == Done
    ensures repo.pgs == [] ==> repo' == repo
    ensures repo.pgs != [] ==> run == Raised(Runtime(ConcurrentModification)) && run.RaisedRuntime()
    ensures repo.pgs != [] ==> repo'.pgs == repo.pgs + [repo.pgs[0]]
  {
    if |repo.pgs| == 0 {
      return Done, repo;
    }
    var pgs := repo.pgs;
    var cursor := 0;
    // the first page: hasNext() holds, next() finds the list untouched
    pgs := pgs + [pgs[cursor]];
    cursor := cursor + 1;
    // hasNext() compares the cursor with the grown size, and next() finds the list modified
    assert cursor != |pgs|;
    return Raised(Runtime(ConcurrentModification)), InMemoryRepository(pgs);
  }

  /** The list after exporting each batch in turn to `repo`. */
  function ExportAll(repo: InMemoryRepository, batches: seq<seq<Snapshot>>): InMemoryRepository
    decreases |batches|
  {
    if batches == [] then repo
    else ExportAll(InMemoryRepository(repo.pgs + batches[0]), batches[1..])
  }

  /** The pages of a sequence of batches, batch after batch. */
  function Concat(batches: seq<seq<Snapshot>>): seq<Snapshot>
    decreases |batches|
  {
    if batches == [] then [] else batches[0] + Concat(batches[1..])
  }

  /** One export call does what ExportAll does for one batch. */
  lemma ExportIsOneBatch(repo: InMemoryRepository, pages: seq<Snapshot>, repo': InMemoryRepository)
    requires |repo'.pgs| == |repo.pgs| + |pages|
    requires repo'.pgs[..|repo.pgs|] == repo.pgs
    requires forall i :: 0 <= i < |pages| ==> repo'.pgs[|repo.pgs| + i] == pages[i]
    ensures repo' == ExportAll(repo, [pages])
  {
    assert [pages][1..] == [];
    assert repo'.pgs == repo.pgs + pages;
  }

  /** Exports never drop or reorder what is stored: after any batches the
      store is the old pages followed by every batch in order. */
  lemma {:induction false} ExportAllAppends(repo: InMemoryRepository, batches: seq<seq<Snapshot>>)
    ensures ExportAll(repo, batches).pgs == repo.pgs + Concat(batches)
    decreases |batches|
  {
    if batches != [] {
      ExportAllAppends(InMemoryRepository(repo.pgs + batches[0]), batches[1..]);
      assert repo.pgs + batches[0] + Concat(batches[1..]) == repo.pgs + (batches[0] + Concat(batches[1..]));
    }
  }

  /** Starting from a new repository, the store is exactly the batches in order. */
  lemma FreshStoreIsConcat(batches: seq<seq<Snapshot>>)
    ensures ExportAll(New(), batches).pgs == Concat(batches)
  {
    ExportAllAppends(New(), batches);
  }
}

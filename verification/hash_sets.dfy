/**
  A java.util.HashSet whose element equality is decided by one string key
  (Link by href, Url by loc). The set is held as a sequence in iteration
  order; Java leaves that order unspecified, so any order a caller supplies
  stands for one the real set could produce.
 */
module HashSets {

  /** No two elements share a key: what a Java Set of such objects guarantees. */
  predicate UniqueKeys<T>(s: seq<T>, key: T -> string) {
    forall i, j :: 0 <= i < j < |s| ==> key(s[i]) != key(s[j])
  }

  /** The keys present in `s`. */
  function KeySet<T>(s: seq<T>, key: T -> string): set<string> {
    set i | 0 <= i < |s| :: key(s[i])
  }

  /** Set.add: an element whose key is already present leaves the set unchanged. */
  function Add<T>(s: seq<T>, x: T, key: T -> string): (r: seq<T>)
    requires UniqueKeys(s, key)
    ensures UniqueKeys(r, key)
    ensures KeySet(r, key) == KeySet(s, key) + {key(x)}
    ensures key(x) in KeySet(s, key) ==> r == s
    ensures key(x) !in KeySet(s, key) ==> r == s + [x]
  {
    if exists i :: 0 <= i < |s| && key(s[i]) == key(x) then s
    else
      var r := s + [x];
      assert forall i :: 0 <= i < |s| ==> r[i] == s[i];
      assert KeySet(r, key) == KeySet(s, key) + {key(x)} by {
        forall k | k in KeySet(r, key) ensures k in KeySet(s, key) + {key(x)} {
          var i :| 0 <= i < |r| && key(r[i]) == k;
          if i < |s| {
            assert key(s[i]) == k;
          }
        }
        assert key(r[|s|]) == key(x);
        forall k | k in KeySet(s, key) ensures k in KeySet(r, key) {
          var i :| 0 <= i < |s| && key(s[i]) == k;
          assert key(r[i]) == k;
        }
      }
      r
  }

  /** A fresh set filled by adding every element of `xs` in order (the
      HashSet copy loops of SnapshotWebPage and the XML unmarshaller). */
  function FromSeq<T>(xs: seq<T>, key: T -> string): (r: seq<T>)
    ensures UniqueKeys(r, key)
    ensures KeySet(r, key) == KeySet(xs, key)
    ensures forall y :: y in r ==> y in xs
    ensures |r| <= |xs|
    decreases |xs|
  {
    if |xs| == 0 then []
    else
      var init := xs[..|xs| - 1];
      var prev := FromSeq(init, key);
      assert KeySet(xs, key) == KeySet(init, key) + {key(xs[|xs| - 1])} by {
        forall k | k in KeySet(xs, key) ensures k in KeySet(init, key) + {key(xs[|xs| - 1])} {
          var i :| 0 <= i < |xs| && key(xs[i]) == k;
          if i < |xs| - 1 {
            assert key(init[i]) == k;
          }
        }
      }
      Add(prev, xs[|xs| - 1], key)
  }

  /** Each element kept by FromSeq is the first one in `xs` carrying its key. */
  lemma {:induction false} FromSeqKeepsFirst<T>(xs: seq<T>, key: T -> string, y: T)
    requires y in FromSeq(xs, key)
    ensures exists i :: 0 <= i < |xs| && xs[i] == y &&
              forall j :: 0 <= j < i ==> key(xs[j]) != key(y)
    decreases |xs|
  {
    var init := xs[..|xs| - 1];
    var prev := FromSeq(init, key);
    var last := xs[|xs| - 1];
    if y in prev {
      FromSeqKeepsFirst(init, key, y);
      var i :| 0 <= i < |init| && init[i] == y && forall j :: 0 <= j < i ==> key(init[j]) != key(y);
      assert xs[i] == y;
    } else {
      assert y == last && key(last) !in KeySet(prev, key);
      forall j | 0 <= j < |xs| - 1 ensures key(xs[j]) != key(y) {
        assert key(init[j]) in KeySet(init, key);
      }
    }
  }

  /** Filling a set from a sequence whose keys are already unique keeps the sequence. */
  lemma {:induction false} FromSeqOfUnique<T>(xs: seq<T>, key: T -> string)
    requires UniqueKeys(xs, key)
    ensures FromSeq(xs, key) == xs
    decreases |xs|
  {
    if |xs| > 0 {
      var init := xs[..|xs| - 1];
      FromSeqOfUnique(init, key);
      var last := xs[|xs| - 1];
      assert init + [last] == xs;
    }
  }
}

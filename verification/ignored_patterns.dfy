/**
  IgnoredPatterns: the URLs a crawl must skip. A URL is ignored when some
  pattern matches it by one of three rules, tried in order: equal ignoring
  case, a "*" glob, or a whole-string regular expression.
 */
module Ignored {

  import opened JavaStrings

  /**
    java.util.regex, left uninterpreted: which patterns compile, and whether
    a compiled pattern matches a whole string (Matcher.matches).
   */
  datatype RegexEngine = RegexEngine(compiles: string -> bool, matchesWhole: (string, string) -> bool)

  /** The patterns, in the order given. */
  datatype IgnoredPatterns = IgnoredPatterns(patterns: seq<string>)

  /** IgnoredPatterns(): no patterns. */
  function NoPatterns(): (ip: IgnoredPatterns)
    ensures ip.patterns == []
  {
    IgnoredPatterns([])
  }

  /** IgnoredPatterns(list): keeps its own copy of the list's elements, in
      order; as a value it cannot observe later changes to the argument. */
  function Of(patterns: seq<string>): (ip: IgnoredPatterns)
    ensures |ip.patterns| == |patterns|
    ensures forall i :: 0 <= i < |patterns| ==> ip.patterns[i] == patterns[i]
  {
    IgnoredPatterns(patterns)
  }

  // ---------------------------------------------------------------------------
  // The "*" glob rule

  /** The inner loop of matchesAsteriskPattern: some index already recorded
      lies beyond `ix`. */
  function AnyAbove(seen: seq<int>, ix: int): (r: bool)
    ensures r <==> exists j :: 0 <= j < |seen| && seen[j] > ix
  {
    if |seen| == 0 then false
    else seen[0] > ix || AnyAbove(seen[1..], ix)
  }

  /** The outer loop of matchesAsteriskPattern over the remaining parts,
      with `seen` the first-occurrence indices of the parts already checked. */
  function CheckParts(parts: seq<string>, url: string, seen: seq<int>): (ok: bool)
    ensures ok ==> forall i :: 0 <= i < |parts| ==> Contains(url, parts[i])
    decreases |parts|
  {
    if |parts| == 0 then true
    else if !Contains(url, parts[0]) then false
    else
      var ix := IndexOf(url, parts[0]);
      if AnyAbove(seen, ix) then false
      else CheckParts(parts[1..], url, seen + [ix])
  }

  /** matchesAsteriskPattern(p, url), as written. */
  function MatchesAsterisk(p: string, url: string): (r: bool)
    ensures r ==> '*' in p
  {
    ContainsOneChar(p, '*');
    if Contains(p, "*") then CheckParts(Split(p, '*'), url, []) else false
  }

  /** The glob rule stated directly: the pattern has a "*", every part of its
      split occurs in the URL, and the parts' first occurrences never move
      left from one part to the next. */
  predicate GlobSpec(p: string, url: string) {
    '*' in p &&
    var parts := Split(p, '*');
    && (forall i :: 0 <= i < |parts| ==> Contains(url, parts[i]))
    && (forall i, j :: 0 <= i < j < |parts| ==> IndexOf(url, parts[i]) <= IndexOf(url, parts[j]))
  }

  lemma {:induction false} CheckPartsSpec(parts: seq<string>, url: string, seen: seq<int>)
    ensures CheckParts(parts, url, seen) <==>
              && (forall i :: 0 <= i < |parts| ==> Contains(url, parts[i]))
              && (forall j, i :: 0 <= j < |seen| && 0 <= i < |parts| ==> seen[j] <= IndexOf(url, parts[i]))
              && (forall i, k :: 0 <= i < k < |parts| ==> IndexOf(url, parts[i]) <= IndexOf(url, parts[k]))
    decreases |parts|
  {
    if |parts| > 0 && Contains(url, parts[0]) {
      var ix := IndexOf(url, parts[0]);
      var rest := parts[1..];
      CheckPartsSpec(rest, url, seen + [ix]);
      if !AnyAbove(seen, ix) {
        if CheckParts(parts, url, seen) {
          forall j, i | 0 <= j < |seen| && 0 <= i < |parts|
            ensures seen[j] <= IndexOf(url, parts[i])
          {
            if i > 0 {
              assert parts[i] == rest[i - 1];
              assert (seen + [ix])[j] == seen[j];
            }
          }
          forall i, k | 0 <= i < k < |parts|
            ensures IndexOf(url, parts[i]) <= IndexOf(url, parts[k])
          {
            assert parts[k] == rest[k - 1];
            if i > 0 {
              assert parts[i] == rest[i - 1];
            } else {
              assert (seen + [ix])[|seen|] == ix;
            }
          }
        }
      } else {
        var j :| 0 <= j < |seen| && seen[j] > ix;
        assert !(seen[j] <= IndexOf(url, parts[0]));
      }
    } else if |parts| > 0 {
      assert !Contains(url, parts[0]);
    }
  }

  /** The as-written loop decides exactly the glob rule stated above. */
  lemma MatchesAsteriskIsGlobSpec(p: string, url: string)
    ensures MatchesAsterisk(p, url) <==> GlobSpec(p, url)
  {
    ContainsOneChar(p, '*');
    CheckPartsSpec(Split(p, '*'), url, []);
  }

  // A pattern a + "*" + b + "*", like the one GraphCrawlITCase uses to skip the
  // posts of April 2016, matches every URL that starts with a and contains b.
  lemma {:induction false} PrefixGlob(a: string, b: string, url: string)
    requires '*' !in a && '*' !in b && b != ""
    requires StartsWith(url, a) && Contains(url, b)
    ensures MatchesAsterisk(a + "*" + b + "*", url)
  {
    var p := a + "*" + b + "*";
    assert p == a + ['*'] + (b + ['*'] + "");
    FieldsAfterPrefix(a, '*', b + ['*'] + "");
    FieldsAfterPrefix(b, '*', "");
    FieldsWithout("", '*');
    assert p[|a|] == '*';
    var parts := Split(p, '*');
    assert Fields(p, '*') == [a, b, ""];
    assert parts == [a, b];
    assert OccursAt(url, a, 0);
    assert IndexOf(url, a) == 0;
    MatchesAsteriskIsGlobSpec(p, url);
  }

  /** A lone "*" splits into no parts at all, so it matches every URL. */
  lemma LoneStarMatchesEverything(url: string)
    ensures MatchesAsterisk("*", url)
  {
    var p := "*";
    ContainsOneChar(p, '*');
    assert p[0] == '*';
    assert p == "" + ['*'] + "";
    FieldsAfterPrefix("", '*', "");
    FieldsWithout("", '*');
    assert Split(p, '*') == [];
  }

  // ---------------------------------------------------------------------------
  // The regex rule and IgnoredPatterns.contains

  /** matchesRegex(p, url): a pattern that does not compile never matches. */
  function MatchesRegex(regex: RegexEngine, p: string, url: string): (r: bool)
    ensures r ==> regex.compiles(p)
  {
    if regex.compiles(p) then regex.matchesWhole(p, url) else false
  }

  /** One pattern's verdict: the exact rule on the raw pattern, the glob and
      regex rules on the trimmed pattern. */
  predicate PatternMatches(regex: RegexEngine, p: string, url: string) {
    || EqualsIgnoreCase(p, url)
    || MatchesAsterisk(Trim(p), url)
    || MatchesRegex(regex, Trim(p), url)
  }

  /** The loop of IgnoredPatterns.contains from the k-th pattern on. */
  function AnyMatchFrom(patterns: seq<string>, k: nat, regex: RegexEngine, url: string): (r: bool)
    requires k <= |patterns|
    ensures r <==> exists i :: k <= i < |patterns| && PatternMatches(regex, patterns[i], url)
    decreases |patterns| - k
  {
    if k == |patterns| then false
    else if EqualsIgnoreCase(patterns[k], url) then true
    else if MatchesAsterisk(Trim(patterns[k]), url) then true
    else if MatchesRegex(regex, Trim(patterns[k]), url) then true
    else AnyMatchFrom(patterns, k + 1, regex, url)
  }

  /** IgnoredPatterns.contains(url): some pattern matches the URL. */
  function IsIgnored(ip: IgnoredPatterns, regex: RegexEngine, url: string): (r: bool)
    ensures r <==> exists i :: 0 <= i < |ip.patterns| && PatternMatches(regex, ip.patterns[i], url)
    ensures ip.patterns == [] ==> !r
  {
    AnyMatchFrom(ip.patterns, 0, regex, url)
  }

  /** Only which patterns are present matters, not their order or repetition. */
  lemma IgnoredIndependentOfOrder(a: IgnoredPatterns, b: IgnoredPatterns, regex: RegexEngine, url: string)
    requires forall p :: p in a.patterns <==> p in b.patterns
    ensures IsIgnored(a, regex, url) == IsIgnored(b, regex, url)
  {
    if IsIgnored(a, regex, url) {
      var i :| 0 <= i < |a.patterns| && PatternMatches(regex, a.patterns[i], url);
      assert a.patterns[i] in a.patterns;
      var j :| 0 <= j < |b.patterns| && b.patterns[j] == a.patterns[i];
    }
    if IsIgnored(b, regex, url) {
      var j :| 0 <= j < |b.patterns| && PatternMatches(regex, b.patterns[j], url);
      assert b.patterns[j] in b.patterns;
      var i :| 0 <= i < |a.patterns| && a.patterns[i] == b.patterns[j];
    }
  }

  /** Adding patterns can only ignore more URLs. */
  lemma MorePatternsIgnoreMore(a: IgnoredPatterns, extra: seq<string>, regex: RegexEngine, url: string)
    requires IsIgnored(a, regex, url)
    ensures IsIgnored(IgnoredPatterns(a.patterns + extra), regex, url)
  {
    var i :| 0 <= i < |a.patterns| && PatternMatches(regex, a.patterns[i], url);
    assert (a.patterns + extra)[i] == a.patterns[i];
  }
}

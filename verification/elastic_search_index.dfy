/**
  ElasticSearchIndex: where pages are indexed (node, port, index name and
  document type) and the base URL of that index.
 */
module EsIndex {

  import opened Outcomes
  import opened JavaStrings

  /** The four fields; `docType` is the Java field `type`. */
  datatype ElasticSearchIndex = ElasticSearchIndex(node: string, port: int, indexName: string, docType: string)

  /** The port of the default constructor. */
  const DefaultPort: int := 9200

  /** ElasticSearchIndex(): an empty node, index name and type on port 9200. */
  function Default(): (x: ElasticSearchIndex)
    ensures x.node == "" && x.port == 9200 && x.indexName == "" && x.docType == ""
  {
    ElasticSearchIndex("", DefaultPort, "", "")
  }

  /** ElasticSearchIndex.toString: "http://node:port/indexName/type". */
  function ToString(x: ElasticSearchIndex): (s: string)
    ensures StartsWith(s, "http://")
    ensures EndsWith(s, "/" + x.docType)
  {
    var s := "http://" + x.node + ":" + IntToString(x.port) + "/" + x.indexName + "/" + x.docType;
    assert s == ("http://" + x.node + ":" + IntToString(x.port) + "/" + x.indexName) + ("/" + x.docType);
    s
  }

  /** The text of `s` up to the first `c`, and the text after it. */
  function CutAt(s: string, c: char): (r: Option<(string, string)>)
    ensures r.Some? ==> s == r.value.0 + [c] + r.value.1 && c !in r.value.0
    ensures r.None? <==> c !in s
  {
    var k := IndexOfCharFrom(s, c, 0);
    if k == -1 then None
    else
      assert s == s[..k] + [c] + s[k + 1..];
      assert forall i :: 0 <= i < |s[..k]| ==> s[..k][i] != c;
      Some((s[..k], s[k + 1..]))
  }

  /** Reads the four fields back from a URL of the shape toString prints. */
  function Parse(s: string): (r: Option<ElasticSearchIndex>)
  {
    if StartsWith(s, "http://") then ParseAfterScheme(s[7..]) else None
  }

  /** After the scheme, the node runs to the first ':', the port to the next
      '/', the index name to the next '/', and the type is the rest. */
  function ParseAfterScheme(s: string): (r: Option<ElasticSearchIndex>)
  {
    match CutAt(s, ':')
    case None => None
    case Some((node, afterNode)) =>
      match CutAt(afterNode, '/')
      case None => None
      case Some((port, afterPort)) =>
        match ParseInt(port)
        case None => None
        case Some(n) =>
          match CutAt(afterPort, '/')
          case None => None
          case Some((indexName, docType)) => Some(ElasticSearchIndex(node, n, indexName, docType))
  }

  /** A field without the separator that ends it is cut off exactly. */
  lemma {:induction false} CutAtPrefix(a: string, c: char, b: string)
    requires c !in a
    ensures CutAt(a + [c] + b, c) == Some((a, b))
  {
    var s := a + [c] + b;
    IndexOfCharAfterPrefix(a, c, b);
    assert s[..|a|] == a;
    assert s[|a| + 1..] == b;
  }

  /** Parsing a URL with the http scheme is parsing what follows the scheme. */
  lemma SchemeThenRest(scheme: string, rest: string)
    requires scheme == "http://"
    ensures Parse(scheme + rest) == ParseAfterScheme(rest)
  {
    assert (scheme + rest)[..7] == scheme;
    assert (scheme + rest)[7..] == rest;
  }

  /** The URL as the scheme followed by the fields and their separators. */
  lemma ToStringSplits(x: ElasticSearchIndex, scheme: string)
    requires scheme == "http://"
    ensures ToString(x) == scheme + (x.node + [':'] + (IntToString(x.port) + ['/'] + (x.indexName + ['/'] + x.docType)))
  {
  }

  /**
    toString loses nothing when the node has no ':' or '/' and the index
    name no '/': the URL determines every field (the type may hold anything).
   */
  lemma {:induction false} ToStringRoundTrip(x: ElasticSearchIndex)
    requires ':' !in x.node && '/' !in x.node && '/' !in x.indexName
    ensures Parse(ToString(x)) == Some(x)
  {
    var p := IntToString(x.port);
    var afterPort := x.indexName + ['/'] + x.docType;
    var afterNode := p + ['/'] + afterPort;
    ToStringSplits(x, "http://");
    SchemeThenRest("http://", x.node + [':'] + afterNode);
    CutAtPrefix(x.node, ':', afterNode);
    CutAtPrefix(p, '/', afterPort);
    IntToStringRoundTrip(x.port);
    CutAtPrefix(x.indexName, '/', x.docType);
  }

  /** Hence two such indexes with the same URL are the same index. */
  lemma ToStringInjective(x: ElasticSearchIndex, y: ElasticSearchIndex)
    requires ':' !in x.node && '/' !in x.node && '/' !in x.indexName
    requires ':' !in y.node && '/' !in y.node && '/' !in y.indexName
    requires ToString(x) == ToString(y)
    ensures x == y
  {
    ToStringRoundTrip(x);
    ToStringRoundTrip(y);
  }
}

/**
  An anchor found on a page: its text and its href. Identity is the exact
  href string; `Valid` decides whether a link found on the page at
  `parentLoc` is worth crawling.
 */
module Links {

  import opened JavaStrings

  datatype Link = Link(text: string, href: string)

  /** The default constructor: empty text and href. */
  function Blank(): (l: Link)
    ensures l.text == "" && l.href == ""
  {
    Link("", "")
  }

  /** The key that Link.equals and Link.hashCode look at (also Link.toString). */
  function Href(l: Link): (k: string)
    ensures forall b: Link :: Same(l, b) <==> b.href == k
  {
    l.href
  }

  /** Link.equals: the hrefs are the same string; the text plays no part. */
  predicate Same(a: Link, b: Link)
    ensures Same(a, b) ==> HashCode(a) == HashCode(b)
    ensures Same(a, b) <==> a.(text := b.text) == b
  {
    a.href == b.href
  }

  /** Link.hashCode: 31 * 1 + href.hashCode(), in int arithmetic. */
  function HashCode(l: Link): (h: int)
    ensures IsInt32(h)
  {
    Wrap32(31 + JavaStrings.HashCode(l.href))
  }

  /** Link.equals is an equivalence relation that ignores the anchor text,
      and equal links hash alike, as HashSet requires. */
  lemma SameIsEquivalence(a: Link, b: Link, c: Link, t: string)
    ensures Same(a, a)
    ensures Same(a, b) ==> Same(b, a)
    ensures Same(a, b) && Same(b, c) ==> Same(a, c)
    ensures Same(a, a.(text := t))
    ensures Same(a, b) ==> HashCode(a) == HashCode(b)
  {
  }

  /** Links whose hrefs differ are different, whatever their text. */
  lemma DifferentHrefsDiffer(a: Link, b: Link)
    requires a.href != b.href
    ensures !Same(a, b)
  {
  }

  // ---------------------------------------------------------------------------
  // Link.valid

  /** The position from which the parent location is searched for a "/": past "http://" or "https://". */
  const SchemeSkip: nat := 8

  /**
    The part of `parentLoc` that a valid link has to start with: `parentLoc`
    cut before its first "/" at index 8 or later, or all of it if there is
    none. Java's indexOf returns -1 for a start index past the end, so short
    strings are never indexed out of range.
   */
  function DomainPrefix(parentLoc: string): (d: string)
    ensures StartsWith(parentLoc, d)
    ensures d == parentLoc ==> forall i :: SchemeSkip <= i < |parentLoc| ==> parentLoc[i] != '/'
    ensures d != parentLoc ==>
              SchemeSkip <= |d| < |parentLoc| && parentLoc[|d|] == '/' &&
              forall i :: SchemeSkip <= i < |d| ==> parentLoc[i] != '/'
  {
    var slash := IndexOfCharFrom(parentLoc, '/', SchemeSkip);
    if slash == -1 then parentLoc else parentLoc[..slash]
  }

  /** `href` points back at the parent page itself: equal to it, ignoring
      case, bare or followed by "/", "/#" or "#". */
  predicate IsSelfReference(href: string, parentLoc: string) {
    || EqualsIgnoreCase(parentLoc, href)
    || EqualsIgnoreCase(parentLoc + "/", href)
    || EqualsIgnoreCase(parentLoc + "/#", href)
    || EqualsIgnoreCase(parentLoc + "#", href)
  }

  /** Link.valid(parentLoc). */
  function Valid(l: Link, parentLoc: string): (r: bool)
    ensures r ==> !IsSelfReference(l.href, parentLoc)
    ensures r ==> !StartsWith(l.href, "mailto")
    ensures r ==> StartsWith(l.href, DomainPrefix(parentLoc)) && StartsWith(l.href, parentLoc[..|DomainPrefix(parentLoc)|])
  {
    if !IsSelfReference(l.href, parentLoc) then
      if !StartsWith(l.href, "mailto") then
        var domain := DomainPrefix(parentLoc);
        StartsWith(l.href, domain)
      else false
    else false
  }

  /** Outside the two exclusions, validity is exactly "starts with the domain prefix". */
  lemma ValidIffOnDomain(l: Link, parentLoc: string)
    requires !IsSelfReference(l.href, parentLoc)
    requires !StartsWith(l.href, "mailto")
    ensures Valid(l, parentLoc) <==> StartsWith(l.href, DomainPrefix(parentLoc))
  {
  }

  /** Whatever the parent, mailto links and self references are never valid. */
  lemma ExclusionsAreInvalid(text: string, href: string, parentLoc: string)
    requires StartsWith(href, "mailto") || IsSelfReference(href, parentLoc)
    ensures !Valid(Link(text, href), parentLoc)
  {
  }

  /**
    For an http or https location the domain prefix is the scheme and host:
    the location cut before the "/" that starts its path.
   */
  lemma {:induction false} DomainOfWebLocation(scheme: string, host: string, path: string)
    requires scheme == "http://" || scheme == "https://"
    requires |host| >= 1 && '/' !in host
    requires path == [] || path[0] == '/'
    ensures DomainPrefix(scheme + host + path) == scheme + host
  {
    var loc := scheme + host + path;
    var k := |scheme| + |host|;
    assert forall i :: |scheme| <= i < k ==> loc[i] == host[i - |scheme|];
    if path == [] {
      assert loc == scheme + host;
      assert forall i :: SchemeSkip <= i < |loc| ==> loc[i] != '/';
    } else {
      assert loc[k] == '/';
      assert IndexOfCharFrom(loc, '/', SchemeSkip) == k;
      assert loc[..k] == scheme + host;
    }
  }

  /** The parent's own "/#" and a mailto link are invalid (LinkTestCase.validatesSelfFalse). */
  lemma LinkTestSelfFalse(parent: string, self: string, mail: string)
    requires parent == "www.amihaiemil.com"
    requires self == "www.amihaiemil.com/#"
    requires mail == "mailto:amihaiemil@gmail.com"
    ensures !Valid(Link("test", self), parent)
    ensures !Valid(Link("test", mail), parent)
  {
    assert parent + "/#" == self;
    assert mail[..6] == "mailto";
  }

  /** A same-site link without a scheme is valid (LinkTestCase.validatesSelfTrue, first case). */
  lemma LinkTestSchemeless(parent: string, href: string)
    requires parent == "www.amihaiemil.com"
    requires href == "www.amihaiemil.com/projects/2016/04/20/project-eva.html"
    ensures Valid(Link("test", href), parent)
  {
    var path := "/projects/2016/04/20/project-eva.html";
    assert parent + path == href;
    SchemelessSameSiteValid(parent, path);
  }

  /** Same-site http and https links are valid (LinkTestCase.validatesSelfTrue, other cases). */
  lemma LinkTestWithScheme(scheme: string, host: string, path: string)
    requires scheme == "http://" || scheme == "https://"
    requires host == "www.amihaiemil.com"
    requires path == "/projects/2016/04/20/project-eva.html"
    ensures Valid(Link("test", scheme + host + path), scheme + host)
  {
    SameSiteValid(scheme, host, path);
  }

  /** A parent without a scheme and without any "/" is its own domain prefix. */
  lemma SchemelessSameSiteValid(host: string, path: string)
    requires '/' !in host && |host| >= 1 && host[0] != 'm'
    requires |path| >= 3
    ensures Valid(Link("test", host + path), host)
  {
    var href := host + path;
    assert forall i :: 0 <= i < |host| ==> host[i] != '/';
    assert DomainPrefix(host) == host;
    assert href[..|host|] == host;
    assert !StartsWith(href, "mailto") by {
      assert href[0] == host[0];
    }
  }

  /** On an http or https parent without a path, any link into a path of the
      same host is valid. */
  lemma SameSiteValid(scheme: string, host: string, path: string)
    requires scheme == "http://" || scheme == "https://"
    requires |host| >= 1 && '/' !in host
    requires |path| >= 3
    ensures Valid(Link("test", scheme + host + path), scheme + host)
  {
    var parent := scheme + host;
    var href := scheme + host + path;
    DomainOfWebLocation(scheme, host, "");
    assert parent + "" == parent;
    assert href[..|parent|] == parent;
    assert !StartsWith(href, "mailto") by {
      assert href[0] == scheme[0] == 'h';
    }
  }
}

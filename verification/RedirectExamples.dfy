/**
 Redirects on which `redirect_target` in src/keydb_fetch.rs and section 5.2 of RFC 3986 differ:
 one of each kind of reference for which they do.
 */
module RedirectExamples {
  import opened Basics
  import opened Text
  import opened DotSegments
  import opened Redirects

  /** Where section 5.2 leads. */
  function RfcTarget(base: string, reference: string): string { Recompose(LowerScheme(Resolved(base, reference))) }

  predicate PlainHost(host: string) { forall k :: 0 <= k < |host| ==> host[k] !in Delimiters }

  predicate PlainPath(path: string) { path != "" && path[0] == '/' && '?' !in path && '#' !in path }

  lemma PlainReference(reference: string)
    requires reference != "" && '#' !in reference
    requires !IsWhitespace(reference[0]) && !IsWhitespace(reference[|reference| - 1])
    ensures Reference(reference) == reference
  {
    hide IsWhitespace;
    assert TrimStart(reference) == reference && TrimEnd(reference) == reference;
    SplitWhole(reference, '#');
  }

  /** What follows the scheme of an http URL. */
  lemma HostAndPath(host: string, path: string)
    requires PlainHost(host) && (path == "" || PlainPath(path))
    ensures Authority(host + path) == host && BasePath(host + path) == path
  {
    var rest := host + path;
    if path == "" {
      assert rest == host;
      FindAnyNone(host, Delimiters);
    } else {
      assert rest == host + ['/'] + path[1..];
      FindAnyIn(host, '/', path[1..], Delimiters);
      assert rest[..|host|] == host && rest[|host|..] == path;
      FindAnyNone(path, {'?', '#'});
    }
  }

  lemma HttpUrl(host: string, path: string)
    requires PlainHost(host) && (path == "" || PlainPath(path))
    ensures var url := "http://" + (host + path);
            SplitHttpScheme(url) == Some(("http", host + path)) && Parse(url).path == path
  {
    hide SplitHttpScheme;
    hide Parse;
    var rest := host + path;
    MadeHttpUrl("http", rest);
    Spelled(rest);
    HostAndPath(host, path);
    HttpParts("http://" + rest);
  }

  lemma Spelled(rest: string)
    ensures "http" + "://" + rest == "http://" + rest
  {
  }

  lemma QueryReference(query: string)
    requires '#' !in query
    ensures var r := "?" + query;
            !HasScheme(r) && PathAndQuery(r) == ("", r) && Parse(r).authority == None && Parse(r).path == ""
  {
    var r := "?" + query;
    assert r[0] == '?' && r[1..] == query;
    assert "?" <= r;
    FirstIsDelimiter(r);
    hide Parse;
    RelativeParts(r);
  }

  lemma FirstIsDelimiter(r: string)
    requires r != "" && r[0] in Delimiters
    ensures !HasScheme(r)
  {
    assert FindAny(r, Delimiters) == 0;
    assert r[..0] == "";
  }

  lemma RootPath()
    ensures RemoveDots("/") == "/"
  {
    SplitWhole("", '/');
    SplitCons("", '/', "");
    assert "/" == "" + ['/'] + "";
    assert Split("/", '/')[1..] == [""];
    assert PushAll([], [""]) == [""];
  }

  /** `?q` under `http://h`: the code leads to `http://h/?q`, section 5.2 to `http://h?q`. */
  lemma QueryReferenceDiffers()
    ensures RedirectTarget("http://h", "?q") == Some("http://h/?q")
    ensures RedirectTarget("http://h", "?q") != Some(RfcTarget("http://h", "?q"))
  {
    PlainReference("?q");
    QueryReference("q");
    HttpUrl("h", "");
    HostAndPath("h", "");
    RootPath();
    Concrete();
    hide SplitHttpScheme;
    hide Parse;
    hide HasScheme;
    hide Authority;
    hide BasePath;
    hide PathAndQuery;
    hide RemoveDots;
    hide Reference;
    hide LowerScheme;
    hide Resolved;
    hide Recompose;
    QueryReferencesFollowTheRfcExactly("http://h", "?q");
  }

  lemma Concrete()
    ensures "http://" + ("h" + "") == "http://h" && "?" + "q" == "?q" && "h" + "" == "h"
    ensures "http" + "://" + "h" + ("/" + "?q") == "http://h/?q"
    ensures "http://" + ("g" + "/./x") == "http://g/./x" && "//" + ("g" + "/./x") == "//g/./x"
    ensures "http" + "://" + "g/./x" == "http://g/./x" && "//g/./x"[2..] == "g/./x" && "g" + "/./x" == "g/./x"
  {
  }

  lemma DottedPath()
    ensures PlainPath("/./x") && !DotFree(Split("/./x", '/'))
  {
    assert "/./x" == "" + ['/'] + "./x" && "./x" == "." + ['/'] + "x";
    SplitCons("", '/', "./x");
    SplitCons(".", '/', "x");
    SplitWhole("x", '/');
    assert Split("/./x", '/')[1] == ".";
  }

  lemma NetworkReference(host: string, path: string)
    requires PlainHost(host) && PlainPath(path)
    ensures var r := "//" + (host + path);
            !HasScheme(r) && "//" <= r && Parse(r).path == path
  {
    var r := "//" + (host + path);
    assert r[0] == '/' && r[2..] == host + path;
    FirstIsDelimiter(r);
    NoScheme(r);
    HostAndPath(host, path);
    var rest := host + path;
    assert rest[FindAny(rest, Delimiters)..][..FindAny(rest[FindAny(rest, Delimiters)..], {'?', '#'})] == path;
  }

  /** A host and a path with a dot segment, named without a scheme. */
  lemma NetworkDiffers(base: string, host: string, path: string, reference: string)
    requires SplitHttpScheme(base).Some? && Reference(reference) == reference && reference == "//" + (host + path)
    requires PlainHost(host) && PlainPath(path) && !DotFree(Split(path, '/'))
    ensures RedirectTarget(base, reference) == Some(SplitHttpScheme(base).value.0 + "://" + (host + path))
    ensures RedirectTarget(base, reference) != Some(RfcTarget(base, reference))
  {
    NetworkReference(host, path);
    assert reference[2..] == host + path;
    hide *;
    NetworkTarget(base, reference);
    NotEmpty(path);
    NetworkReferencesFollowTheRfcExactly(base, reference);
    IsRfcTarget(base, reference);
  }

  lemma IsRfcTarget(base: string, reference: string)
    ensures RfcTarget(base, reference) == Recompose(LowerScheme(Resolved(base, reference)))
  {
  }

  lemma NotEmpty(path: string)
    requires PlainPath(path)
    ensures path != ""
  {
  }

  lemma NetworkTarget(base: string, reference: string)
    requires SplitHttpScheme(base).Some? && Reference(reference) == reference && "//" <= reference && !HasScheme(reference)
    ensures RedirectTarget(base, reference) == Some(SplitHttpScheme(base).value.0 + "://" + reference[2..])
  {
    hide SplitHttpScheme;
    hide HasScheme;
    hide Reference;
  }

  lemma TheReferences()
    ensures Reference("//g/./x") == "//g/./x" && Reference("http://g/./x") == "http://g/./x"
  {
    hide Reference;
    PlainReference("//g/./x");
    PlainReference("http://g/./x");
  }

  lemma TheHosts()
    ensures PlainHost("g") && PlainHost("h")
  {
  }

  /** `//g/./x` under `http://h`: the code keeps the dot segment, section 5.2 removes it. */
  lemma NetworkReferenceDiffers()
    ensures RedirectTarget("http://h", "//g/./x") == Some("http://g/./x")
    ensures RedirectTarget("http://h", "//g/./x") != Some(RfcTarget("http://h", "//g/./x"))
  {
    hide *;
    TheReferences();
    TheHosts();
    DottedPath();
    Concrete();
    HttpUrl("h", "");
    NetworkDiffers("http://h", "g", "/./x", "//g/./x");
  }

  lemma AbsoluteDiffers(base: string, reference: string, rest: string, path: string)
    requires Reference(reference) == reference && HasScheme(reference) && SplitHttpScheme(reference) == Some(("http", rest))
    requires Parse(reference).path == path && PlainPath(path) && !DotFree(Split(path, '/'))
    ensures RedirectTarget(base, reference) == Some(reference)
    ensures reference != Recompose(Resolved(base, reference))
  {
    NotEmpty(path);
    hide *;
    AbsoluteReferencesFollowTheRfcExactly(base, reference);
  }

  /** `http://g/./x`: the code follows it as it stands, section 5.2 removes the dot segment. */
  lemma AbsoluteReferenceDiffers()
    ensures RedirectTarget("http://h", "http://g/./x") == Some("http://g/./x")
    ensures "http://g/./x" != Recompose(Resolved("http://h", "http://g/./x"))
  {
    hide *;
    TheReferences();
    TheHosts();
    DottedPath();
    Concrete();
    HttpUrl("g", "/./x");
    SchemeIsRead();
    AbsoluteDiffers("http://h", "http://g/./x", "g/./x", "/./x");
  }

  lemma SchemeIsRead()
    ensures HasScheme("http://g/./x")
  {
    ColonInFront("http:", "/g/./x");
    assert "http://g/./x" == "http:" + ['/'] + "/g/./x";
  }

  lemma ColonInFront(front: string, rest: string)
    requires PlainHost(front) && ':' in front
    ensures HasScheme(front + ['/'] + rest)
  {
    FindAnyIn(front, '/', rest, Delimiters);
    assert (front + ['/'] + rest)[..|front|] == front;
  }
}

/**
 Resolving a redirect's `Location` (`redirect_target`, `split_http_scheme`, `is_downgrade`
 in src/keydb_fetch.rs), against reference resolution in section 5.2 of RFC 3986.
 */
module Redirects {
  import opened Basics
  import opened Text
  import opened DotSegments

  /** The `http`/`https` scheme of a URL, in lower case, and what follows `://`. */
  function SplitHttpScheme(url: string): Option<(string, string)> {
    match SplitOnce(url, "://")
    case None => None
    case Some((scheme, rest)) =>
      if Lower(scheme) == "https" then Some(("https", rest))
      else if Lower(scheme) == "http" then Some(("http", rest))
      else None
  }

  predicate IsHttps(url: string) {
    SplitHttpScheme(url).Some? && SplitHttpScheme(url).value.0 == "https"
  }

  predicate IsHttp(url: string) {
    SplitHttpScheme(url).Some? && SplitHttpScheme(url).value.0 == "http"
  }

  predicate IsDowngrade(from: string, to: string) { IsHttps(from) && IsHttp(to) }

  const Delimiters := {'/', '?', '#'}

  /** The reference that is resolved: trimmed, without its fragment. */
  function Reference(location: string): string { Split(Trim(location), '#')[0] }

  /** Whether the code reads the reference as starting with a scheme. */
  predicate HasScheme(reference: string) { ':' in reference[..FindAny(reference, Delimiters)] }

  /** What stands between `://` and the path, query or fragment. */
  function Authority(rest: string): string { rest[..FindAny(rest, Delimiters)] }

  /** The path in what stands after `://`. */
  function BasePath(rest: string): string {
    var tail := rest[FindAny(rest, Delimiters)..];
    tail[..FindAny(tail, {'?', '#'})]
  }

  /** A reference's path and its query, with the question mark, around the first one. */
  function PathAndQuery(reference: string): (string, string) {
    match SplitOnce(reference, "?")
    case None => (reference, "")
    case Some((path, query)) => (path, "?" + query)
  }

  /** The path before dot segments are removed. */
  function MergedPath(basePath: string, path: string): string {
    if path != "" && path[0] == '/' then path
    else if path == "" then if basePath == "" then "/" else basePath
    else
      var i := AfterLast(basePath, '/');
      (if i == 0 then "/" else basePath[..i]) + path
  }

  function RedirectTarget(base: string, location: string): Option<string> {
    TargetOf(base, Reference(location))
  }

  function TargetOf(base: string, reference: string): Option<string> {
    if reference == "" then None
    else if HasScheme(reference) then
      if SplitHttpScheme(reference).Some? then Some(reference) else None
    else
      match SplitHttpScheme(base)
      case None => None
      case Some((scheme, rest)) =>
        if "//" <= reference then Some(scheme + "://" + reference[2..])
        else Some(scheme + "://" + Authority(rest) + RelativeTail(BasePath(rest), reference))
  }

  /** The path and query a path or query reference leads to. */
  function RelativeTail(basePath: string, reference: string): string {
    var (path, query) := PathAndQuery(reference);
    RemoveDots(MergedPath(basePath, path)) + query
  }

  // ---- RFC 3986 ------------------------------------------------------------------------

  /** The five components of a reference, as the expression of appendix B takes it apart. */
  datatype Parts = Parts(scheme: Option<string>, authority: Option<string>, path: string,
                         query: Option<string>, fragment: Option<string>)

  function ParseScheme(s: string): (Option<string>, string) {
    var n := FindAny(s, {':', '/', '?', '#'});
    if 0 < n < |s| && s[n] == ':' then (Some(s[..n]), s[n + 1..]) else (None, s)
  }

  function ParseAuthority(a: string): (Option<string>, string) {
    if "//" <= a then
      var n := FindAny(a[2..], Delimiters);
      (Some(a[2..][..n]), a[2..][n..])
    else (None, a)
  }

  function ParseQuery(c: string): Option<string> {
    if c != "" && c[0] == '?' then Some(c[1..FindAny(c, {'#'})]) else None
  }

  function ParseFragment(c: string): Option<string> {
    var n := FindAny(c, {'#'});
    if n < |c| then Some(c[n + 1..]) else None
  }

  function Parse(s: string): Parts {
    var (scheme, a) := ParseScheme(s);
    var (authority, b) := ParseAuthority(a);
    var p := FindAny(b, {'?', '#'});
    Parts(scheme, authority, b[..p], ParseQuery(b[p..]), ParseFragment(b[p..]))
  }

  /** Section 5.3. */
  function Recompose(t: Parts): string {
    RecomposeFront(t) + t.path + RecomposeBack(t)
  }

  function RecomposeFront(t: Parts): string {
    (if t.scheme.Some? then t.scheme.value + ":" else "") + Marked("//", t.authority)
  }

  function RecomposeBack(t: Parts): string { Marked("?", t.query) + Marked("#", t.fragment) }

  function Marked(mark: string, part: Option<string>): string {
    if part.Some? then mark + part.value else ""
  }

  /** Section 5.2.3. */
  function Merge(base: Parts, path: string): string {
    if base.authority.Some? && base.path == "" then "/" + path
    else base.path[..AfterLast(base.path, '/')] + path
  }

  /** Section 5.2.2. */
  function Transform(base: Parts, r: Parts): Parts {
    if r.scheme.Some? then
      r.(path := RfcRemoveDots(r.path, ""))
    else if r.authority.Some? then
      Parts(base.scheme, r.authority, RfcRemoveDots(r.path, ""), r.query, r.fragment)
    else if r.path == "" then
      Parts(base.scheme, base.authority, base.path, if r.query.Some? then r.query else base.query, r.fragment)
    else if r.path[0] == '/' then
      Parts(base.scheme, base.authority, RfcRemoveDots(r.path, ""), r.query, r.fragment)
    else
      Parts(base.scheme, base.authority, RfcRemoveDots(Merge(base, r.path), ""), r.query, r.fragment)
  }

  /** Schemes are compared in lower case (section 6.2.2.1); the code writes them so. */
  function LowerScheme(t: Parts): Parts {
    if t.scheme.Some? then t.(scheme := Some(Lower(t.scheme.value))) else t
  }

  /** What section 5.2 resolves the reference to. */
  function Resolved(base: string, reference: string): Parts { Transform(Parse(base), Parse(reference)) }

  // ---- The code's reading of both URLs is the standard's -------------------------------

  lemma {:induction false} SplitHead(s: string, c: char)
    ensures Split(s, c)[0] == s[..FindAny(s, {c})]
  {
  }

  lemma {:induction false} SplitOnceAt(s: string, c: char)
    ensures var n := FindAny(s, {c});
            SplitOnce(s, [c]) == if n == |s| then None else Some((s[..n], s[n + 1..]))
  {
    if s != [] {
      SplitOnceAt(s[1..], c);
      assert [c] <= s <==> s[0] == c;
      var n := FindAny(s, {c});
      if s[0] != c && n < |s| {
        assert [s[0]] + s[1..][..n - 1] == s[..n];
        assert s[1..][n..] == s[n + 1..];
      }
    }
  }

  lemma ReferenceHasNoFragment(location: string)
    ensures forall k :: 0 <= k < |Reference(location)| ==> Reference(location)[k] != '#'
  {
    SplitHead(Trim(location), '#');
  }

  lemma LetterOfLower(s: string, c: char)
    requires c in s && !('A' <= c <= 'Z')
    ensures c in Lower(s)
  {
    var k :| 0 <= k < |s| && s[k] == c;
    assert Lower(s)[k] == c;
  }

  lemma HttpSchemeIsPlain(s: string)
    requires Lower(s) == "http" || Lower(s) == "https"
    ensures forall k :: 0 <= k < |s| ==> s[k] !in {':', '/', '?', '#'}
    ensures |s| > 0
  {
    if ':' in s { LetterOfLower(s, ':'); }
    if '/' in s { LetterOfLower(s, '/'); }
    if '?' in s { LetterOfLower(s, '?'); }
    if '#' in s { LetterOfLower(s, '#'); }
  }

  lemma ParseSchemeOf(s: string, a: string)
    requires |s| > 0 && forall k :: 0 <= k < |s| ==> s[k] !in {':', '/', '?', '#'}
    ensures ParseScheme(s + ":" + a) == (Some(s), a)
  {
    var url := s + ":" + a;
    assert url == s + [':'] + a;
    FindAnyIn(s, ':', a, {':', '/', '?', '#'});
    assert url[..|s|] == s && url[|s| + 1..] == a;
  }

  /** An http URL's parts. */
  lemma HttpParts(url: string)
    requires SplitHttpScheme(url).Some?
    ensures var (scheme, rest) := SplitHttpScheme(url).value;
            var u := Parse(url);
            && u.scheme.Some? && Lower(u.scheme.value) == scheme
            && u.authority == Some(Authority(rest))
            && u.path == BasePath(rest)
            && (u.path == "" || u.path[0] == '/')
  {
    var (s, rest) := SplitOnce(url, "://").value;
    HttpSchemeIsPlain(s);
    assert url == s + ":" + ("//" + rest);
    ParseSchemeOf(s, "//" + rest);
    assert ("//" + rest)[2..] == rest;
  }

  lemma {:induction false} SameStop(s: string)
    requires '#' !in s
    ensures FindAny(s, {'?', '#'}) == FindAny(s, {'?'})
  {
    if s != [] && s[0] != '?' {
      assert s[0] != '#';
      SameStop(s[1..]);
    }
  }

  lemma ColonFirst(s: string)
    ensures var n := FindAny(s, {':', '/', '?', '#'});
            n < |s| && s[n] == ':' ==> HasScheme(s)
  {
    hide FindAny;
    var n := FindAny(s, {':', '/', '?', '#'});
    var first := FindAny(s, Delimiters);
    if n < |s| && s[n] == ':' {
      assert n < first by { assert first < |s| ==> s[first] in {':', '/', '?', '#'}; }
      assert s[..first][n] == ':';
    }
  }

  lemma NoScheme(reference: string)
    requires !HasScheme(reference)
    ensures ParseScheme(reference) == (None, reference)
  {
    ColonFirst(reference);
  }

  lemma NoFragment(c: string)
    requires '#' !in c
    ensures ParseFragment(c) == None && FindAny(c, {'#'}) == |c|
  {
    FindAnyNone(c, {'#'});
  }

  /** A reference without a scheme and a fragment, taken apart. */
  lemma RelativeParts(reference: string)
    requires !HasScheme(reference) && '#' !in reference
    ensures var r := Parse(reference);
            && r.scheme == None && r.fragment == None
            && (r.authority.Some? <==> "//" <= reference)
            && (r.authority.None? ==>
                  var (path, query) := PathAndQuery(reference);
                  r.path == path && RecomposeBack(r) == query && (r.query.Some? <==> query != ""))
  {
    NoScheme(reference);
    hide HasScheme;
    hide ParseScheme;
    hide FindAny;
    var b := ParseAuthority(reference).1;
    var p := FindAny(b, {'?', '#'});
    NoFragment(b[p..]);
    if !("//" <= reference) { RelativeQuery(reference); }
  }

  /** The path and the query of a reference without a host. */
  lemma RelativeQuery(reference: string)
    requires '#' !in reference
    ensures var p := FindAny(reference, {'?', '#'});
            var (path, query) := PathAndQuery(reference);
            reference[..p] == path && Marked("?", ParseQuery(reference[p..])) == query
            && (ParseQuery(reference[p..]).Some? <==> query != "")
  {
    hide SplitOnce;
    hide FindAny;
    SameStop(reference);
    SplitOnceAt(reference, '?');
    var p := FindAny(reference, {'?'});
    if p < |reference| {
      QueryBehind(reference[p..], reference[p + 1..]);
    } else {
      assert reference[..p] == reference && reference[p..] == "";
    }
  }

  lemma QueryBehind(c: string, query: string)
    requires '#' !in c && c != "" && c[0] == '?' && query == c[1..]
    ensures ParseQuery(c) == Some(query)
  {
    hide FindAny;
    NoFragment(c);
    assert c[1..|c|] == c[1..];
  }

  lemma MergedIsRooted(basePath: string, path: string)
    requires basePath == "" || basePath[0] == '/'
    ensures MergedPath(basePath, path) != "" && MergedPath(basePath, path)[0] == '/'
  {
    assert basePath != "" ==> AfterLast(basePath, '/') > 0;
  }

  lemma HttpFront(base: string)
    requires SplitHttpScheme(base).Some?
    ensures var (scheme, rest) := SplitHttpScheme(base).value;
            RecomposeFront(LowerScheme(Parse(base))) == scheme + "://" + Authority(rest)
  {
    HttpParts(base);
    var (scheme, rest) := SplitHttpScheme(base).value;
    var t := LowerScheme(Parse(base));
    assert t.scheme == Some(scheme) && t.authority == Some(Authority(rest));
    FrontText(scheme, Authority(rest));
  }

  lemma FrontText(scheme: string, authority: string)
    ensures scheme + ":" + ("//" + authority) == scheme + "://" + authority
  {
  }

  /** A path or query reference's target: the base's scheme and authority, then the merged
      path without dot segments, then the reference's query. */
  lemma RelativeTarget(base: string, reference: string)
    requires SplitHttpScheme(base).Some? && reference != "" && '#' !in reference && !HasScheme(reference)
    requires Parse(reference).authority == None
    ensures var r, b := Parse(reference), Parse(base);
            var merged := MergedPath(b.path, r.path);
            && b.scheme.Some? && b.authority.Some? && (b.path == "" || b.path[0] == '/')
            && r.scheme == None && r.fragment == None
            && (r.path == "" ==> r.query.Some?)
            && TargetOf(base, reference)
               == Some(RecomposeFront(LowerScheme(b)) + RemoveDots(merged) + RecomposeBack(r))
  {
    hide SplitOnce;
    hide SplitHttpScheme;
    hide Parse;
    hide MergedPath;
    hide RemoveDots;
    hide FindAny;
    RelativeParts(reference);
    HttpParts(base);
    HttpFront(base);
    NoPathMeansQuery(reference);
    var (scheme, rest) := SplitHttpScheme(base).value;
    var (path, query) := PathAndQuery(reference);
    var front, clean := scheme + "://" + Authority(rest), RemoveDots(MergedPath(BasePath(rest), path));
    assert front + (clean + query) == front + clean + query;
  }

  lemma NoPathMeansQuery(reference: string)
    requires reference != ""
    ensures PathAndQuery(reference).0 == "" ==> PathAndQuery(reference).1 != ""
  {
  }

  /** Absolute-path and relative-path references: exactly section 5.2, dot segments and all. */
  lemma PathReferencesFollowTheRfc(base: string, location: string)
    requires SplitHttpScheme(base).Some? && !HasScheme(Reference(location))
    requires Parse(Reference(location)).authority == None && Parse(Reference(location)).path != ""
    ensures RedirectTarget(base, location) == Some(Recompose(LowerScheme(Resolved(base, Reference(location)))))
  {
    ReferenceHasNoFragment(location);
    assert Reference(location) != "";
    RelativeTarget(base, Reference(location));
    var r, b := Parse(Reference(location)), Parse(base);
    var merged := MergedPath(b.path, r.path);
    MergedIsRooted(b.path, r.path);
    StackIsRfc(merged);
    assert r.path[0] != '/' ==> merged == Merge(b, r.path);
    var t := LowerScheme(Resolved(base, Reference(location)));
    assert RecomposeFront(t) == RecomposeFront(LowerScheme(b)) && RecomposeBack(t) == RecomposeBack(r);
  }

  lemma SameMiddle(front: string, a: string, b: string, back: string)
    ensures front + a + back == front + b + back <==> a == b
  {
    if front + a + back == front + b + back {
      assert |a| == |b|;
      assert a == (front + a + back)[|front|..|front| + |a|];
      assert b == (front + b + back)[|front|..|front| + |b|];
    }
  }

  /** Query-only references: the code also normalises the base path, which the standard
      keeps, so the two agree exactly when the base path has no dot segment and is not empty. */
  lemma QueryReferencesFollowTheRfcExactly(base: string, location: string)
    requires SplitHttpScheme(base).Some? && Reference(location) != "" && !HasScheme(Reference(location))
    requires Parse(Reference(location)).authority == None && Parse(Reference(location)).path == ""
    ensures RedirectTarget(base, location) == Some(Recompose(LowerScheme(Resolved(base, Reference(location)))))
            <==> Parse(base).path != "" && DotFree(Split(Parse(base).path, '/'))
  {
    ReferenceHasNoFragment(location);
    RelativeTarget(base, Reference(location));
    var r, b := Parse(Reference(location)), Parse(base);
    var merged := MergedPath(b.path, r.path);
    MergedIsRooted(b.path, r.path);
    RemoveDotsIsClean(merged);
    UnchangedExactlyWhenDotFree(merged);
    var t := LowerScheme(Resolved(base, Reference(location)));
    assert RecomposeFront(t) == RecomposeFront(LowerScheme(b)) && RecomposeBack(t) == RecomposeBack(r);
    SameMiddle(RecomposeFront(t), RemoveDots(merged), b.path, RecomposeBack(t));
  }

  lemma RecomposeParse(s: string)
    ensures Recompose(Parse(s)) == s
  {
    var a := ParseScheme(s).1;
    var b := ParseAuthority(a).1;
    RecomposeSchemeParse(s);
    RecomposeAuthorityParse(a);
    RecomposeTail(ParseScheme(s).0, ParseAuthority(a).0, s, a, b);
  }

  lemma RecomposeTail(scheme: Option<string>, authority: Option<string>, s: string, a: string, b: string)
    requires s == (if scheme.Some? then scheme.value + ":" else "") + a && a == Marked("//", authority) + b
    ensures var n := FindAny(b, {'?', '#'});
            Recompose(Parts(scheme, authority, b[..n], ParseQuery(b[n..]), ParseFragment(b[n..]))) == s
  {
    var n := FindAny(b, {'?', '#'});
    var path, c := b[..n], b[n..];
    var query, fragment := ParseQuery(c), ParseFragment(c);
    RecomposeBackParse(c);
    assert b == path + c;
    RecomposePieces(scheme, authority, path, query, fragment, s, a, b, c);
  }

  lemma RecomposePieces(scheme: Option<string>, authority: Option<string>, path: string, query: Option<string>,
                        fragment: Option<string>, s: string, a: string, b: string, c: string)
    requires s == (if scheme.Some? then scheme.value + ":" else "") + a
    requires a == Marked("//", authority) + b && b == path + c && c == Marked("?", query) + Marked("#", fragment)
    ensures Recompose(Parts(scheme, authority, path, query, fragment)) == s
  {
  }

  lemma RecomposeSchemeParse(s: string)
    ensures var (scheme, a) := ParseScheme(s); s == (if scheme.Some? then scheme.value + ":" else "") + a
  {
  }

  lemma RecomposeAuthorityParse(a: string)
    ensures var (authority, b) := ParseAuthority(a); a == Marked("//", authority) + b
  {
    if "//" <= a { assert a == "//" + a[2..]; }
  }

  lemma RecomposeBackParse(c: string)
    requires c == "" || c[0] in {'?', '#'}
    ensures c == Marked("?", ParseQuery(c)) + Marked("#", ParseFragment(c))
  {
    var n := FindAny(c, {'#'});
    assert c == c[..n] + c[n..];
    if c != "" && c[0] == '?' { assert c[..n] == "?" + c[1..n]; }
    if n < |c| { assert c[n..] == "#" + c[n + 1..]; }
  }

  /** Absolute references are followed verbatim: they agree with section 5.2 exactly when
      their path is empty or has no dot segment. */
  lemma AbsoluteReferencesFollowTheRfcExactly(base: string, location: string)
    requires HasScheme(Reference(location)) && SplitHttpScheme(Reference(location)).Some?
    ensures RedirectTarget(base, location) == Some(Reference(location))
    ensures var reference := Reference(location);
            reference == Recompose(Resolved(base, reference))
            <==> Parse(reference).path == "" || DotFree(Split(Parse(reference).path, '/'))
  {
    var reference := Reference(location);
    HttpParts(reference);
    RecomposeParse(reference);
    var r := Parse(reference);
    var t := Resolved(base, reference);
    if r.path != "" {
      StackIsRfc(r.path);
      UnchangedExactlyWhenDotFree(r.path);
    }
    assert RecomposeFront(t) == RecomposeFront(r) && RecomposeBack(t) == RecomposeBack(r);
    SameMiddle(RecomposeFront(r), r.path, t.path, RecomposeBack(r));
  }

  /** What follows an authority starts with a slash or is no path. */
  lemma NetworkPath(reference: string)
    requires !HasScheme(reference) && "//" <= reference
    ensures var r := Parse(reference);
            && r.scheme == None && r.authority.Some? && (r.path == "" || r.path[0] == '/')
  {
    NoScheme(reference);
  }

  lemma SchemeInFront(scheme: string, marked: string, path: string, back: string)
    requires "//" <= marked + path + back
    ensures scheme + "://" + (marked + path + back)[2..] == scheme + ":" + marked + path + back
  {
    var all := marked + path + back;
    assert all == "//" + all[2..];
    assert scheme + "://" + all[2..] == scheme + ":" + ("//" + all[2..]);
  }

  /** References that name a host but no scheme: the code keeps their path verbatim too. */
  lemma NetworkReferencesFollowTheRfcExactly(base: string, location: string)
    requires SplitHttpScheme(base).Some? && !HasScheme(Reference(location)) && "//" <= Reference(location)
    ensures var reference := Reference(location);
            RedirectTarget(base, location) == Some(Recompose(LowerScheme(Resolved(base, reference))))
            <==> Parse(reference).path == "" || DotFree(Split(Parse(reference).path, '/'))
  {
    var reference := Reference(location);
    var r, b, t := Parse(reference), Parse(base), LowerScheme(Resolved(base, reference));
    HttpParts(base);
    NetworkPath(reference);
    RecomposeParse(reference);
    var scheme := SplitHttpScheme(base).value.0;
    if r.path != "" {
      StackIsRfc(r.path);
      UnchangedExactlyWhenDotFree(r.path);
    }
    hide Parse;
    hide SplitHttpScheme;
    hide Split;
    hide RfcRemoveDots;
    assert RecomposeBack(t) == RecomposeBack(r);
    assert RecomposeFront(r) == Marked("//", r.authority);
    assert RecomposeFront(t) == scheme + ":" + Marked("//", r.authority);
    SchemeInFront(scheme, Marked("//", r.authority), r.path, RecomposeBack(r));
    SameMiddle(RecomposeFront(t), r.path, t.path, RecomposeBack(r));
  }

  // ---- What every target has in common ---------------------------------------------------

  lemma MadeHttpUrl(scheme: string, rest: string)
    requires scheme == "http" || scheme == "https"
    ensures SplitHttpScheme(scheme + "://" + rest) == Some((scheme, rest))
  {
    var url := scheme + "://" + rest;
    SplitOnceHere(scheme, "://", rest);
    assert Lower(scheme) == scheme;
  }

  /** Which URLs are http or https: those whose text before the first `://` is one of the two
      names, in either case. */
  lemma HttpUrlsExactly(url: string, n: nat)
    requires Stands(url, "://", n) && forall k: nat :: k < n ==> !Stands(url, "://", k)
    ensures SplitHttpScheme(url)
            == if Lower(url[..n]) == "http" || Lower(url[..n]) == "https" then Some((Lower(url[..n]), url[n + 3..])) else None
  {
    SplitOnceIsFirst(url, "://");
    hide SplitOnce;
    hide Stands;
    hide Lower;
    var (a, b) := SplitOnce(url, "://").value;
    AroundSeparator(url, a, "://", b);
  }

  lemma AroundSeparator(s: string, a: string, sep: string, b: string)
    requires s == a + sep + b
    ensures s[..|a|] == a && s[|a| + |sep|..] == b
  {
  }

  lemma NoSchemeIsNoHttpUrl(url: string)
    requires forall k: nat :: !Stands(url, "://", k)
    ensures SplitHttpScheme(url) == None && SplitOnce(url, "://") == None
  {
    SplitOnceIsFirst(url, "://");
    hide SplitOnce;
    hide Stands;
  }

  lemma {:induction false} SplitOnceHere(a: string, sep: string, b: string)
    requires sep != "" && forall k :: 0 <= k < |a| ==> a[k] != sep[0]
    ensures SplitOnce(a + sep + b, sep) == Some((a, b))
  {
    var s := a + sep + b;
    if a == "" {
      assert s == sep + b;
      assert s[|sep|..] == b;
    } else {
      assert s[0] == a[0] && s[1..] == a[1..] + sep + b;
      SplitOnceHere(a[1..], sep, b);
      assert !(sep <= s);
      assert [a[0]] + a[1..] == a;
    }
  }

  lemma SameAuthority(rest: string, path: string, query: string)
    requires path != "" && path[0] == '/'
    ensures Authority(Authority(rest) + (path + query)) == Authority(rest)
  {
    var a, back := Authority(rest), path + query;
    assert a + back == a + ['/'] + back[1..];
    FindAnyIn(a, '/', back[1..], Delimiters);
    assert (a + back)[..|a|] == a;
  }

  /** Whatever the server answers, a target is an http or https URL; and a reference without
      a scheme keeps the scheme it was served under, a path or query reference also the host,
      so neither can be a downgrade. `://` in a query makes no reference absolute. */
  lemma TargetsStayOnHttp(base: string, location: string)
    requires RedirectTarget(base, location).Some?
    ensures var to := RedirectTarget(base, location).value;
            && SplitHttpScheme(to).Some?
            && (!HasScheme(Reference(location)) ==>
                  SplitHttpScheme(to).value.0 == SplitHttpScheme(base).value.0 && !IsDowngrade(base, to))
            && (!HasScheme(Reference(location)) && !("//" <= Reference(location)) ==>
                  Parse(to).authority == Parse(base).authority)
  {
    TargetStaysOnHttp(base, Reference(location));
  }

  lemma SchemesRead(url: string)
    ensures SplitHttpScheme(url).Some? ==> SplitHttpScheme(url).value.0 == "http" || SplitHttpScheme(url).value.0 == "https"
  {
  }

  lemma TargetStaysOnHttp(base: string, reference: string)
    requires TargetOf(base, reference).Some?
    ensures var to := TargetOf(base, reference).value;
            && SplitHttpScheme(to).Some?
            && (!HasScheme(reference) ==> SplitHttpScheme(to).value.0 == SplitHttpScheme(base).value.0)
            && (!HasScheme(reference) && !("//" <= reference) ==> Parse(to).authority == Parse(base).authority)
  {
    hide FindAny;
    hide MergedPath;
    hide RemoveDots;
    hide SplitHttpScheme;
    hide Parse;
    hide HasScheme;
    SchemesRead(base);
    if !HasScheme(reference) {
      var (scheme, rest) := SplitHttpScheme(base).value;
      var to := TargetOf(base, reference).value;
      if "//" <= reference {
        MadeHttpUrl(scheme, reference[2..]);
      } else {
        HttpParts(base);
        var (path, query) := PathAndQuery(reference);
        var clean := RemoveDots(MergedPath(BasePath(rest), path));
        RemoveDotsIsClean(MergedPath(BasePath(rest), path));
        var back := Authority(rest) + (clean + query);
        assert to == scheme + "://" + back by {
          Regroup(scheme + "://", Authority(rest), clean + query);
        }
        MadeHttpUrl(scheme, back);
        SameAuthority(rest, clean, query);
        HttpParts(to);
      }
    }
  }
}

/**
 Removing dot segments from a URL path (`remove_dot_segments` in src/keydb_fetch.rs),
 against the algorithm of section 5.2.4 of RFC 3986.
 */
module DotSegments {
  import opened Text

  // ---- The code: a stack of segments ---------------------------------------------------

  /** What one segment does to the stack; `last` marks the path's final segment. */
  function Push(stack: seq<string>, segment: string, last: bool): seq<string> {
    if segment == "." || segment == ".." then
      var popped := if segment == ".." && stack != [] then stack[..|stack| - 1] else stack;
      if last then popped + [""] else popped
    else stack + [segment]
  }

  function PushAll(stack: seq<string>, segments: seq<string>): seq<string>
    decreases |segments|
  {
    if segments == [] then stack
    else PushAll(Push(stack, segments[0], |segments| == 1), segments[1..])
  }

  /** `join("/")`. */
  function Join(segments: seq<string>): string {
    if segments == [] then ""
    else if |segments| == 1 then segments[0]
    else segments[0] + "/" + Join(segments[1..])
  }

  function RemoveDots(path: string): string {
    "/" + Join(PushAll([], Split(path, '/')[1..]))
  }

  method RemoveDotSegments(path: string) returns (r: string)
    ensures r == RemoveDots(path)
    ensures path != "" && path[0] == '/' ==> r == RfcRemoveDots(path, "")
  {
    var out: seq<string> := [];
    var segments := Split(path, '/')[1..];
    var i := 0;
    while i < |segments|
      invariant i <= |segments|
      invariant PushAll(out, segments[i..]) == PushAll([], segments)
    {
      var segment, last := segments[i], i + 1 == |segments|;
      if segment == "." || segment == ".." {
        if segment == ".." && out != [] { out := out[..|out| - 1]; }
        if last { out := out + [""]; }
      } else {
        out := out + [segment];
      }
      i := i + 1;
    }
    r := "/" + Join(out);
    if path != "" && path[0] == '/' { StackIsRfc(path); }
  }

  // ---- RFC 3986, section 5.2.4: an input and an output buffer ---------------------------

  /** Step 2C: the output without its last segment and the slash before it, if any. */
  function DropLastSegment(output: string): string {
    var n := AfterLast(output, '/');
    if n == 0 then "" else output[..n - 1]
  }

  /** Step 2E: the length of the first path segment, with its initial slash if it has one. */
  function FirstSegmentLength(input: string): (n: nat)
    requires input != ""
    ensures 0 < n <= |input|
  {
    if input[0] == '/' then 1 + FindAny(input[1..], {'/'}) else FindAny(input, {'/'})
  }

  function RfcRemoveDots(input: string, output: string): string
    decreases |input|
  {
    if input == "" then output
    else if "../" <= input then RfcRemoveDots(input[3..], output)
    else if "./" <= input then RfcRemoveDots(input[2..], output)
    else if "/./" <= input then RfcRemoveDots("/" + input[3..], output)
    else if input == "/." then RfcRemoveDots("/", output)
    else if "/../" <= input then RfcRemoveDots("/" + input[4..], DropLastSegment(output))
    else if input == "/.." then RfcRemoveDots("/", DropLastSegment(output))
    else if input == "." || input == ".." then output
    else
      var n := FirstSegmentLength(input);
      RfcRemoveDots(input[n..], output + input[..n])
  }

  // ---- The two are the same ------------------------------------------------------------

  predicate NoSlash(s: string) { '/' !in s }

  predicate Segments(segments: seq<string>) {
    forall k :: 0 <= k < |segments| ==> NoSlash(segments[k])
  }

  /** Each segment behind its slash. */
  function PathOf(segments: seq<string>): string {
    if segments == [] then "" else "/" + segments[0] + PathOf(segments[1..])
  }

  lemma {:induction false} SplitSegments(s: string)
    ensures Segments(Split(s, '/'))
    ensures PathOf(Split(s, '/')) == "/" + s
    decreases |s|
  {
    hide Split;
    hide PathOf;
    var n := FindAny(s, {'/'});
    if n < |s| {
      var x, rest := s[..n], s[n + 1..];
      SplitSegments(rest);
      assert s == x + ['/'] + rest;
      SplitCons(x, '/', rest);
      PathOfCons(x, Split(rest, '/'));
      assert "/" + x + ("/" + rest) == "/" + s;
    } else {
      SplitWhole(s, '/');
      PathOfOne(s);
    }
  }

  lemma PathOfOne(s: string)
    ensures PathOf([s]) == "/" + s
  {
    assert [s][1..] == [] && "/" + s + "" == "/" + s;
  }

  lemma PathOfCons(x: string, segments: seq<string>)
    ensures PathOf([x] + segments) == "/" + x + PathOf(segments)
  {
    assert ([x] + segments)[1..] == segments;
  }

  lemma SplitRooted(path: string)
    requires path != "" && path[0] == '/'
    ensures |Split(path, '/')| > 1
    ensures Segments(Split(path, '/')[1..])
    ensures PathOf(Split(path, '/')[1..]) == path
  {
    assert FindAny(path, {'/'}) == 0;
    assert Split(path, '/')[1..] == Split(path[1..], '/');
    SplitSegments(path[1..]);
    assert path == "/" + path[1..];
  }

  lemma {:induction false} PathOfSnoc(segments: seq<string>, last: string)
    ensures PathOf(segments + [last]) == PathOf(segments) + "/" + last
  {
    if segments == [] {
      assert [last][1..] == [];
    } else {
      assert (segments + [last])[1..] == segments[1..] + [last];
      PathOfSnoc(segments[1..], last);
    }
  }

  lemma LastSlashAt(s: string, n: nat)
    requires n < |s| && s[n] == '/' && NoSlash(s[n + 1..])
    ensures AfterLast(s, '/') == n + 1
  {
    hide AfterLast;
    var rest := s[n + 1..];
    forall k | n + 1 <= k < |s|
      ensures s[k] != '/'
    {
      assert s[k] == rest[k - n - 1];
    }
  }

  lemma AfterLastIn(a: string, b: string)
    requires NoSlash(b)
    ensures AfterLast(a + "/" + b, '/') == |a| + 1
  {
    hide AfterLast;
    var s := a + "/" + b;
    assert s[|a|] == '/' && s[|a| + 1..] == b;
    LastSlashAt(s, |a|);
  }

  lemma DropLastOfPath(stack: seq<string>)
    requires Segments(stack)
    ensures DropLastSegment(PathOf(stack)) == PathOf(if stack == [] then [] else stack[..|stack| - 1])
  {
    if stack != [] {
      var most, last := stack[..|stack| - 1], stack[|stack| - 1];
      assert stack == most + [last];
      PathOfSnoc(most, last);
      AfterLastIn(PathOf(most), last);
    }
  }

  lemma JoinIsPath(segments: seq<string>)
    requires segments != []
    ensures "/" + Join(segments) == PathOf(segments)
  {
    if |segments| > 1 {
      JoinIsPath(segments[1..]);
      assert "/" + Join(segments) == "/" + segments[0] + ("/" + Join(segments[1..]));
    } else {
      assert segments[1..] == [];
      assert PathOf(segments) == "/" + segments[0] + "";
    }
  }

  /** A text that starts with `dots/` where its own first slash ends `x`. */
  lemma DotPrefix(x: string, more: string, dots: string)
    requires NoSlash(x) && NoSlash(dots) && (more != "" ==> more[0] == '/')
    requires dots + "/" <= x + more
    ensures x == dots && more != ""
  {
    var s := x + more;
    FindAnyNone(x, {'/'});
    assert s == dots + ['/'] + s[|dots| + 1..];
    FindAnyIn(dots, '/', s[|dots| + 1..], {'/'});
    assert s[..|dots|] == dots;
    if more != "" {
      assert s == x + ['/'] + more[1..];
      FindAnyIn(x, '/', more[1..], {'/'});
      assert s[..|x|] == x;
    }
  }

  lemma SlashIn(x: string, more: string)
    ensures more != "" && more[0] == '/' ==> '/' in x + more
  {
    if more != "" && more[0] == '/' { assert (x + more)[|x|] == '/'; }
  }

  lemma DotWhole(x: string, more: string, dots: string)
    requires NoSlash(x) && NoSlash(dots) && (more != "" ==> more[0] == '/')
    requires x + more == dots
    ensures x == dots && more == ""
  {
    SlashIn(x, more);
  }

  /** The path `/x` followed by more segments begins with a dot prefix exactly when `x` is
      that dot segment, and its first segment is `/x`. */
  lemma FirstOfPath(x: string, more: string)
    requires NoSlash(x) && (more != "" ==> more[0] == '/')
    ensures var input := "/" + x + more;
            && ("/./" <= input <==> x == "." && more != "")
            && (input == "/." <==> x == "." && more == "")
            && ("/../" <= input <==> x == ".." && more != "")
            && (input == "/.." <==> x == ".." && more == "")
            && FirstSegmentLength(input) == 1 + |x|
  {
    var input := "/" + x + more;
    assert input[1..] == x + more;
    if more == "" {
      FindAnyNone(x, {'/'});
      assert input[1..] == x;
    } else {
      assert input[1..] == x + ['/'] + more[1..];
      FindAnyIn(x, '/', more[1..], {'/'});
    }
    if "/./" <= input { assert "." + "/" == input[1..][..2]; DotPrefix(x, more, "."); }
    if "/../" <= input { assert ".." + "/" == input[1..][..3]; DotPrefix(x, more, ".."); }
    if input == "/." { assert input[1..] == "."; DotWhole(x, more, "."); }
    if input == "/.." { assert input[1..] == ".."; DotWhole(x, more, ".."); }
  }

  lemma RfcKeepsSegment(x: string, more: string, output: string)
    requires NoSlash(x) && (more != "" ==> more[0] == '/') && x != "." && x != ".."
    ensures RfcRemoveDots("/" + x + more, output) == RfcRemoveDots(more, output + ("/" + x))
  {
    var input := "/" + x + more;
    FirstOfPath(x, more);
    assert input[0] == '/';
    assert input[..1 + |x|] == "/" + x && input[1 + |x|..] == more;
  }

  lemma RfcDropsSegment(x: string, more: string, output: string)
    requires (more != "" ==> more[0] == '/') && (x == "." || x == "..")
    ensures RfcRemoveDots("/" + x + more, output)
            == RfcRemoveDots(if more == "" then "/" else more, if x == "." then output else DropLastSegment(output))
  {
    var input := "/" + x + more;
    FirstOfPath(x, more);
    assert input[0] == '/';
    if more != "" { assert "/" + input[2 + |x|..] == more; }
  }

  lemma RfcStep(x: string, more: string, stack: seq<string>)
    requires NoSlash(x) && (more != "" ==> more[0] == '/') && Segments(stack)
    ensures var popped := if stack == [] then [] else stack[..|stack| - 1];
            var left := if more == "" then "/" else more;
            RfcRemoveDots("/" + x + more, PathOf(stack)) ==
              if x == "." then RfcRemoveDots(left, PathOf(stack))
              else if x == ".." then RfcRemoveDots(left, PathOf(popped))
              else RfcRemoveDots(more, PathOf(stack + [x]))
  {
    hide RfcRemoveDots;
    DropLastOfPath(stack);
    if x == "." || x == ".." {
      RfcDropsSegment(x, more, PathOf(stack));
    } else {
      RfcKeepsSegment(x, more, PathOf(stack));
      PathOfSnoc(stack, x);
      assert PathOf(stack) + ("/" + x) == PathOf(stack + [x]);
    }
  }

  lemma RfcFinalSlash(stack: seq<string>)
    ensures RfcRemoveDots("/", PathOf(stack)) == PathOf(stack + [""])
  {
    FirstOfPath("", "");
    PathOfSnoc(stack, "");
    assert RfcRemoveDots("/", PathOf(stack)) == RfcRemoveDots("", PathOf(stack) + "/");
  }

  lemma {:induction false} RfcOfPath(stack: seq<string>, segments: seq<string>)
    requires Segments(stack) && Segments(segments)
    ensures RfcRemoveDots(PathOf(segments), PathOf(stack)) == PathOf(PushAll(stack, segments))
    decreases |segments|
  {
    if segments != [] {
      var x, rest := segments[0], segments[1..];
      var more := PathOf(rest);
      var popped := if stack == [] then [] else stack[..|stack| - 1];
      assert more != "" <==> rest != [];
      RfcStep(x, more, stack);
      if x == "." || x == ".." {
        var next := if x == "." then stack else popped;
        if rest == [] { RfcFinalSlash(next); } else { RfcOfPath(next, rest); }
      } else {
        RfcOfPath(stack + [x], rest);
      }
    }
  }

  lemma {:induction false} PushAllNonEmpty(stack: seq<string>, segments: seq<string>)
    requires segments != []
    ensures PushAll(stack, segments) != []
    decreases |segments|
  {
    if |segments| > 1 {
      PushAllNonEmpty(Push(stack, segments[0], false), segments[1..]);
    }
  }

  /** On every path that starts with a slash, the stack computes what section 5.2.4 does. */
  lemma StackIsRfc(path: string)
    requires path != "" && path[0] == '/'
    ensures RemoveDots(path) == RfcRemoveDots(path, "")
  {
    var segments := Split(path, '/')[1..];
    SplitRooted(path);
    PushAllNonEmpty([], segments);
    JoinIsPath(PushAll([], segments));
    RfcOfPath([], segments);
  }

  // ---- What is left has no dot segment ---------------------------------------------------

  predicate DotFree(segments: seq<string>) {
    forall k :: 0 <= k < |segments| ==> segments[k] != "." && segments[k] != ".."
  }

  lemma {:induction false} PushAllDotFree(stack: seq<string>, segments: seq<string>)
    requires Segments(stack) && DotFree(stack) && Segments(segments)
    ensures Segments(PushAll(stack, segments)) && DotFree(PushAll(stack, segments))
    decreases |segments|
  {
    if segments != [] {
      PushAllDotFree(Push(stack, segments[0], |segments| == 1), segments[1..]);
    }
  }

  lemma {:induction false} PushAllKeeps(stack: seq<string>, segments: seq<string>)
    requires DotFree(segments)
    ensures PushAll(stack, segments) == stack + segments
    decreases |segments|
  {
    if segments != [] {
      PushAllKeeps(stack + [segments[0]], segments[1..]);
      assert stack + [segments[0]] + segments[1..] == stack + segments;
    }
  }

  lemma {:induction false} SplitJoin(segments: seq<string>)
    requires segments != [] && Segments(segments)
    ensures Split(Join(segments), '/') == segments
  {
    if |segments| == 1 {
      SplitWhole(segments[0], '/');
    } else {
      SplitJoin(segments[1..]);
      SplitCons(segments[0], '/', Join(segments[1..]));
    }
  }

  lemma SplitRoot(s: string)
    ensures Split("/" + s, '/') == [""] + Split(s, '/')
  {
    SplitCons("", '/', s);
    assert "" + ['/'] + s == "/" + s;
  }

  /** The result is rooted, none of its segments is `.` or `..`, and removing the dot
      segments of the result again changes nothing. */
  lemma RemoveDotsIsClean(path: string)
    ensures var r := RemoveDots(path);
            && r != "" && r[0] == '/'
            && DotFree(Split(r, '/'))
            && RemoveDots(r) == r
  {
    hide Split;
    SplitSegments(path);
    var segments := Split(path, '/')[1..];
    var out := PushAll([], segments);
    PushAllDotFree([], segments);
    var kept := if out == [] then [""] else out;
    assert Join(kept) == Join(out);
    CleanJoin(kept);
  }

  lemma CleanJoin(kept: seq<string>)
    requires kept != [] && Segments(kept) && DotFree(kept)
    ensures var r := "/" + Join(kept);
            DotFree(Split(r, '/')) && RemoveDots(r) == r
  {
    hide Split;
    hide Join;
    hide PushAll;
    SplitJoin(kept);
    SplitRoot(Join(kept));
    PushAllKeeps([], kept);
    assert ([""] + kept)[1..] == kept && [] + kept == kept;
  }

  /** A rooted path is left alone exactly when it has no dot segment. */
  lemma UnchangedExactlyWhenDotFree(path: string)
    requires path != "" && path[0] == '/'
    ensures RemoveDots(path) == path <==> DotFree(Split(path, '/'))
  {
    RemoveDotsIsClean(path);
    if DotFree(Split(path, '/')) {
      var segments := Split(path, '/')[1..];
      SplitRooted(path);
      PushAllKeeps([], segments);
      assert [] + segments == segments;
      JoinIsPath(segments);
    }
  }
}

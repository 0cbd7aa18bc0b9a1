/**
 Output names (`sanitize_label`, `is_windows_reserved` and `title_basename` in src/engine.rs):
 one usable file name component, whatever the disc's label and the template hold.
 */
module TitleNames {
  import opened Text

  // ---- Sanitising --------------------------------------------------------------------------

  predicate Unusable(c: char) {
    c == '/' || c == '\\' || c == ':' || c == '<' || c == '>' || c == '"' || c == '|' || c == '?' || c == '*'
    || IsControl(c)
  }

  function CleanChar(c: char): char { if Unusable(c) then '_' else c }

  function Clean(s: string): (r: string)
    ensures |r| == |s|
    ensures forall k :: 0 <= k < |s| ==> r[k] == CleanChar(s[k])
  {
    seq(|s|, k requires 0 <= k < |s| => CleanChar(s[k]))
  }

  lemma CleanSlice(x: string, i: nat, j: nat)
    requires i <= j <= |x|
    ensures Clean(x)[i..j] == Clean(x[i..j])
  {
    hide CleanChar;
  }

  predicate DotOrSpace(c: char) { c == '.' || c == ' ' }

  /** `trim_end_matches(['.', ' '])`. */
  function TrimDots(s: string): (r: string)
    ensures r <= s
    ensures r != "" ==> !DotOrSpace(r[|r| - 1])
  {
    if s != "" && DotOrSpace(s[|s| - 1]) then TrimDots(s[..|s| - 1]) else s
  }

  /** The text before the first dot. */
  function Stem(s: string): string { s[..FindAny(s, {'.'})] }

  /** A DOS device name, of either case. */
  predicate IsWindowsReserved(stem: string) {
    var s := Upper(stem);
    s == "CON" || s == "PRN" || s == "AUX" || s == "NUL"
    || (("COM" <= s || "LPT" <= s) && |s| == 4 && IsDigit(s[3]) && s[3] != '0')
  }

  function Trimmed(volume: string): string { TrimDots(Trim(Clean(volume))) }

  function SanitizeLabel(volume: string): string {
    if volume == "." || volume == ".." then "disc"
    else
      var trimmed := Trimmed(volume);
      if trimmed == "" then "disc"
      else if IsWindowsReserved(Stem(trimmed)) then "_" + trimmed
      else trimmed
  }

  // ---- The template --------------------------------------------------------------------------

  /** `str::replace`. */
  function Replace(s: string, pattern: string, filler: string): string
    requires pattern != ""
    decreases |s|
  {
    if s == "" then ""
    else if pattern <= s then filler + Replace(s[|pattern|..], pattern, filler)
    else [s[0]] + Replace(s[1..], pattern, filler)
  }

  function Hole(): (r: string)
    ensures |r| == 3
  {
    "{n}"
  }

  function TitleBasename(template: string, volume: string, n: nat): string {
    var volume := SanitizeLabel(volume);
    var t := Trim(template);
    if t == "" then volume + "_t" + Decimal(n)
    else
      var name := Replace(t, "{title}", volume);
      SanitizeLabel(if Contains(name, Hole()) then Replace(name, Hole(), Decimal(n)) else name + "_t" + Decimal(n))
  }

  // ---- The file name is one usable component ---------------------------------------------------

  /** One path component on every platform: not empty, no separator, drive colon, wildcard,
      redirect or control character, no trailing dot or space, not `.` or `..`, and no DOS
      device name. */
  predicate Usable(s: string) {
    && s != "" && s != "." && s != ".."
    && (forall k :: 0 <= k < |s| ==> !Unusable(s[k]))
    && !DotOrSpace(s[|s| - 1])
    && !IsWindowsReserved(Stem(s))
  }

  // ---- Usable, spelled out --------------------------------------------------------------------

  /** What no file name holds: separators, the drive colon, redirects, wildcards and the quote,
      and the control characters below the space and from 7F to 9F. */
  predicate Forbidden(c: char) { c in "/\\:<>|?*\"" || c < ' ' || '\U{007F}' <= c <= '\U{009F}' }

  const Consoles: set<string> := {"CON", "PRN", "AUX", "NUL"}

  /** Nine ports of a kind, numbered from 1. */
  function Ports(letters: string): set<string> { set c: char | '1' <= c <= '9' :: letters + [c] }

  /** The first `n` characters name a device, and the name ends there or has a dot there. */
  predicate NamesDevice(s: string, n: nat) {
    && n <= |s| && (n == |s| || s[n] == '.')
    && Upper(s[..n]) in Consoles + Ports("COM") + Ports("LPT")
  }

  lemma ForbiddenExactly(c: char)
    ensures Unusable(c) <==> Forbidden(c)
  {
    var all := "/\\:<>|?*\"";
    assert all[0] == '/' && all[1] == '\\' && all[2] == ':' && all[3] == '<' && all[4] == '>';
    assert all[5] == '|' && all[6] == '?' && all[7] == '*' && all[8] == '"';
  }

  lemma ConsolesExactly(u: string)
    ensures u in Consoles <==> u == "CON" || u == "PRN" || u == "AUX" || u == "NUL"
  {
  }

  lemma PortsExactly(u: string, letters: string)
    ensures u in Ports(letters) <==> letters <= u && |u| == |letters| + 1 && '1' <= u[|letters|] <= '9'
  {
    if letters <= u && |u| == |letters| + 1 { assert u == letters + [u[|letters|]]; }
  }

  lemma DevicesExactly(stem: string)
    ensures IsWindowsReserved(stem)
            <==> Upper(stem) in Consoles + Ports("COM") + Ports("LPT")
  {
    ConsolesExactly(Upper(stem));
    PortsExactly(Upper(stem), "COM");
    PortsExactly(Upper(stem), "LPT");
    hide Upper;
    hide Ports;
  }

  lemma NoDotInDevices(stem: string)
    requires IsWindowsReserved(stem)
    ensures '.' !in stem
  {
    var u := Upper(stem);
    assert |u| == 3 || |u| == 4;
    forall k | 0 <= k < |stem| ensures stem[k] != '.' {
      assert u[k] == UpperChar(stem[k]);
      assert k == 0 || k == 1 || k == 2 || k == 3;
    }
  }

  lemma StemNamesDevice(s: string)
    ensures IsWindowsReserved(Stem(s)) <==> exists n: nat :: NamesDevice(s, n)
  {
    DevicesExactly(Stem(s));
    var m := FindAny(s, {'.'});
    if IsWindowsReserved(Stem(s)) {
      assert NamesDevice(s, m);
    }
    forall n: nat | NamesDevice(s, n) ensures n == m { DeviceEndsAtStem(s, n); }
    hide IsWindowsReserved;
    hide Upper;
    hide Ports;
  }

  lemma DeviceEndsAtStem(s: string, n: nat)
    requires NamesDevice(s, n)
    ensures n == FindAny(s, {'.'})
  {
    DevicesExactly(s[..n]);
    NoDotInDevices(s[..n]);
    FirstDot(s, n);
    hide Upper;
    hide Ports;
    hide IsWindowsReserved;
  }

  lemma FirstDot(s: string, n: nat)
    requires n <= |s| && '.' !in s[..n] && (n == |s| || s[n] == '.')
    ensures n == FindAny(s, {'.'})
  {
    assert forall k :: 0 <= k < n ==> s[k] == s[..n][k];
    if n == |s| {
      FindAnyNone(s, {'.'});
    } else {
      assert s == s[..n] + [s[n]] + s[n + 1..];
      FindAnyIn(s[..n], s[n], s[n + 1..], {'.'});
    }
  }

  /** A usable component, character by character and name by name. */
  lemma UsableExactly(s: string)
    ensures Usable(s)
            <==> && s != "" && (forall k :: 0 <= k < |s| ==> !Forbidden(s[k]))
                 && s[|s| - 1] != '.' && s[|s| - 1] != ' '
                 && (forall n: nat :: !NamesDevice(s, n))
  {
    StemNamesDevice(s);
    forall k | 0 <= k < |s| ensures Unusable(s[k]) <==> Forbidden(s[k]) { ForbiddenExactly(s[k]); }
    hide Unusable;
    hide Forbidden;
    hide IsWindowsReserved;
    hide Stem;
    hide NamesDevice;
  }

  /** Cleaning changes exactly the forbidden characters, into underscores. */
  lemma CleanExactly(s: string)
    ensures |Clean(s)| == |s|
    ensures forall k :: 0 <= k < |s| ==> Clean(s)[k] == if Forbidden(s[k]) then '_' else s[k]
  {
    forall k | 0 <= k < |s| ensures Clean(s)[k] == if Forbidden(s[k]) then '_' else s[k] { ForbiddenExactly(s[k]); }
  }

  lemma DeviceHasNoUnderscore(stem: string, k: nat)
    requires IsWindowsReserved(stem) && k < |stem|
    ensures stem[k] != '_'
  {
    var u := Upper(stem);
    assert |u| == 3 || |u| == 4;
    assert u[k] == UpperChar(stem[k]);
    assert k == 0 || k == 1 || k == 2 || k == 3;
  }

  lemma UnderscoreIsNoDevice(s: string, k: nat)
    requires k < |Stem(s)| && Stem(s)[k] == '_'
    ensures !IsWindowsReserved(Stem(s))
  {
    if IsWindowsReserved(Stem(s)) { DeviceHasNoUnderscore(Stem(s), k); }
  }

  lemma {:induction false} TrimmedIsClean(volume: string)
    ensures forall k :: 0 <= k < |Trimmed(volume)| ==> !Unusable(Trimmed(volume)[k])
    ensures Trimmed(volume) != "" ==> !DotOrSpace(Trimmed(volume)[|Trimmed(volume)| - 1])
    ensures Trimmed(volume) != "" ==> !IsWhitespace(Trimmed(volume)[0])
  {
    hide IsWhitespace;
    hide DotOrSpace;
    hide TrimEnd;
    hide TrimStart;
    hide TrimDots;
    var c := Clean(volume);
    var a := TrimStart(c);
    var b := TrimEnd(a);
    var d := TrimDots(b);
    assert forall k :: 0 <= k < |c| ==> !Unusable(c[k]);
    assert forall k :: 0 <= k < |a| ==> a[k] == c[|c| - |a| + k];
    assert forall k :: 0 <= k < |d| ==> d[k] == b[k] && b[k] == a[k];
  }

  lemma DiscIsUsable()
    ensures Usable("disc")
  {
    assert FindAny("disc", {'.'}) == 4 by { FindAnyNone("disc", {'.'}); }
    assert Stem("disc") == "disc";
    assert Upper("disc") == "DISC";
  }

  lemma PrefixedStem(s: string)
    ensures Stem("_" + s) == "_" + Stem(s)
  {
    var p := "_" + s;
    assert p[1..] == s;
    assert FindAny(p, {'.'}) == 1 + FindAny(s, {'.'});
  }

  /** Whatever the disc's label holds, the result is one usable component. */
  lemma SanitizeIsUsable(volume: string)
    ensures Usable(SanitizeLabel(volume))
  {
    hide Trimmed;
    hide IsWindowsReserved;
    hide Unusable;
    hide Stem;
    DiscIsUsable();
    TrimmedIsClean(volume);
    var t := Trimmed(volume);
    if t != "" {
      PrefixedStem(t);
      NotADot(t);
      UnderscoreFirst(t);
    }
  }

  lemma NotADot(t: string)
    requires t != "" && !DotOrSpace(t[|t| - 1])
    ensures t != "." && t != ".." && "_" + t != "." && "_" + t != ".."
  {
    assert ("_" + t)[0] == '_';
  }

  lemma UnderscoreFirst(t: string)
    requires t != ""
    ensures !IsWindowsReserved(Stem("_" + t)) && !Unusable('_')
  {
    hide IsWindowsReserved;
    UnderscoreIsPlain();
    var s := "_" + t;
    assert s[0] == '_';
    StemStarts(s);
    UnderscoreIsNoDevice(s, 0);
  }

  /** Sanitising changes nothing exactly when the label was a usable component already, with
      no white space to trim. */
  lemma SanitizeKeepsExactlyUsable(s: string)
    ensures SanitizeLabel(s) == s
            <==> Usable(s) && !IsWhitespace(s[0]) && !IsWhitespace(s[|s| - 1])
  {
    hide SanitizeLabel;
    hide IsWhitespace;
    hide Usable;
    if SanitizeLabel(s) == s {
      SanitizeIsUsable(s);
      FixedIsTrimmed(s);
    }
    UsableIsNotEmpty(s);
    if Usable(s) && !IsWhitespace(s[0]) && !IsWhitespace(s[|s| - 1]) { UsableIsKept(s); }
  }

  lemma UsableIsNotEmpty(s: string)
    ensures Usable(s) ==> s != ""
  {
  }

  lemma UsableIsKept(s: string)
    requires Usable(s) && !IsWhitespace(s[0]) && !IsWhitespace(s[|s| - 1])
    ensures SanitizeLabel(s) == s
  {
    hide IsWhitespace;
    hide IsWindowsReserved;
    hide DotOrSpace;
    hide Stem;
    assert forall k :: 0 <= k < |s| ==> CleanChar(s[k]) == s[k];
    hide CleanChar;
    hide Unusable;
    assert Clean(s) == s;
    assert TrimStart(s) == s && TrimEnd(s) == s && TrimDots(s) == s;
  }

  lemma {:induction false} FixedIsTrimmed(s: string)
    requires SanitizeLabel(s) == s
    ensures s != "" && !IsWhitespace(s[0]) && !IsWhitespace(s[|s| - 1])
  {
    hide IsWhitespace;
    hide IsWindowsReserved;
    hide Unusable;
    hide DotOrSpace;
    hide TrimEnd;
    hide TrimStart;
    hide TrimDots;
    DiscIsTrimmed();
    if s != "disc" {
      var t := Trimmed(s);
      TrimmedLength(s);
      if t != s {
        assert s == "_" + t;
        UnderscoreKept(t);
      }
      WholeIsTrimmed(s);
    }
  }

  lemma DiscIsTrimmed()
    ensures !IsWhitespace('d') && !IsWhitespace('c')
  {
  }

  lemma TrimmedLength(s: string)
    ensures |Trimmed(s)| <= |s|
  {
  }

  /** Behind a leading underscore nothing is a device name, so none is put in front. */
  lemma UnderscoreKept(t: string)
    requires t != "" && Trimmed("_" + t) == t
    ensures !IsWindowsReserved(Stem(t))
  {
    hide IsWindowsReserved;
    var s := "_" + t;
    FirstIsKept(s);
    assert t[0] == '_';
    StemStarts(t);
    UnderscoreIsNoDevice(t, 0);
  }

  lemma UnderscoreIsPlain()
    ensures CleanChar('_') == '_' && !IsWhitespace('_') && !Unusable('_')
  {
  }

  lemma FirstIsKept(s: string)
    requires s != "" && s[0] == '_'
    ensures Trimmed(s) != "" ==> Trimmed(s)[0] == '_'
  {
    hide CleanChar;
    hide IsWhitespace;
    hide TrimEnd;
    hide TrimDots;
    UnderscoreIsPlain();
    var c := Clean(s);
    assert c[0] == '_';
    assert TrimStart(c) == c;
    assert TrimDots(TrimEnd(c)) <= c;
  }

  lemma StemStarts(s: string)
    requires s != "" && s[0] != '.'
    ensures Stem(s) != "" && Stem(s)[0] == s[0]
  {
  }

  lemma WholeIsTrimmed(s: string)
    requires Trimmed(s) == s && s != ""
    ensures !IsWhitespace(s[0]) && !IsWhitespace(s[|s| - 1])
  {
    hide IsWhitespace;
    hide DotOrSpace;
    hide Unusable;
    var c := Clean(s);
    assert TrimStart(c) == c && TrimEnd(c) == c && TrimDots(c) == c;
  }

  lemma DigitsAreKept(d: string)
    requires forall k :: 0 <= k < |d| ==> IsDigit(d[k])
    ensures forall k :: 0 <= k < |d| ==> !Unusable(d[k]) && !IsWhitespace(d[k]) && !DotOrSpace(d[k]) && CleanChar(d[k]) == d[k]
  {
  }

  /** On every branch, the default name included, a title's name is one usable component. */
  lemma BasenameIsUsable(template: string, volume: string, n: nat)
    ensures Usable(TitleBasename(template, volume, n))
  {
    hide SanitizeLabel;
    hide Usable;
    hide Decimal;
    hide Replace;
    var l := SanitizeLabel(volume);
    SanitizeIsUsable(volume);
    DefaultIsUsable(l, Decimal(n));
    forall name: string
      ensures Usable(SanitizeLabel(name))
    {
      SanitizeIsUsable(name);
    }
  }

  lemma DefaultIsUsable(volume: string, d: string)
    requires Usable(volume) && d != "" && forall k :: 0 <= k < |d| ==> IsDigit(d[k])
    ensures Usable(volume + "_t" + d)
  {
    hide IsWindowsReserved;
    hide Unusable;
    hide DotOrSpace;
    hide IsDigit;
    DigitsAreKept(d);
    var s := volume + "_t" + d;
    var tail := "_t" + d;
    assert s == volume + tail;
    TailIsUsable(d);
    assert s[|s| - 1] == d[|d| - 1];
    NotADot(s);
    if FindAny(volume, {'.'}) < |volume| {
      DottedStem(volume, tail);
    } else {
      PlainStem(volume, tail);
      assert Stem(s)[|volume|] == '_';
      UnderscoreIsNoDevice(s, |volume|);
    }
  }

  lemma TailIsUsable(d: string)
    requires forall k :: 0 <= k < |d| ==> !Unusable(d[k])
    ensures var tail := "_t" + d; tail[0] == '_' && forall k :: 0 <= k < |tail| ==> !Unusable(tail[k])
  {
  }

  lemma {:induction false} DottedStem(volume: string, tail: string)
    requires FindAny(volume, {'.'}) < |volume|
    ensures Stem(volume + tail) == Stem(volume)
  {
    FindFirst(volume, tail);
    var n := FindAny(volume, {'.'});
    assert (volume + tail)[..n] == volume[..n];
  }

  lemma {:induction false} FindFirst(volume: string, tail: string)
    ensures FindAny(volume + tail, {'.'}) == if FindAny(volume, {'.'}) < |volume| then FindAny(volume, {'.'}) else |volume| + FindAny(tail, {'.'})
  {
    if volume == "" {
      assert volume + tail == tail;
    } else {
      FindFirst(volume[1..], tail);
      assert (volume + tail)[1..] == volume[1..] + tail;
    }
  }

  lemma PlainStem(volume: string, tail: string)
    requires FindAny(volume, {'.'}) == |volume| && tail != "" && tail[0] != '.'
    ensures |volume| < |Stem(volume + tail)| && Stem(volume + tail)[|volume|] == tail[0]
  {
    FindFirst(volume, tail);
  }

  lemma EmptyFront(s: string)
    ensures "" + s == s && s + "" == s
  {
  }

  /** A character that sanitising trims. */
  predicate Outer(c: char) { IsWhitespace(CleanChar(c)) || DotOrSpace(CleanChar(c)) }

  /** The stretch of a label between the outer characters trimmed off its ends. */
  ghost predicate Stretch(volume: string, i: nat, j: nat) {
    && i <= j <= |volume|
    && (forall k :: 0 <= k < |volume| && !(i <= k < j) ==> Outer(volume[k]))
    && Trimmed(volume) == Clean(volume[i..j])
  }

  lemma TrimmedIsAStretch(volume: string) returns (i: nat, j: nat)
    ensures Stretch(volume, i, j)
  {
    hide CleanChar;
    hide IsWhitespace;
    hide DotOrSpace;
    hide TrimStart;
    hide TrimEnd;
    hide TrimDots;
    var c := Clean(volume);
    var a, b := TrimStart(c), TrimEnd(TrimStart(c));
    var d := TrimDots(b);
    OutsideStart(c);
    OutsideEnd(a);
    OutsideDots(b);
    OutsideAll(c, a, b, d);
    i := |c| - |a|;
    j := i + |d|;
    CleanSlice(volume, i, j);
    forall k | 0 <= k < |volume| && !(i <= k < j)
      ensures Outer(volume[k])
    {
      assert c[k] == CleanChar(volume[k]);
    }
  }

  /** What sanitising keeps of any label: the stretch between white space, dots and spaces,
      character by character, only unusable ones becoming underscores, and an underscore in
      front exactly when that would be a device name. Only `.`, `..` and a label of which
      nothing is left become another name. */
  lemma SanitizeKeepsAStretch(volume: string) returns (i: nat, j: nat)
    ensures Stretch(volume, i, j)
    ensures i < j ==> !IsWhitespace(CleanChar(volume[i])) && !DotOrSpace(CleanChar(volume[j - 1]))
    ensures SanitizeLabel(volume)
            == if volume == "." || volume == ".." || i == j then "disc"
               else (if IsWindowsReserved(Stem(Clean(volume[i..j]))) then "_" else "") + Clean(volume[i..j])
  {
    hide IsWindowsReserved;
    hide Stem;
    hide CleanChar;
    hide IsWhitespace;
    hide DotOrSpace;
    hide Trimmed;
    hide Stretch;
    i, j := TrimmedIsAStretch(volume);
    StretchEnds(volume, i, j);
    EmptyFront(Trimmed(volume));
  }

  lemma StretchEnds(volume: string, i: nat, j: nat)
    requires Stretch(volume, i, j)
    ensures i <= j <= |volume| && Trimmed(volume) == Clean(volume[i..j])
    ensures i < j ==> !IsWhitespace(CleanChar(volume[i])) && !DotOrSpace(CleanChar(volume[j - 1]))
  {
    hide CleanChar;
    hide IsWhitespace;
    hide DotOrSpace;
    hide Outer;
    hide Trimmed;
    hide Unusable;
    TrimmedIsClean(volume);
    if i < j {
      var c := Clean(volume[i..j]);
      assert c[0] == CleanChar(volume[i]) && c[|c| - 1] == CleanChar(volume[j - 1]);
    }
  }

  lemma {:induction false} OutsideStart(c: string)
    ensures forall k :: 0 <= k < |c| - |TrimStart(c)| ==> IsWhitespace(c[k])
  {
    hide IsWhitespace;
    if c != "" && IsWhitespace(c[0]) {
      OutsideStart(c[1..]);
      forall k | 0 <= k < |c| - |TrimStart(c)|
        ensures IsWhitespace(c[k])
      {
        if k > 0 { assert c[k] == c[1..][k - 1]; }
      }
    }
  }

  lemma {:induction false} OutsideEnd(c: string)
    ensures forall k :: |TrimEnd(c)| <= k < |c| ==> IsWhitespace(c[k])
  {
    hide IsWhitespace;
    if c != "" && IsWhitespace(c[|c| - 1]) { OutsideEnd(c[..|c| - 1]); }
  }

  lemma {:induction false} OutsideDots(c: string)
    ensures forall k :: |TrimDots(c)| <= k < |c| ==> DotOrSpace(c[k])
  {
    hide DotOrSpace;
    if c != "" && DotOrSpace(c[|c| - 1]) { OutsideDots(c[..|c| - 1]); }
  }

  lemma OutsideAll(c: string, a: string, b: string, d: string)
    requires |a| <= |c| && a == c[|c| - |a|..] && b <= a && d <= b
    requires forall k :: 0 <= k < |c| - |a| ==> IsWhitespace(c[k])
    requires forall k :: |b| <= k < |a| ==> IsWhitespace(a[k])
    requires forall k :: |d| <= k < |b| ==> DotOrSpace(b[k])
    ensures var i := |c| - |a|;
            && c[i..i + |d|] == d
            && forall k :: 0 <= k < |c| && !(i <= k < i + |d|) ==> IsWhitespace(c[k]) || DotOrSpace(c[k])
  {
    hide IsWhitespace;
    hide DotOrSpace;
    var i := |c| - |a|;
    forall k | 0 <= k < |c| && !(i <= k < i + |d|)
      ensures IsWhitespace(c[k]) || DotOrSpace(c[k])
    {
      if k >= i {
        assert c[k] == a[k - i];
        if k - i < |b| { assert a[k - i] == b[k - i]; }
      }
    }
  }
}

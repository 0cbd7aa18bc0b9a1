/** String operations of the Rust standard library that the modelled code calls. */
module Text {
  import opened Basics

  /** Index of the first character of `s` in `stops`, or `|s|`. */
  function FindAny(s: string, stops: set<char>): (n: nat)
    ensures n <= |s|
    ensures forall k :: 0 <= k < n ==> s[k] !in stops
    ensures n < |s| ==> s[n] in stops
  {
    if s == [] || s[0] in stops then 0 else 1 + FindAny(s[1..], stops)
  }

  /** `str::split` on one character. */
  function Split(s: string, c: char): (parts: seq<string>)
    ensures |parts| >= 1
    decreases |s|
  {
    var n := FindAny(s, {c});
    if n == |s| then [s] else [s[..n]] + Split(s[n + 1..], c)
  }

  /** `str::split_once`: around the first occurrence of `sep`. */
  function SplitOnce(s: string, sep: string): (r: Option<(string, string)>)
    ensures r.Some? ==> s == r.value.0 + sep + r.value.1
  {
    if sep <= s then
      assert s == "" + sep + s[|sep|..];
      Some(("", s[|sep|..]))
    else if s == [] then None
    else
      match SplitOnce(s[1..], sep)
      case None => None
      case Some((a, b)) =>
        assert s == [s[0]] + s[1..];
        assert s == ([s[0]] + a) + sep + b;
        Some(([s[0]] + a, b))
  }

  /** Index past the last `c` in `s`, or 0. */
  function AfterLast(s: string, c: char): (n: nat)
    ensures n <= |s|
    ensures n > 0 ==> s[n - 1] == c
    ensures forall k :: n <= k < |s| ==> s[k] != c
  {
    if s == [] then 0
    else if s[|s| - 1] == c then |s|
    else AfterLast(s[..|s| - 1], c)
  }

  /** `str::contains`. */
  predicate Contains(s: string, pattern: string) {
    pattern <= s || (s != "" && Contains(s[1..], pattern))
  }

  /** `sep` stands in `s` at `k`. */
  predicate Stands(s: string, sep: string, k: nat) { k + |sep| <= |s| && s[k..k + |sep|] == sep }

  /** `split_once` takes the first place where the separator stands, and fails exactly when it
      stands nowhere. */
  lemma {:induction false} SplitOnceIsFirst(s: string, sep: string)
    requires sep != ""
    ensures SplitOnce(s, sep).None? ==> forall k: nat :: !Stands(s, sep, k)
    ensures SplitOnce(s, sep).Some? ==>
              && Stands(s, sep, |SplitOnce(s, sep).value.0|)
              && forall k: nat :: k < |SplitOnce(s, sep).value.0| ==> !Stands(s, sep, k)
  {
    StandsFirst(s, sep);
    if !(sep <= s) && s != [] {
      SplitOnceIsFirst(s[1..], sep);
      forall k: nat ensures Stands(s, sep, k + 1) <==> Stands(s[1..], sep, k) { StandsBehind(s, sep, k); }
      forall k: nat ensures Stands(s, sep, k) ==> k > 0 && Stands(s[1..], sep, k - 1) {
        if k > 0 { StandsBehind(s, sep, k - 1); }
      }
    }
  }

  lemma StandsFirst(s: string, sep: string)
    ensures Stands(s, sep, 0) <==> sep <= s
  {
    if sep <= s { assert s[0..|sep|] == sep; }
  }

  lemma StandsBehind(s: string, sep: string, k: nat)
    requires s != ""
    ensures Stands(s, sep, k + 1) <==> Stands(s[1..], sep, k)
  {
    if k + 1 + |sep| <= |s| { assert s[k + 1..k + 1 + |sep|] == s[1..][k..k + |sep|]; }
  }

  lemma {:induction false} ContainsExactly(s: string, pattern: string)
    ensures Contains(s, pattern) <==> exists k: nat :: Stands(s, pattern, k)
  {
    StandsFirst(s, pattern);
    if s == "" {
      assert forall k: nat :: Stands(s, pattern, k) ==> k == 0;
    } else {
      ContainsExactly(s[1..], pattern);
      if k: nat :| Stands(s[1..], pattern, k) { StandsBehind(s, pattern, k); }
      if k: nat :| Stands(s, pattern, k) {
        if k > 0 { StandsBehind(s, pattern, k - 1); }
      }
    }
  }

  /** The Unicode `White_Space` property, which `str::trim` strips. */
  predicate IsWhitespace(c: char) {
    '\U{0009}' <= c <= '\U{000D}' || c == ' ' || c == '\U{0085}' || c == '\U{00A0}' || c == '\U{1680}'
    || '\U{2000}' <= c <= '\U{200A}' || c == '\U{2028}' || c == '\U{2029}' || c == '\U{202F}'
    || c == '\U{205F}' || c == '\U{3000}'
  }

  /** `char::is_control`: the Unicode category Cc. */
  predicate IsControl(c: char) {
    c <= '\U{001F}' || '\U{007F}' <= c <= '\U{009F}'
  }

  predicate IsDigit(c: char) { '0' <= c <= '9' }

  function TrimStart(s: string): (r: string)
    ensures r != "" ==> !IsWhitespace(r[0])
    ensures |r| <= |s| && r == s[|s| - |r|..]
  {
    if s != [] && IsWhitespace(s[0]) then TrimStart(s[1..]) else s
  }

  function TrimEnd(s: string): (r: string)
    ensures r != "" ==> !IsWhitespace(r[|r| - 1])
    ensures r <= s
  {
    if s != [] && IsWhitespace(s[|s| - 1]) then TrimEnd(s[..|s| - 1]) else s
  }

  /** `str::trim`. */
  function Trim(s: string): string { TrimEnd(TrimStart(s)) }

  function LowerChar(c: char): char {
    if 'A' <= c <= 'Z' then (c as int + 32) as char else c
  }

  function UpperChar(c: char): char {
    if 'a' <= c <= 'z' then (c as int - 32) as char else c
  }

  /** `str::to_ascii_lowercase`. */
  function Lower(s: string): (r: string)
    ensures |r| == |s|
    ensures forall k :: 0 <= k < |s| ==> r[k] == LowerChar(s[k])
  {
    seq(|s|, k requires 0 <= k < |s| => LowerChar(s[k]))
  }

  /** `str::to_ascii_uppercase`. */
  function Upper(s: string): (r: string)
    ensures |r| == |s|
    ensures forall k :: 0 <= k < |s| ==> r[k] == UpperChar(s[k])
  {
    seq(|s|, k requires 0 <= k < |s| => UpperChar(s[k]))
  }

  // ---- Decimal numbers ---------------------------------------------------------------------

  /** `{}` of a number. */
  function Decimal(n: nat): (r: string)
    ensures r != ""
    ensures forall k :: 0 <= k < |r| ==> IsDigit(r[k])
  {
    (if n < 10 then "" else Decimal(n / 10)) + [('0' as int + n % 10) as char]
  }

  /** `{:02}` of a number. */
  function TwoDigits(n: nat): string { if n < 10 then "0" + Decimal(n) else Decimal(n) }

  ghost function Value(s: string): int {
    if s == "" then 0 else 10 * Value(s[..|s| - 1]) + (s[|s| - 1] as int - '0' as int)
  }

  /** A number's digits are its value, without a zero in front. */
  lemma {:induction false} DecimalReadsBack(n: nat)
    ensures Value(Decimal(n)) == n
    ensures Decimal(n)[0] != '0' || |Decimal(n)| == 1
    ensures Decimal(n)[0] == '0' ==> n == 0
  {
    if n >= 10 {
      DecimalReadsBack(n / 10);
      assert Decimal(n)[..|Decimal(n)| - 1] == Decimal(n / 10);
    }
  }

  /** ... and with a zero in front exactly where there would be one digit only. */
  lemma TwoDigitsReadBack(n: nat)
    ensures Value(TwoDigits(n)) == n
    ensures |TwoDigits(n)| >= 2 && (|TwoDigits(n)| == 2 || TwoDigits(n)[0] != '0')
  {
    DecimalReadsBack(n);
    if n < 10 {
      var d := Decimal(n);
      assert |d| == 1 && ("0" + d)[..1] == "0" && "0"[..0] == "" && d[..0] == "";
      assert Value("0") == 0;
    }
  }

  lemma FindAnyIn(a: string, c: char, b: string, stops: set<char>)
    requires forall k :: 0 <= k < |a| ==> a[k] !in stops
    requires c in stops
    ensures FindAny(a + [c] + b, stops) == |a|
  {
    var s := a + [c] + b;
    assert s[|a|] == c;
    assert forall k :: 0 <= k < |a| ==> s[k] == a[k];
  }

  lemma FindAnyNone(s: string, stops: set<char>)
    requires forall k :: 0 <= k < |s| ==> s[k] !in stops
    ensures FindAny(s, stops) == |s|
  {
  }

  lemma SplitCons(a: string, c: char, b: string)
    requires c !in a
    ensures Split(a + [c] + b, c) == [a] + Split(b, c)
  {
    var s := a + [c] + b;
    FindAnyIn(a, c, b, {c});
    assert s[..|a|] == a && s[|a| + 1..] == b;
  }

  lemma SplitWhole(a: string, c: char)
    requires c !in a
    ensures Split(a, c) == [a]
  {
    FindAnyNone(a, {c});
  }
}

/**
 String escapes (`toml_escape`, `toml_basic_unescape` and `json_escape` in src/info.rs).
 A Dafny `char` is a Unicode scalar value, as a Rust one is.
 */
module Escapes {
  import opened Basics
  import opened Text

  // ---- Hexadecimal ---------------------------------------------------------------------

  function HexDigit(d: nat, upper: bool): char
    requires d < 16
  {
    if d < 10 then ('0' as int + d) as char
    else if upper then ('A' as int + d - 10) as char
    else ('a' as int + d - 10) as char
  }

  /** `{:04X}` and `{:04x}` of a number of at most four hexadecimal digits. */
  function Hex4(n: nat, upper: bool): (r: string)
    requires n < 0x1_0000
    ensures |r| == 4
  {
    [HexDigit(n / 0x1000, upper), HexDigit(n / 0x100 % 16, upper), HexDigit(n / 16 % 16, upper), HexDigit(n % 16, upper)]
  }

  /** `char::to_digit(16)`. */
  function DigitValue(c: char): (r: Option<nat>)
    ensures r.Some? ==> r.value < 16
  {
    if '0' <= c <= '9' then Some(c as int - '0' as int)
    else if 'A' <= c <= 'F' then Some(c as int - 'A' as int + 10)
    else if 'a' <= c <= 'f' then Some(c as int - 'a' as int + 10)
    else None
  }

  function Digits(s: string): Option<nat> {
    if s == "" then Some(0)
    else
      match (Digits(s[..|s| - 1]), DigitValue(s[|s| - 1]))
      case (Some(high), Some(d)) => Some(16 * high + d)
      case _ => None
  }

  /** `u32::from_str_radix(_, 16)`: an optional plus sign, then at least one digit. */
  function FromHex(s: string): Option<nat> {
    if s == "" || s == "+" then None
    else if s[0] == '+' then Digits(s[1..])
    else Digits(s)
  }

  lemma DigitRoundTrip(d: nat, upper: bool)
    requires d < 16
    ensures DigitValue(HexDigit(d, upper)) == Some(d) && HexDigit(d, upper) != '+'
  {
  }

  lemma DigitsInOrder(d: nat)
    requires d < 16
    ensures HexDigit(d, true) == "0123456789ABCDEF"[d] && HexDigit(d, false) == "0123456789abcdef"[d]
  {
  }

  lemma OneMoreDigit(s: string, c: char)
    requires Digits(s).Some? && DigitValue(c).Some?
    ensures Digits(s + [c]) == Some(16 * Digits(s).value + DigitValue(c).value)
  {
    assert (s + [c])[..|s|] == s;
  }

  lemma FourDigits(a: char, b: char, c: char, d: char)
    requires DigitValue(a).Some? && DigitValue(b).Some? && DigitValue(c).Some? && DigitValue(d).Some?
    ensures Digits([a, b, c, d])
            == Some(16 * (16 * (16 * DigitValue(a).value + DigitValue(b).value) + DigitValue(c).value) + DigitValue(d).value)
  {
    hide DigitValue;
    assert [] + [a] == [a] && [a] + [b] == [a, b] && [a, b] + [c] == [a, b, c] && [a, b, c] + [d] == [a, b, c, d];
    OneMoreDigit([], a);
    OneMoreDigit([a], b);
    OneMoreDigit([a, b], c);
    OneMoreDigit([a, b, c], d);
  }

  lemma Hex4RoundTrip(n: nat, upper: bool)
    requires n < 0x1_0000
    ensures Digits(Hex4(n, upper)) == Some(n) && FromHex(Hex4(n, upper)) == Some(n)
  {
    hide HexDigit;
    hide DigitValue;
    hide Digits;
    DigitRoundTrip(n / 0x1000, upper);
    DigitRoundTrip(n / 0x100 % 16, upper);
    DigitRoundTrip(n / 16 % 16, upper);
    DigitRoundTrip(n % 16, upper);
    var h := Hex4(n, upper);
    FourDigits(h[0], h[1], h[2], h[3]);
    Places(n);
  }

  lemma Places(n: nat)
    ensures 16 * (16 * (16 * (n / 0x1000) + n / 0x100 % 16) + n / 16 % 16) + n % 16 == n
  {
    var a, b, c := n / 16, n / 16 / 16, n / 16 / 16 / 16;
    assert n == 16 * a + n % 16 && a == 16 * b + a % 16 && b == 16 * c + b % 16;
    By256(n, b, 16 * (a % 16) + n % 16);
    By4096(n, c, 0x100 * (b % 16) + 16 * (a % 16) + n % 16);
  }

  lemma By256(n: nat, q: nat, r: nat)
    requires r < 0x100 && n == 0x100 * q + r
    ensures n / 0x100 == q
  {
  }

  lemma By4096(n: nat, q: nat, r: nat)
    requires r < 0x1000 && n == 0x1000 * q + r
    ensures n / 0x1000 == q
  {
  }

  // ---- TOML basic strings ----------------------------------------------------------------

  function TomlEscapeChar(c: char): string {
    if c == '\\' then "\\\\"
    else if c == '"' then "\\\""
    else if c == '\n' then "\\n"
    else if c == '\r' then "\\r"
    else if c == '\t' then "\\t"
    else if IsControl(c) then "\\u" + Hex4(c as int, true)
    else [c]
  }

  function TomlEscape(s: string): string {
    if s == "" then "" else TomlEscapeChar(s[0]) + TomlEscape(s[1..])
  }

  /** One turn of the loop: what the escaper appends for one character. */
  method PushTomlEscape(c: char, out: string) returns (longer: string)
    ensures longer == out + TomlEscapeChar(c)
  {
    if c == '\\' { longer := out + "\\\\"; }
    else if c == '"' { longer := out + "\\\""; }
    else if c == '\n' { longer := out + "\\n"; }
    else if c == '\r' { longer := out + "\\r"; }
    else if c == '\t' { longer := out + "\\t"; }
    else if IsControl(c) { longer := out + ("\\u" + Hex4(c as int, true)); }
    else { longer := out + [c]; }
  }

  lemma TomlEscapeNext(s: string, i: nat, out: string)
    requires i < |s|
    ensures out + TomlEscape(s[i..]) == out + TomlEscapeChar(s[i]) + TomlEscape(s[i + 1..])
  {
    hide TomlEscapeChar;
    assert s[i..][1..] == s[i + 1..];
    Regroup(out, TomlEscapeChar(s[i]), TomlEscape(s[i + 1..]));
  }

  method TomlEscapeString(s: string) returns (out: string)
    ensures out == TomlEscape(s)
    ensures TomlUnescape(out) == Some(s) && TomlRead(out) == Some(s)
  {
    hide TomlEscape;
    hide TomlEscapeChar;
    hide TomlUnescape;
    hide TomlRead;
    out := "";
    var i := 0;
    assert s[i..] == s;
    while i < |s|
      invariant i <= |s| && out + TomlEscape(s[i..]) == TomlEscape(s)
    {
      TomlEscapeNext(s, i, out);
      out := PushTomlEscape(s[i], out);
      i := i + 1;
    }
    TomlEscapeOfNothing();
    assert s[i..] == "";
    TomlRoundTrip(s);
    TomlIsBasicString(s);
  }

  lemma TomlEscapeOfNothing()
    ensures TomlEscape("") == ""
  {
  }

  /** `char::from_u32`. */
  function CharOf(n: nat): Option<char> {
    if n < 0xD800 || 0xE000 <= n < 0x11_0000 then Some(n as char) else None
  }

  /** The character an escape stands for and how many characters the escape takes after its
      backslash; `None` where the decoder panics. */
  function TomlEscapeValue(s: string): (r: Option<(char, nat)>)
    ensures r.Some? ==> 0 < r.value.1 <= |s|
  {
    if s == "" then None
    else if s[0] == '\\' then Some(('\\', 1))
    else if s[0] == '"' then Some(('"', 1))
    else if s[0] == 'n' then Some(('\n', 1))
    else if s[0] == 'r' then Some(('\r', 1))
    else if s[0] == 't' then Some(('\t', 1))
    else if s[0] == 'u' then
      var n := if |s| < 5 then |s| else 5;
      match FromHex(s[1..n])
      case None => None
      case Some(v) => (match CharOf(v) case None => None case Some(c) => Some((c, n)))
    else None
  }

  /** `toml_basic_unescape`; `None` where it panics. */
  function TomlUnescape(s: string): Option<string>
    decreases |s|
  {
    if s == "" then Some("")
    else if s[0] != '\\' then
      if s[0] == '"' || IsControl(s[0]) then None
      else
        (match TomlUnescape(s[1..]) case None => None case Some(rest) => Some([s[0]] + rest))
    else
      match TomlEscapeValue(s[1..])
      case None => None
      case Some((c, n)) =>
        (match TomlUnescape(s[1 + n..]) case None => None case Some(rest) => Some([c] + rest))
  }

  function Prepend(front: string, rest: Option<string>): Option<string> {
    match rest case None => None case Some(s) => Some(front + s)
  }

  /** The decoder's loop over the remaining characters. */
  method TomlUnescapeString(s: string) returns (out: Option<string>)
    ensures out == TomlUnescape(s)
  {
    var text := "";
    var i := 0;
    assert s[i..] == s;
    PrependNothing(TomlUnescape(s));
    while i < |s|
      invariant i <= |s| && TomlUnescape(s) == Prepend(text, TomlUnescape(s[i..]))
    {
      var c := s[i];
      assert s[i..][0] == c && s[i..][1..] == s[i + 1..];
      if c != '\\' {
        if c == '"' || IsControl(c) { return None; }
        PrependMore(text, c, TomlUnescape(s[i + 1..]));
        text := text + [c];
        i := i + 1;
      } else {
        var value := TomlEscapeValue(s[i + 1..]);
        if value.None? { return None; }
        assert s[i..][1 + value.value.1..] == s[i + 1 + value.value.1..];
        PrependMore(text, value.value.0, TomlUnescape(s[i + 1 + value.value.1..]));
        text := text + [value.value.0];
        i := i + 1 + value.value.1;
      }
    }
    assert s[i..] == "" && text + "" == text;
    return Some(text);
  }

  lemma PrependNothing(rest: Option<string>)
    ensures Prepend("", rest) == rest
  {
    if rest.Some? { assert "" + rest.value == rest.value; }
  }

  lemma PrependMore(text: string, c: char, rest: Option<string>)
    ensures Prepend(text, Prepend([c], rest)) == Prepend(text + [c], rest)
  {
    if rest.Some? { assert text + ([c] + rest.value) == text + [c] + rest.value; }
  }

  lemma BehindTheU(hex: string, rest: string)
    requires |hex| == 4
    ensures var s := "\\u" + hex + rest;
            && s[0] == '\\' && s[1] == 'u' && s[1..][0] == 'u'
            && s[1..][1..5] == hex && s[1..][1..][..4] == hex && s[6..] == rest
  {
    var s := "\\u" + hex + rest;
    assert s[1..][1..] == s[2..] && s[2..] == hex + rest;
    assert s[1..][1..5] == s[2..6] == hex;
  }

  lemma TomlCharReadsBack(c: char, rest: string)
    ensures TomlUnescape(TomlEscapeChar(c) + rest) == Prepend([c], TomlUnescape(rest))
  {
    var e := TomlEscapeChar(c);
    var s := e + rest;
    if |e| == 1 {
      assert s[1..] == rest;
    } else if |e| == 2 {
      assert s[0] == '\\' && s[1..] == [e[1]] + rest;
      assert s[2..] == rest;
    } else {
      Hex4RoundTrip(c as int, true);
      BehindTheU(Hex4(c as int, true), rest);
    }
  }

  /** Decoding an escaped string gives the string back, for every Unicode string. */
  lemma {:induction false} TomlRoundTrip(s: string)
    ensures TomlUnescape(TomlEscape(s)) == Some(s)
  {
    if s != "" {
      TomlRoundTrip(s[1..]);
      TomlCharReadsBack(s[0], TomlEscape(s[1..]));
      assert [s[0]] + s[1..] == s;
    }
  }

  // The format itself, TOML v1.0.0, section "String".

  /** An escape of a basic string, after its backslash: the character and how much text it
      takes. `\u` and `\U` name a Unicode scalar value in exactly four or eight digits. */
  function BasicEscapeValue(s: string): (r: Option<(char, nat)>)
    ensures r.Some? ==> 0 < r.value.1 <= |s|
  {
    if s == "" then None
    else if s[0] == 'b' then Some(('\U{0008}', 1))
    else if s[0] == 't' then Some(('\U{0009}', 1))
    else if s[0] == 'n' then Some(('\U{000A}', 1))
    else if s[0] == 'f' then Some(('\U{000C}', 1))
    else if s[0] == 'r' then Some(('\U{000D}', 1))
    else if s[0] == '"' then Some(('\U{0022}', 1))
    else if s[0] == '\\' then Some(('\U{005C}', 1))
    else if s[0] == 'u' && |s| >= 5 then Scalar(s[1..5], 5)
    else if s[0] == 'U' && |s| >= 9 then Scalar(s[1..9], 9)
    else None
  }

  function Scalar(hex: string, length: nat): (r: Option<(char, nat)>)
    ensures r.Some? ==> r.value.1 == length
  {
    match Digits(hex)
    case None => None
    case Some(v) => (match CharOf(v) case None => None case Some(c) => Some((c, length)))
  }

  /** The string that the text between the quotes of a basic string denotes, if it is well formed:
      no quote and no control character but the tab stands in it unescaped. */
  function TomlRead(s: string): Option<string>
    decreases |s|
  {
    if s == "" then Some("")
    else if s[0] == '\\' then
      match BasicEscapeValue(s[1..])
      case None => None
      case Some((c, n)) => Prepend([c], TomlRead(s[1 + n..]))
    else if s[0] == '"' || s[0] == '\U{007F}' || (s[0] < ' ' && s[0] != '\U{0009}') then None
    else Prepend([s[0]], TomlRead(s[1..]))
  }

  lemma BasicCharReadsBack(c: char, rest: string)
    ensures TomlRead(TomlEscapeChar(c) + rest) == Prepend([c], TomlRead(rest))
  {
    var e := TomlEscapeChar(c);
    var s := e + rest;
    if |e| == 1 {
      assert s[1..] == rest;
    } else if |e| == 2 {
      assert s[0] == '\\' && s[1..] == [e[1]] + rest;
      assert s[2..] == rest;
    } else {
      Hex4RoundTrip(c as int, true);
      BehindTheU(Hex4(c as int, true), rest);
    }
  }

  /** Whatever the string, its escaped text is the text of a TOML basic string that denotes it. */
  lemma {:induction false} TomlIsBasicString(s: string)
    ensures TomlRead(TomlEscape(s)) == Some(s)
  {
    if s != "" {
      TomlIsBasicString(s[1..]);
      hide TomlRead;
      hide TomlEscapeChar;
      BasicCharReadsBack(s[0], TomlEscape(s[1..]));
      assert [s[0]] + s[1..] == s;
    }
  }

  lemma EscapesAgree(s: string)
    requires TomlEscapeValue(s).Some? && BasicEscapeValue(s).Some?
    ensures TomlEscapeValue(s) == BasicEscapeValue(s)
  {
    if s[0] == 'u' && s[1] == '+' {
      PlusIsNoDigit(s[1..5]);
    }
  }

  lemma PlusIsNoDigit(hex: string)
    requires |hex| == 4 && hex[0] == '+'
    ensures Digits(hex) == None
  {
    assert hex[..3][..2][..1] == ['+'] && hex[..3][..2] == hex[..2];
    assert Digits(['+']) == None;
    assert Digits(hex[..2]) == None && Digits(hex[..3]) == None;
  }

  /** The decoder reads no text differently: where it and the format both give a string, it is
      the same one. */
  lemma {:induction false} DecoderAgreesWithToml(s: string)
    ensures TomlUnescape(s).Some? && TomlRead(s).Some? ==> TomlUnescape(s) == TomlRead(s)
    decreases |s|
  {
    if s != "" {
      if s[0] != '\\' {
        DecoderAgreesWithToml(s[1..]);
      } else {
        hide TomlEscapeValue;
        hide BasicEscapeValue;
        var x := s[1..];
        if TomlEscapeValue(x).Some? && BasicEscapeValue(x).Some? {
          EscapesAgree(x);
          DecoderAgreesWithToml(s[1 + TomlEscapeValue(x).value.1..]);
        }
      }
    }
  }

  /** Where the value of a `key = "..."` line ends: its first quote that is not escaped. */
  function ClosingQuote(line: string): Option<nat>
    decreases |line|
  {
    if line == "" then None
    else if line[0] == '"' then Some(0)
    else if line[0] == '\\' then
      if |line| < 2 then None
      else (match ClosingQuote(line[2..]) case None => None case Some(n) => Some(n + 2))
    else (match ClosingQuote(line[1..]) case None => None case Some(n) => Some(n + 1))
  }

  lemma PlainRun(run: string, rest: string)
    requires forall k :: 0 <= k < |run| ==> run[k] != '"' && run[k] != '\\'
    ensures ClosingQuote(run + rest) == match ClosingQuote(rest) case None => None case Some(n) => Some(n + |run|)
  {
    if run == "" {
      assert run + rest == rest;
    } else {
      PlainRun(run[1..], rest);
      assert (run + rest)[1..] == run[1..] + rest;
    }
  }

  lemma TomlCharIsClosed(c: char, rest: string)
    ensures var e := TomlEscapeChar(c);
            && (forall k :: 0 <= k < |e| ==> !IsControl(e[k]))
            && ClosingQuote(e + rest) == match ClosingQuote(rest) case None => None case Some(n) => Some(n + |e|)
  {
    var e := TomlEscapeChar(c);
    if |e| == 1 {
      PlainRun(e, rest);
    } else if |e| == 2 {
      assert (e + rest)[2..] == rest;
    } else {
      var hex := Hex4(c as int, true);
      PlainRun(hex, rest);
      assert (e + rest)[2..] == hex + rest;
    }
  }

  lemma {:induction false} TomlHasNoControl(s: string)
    ensures forall k :: 0 <= k < |TomlEscape(s)| ==> !IsControl(TomlEscape(s)[k])
  {
    hide TomlEscapeChar;
    hide IsControl;
    if s != "" {
      TomlHasNoControl(s[1..]);
      TomlCharIsClosed(s[0], "");
    }
  }

  lemma {:induction false} TomlClosesAfter(s: string, rest: string)
    ensures ClosingQuote(TomlEscape(s) + ("\"" + rest)) == Some(|TomlEscape(s)|)
  {
    var closing := "\"" + rest;
    if s == "" {
      assert "" + closing == closing;
    } else {
      hide TomlEscapeChar;
      hide ClosingQuote;
      hide IsControl;
      TomlClosesAfter(s[1..], rest);
      TomlCharIsClosed(s[0], TomlEscape(s[1..]) + closing);
      Regroup(TomlEscapeChar(s[0]), TomlEscape(s[1..]), closing);
    }
  }

  /** The escaped text has no raw control character, and in front of a quote and anything else
      its own text is read exactly to that quote: a `key = "..."` line reads back the string. */
  lemma TomlLineReadsBack(s: string, rest: string)
    ensures forall k :: 0 <= k < |TomlEscape(s)| ==> !IsControl(TomlEscape(s)[k])
    ensures var line := TomlEscape(s) + ("\"" + rest);
            && ClosingQuote(line) == Some(|TomlEscape(s)|)
            && TomlUnescape(line[..|TomlEscape(s)|]) == Some(s) && TomlRead(line[..|TomlEscape(s)|]) == Some(s)
  {
    hide TomlRead;
    hide TomlEscape;
    hide TomlUnescape;
    hide ClosingQuote;
    hide IsControl;
    var e := TomlEscape(s);
    TomlHasNoControl(s);
    TomlClosesAfter(s, rest);
    TomlRoundTrip(s);
    TomlIsBasicString(s);
    assert (e + ("\"" + rest))[..|e|] == e;
  }

  // ---- JSON strings ------------------------------------------------------------------------

  function JsonEscapeChar(c: char): string {
    if c == '"' then "\\\""
    else if c == '\\' then "\\\\"
    else if c == '\n' then "\\n"
    else if c == '\r' then "\\r"
    else if c == '\t' then "\\t"
    else if c < ' ' then "\\u" + Hex4(c as int, false)
    else [c]
  }

  function JsonEscape(s: string): string {
    if s == "" then "" else JsonEscapeChar(s[0]) + JsonEscape(s[1..])
  }

  /** One turn of the loop: what the escaper appends for one character. */
  method PushJsonEscape(c: char, out: string) returns (longer: string)
    ensures longer == out + JsonEscapeChar(c)
  {
    if c == '"' { longer := out + "\\\""; }
    else if c == '\\' { longer := out + "\\\\"; }
    else if c == '\n' { longer := out + "\\n"; }
    else if c == '\r' { longer := out + "\\r"; }
    else if c == '\t' { longer := out + "\\t"; }
    else if c < ' ' { longer := out + ("\\u" + Hex4(c as int, false)); }
    else { longer := out + [c]; }
  }

  lemma JsonEscapeNext(s: string, i: nat, out: string)
    requires i < |s|
    ensures out + JsonEscape(s[i..]) == out + JsonEscapeChar(s[i]) + JsonEscape(s[i + 1..])
  {
    hide JsonEscapeChar;
    assert s[i..][1..] == s[i + 1..];
    Regroup(out, JsonEscapeChar(s[i]), JsonEscape(s[i + 1..]));
  }

  method JsonEscapeString(s: string) returns (out: string)
    ensures out == JsonEscape(s)
    ensures JsonRead(out) == Some(s)
  {
    hide JsonEscape;
    hide JsonEscapeChar;
    hide JsonRead;
    out := "";
    var i := 0;
    assert s[i..] == s;
    while i < |s|
      invariant i <= |s| && out + JsonEscape(s[i..]) == JsonEscape(s)
    {
      JsonEscapeNext(s, i, out);
      out := PushJsonEscape(s[i], out);
      i := i + 1;
    }
    JsonEscapeOfNothing();
    assert s[i..] == "";
    JsonRoundTrip(s);
  }

  lemma JsonEscapeOfNothing()
    ensures JsonEscape("") == ""
  {
  }

  /** Four hexadecimal digits, of either case. */
  function FourHex(s: string): (r: Option<nat>)
    ensures r.Some? ==> |s| >= 4
  {
    if |s| < 4 then None else Digits(s[..4])
  }

  /** An escape of section 7 of RFC 8259, after its backslash: the character and how much text
      it takes. A code point above U+FFFF takes two `\u` escapes, a surrogate pair. */
  function JsonEscapeValue(s: string): (r: Option<(char, nat)>)
    ensures r.Some? ==> 0 < r.value.1 <= |s|
  {
    if s == "" then None
    else if s[0] == '"' || s[0] == '\\' || s[0] == '/' then Some((s[0], 1))
    else if s[0] == 'b' then Some(('\U{0008}', 1))
    else if s[0] == 'f' then Some(('\U{000C}', 1))
    else if s[0] == 'n' then Some(('\n', 1))
    else if s[0] == 'r' then Some(('\r', 1))
    else if s[0] == 't' then Some(('\t', 1))
    else if s[0] == 'u' then
      match FourHex(s[1..])
      case None => None
      case Some(v) =>
        if 0xD800 <= v < 0xDC00 then
          if "\\u" <= s[5..] then
            match FourHex(s[7..])
            case None => None
            case Some(w) =>
              if 0xDC00 <= w < 0xE000 then
                (match CharOf(0x1_0000 + (v - 0xD800) * 0x400 + (w - 0xDC00))
                 case None => None
                 case Some(c) => Some((c, 11)))
              else None
          else None
        else (match CharOf(v) case None => None case Some(c) => Some((c, 5)))
    else None
  }

  /** The string that the text between two quotes denotes in JSON, if it is well formed. */
  function JsonRead(s: string): Option<string>
    decreases |s|
  {
    if s == "" then Some("")
    else if s[0] != '\\' then
      if s[0] == '"' || s[0] < ' ' then None else Prepend([s[0]], JsonRead(s[1..]))
    else
      match JsonEscapeValue(s[1..])
      case None => None
      case Some((c, n)) => Prepend([c], JsonRead(s[1 + n..]))
  }

  lemma JsonCharReadsBack(c: char, rest: string)
    ensures JsonRead(JsonEscapeChar(c) + rest) == Prepend([c], JsonRead(rest))
  {
    var e := JsonEscapeChar(c);
    var s := e + rest;
    if |e| == 1 {
      assert s[1..] == rest;
    } else if |e| == 2 {
      assert s[0] == '\\' && s[1..] == [e[1]] + rest;
      assert s[2..] == rest;
    } else {
      Hex4RoundTrip(c as int, false);
      BehindTheU(Hex4(c as int, false), rest);
    }
  }

  /** Whatever the string, its escaped text is a well-formed JSON string body that denotes it. */
  lemma {:induction false} JsonRoundTrip(s: string)
    ensures JsonRead(JsonEscape(s)) == Some(s)
  {
    if s != "" {
      JsonRoundTrip(s[1..]);
      JsonCharReadsBack(s[0], JsonEscape(s[1..]));
      assert [s[0]] + s[1..] == s;
    }
  }

  lemma JsonCharIsClosed(c: char, rest: string)
    ensures var e := JsonEscapeChar(c);
            && (forall k :: 0 <= k < |e| ==> e[k] >= ' ')
            && ClosingQuote(e + rest) == match ClosingQuote(rest) case None => None case Some(n) => Some(n + |e|)
  {
    var e := JsonEscapeChar(c);
    if |e| == 1 {
      PlainRun(e, rest);
    } else if |e| == 2 {
      assert (e + rest)[2..] == rest;
    } else {
      var hex := Hex4(c as int, false);
      PlainRun(hex, rest);
      assert (e + rest)[2..] == hex + rest;
    }
  }

  lemma {:induction false} JsonClosesAfter(s: string, rest: string)
    ensures ClosingQuote(JsonEscape(s) + ("\"" + rest)) == Some(|JsonEscape(s)|)
  {
    var closing := "\"" + rest;
    if s == "" {
      assert "" + closing == closing;
    } else {
      hide JsonEscapeChar;
      hide ClosingQuote;
      JsonClosesAfter(s[1..], rest);
      JsonCharIsClosed(s[0], JsonEscape(s[1..]) + closing);
      Regroup(JsonEscapeChar(s[0]), JsonEscape(s[1..]), closing);
    }
  }

  /** A quoted JSON string, read from behind its opening quote: what it denotes, and the text
      behind its closing quote. */
  function JsonStringAt(s: string): Option<(string, string)> {
    match ClosingQuote(s)
    case None => None
    case Some(n) =>
      if n < |s| then
        (match JsonRead(s[..n]) case None => None case Some(value) => Some((value, s[n + 1..])))
      else None
  }

  lemma JsonStringReadsBack(s: string, rest: string)
    ensures JsonStringAt(JsonEscape(s) + ("\"" + rest)) == Some((s, rest))
  {
    hide JsonEscape;
    hide JsonRead;
    hide ClosingQuote;
    JsonClosesAfter(s, rest);
    JsonRoundTrip(s);
    var text := JsonEscape(s) + ("\"" + rest);
    assert text[..|JsonEscape(s)|] == JsonEscape(s);
    assert text[|JsonEscape(s)| + 1..] == rest;
  }
}

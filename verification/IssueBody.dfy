/**
 The body of a drive-profile issue (`push_zip_section` and the payload of `submit_issue` in
 src/info.rs): the base64 zip is inlined when the whole text fits a budget, which leaves
 headroom under GitHub's cap for a browser that sends every newline as CR LF.
 */
module IssueBody {
  import opened Basics
  import opened Bytes
  import opened Text
  import opened Escapes
  import B64 = Base64

  const GITHUB_BODY_MAX_CHARS: nat := 65_536

  const BODY_INLINE_BUDGET_CHARS: nat := GITHUB_BODY_MAX_CHARS - 1_536

  const COLUMNS: nat := 76

  function Opening(summary: string): string {
    "<details><summary>" + summary + "</summary>" + "\n\n" + "```" + "\n"
  }

  function Closing(): string { "```" + "\n\n" + "</details>" + "\n\n" }

  function Note(): string {
    "The profile zip is too large to include in this issue; please attach "
    + "`profile.zip` from the saved profile folder.\n\n"
  }

  /** The text in lines of `COLUMNS` characters, the last possibly shorter, each ended. */
  function Lines(b64: string): string {
    if |b64| <= COLUMNS then if b64 == "" then "" else b64 + "\n"
    else b64[..COLUMNS] + "\n" + Lines(b64[COLUMNS..])
  }

  function Block(summary: string, b64: string): string { Opening(summary) + Lines(b64) + Closing() }

  /** Rows of `COLUMNS` that `n` characters take. */
  function Rows(n: nat): nat { (n + COLUMNS - 1) / COLUMNS }

  /** The length of the finished text with the zip inlined, in closed form. */
  function InlinedLength(body: string, summary: string, b64: string, footer: string): nat {
    |body| + 51 + |summary| + |b64| + Rows(|b64|) + |footer|
  }

  class Body {
    var text: string

    constructor (start: string)
      ensures text == start
    {
      text := start;
    }

    /** The zip is inlined exactly when the finished text is within the budget; otherwise the
        note stands in its place. The footer comes last either way. */
    method PushZipSection(summary: string, b64: string, footer: string) returns (inlined: bool)
      modifies this
      ensures inlined <==> InlinedLength(old(text), summary, b64, footer) <= BODY_INLINE_BUDGET_CHARS
      ensures text == old(text) + (if inlined then Block(summary, b64) else Note()) + footer
      ensures inlined ==> |text| == InlinedLength(old(text), summary, b64, footer)
    {
      hide Lines;
      hide Opening;
      hide Closing;
      hide Note;
      hide Rows;
      var block := Opening(summary);
      var i := 0;
      assert b64[i..] == b64;
      while i < |b64|
        invariant text == old(text)
        invariant i <= |b64| && block + Lines(b64[i..]) == Opening(summary) + Lines(b64)
      {
        var n := if i + COLUMNS <= |b64| then COLUMNS else |b64| - i;
        ghost var was := block;
        LinesStep(b64, i, n);
        Regroup3(was, b64[i..i + n], "\n", Lines(b64[i + n..]));
        block := block + b64[i..i + n];
        block := block + "\n";
        i := i + n;
      }
      NoLines(b64[i..]);
      assert block + "" == block;
      assert block == Opening(summary) + Lines(b64);
      block := block + Closing();
      assert block == Block(summary, b64);
      BlockLength(summary, b64);
      var total := |text| + |block| + |footer|;
      inlined := total <= BODY_INLINE_BUDGET_CHARS;
      if inlined {
        text := text + block;
      } else {
        text := text + Note();
      }
      text := text + footer;
    }
  }

  lemma NoLines(b64: string)
    requires b64 == ""
    ensures Lines(b64) == ""
  {
  }

  lemma LinesStep(b64: string, i: nat, n: nat)
    requires i < |b64| && n == if i + COLUMNS <= |b64| then COLUMNS else |b64| - i
    ensures Lines(b64[i..]) == b64[i..i + n] + "\n" + Lines(b64[i + n..])
  {
    var rest := b64[i..];
    assert rest[..n] == b64[i..i + n] && rest[n..] == b64[i + n..];
    if |rest| <= COLUMNS {
      assert rest[n..] == "" && rest[..n] == rest;
      assert Lines(rest) == rest + "\n" + "";
    }
  }

  lemma Regroup3(a: string, b: string, c: string, d: string)
    ensures a + (b + c + d) == a + b + c + d
  {
  }

  lemma OpeningSize(summary: string)
    ensures |Opening(summary)| == |summary| + 34
    ensures Newlines(Opening(summary)) == Newlines(summary) + 3
  {
    hide Newlines;
    TagNewlines();
    Endings();
    NewlinesJoin("<details><summary>", summary);
    NewlinesJoin("<details><summary>" + summary, "</summary>");
    NewlinesJoin("<details><summary>" + summary + "</summary>", "\n\n");
    NewlinesJoin("<details><summary>" + summary + "</summary>" + "\n\n", "```");
    NewlinesJoin("<details><summary>" + summary + "</summary>" + "\n\n" + "```", "\n");
  }

  lemma ClosingSize()
    ensures |Closing()| == 17 && Newlines(Closing()) == 4
  {
    hide Newlines;
    TagNewlines();
    Endings();
    NewlinesJoin("```", "\n\n");
    NewlinesJoin("```" + "\n\n", "</details>");
    NewlinesJoin("```" + "\n\n" + "</details>", "\n\n");
  }

  lemma OneMoreRow(n: nat)
    requires n > COLUMNS
    ensures Rows(n) == Rows(n - COLUMNS) + 1
  {
  }

  lemma {:induction false} LinesSize(b64: string)
    ensures |Lines(b64)| == |b64| + Rows(|b64|)
    ensures Newlines(Lines(b64)) == Newlines(b64) + Rows(|b64|)
  {
    Endings();
    if |b64| > COLUMNS {
      hide Rows;
      hide Newlines;
      var front, back := b64[..COLUMNS], b64[COLUMNS..];
      LinesSize(back);
      OneMoreRow(|b64|);
      NewlinesJoin(front, back);
      assert b64 == front + back;
      NewlinesJoin(front, "\n");
      NewlinesJoin(front + "\n", Lines(back));
    } else {
      NewlinesJoin(b64, "\n");
    }
  }

  lemma BlockLength(summary: string, b64: string)
    ensures |Block(summary, b64)| == 51 + |summary| + |b64| + Rows(|b64|)
    ensures Newlines(Block(summary, b64)) == 7 + Newlines(summary) + Newlines(b64) + Rows(|b64|)
  {
    hide Lines;
    hide Rows;
    hide Opening;
    hide Closing;
    hide Newlines;
    OpeningSize(summary);
    ClosingSize();
    LinesSize(b64);
    NewlinesJoin(Opening(summary), Lines(b64));
    NewlinesJoin(Opening(summary) + Lines(b64), Closing());
  }

  // ---- The headroom for CR LF -----------------------------------------------------------------

  function Newlines(s: string): nat {
    if s == "" then 0 else (if s[0] == '\n' then 1 else 0) + Newlines(s[1..])
  }

  lemma {:induction false} NewlinesJoin(a: string, b: string)
    ensures Newlines(a + b) == Newlines(a) + Newlines(b)
  {
    if a == "" {
      assert a + b == b;
    } else {
      NewlinesJoin(a[1..], b);
      assert (a + b)[1..] == a[1..] + b;
    }
  }

  lemma {:induction false} NoNewlines(s: string)
    requires '\n' !in s
    ensures Newlines(s) == 0
  {
    if s != "" { NoNewlines(s[1..]); }
  }

  lemma Endings()
    ensures Newlines("\n") == 1 && Newlines("\n\n") == 2
  {
  }

  lemma TagNewlines()
    ensures Newlines("<details><summary>") == 0 && Newlines("</summary>") == 0
    ensures Newlines("```") == 0 && Newlines("</details>") == 0
  {
    hide Newlines;
    NoNewlines("<details><summary>");
    NoNewlines("</summary>");
    NoNewlines("```");
    NoNewlines("</details>");
  }

  /** Every newline as CR LF. */
  function Crlf(s: string): string {
    if s == "" then "" else (if s[0] == '\n' then "\r\n" else [s[0]]) + Crlf(s[1..])
  }

  lemma {:induction false} CrlfLength(s: string)
    ensures |Crlf(s)| == |s| + Newlines(s)
  {
    if s != "" {
      CrlfLength(s[1..]);
    }
  }

  /** The finished text with the zip inlined. */
  function Inlined(body: string, summary: string, zip: seq<Byte>, footer: string): string {
    body + Block(summary, B64.Encode(zip)) + footer
  }

  /** The newlines the caller supplied, in the body, the summary and the footer. */
  function Authored(body: string, summary: string, footer: string): nat {
    Newlines(body) + Newlines(summary) + Newlines(footer)
  }

  ghost predicate WithinBudget(body: string, summary: string, zip: seq<Byte>, footer: string) {
    InlinedLength(body, summary, B64.Encode(zip), footer) <= BODY_INLINE_BUDGET_CHARS
  }

  lemma NoNewlineInside(zip: seq<Byte>)
    ensures Newlines(B64.Encode(zip)) == 0
  {
    var b64 := B64.Encode(zip);
    if '\n' in b64 {
      var k :| 0 <= k < |b64| && b64[k] == '\n';
      B64.EncodingIsAscii(zip, k);
      NotASymbol('\n');
    }
    NoNewlines(b64);
  }

  lemma NotASymbol(c: char)
    requires c == '\n' || c == '`'
    ensures c !in B64.Alphabet()
  {
    var table := B64.Alphabet();
    forall k | 0 <= k < |table|
      ensures table[k] != c
    {
      if k < 64 {
        assert table[k] == B64.TableAt(k);
        B64.TableIsSymbol(k);
      }
    }
  }

  lemma InlinedSize(body: string, summary: string, zip: seq<Byte>, footer: string)
    ensures var b64 := B64.Encode(zip);
            && |Inlined(body, summary, zip, footer)| == InlinedLength(body, summary, b64, footer)
            && Newlines(Inlined(body, summary, zip, footer)) == Authored(body, summary, footer) + 7 + Rows(|b64|)
  {
    hide Block;
    hide Rows;
    hide Newlines;
    var block := Block(summary, B64.Encode(zip));
    NoNewlineInside(zip);
    BlockLength(summary, B64.Encode(zip));
    NewlinesJoin(body, block);
    NewlinesJoin(body + block, footer);
  }

  /** Exactly when an inlined text still fits the cap with CR LF newlines, in terms of what the
      caller hands over: its length, the newlines it brings, and the rows of the zip. */
  lemma CrlfFitsExactly(body: string, summary: string, zip: seq<Byte>, footer: string)
    ensures var b64 := B64.Encode(zip);
            |Crlf(Inlined(body, summary, zip, footer))| <= GITHUB_BODY_MAX_CHARS
            <==> InlinedLength(body, summary, b64, footer) + Authored(body, summary, footer) + 7 + Rows(|b64|)
                 <= GITHUB_BODY_MAX_CHARS
  {
    hide Inlined;
    hide Crlf;
    hide B64.Encode;
    InlinedSize(body, summary, zip, footer);
    CrlfLength(Inlined(body, summary, zip, footer));
  }

  /** An inlined text whose body, summary and footer hold at most 707 newlines still fits
      GitHub's cap after every newline becomes CR LF: the lines of the zip cannot be many,
      since all but the last are full. */
  lemma CrlfFits(body: string, summary: string, zip: seq<Byte>, footer: string)
    requires WithinBudget(body, summary, zip, footer)
    requires Authored(body, summary, footer) <= 707
    ensures |Crlf(Inlined(body, summary, zip, footer))| <= GITHUB_BODY_MAX_CHARS
  {
    hide Inlined;
    hide Crlf;
    hide B64.Encode;
    CrlfFitsExactly(body, summary, zip, footer);
    NewlinesAreCharacters(body);
    NewlinesAreCharacters(summary);
    NewlinesAreCharacters(footer);
  }

  lemma {:induction false} NewlinesAreCharacters(s: string)
    ensures Newlines(s) <= |s|
  {
    if s != "" {
      NewlinesAreCharacters(s[1..]);
    }
  }

  /** A text within the budget with 708 newlines of the caller's that does not fit. */
  lemma CrlfOverflows() returns (body: string, zip: seq<Byte>)
    ensures WithinBudget(body, "", zip, "") && Authored(body, "", "") == 708
    ensures |Crlf(Inlined(body, "", zip, ""))| == GITHUB_BODY_MAX_CHARS + 1
  {
    hide Inlined;
    hide Crlf;
    hide B64.Encode;
    hide B64.Repeat;
    hide Newlines;
    EmptyHasNone();
    var newlines, filler := B64.Repeat('\n', 708), B64.Repeat('x', 19);
    body := newlines + filler;
    zip := seq(46_800, _ => 0);
    B64.EncodeLength(zip);
    RepeatNewlines('\n', 708);
    RepeatNewlines('x', 19);
    NewlinesJoin(newlines, filler);
    InlinedSize(body, "", zip, "");
    CrlfLength(Inlined(body, "", zip, ""));
  }

  lemma EmptyHasNone()
    ensures Newlines("") == 0
  {
  }

  lemma {:induction false} RepeatNewlines(c: char, n: nat)
    ensures |B64.Repeat(c, n)| == n && Newlines(B64.Repeat(c, n)) == if c == '\n' then n else 0
  {
    if n > 0 { RepeatNewlines(c, n - 1); }
  }

  /** 707 is the exact bound: it is safe for every text, and no greater one is. */
  lemma CrlfHeadroomIsExact(bound: nat)
    ensures (forall body, summary, zip, footer ::
               WithinBudget(body, summary, zip, footer) && Authored(body, summary, footer) <= bound
               ==> |Crlf(Inlined(body, summary, zip, footer))| <= GITHUB_BODY_MAX_CHARS)
            <==> bound <= 707
  {
    hide Inlined;
    hide Crlf;
    hide WithinBudget;
    hide Authored;
    if bound <= 707 {
      forall body, summary, zip, footer |
        WithinBudget(body, summary, zip, footer) && Authored(body, summary, footer) <= bound
        ensures |Crlf(Inlined(body, summary, zip, footer))| <= GITHUB_BODY_MAX_CHARS
      {
        CrlfFits(body, summary, zip, footer);
      }
    } else {
      var body, zip := CrlfOverflows();
      assert WithinBudget(body, "", zip, "") && Authored(body, "", "") <= bound;
    }
  }

  // ---- Reading the zip back -------------------------------------------------------------------

  lemma {:induction false} LinesHold(b64: string, c: char)
    requires c !in b64 && c != '\n'
    ensures c !in Lines(b64)
  {
    if |b64| > COLUMNS {
      LinesHold(b64[COLUMNS..], c);
    }
  }

  lemma {:induction false} TextBitsJoin(a: string, b: string)
    requires '=' !in a
    ensures B64.TextBits(a + b) == B64.TextBits(a) + B64.TextBits(b)
    decreases |a|
  {
    hide B64.BitsOf;
    hide B64.Position;
    if a == "" {
      assert a + b == b;
    } else {
      TextBitsJoin(a[1..], b);
      assert (a + b)[1..] == a[1..] + b;
    }
  }

  lemma NewlineCarriesNothing(rest: string)
    ensures B64.TextBits("\n" + rest) == B64.TextBits(rest)
  {
    hide B64.BitsOf;
    hide B64.Position;
    assert ("\n" + rest)[1..] == rest;
    NotASymbol('\n');
    NewlineHasNoPosition();
  }

  lemma NewlineHasNoPosition()
    ensures B64.Position('\n') == None
  {
    B64.PositionInTable('\n');
    forall k | 0 <= k < 64
      ensures B64.TableAt(k) != '\n'
    {
      B64.TableEntry(k);
      NotASymbol('\n');
    }
  }

  /** Nothing counts behind the first `=`. */
  lemma {:induction false} TextBitsStop(a: string, b: string)
    requires '=' in a
    ensures B64.TextBits(a + b) == B64.TextBits(a)
  {
    hide B64.BitsOf;
    hide B64.Position;
    assert (a + b)[1..] == a[1..] + b;
    if a[0] != '=' {
      assert '=' in a[1..];
      TextBitsStop(a[1..], b);
    }
  }

  /** Breaking a text into lines changes none of the bits it carries. */
  lemma {:induction false} LinesCarryTheSame(b64: string)
    ensures B64.TextBits(Lines(b64)) == B64.TextBits(b64)
    decreases |b64|
  {
    hide B64.TextBits;
    if |b64| <= COLUMNS {
      if b64 != "" { AndANewline(b64, "", ""); assert b64 + ("\n" + "") == b64 + "\n"; assert b64 + "" == b64; }
    } else {
      var front, back := b64[..COLUMNS], b64[COLUMNS..];
      LinesCarryTheSame(back);
      AndANewline(front, Lines(back), back);
      assert front + "\n" + Lines(back) == front + ("\n" + Lines(back));
      assert front + back == b64;
    }
  }

  lemma AndANewline(front: string, back: string, plain: string)
    requires B64.TextBits(back) == B64.TextBits(plain)
    ensures B64.TextBits(front + ("\n" + back)) == B64.TextBits(front + plain)
  {
    hide B64.TextBits;
    if '=' in front {
      TextBitsStop(front, "\n" + back);
      TextBitsStop(front, plain);
    } else {
      TextBitsJoin(front, "\n" + back);
      TextBitsJoin(front, plain);
      NewlineCarriesNothing(back);
    }
  }

  lemma {:induction false} SplitAtFence(lines: string, rest: string)
    requires '`' !in lines
    ensures SplitOnce(lines + ("```" + rest), "```") == Some((lines, rest))
  {
    var s := lines + ("```" + rest);
    if lines == "" {
      assert s == "```" + rest;
      assert s[3..] == rest;
    } else {
      assert s[0] == lines[0] && !("```" <= s);
      assert s[1..] == lines[1..] + ("```" + rest);
      SplitAtFence(lines[1..], rest);
      assert [lines[0]] + lines[1..] == lines;
    }
  }

  /** Between the opening fence and the next one stand the zip's lines, and the streaming
      decoder, which skips newlines, recovers every byte of the zip from them. */
  lemma ZipReadsBack(summary: string, zip: seq<Byte>, footer: string)
    ensures var block := Block(summary, B64.Encode(zip)) + footer;
            && Opening(summary) <= block
            && match SplitOnce(block[|Opening(summary)|..], "```")
               case None => false
               case Some((lines, _)) => B64.WholeBytes(B64.TextBits(lines)) == zip
  {
    hide Opening;
    hide SplitOnce;
    hide Lines;
    hide B64.Encode;
    hide B64.TextBits;
    hide B64.WholeBytes;
    var b64 := B64.Encode(zip);
    var lines, rest := Lines(b64), "\n\n</details>\n\n" + footer;
    NoFenceInside(zip);
    LinesHold(b64, '`');
    SplitAtFence(lines, rest);
    FenceAfter(Opening(summary), lines, footer);
    LinesCarryTheSame(b64);
    B64.Base64RoundTrip(zip);
  }

  lemma FenceAfter(opening: string, lines: string, footer: string)
    ensures var block := opening + lines + Closing() + footer;
            opening <= block && block[|opening|..] == lines + ("```" + ("\n\n</details>\n\n" + footer))
  {
    assert Closing() + footer == "```" + ("\n\n</details>\n\n" + footer);
    Drop(opening, lines, Closing(), footer);
  }

  lemma Drop(a: string, b: string, c: string, d: string)
    ensures a <= a + b + c + d && (a + b + c + d)[|a|..] == b + (c + d)
  {
  }

  lemma NoFenceInside(zip: seq<Byte>)
    ensures '`' !in B64.Encode(zip)
  {
    var b64 := B64.Encode(zip);
    if '`' in b64 {
      var k :| 0 <= k < |b64| && b64[k] == '`';
      B64.EncodingIsAscii(zip, k);
      NotASymbol('`');
    }
  }

  // ---- The posted payload ---------------------------------------------------------------------

  function TitleKey(): string { "{\"title\":\"" }

  function BodyKey(): string { ",\"body\":\"" }

  function LabelsPart(): string { ",\"labels\":[\"drive-profile\"]}" }

  /** The JSON text `submit_issue` posts. */
  function Payload(title: string, body: string): string {
    TitleKey() + (JsonEscape(title) + ("\"" + (BodyKey() + (JsonEscape(body) + ("\"" + LabelsPart())))))
  }

  /** The title and the body that a payload of this shape holds. */
  function ReadPayload(s: string): Option<(string, string)> {
    if !(TitleKey() <= s) then None
    else
      match JsonStringAt(s[|TitleKey()|..])
      case None => None
      case Some((title, rest)) =>
        if !(BodyKey() <= rest) then None
        else
          match JsonStringAt(rest[|BodyKey()|..])
          case None => None
          case Some((body, rest)) => if rest == LabelsPart() then Some((title, body)) else None
  }

  /** Whatever characters the title and the body hold, the posted JSON is well formed and
      denotes exactly them. */
  lemma PayloadReadsBack(title: string, body: string)
    ensures ReadPayload(Payload(title, body)) == Some((title, body))
  {
    hide JsonStringAt;
    hide JsonEscape;
    hide TitleKey;
    hide BodyKey;
    hide LabelsPart;
    var tail := JsonEscape(body) + ("\"" + LabelsPart());
    var rest := BodyKey() + tail;
    JsonStringReadsBack(body, LabelsPart());
    JsonStringReadsBack(title, rest);
    assert rest[|BodyKey()|..] == tail;
    assert Payload(title, body)[|TitleKey()|..] == JsonEscape(title) + ("\"" + rest);
  }
}

/**
 A template filled by the two substitutions of `title_basename` in src/engine.rs, against one
 pass over it.
 */
module TitleTemplates {
  import opened Text
  import opened TitleNames
  import opened TitleNamesDiffer

  // ---- Two passes or one -------------------------------------------------------------------------

  /** The template filled in one pass from the left: what a reader of the setting expects. */
  function FillInOnePass(t: string, volume: string, d: string): string
    decreases |t|
  {
    if t == "" then ""
    else if "{title}" <= t then volume + FillInOnePass(t[7..], volume, d)
    else if Hole() <= t then d + FillInOnePass(t[3..], volume, d)
    else [t[0]] + FillInOnePass(t[1..], volume, d)
  }

  /** The source's two passes: the title first, then the number in what came out. */
  function FillInTwoPasses(t: string, volume: string, d: string): string {
    Replace(Replace(t, "{title}", volume), Hole(), d)
  }

  predicate StartsHole(s: string) { |s| >= 3 && s[0] == '{' && s[1] == 'n' && s[2] == '}' }

  /** The end of a title that the template can complete to a placeholder. */
  predicate OpensHole(s: string) {
    (|s| >= 1 && s[|s| - 1] == '{') || (|s| >= 2 && s[|s| - 2] == '{' && s[|s| - 1] == 'n')
  }

  /** The start of a title that can complete one. */
  predicate ClosesHole(s: string) {
    (|s| >= 1 && s[0] == '}') || (|s| >= 2 && s[0] == 'n' && s[1] == '}')
  }

  /** A title in which, and at whose edges, no number placeholder can form. */
  predicate FormsNoPlaceholder(volume: string) {
    !Contains(volume, Hole()) && volume != "n" && !OpensHole(volume) && !ClosesHole(volume)
  }

  // Two passes against one.

  lemma HoleAtStart(s: string)
    ensures Hole() <= s <==> StartsHole(s)
  {
    if Hole() <= s { assert s[0] == Hole()[0] && s[1] == Hole()[1] && s[2] == Hole()[2]; }
  }

  lemma ReplaceChar(c: char, y: string, d: string)
    requires !StartsHole([c] + y)
    ensures Replace([c] + y, Hole(), d) == [c] + Replace(y, Hole(), d)
  {
    HoleAtStart([c] + y);
    hide Hole;
    hide StartsHole;
    assert ([c] + y)[1..] == y;
  }

  lemma ReplaceHole(y: string, d: string)
    ensures Replace(Hole() + y, Hole(), d) == d + Replace(y, Hole(), d)
  {
    hide Hole;
    assert (Hole() + y)[3..] == y;
  }

  lemma NoHoleInTail(volume: string)
    requires volume != "" && !Contains(volume, Hole()) && !OpensHole(volume)
    ensures !StartsHole(volume) && !Contains(volume[1..], Hole()) && !OpensHole(volume[1..])
  {
    HoleAtStart(volume);
    hide Hole;
  }

  lemma NoMatchAtStart(volume: string, y: string)
    requires volume != "" && !StartsHole(volume) && !OpensHole(volume)
    ensures !StartsHole(volume + y)
  {
    var s := volume + y;
    assert s[0] == volume[0];
    assert |volume| >= 2 ==> s[1] == volume[1];
    assert |volume| >= 3 ==> s[2] == volume[2];
  }

  /** The number pass leaves such a title as it is, whatever follows it. */
  lemma {:induction false} NothingForms(volume: string, y: string, d: string)
    requires !Contains(volume, Hole()) && !OpensHole(volume)
    ensures Replace(volume + y, Hole(), d) == volume + Replace(y, Hole(), d)
  {
    hide Hole;
    hide Replace;
    hide Contains;
    hide StartsHole;
    hide OpensHole;
    if volume == "" {
      assert volume + y == y;
      assert volume + Replace(y, Hole(), d) == Replace(y, Hole(), d);
    } else {
      var c, rest := volume[0], volume[1..];
      NoHoleInTail(volume);
      NoMatchAtStart(volume, y);
      assert volume + y == [c] + (rest + y);
      ReplaceChar(c, rest + y, d);
      NothingForms(rest, y, d);
      assert volume + Replace(y, Hole(), d) == [c] + (rest + Replace(y, Hole(), d));
    }
  }

  /** The first character the title pass leaves. */
  lemma TitlePassFirst(t: string, volume: string)
    requires volume != "" && t != ""
    ensures var x := Replace(t, "{title}", volume);
            x != "" && x[0] == if "{title}" <= t then volume[0] else t[0]
  {
  }

  lemma TitlePassSecond(t: string, volume: string)
    requires volume != "" && |t| >= 1
    ensures var x := Replace(t, "{title}", volume);
            && ("{title}" <= t && |volume| >= 2 ==> |x| >= 2 && x[1] == volume[1])
            && (!("{title}" <= t) ==> x == [t[0]] + Replace(t[1..], "{title}", volume))
  {
  }

  lemma TitlePassNothing(volume: string)
    ensures Replace("", "{title}", volume) == ""
  {
  }

  /** Where the template has no placeholder, the title pass makes none. */
  lemma TitlePassMakesNone(t: string, volume: string)
    requires volume != "" && FormsNoPlaceholder(volume) && t != "" && !StartsHole(t)
    ensures !StartsHole([t[0]] + Replace(t[1..], "{title}", volume))
  {
    hide Replace;
    hide Contains;
    var rest := t[1..];
    var x := Replace(rest, "{title}", volume);
    TitlePassNothing(volume);
    assert forall k :: 0 <= k < |x| ==> ([t[0]] + x)[k + 1] == x[k];
    if rest != "" {
      TitlePassFirst(rest, volume);
      TitlePassSecond(rest, volume);
      var tail := rest[1..];
      if tail != "" { TitlePassFirst(tail, volume); }
    }
  }

  lemma TitlePassKeepsHole(t: string, volume: string)
    requires StartsHole(t)
    ensures Replace(t, "{title}", volume) == Hole() + Replace(t[3..], "{title}", volume)
  {
    var x := Replace(t[3..], "{title}", volume);
    PlainChar(t, volume);
    PlainChar(t[1..], volume);
    PlainChar(t[2..], volume);
    assert t[1..][1..] == t[2..] && t[2..][1..] == t[3..];
    hide Replace;
    assert ['{'] + (['n'] + (['}'] + x)) == Hole() + x;
  }

  lemma PlainChar(t: string, volume: string)
    requires t != "" && (t[0] != '{' || (|t| >= 2 && t[1] == 'n'))
    ensures Replace(t, "{title}", volume) == [t[0]] + Replace(t[1..], "{title}", volume)
  {
  }

  lemma OnePassStep(t: string, volume: string, d: string)
    requires t != ""
    ensures "{title}" <= t ==> FillInOnePass(t, volume, d) == volume + FillInOnePass(t[7..], volume, d)
                               && Replace(t, "{title}", volume) == volume + Replace(t[7..], "{title}", volume)
    ensures StartsHole(t) ==> !("{title}" <= t) && FillInOnePass(t, volume, d) == d + FillInOnePass(t[3..], volume, d)
    ensures !("{title}" <= t) && !StartsHole(t) ==>
              FillInOnePass(t, volume, d) == [t[0]] + FillInOnePass(t[1..], volume, d)
              && Replace(t, "{title}", volume) == [t[0]] + Replace(t[1..], "{title}", volume)
  {
    HoleAtStart(t);
    hide Hole;
  }

  /** With a title that forms no placeholder the two passes fill the template as one pass does. */
  lemma {:induction false} TwoPassesAreOne(t: string, volume: string, d: string)
    requires volume != "" && FormsNoPlaceholder(volume)
    ensures FillInTwoPasses(t, volume, d) == FillInOnePass(t, volume, d)
    decreases |t|
  {
    if t == "" {
    } else {
      OnePassStep(t, volume, d);
      hide Hole;
      hide Replace;
      hide Contains;
      hide StartsHole;
      hide OpensHole;
      hide ClosesHole;
      hide FillInOnePass;
      if "{title}" <= t {
        TwoPassesAreOne(t[7..], volume, d);
        NothingForms(volume, Replace(t[7..], "{title}", volume), d);
      } else if StartsHole(t) {
        AtLeastThree(t);
        TwoPassesAreOne(t[3..], volume, d);
        TitlePassKeepsHole(t, volume);
        ReplaceHole(Replace(t[3..], "{title}", volume), d);
      } else {
        TwoPassesAreOne(t[1..], volume, d);
        TitlePassMakesNone(t, volume);
        ReplaceChar(t[0], Replace(t[1..], "{title}", volume), d);
      }
    }
  }

  lemma AtLeastThree(t: string)
    requires StartsHole(t)
    ensures |t| >= 3
  {
  }

  lemma {:induction false} ContainsAt(s: string, i: nat)
    requires i + 3 <= |s| && s[i] == '{' && s[i + 1] == 'n' && s[i + 2] == '}'
    ensures Contains(s, Hole())
  {
    HoleAtStart(s);
    hide Hole;
    if i > 0 { ContainsAt(s[1..], i - 1); }
  }

  /** A piece of a template in front of the title or behind it that holds no placeholder. */
  predicate PlainPiece(s: string) {
    forall k :: 0 <= k < |s| && s[k] == '{' ==> k + 1 == |s| || (s[k + 1] == 'n' && k + 2 == |s|)
  }

  lemma {:induction false} OnePassKeeps(front: string, back: string, volume: string, d: string)
    requires PlainPiece(front) && '{' !in back
    ensures FillInOnePass(front + ("{title}" + back), volume, d) == front + (volume + back)
    ensures Replace(front + ("{title}" + back), "{title}", volume) == front + (volume + back)
  {
    var rest := "{title}" + back;
    var t := front + rest;
    if front == "" {
      EmptyFront(rest);
      EmptyFront(volume + back);
      TitleFirst(back, volume, d);
    } else {
      hide FillInOnePass;
      hide Replace;
      FirstApart(front, rest);
      FirstApart(front, volume + back);
      FrontIsNoMatch(front, rest);
      OnePassStep(t, volume, d);
      PlainTail(front);
      hide PlainPiece;
      OnePassKeeps(front[1..], back, volume, d);
    }
  }

  lemma FirstApart(front: string, rest: string)
    requires front != ""
    ensures var t := front + rest;
            t != "" && t[0] == front[0] && t[1..] == front[1..] + rest && t == [front[0]] + (front[1..] + rest)
  {
  }

  lemma PlainTail(front: string)
    requires front != "" && PlainPiece(front)
    ensures PlainPiece(front[1..])
  {
    var rest := front[1..];
    forall k | 0 <= k < |rest| && rest[k] == '{'
      ensures k + 1 == |rest| || (rest[k + 1] == 'n' && k + 2 == |rest|)
    {
      assert front[k + 1] == rest[k];
      assert k + 1 < |rest| ==> front[k + 2] == rest[k + 1];
    }
  }

  lemma TitleFirst(back: string, volume: string, d: string)
    requires '{' !in back
    ensures FillInOnePass("{title}" + back, volume, d) == volume + back
    ensures Replace("{title}" + back, "{title}", volume) == volume + back
  {
    var t := "{title}" + back;
    OnePassStep(t, volume, d);
    assert t[7..] == back;
    OnePassKeepsPlain(back, volume, d);
  }

  lemma BraceFirst(t: string)
    ensures "{title}" <= t ==> |t| >= 2 && t[0] == '{' && t[1] == 't'
  {
    if "{title}" <= t { assert t[0] == "{title}"[0] && t[1] == "{title}"[1]; }
  }

  lemma FrontIsNoMatch(front: string, rest: string)
    requires front != "" && PlainPiece(front) && rest != "" && rest[0] == '{'
    ensures !("{title}" <= front + rest) && !StartsHole(front + rest)
  {
    var t := front + rest;
    BraceFirst(t);
    assert t[0] == front[0];
    assert |front| == 1 ==> t[1] == '{';
    assert |front| >= 2 ==> t[1] == front[1];
    assert |front| == 2 ==> t[2] == '{';
  }

  lemma {:induction false} OnePassKeepsPlain(back: string, volume: string, d: string)
    requires '{' !in back
    ensures FillInOnePass(back, volume, d) == back && Replace(back, "{title}", volume) == back
  {
    if back != "" {
      OnePassStep(back, volume, d);
      BraceFirst(back);
      OnePassKeepsPlain(back[1..], volume, d);
      assert [back[0]] + back[1..] == back;
    }
  }

  lemma PlainPieces()
    ensures PlainPiece("") && PlainPiece("{") && PlainPiece("{n")
    ensures '{' !in "" && '{' !in "}" && '{' !in "n}"
  {
  }

  /** A template around the title on which a title that can form a placeholder does so. */
  lemma Trap(volume: string) returns (front: string, back: string)
    requires volume != "" && !FormsNoPlaceholder(volume)
    ensures PlainPiece(front) && '{' !in back
    ensures Contains(front + (volume + back), Hole())
  {
    hide Contains;
    hide Hole;
    hide PlainPiece;
    PlainPieces();
    front, back := "", "";
    EmptyFront(volume);
    if !Contains(volume, Hole()) {
      if volume[|volume| - 1] == '{' {
        back := "n}";
        EmptyFront(volume + back);
        ContainsAt(volume + back, |volume| - 1);
      } else if OpensHole(volume) {
        back := "}";
        EmptyFront(volume + back);
        ContainsAt(volume + back, |volume| - 2);
      } else {
        front := if volume[0] == '}' then "{n" else "{";
        back := if ClosesHole(volume) then "" else "}";
        ContainsAt(front + (volume + back), 0);
      }
    }
  }

  lemma FillingShortens(s: string)
    requires Contains(s, Hole())
    ensures |Replace(s, Hole(), Decimal(7))| < |s|
  {
    hide Hole;
    hide Replace;
    hide Contains;
    HolesFit(s);
    FilledFits(s, Decimal(7));
    assert |Decimal(7)| == 1;
    assert Product(Holes(s), 1) == Holes(s);
  }

  /** The two passes fill every template with every number as one pass does, exactly for the
      titles that form no placeholder: a label with `{n}` in it, say, has the number written
      into it. */
  lemma TwoPassesAreOneExactly(volume: string)
    requires volume != ""
    ensures (forall t: string, n: nat :: FillInTwoPasses(t, volume, Decimal(n)) == FillInOnePass(t, volume, Decimal(n)))
            <==> FormsNoPlaceholder(volume)
  {
    hide FormsNoPlaceholder;
    hide FillInOnePass;
    hide Hole;
    hide Decimal;
    hide Replace;
    hide Contains;
    if FormsNoPlaceholder(volume) {
      forall t: string, n: nat
        ensures FillInTwoPasses(t, volume, Decimal(n)) == FillInOnePass(t, volume, Decimal(n))
      {
        TwoPassesAreOne(t, volume, Decimal(n));
      }
    } else {
      var front, back := Trap(volume);
      var t := front + ("{title}" + back);
      OnePassKeeps(front, back, volume, Decimal(7));
      FillingShortens(front + (volume + back));
      assert FillInTwoPasses(t, volume, Decimal(7)) != FillInOnePass(t, volume, Decimal(7));
    }
  }

  /** Whether the template, read once from the left, names the number. */
  predicate NamesNumber(t: string)
    decreases |t|
  {
    t != "" && (if "{title}" <= t then NamesNumber(t[7..]) else Hole() <= t || NamesNumber(t[1..]))
  }

  lemma ContainsChar(c: char, y: string)
    ensures Contains([c] + y, Hole()) <==> StartsHole([c] + y) || Contains(y, Hole())
  {
    HoleAtStart([c] + y);
    hide Hole;
    hide StartsHole;
    assert ([c] + y)[1..] == y;
  }

  lemma {:induction false} ContainsBehind(volume: string, y: string)
    requires !Contains(volume, Hole()) && !OpensHole(volume)
    ensures Contains(volume + y, Hole()) <==> Contains(y, Hole())
  {
    hide Hole;
    hide Contains;
    hide StartsHole;
    hide OpensHole;
    if volume == "" {
      assert volume + y == y;
    } else {
      NoHoleInTail(volume);
      NoMatchAtStart(volume, y);
      assert volume + y == [volume[0]] + (volume[1..] + y);
      ContainsChar(volume[0], volume[1..] + y);
      ContainsBehind(volume[1..], y);
    }
  }

  lemma NamesNumberStep(t: string)
    requires t != ""
    ensures NamesNumber(t) == if "{title}" <= t then NamesNumber(t[7..]) else StartsHole(t) || NamesNumber(t[1..])
  {
    HoleAtStart(t);
  }

  lemma NothingNamesNothing(volume: string)
    ensures !Contains(Replace("", "{title}", volume), Hole()) && !NamesNumber("")
  {
  }

  /** The title pass neither makes nor hides a placeholder for the number. */
  lemma {:induction false} NumberIsNamed(t: string, volume: string)
    requires volume != "" && FormsNoPlaceholder(volume)
    ensures Contains(Replace(t, "{title}", volume), Hole()) <==> NamesNumber(t)
    decreases |t|
  {
    if t == "" {
      NothingNamesNothing(volume);
    } else {
      OnePassStep(t, volume, "");
      NamesNumberStep(t);
      hide Hole;
      hide Replace;
      hide Contains;
      hide StartsHole;
      hide OpensHole;
      hide ClosesHole;
      hide NamesNumber;
      if "{title}" <= t {
        NumberIsNamed(t[7..], volume);
        ContainsBehind(volume, Replace(t[7..], "{title}", volume));
      } else if StartsHole(t) {
        TitlePassKeepsHole(t, volume);
        HoleInFront(Replace(t[3..], "{title}", volume));
      } else {
        NumberIsNamed(t[1..], volume);
        TitlePassMakesNone(t, volume);
        ContainsChar(t[0], Replace(t[1..], "{title}", volume));
      }
    }
  }

  lemma HoleInFront(y: string)
    ensures Contains(Hole() + y, Hole())
  {
    hide Hole;
    assert Hole() <= Hole() + y;
  }

  /** A title's name is the sanitised one-pass reading of its template for such labels, with
      `_t` and the number behind it when the template does not name the number; with no template
      it is the sanitised label with these behind it, whatever that label is. */
  lemma BasenameReadsItsTemplate(template: string, volume: string, n: nat)
    requires FormsNoPlaceholder(SanitizeLabel(volume)) || Trim(template) == ""
    ensures var t, l := Trim(template), SanitizeLabel(volume);
            TitleBasename(template, volume, n)
            == if t == "" then l + "_t" + Decimal(n)
               else SanitizeLabel(FillInOnePass(t, l, Decimal(n)) + if NamesNumber(t) then "" else "_t" + Decimal(n))
  {
    hide SanitizeLabel;
    hide FormsNoPlaceholder;
    hide Usable;
    hide FillInOnePass;
    hide NamesNumber;
    hide Hole;
    hide Decimal;
    hide Replace;
    hide Contains;
    var t, l := Trim(template), SanitizeLabel(volume);
    if t == "" { return; }
    SanitizeIsUsable(volume);
    UsableIsNotEmpty(l);
    TwoPassesAreOne(t, l, Decimal(n));
    NumberIsNamed(t, l);
    var name := Replace(t, "{title}", l);
    if NamesNumber(t) {
      assert FillInOnePass(t, l, Decimal(n)) + "" == FillInOnePass(t, l, Decimal(n));
    } else {
      NoHole(name, Decimal(n));
      assert name + ("_t" + Decimal(n)) == name + "_t" + Decimal(n);
    }
  }
}

/**
 The two parsers of the command line: the app build's (`command_args`, `launch_language` and
 `wants_gui` in src/app_entry.rs) and the command line tool's (`strip_language_flag`,
 `drop_process_serial` and `collect_urls` in src/cli_entry.rs), which claim to be one rule.
 */
module Argv {
  import opened Basics
  import opened Text

  // ---- Tokens -----------------------------------------------------------------------------

  predicate IsProcessSerial(arg: string) { "-psn_" <= arg }

  predicate IsLanguageFlag(arg: string) { arg == "--language" || arg == "--lang" }

  predicate IsUrlToken(s: string) { Contains(s, "://") }

  predicate IsFlagToken(s: string) { |s| >= 2 && s[0] == '-' && !IsDigit(s[1]) }

  predicate IsFlagValue(v: string) { !IsUrlToken(v) && !IsFlagToken(v) }

  lemma FlagsAreNoValues(arg: string)
    ensures IsLanguageFlag(arg) ==> !IsFlagValue(arg) && !IsProcessSerial(arg)
    ensures IsProcessSerial(arg) ==> !IsFlagValue(arg)
  {
    if IsProcessSerial(arg) { assert arg[1] == "-psn_"[1]; }
  }

  /** The kinds of token: a dash and anything but a digit starts a flag, a dash and a number is a
      value, anything with `://` in it is a URL and no value. */
  lemma TokenKinds(word: string, n: nat, scheme: string, rest: string)
    ensures word != "" && !IsDigit(word[0]) ==> IsFlagToken("-" + word)
    ensures !IsFlagToken("-" + Decimal(n)) && IsFlagValue("-" + Decimal(n)) && IsFlagValue(Decimal(n))
    ensures IsFlagValue("-") && IsFlagValue("")
    ensures IsUrlToken(scheme + "://" + rest) && !IsFlagValue(scheme + "://" + rest)
    ensures IsLanguageFlag("--language") && IsLanguageFlag("--lang") && IsProcessSerial("-psn_" + word)
  {
    var d, url := Decimal(n), scheme + "://" + rest;
    NoUrlWithoutColon(d);
    NoUrlWithoutColon("-" + d);
    NoUrlWithoutColon("-");
    NoUrlWithoutColon("");
    ContainsExactly(url, "://");
    assert url[|scheme|..|scheme| + 3] == "://";
    assert Stands(url, "://", |scheme|);
    hide Contains;
    hide Decimal;
    assert ("-" + d)[1] == d[0];
  }

  lemma NoUrlWithoutColon(s: string)
    requires forall k :: 0 <= k < |s| ==> s[k] != ':'
    ensures !IsUrlToken(s)
  {
    ContainsExactly(s, "://");
    forall k: nat ensures !Stands(s, "://", k) {
      if k + 3 <= |s| { assert s[k..k + 3][0] == s[k]; }
    }
  }

  // ---- What survives the language flags ---------------------------------------------------

  /** Token `k` is the code of a language flag right before it. */
  predicate IsCode(args: seq<string>, k: nat)
    requires k < |args|
  {
    k > 0 && IsLanguageFlag(args[k - 1]) && IsFlagValue(args[k])
  }

  predicate Survives(args: seq<string>, k: nat)
    requires k < |args|
  {
    !IsLanguageFlag(args[k]) && !IsCode(args, k)
  }

  /** The tokens from `k` on that are neither language flags nor their codes. Whether a token
      is one is decided by its neighbour alone. */
  function Survivors(args: seq<string>, k: nat): seq<string>
    requires k <= |args|
    decreases |args| - k
  {
    if k == |args| then []
    else (if Survives(args, k) then [args[k]] else []) + Survivors(args, k + 1)
  }

  lemma {:induction false} NothingIsLost(args: seq<string>, k: nat)
    requires k <= |args| && forall j :: 0 <= j < |args| ==> !IsLanguageFlag(args[j])
    ensures Survivors(args, k) == args[k..]
    decreases |args| - k
  {
    hide IsLanguageFlag;
    if k < |args| {
      NothingIsLost(args, k + 1);
      assert [args[k]] + args[k + 1..] == args[k..];
    }
  }

  /** The language flags with no code after them, each of which is complained about. */
  function Bare(args: seq<string>, k: nat): seq<string>
    requires k <= |args|
    decreases |args| - k
  {
    if k == |args| then []
    else
      (if IsLanguageFlag(args[k]) && !(k + 1 < |args| && IsFlagValue(args[k + 1])) then [args[k]] else [])
      + Bare(args, k + 1)
  }

  /** The last adjacent pair of a language flag and a code. */
  function LaunchLanguage(args: seq<string>): Option<string> {
    if |args| < 2 then None
    else if IsLanguageFlag(args[|args| - 2]) && IsFlagValue(args[|args| - 1]) then Some(args[|args| - 1])
    else LaunchLanguage(args[..|args| - 1])
  }

  /** The language is that of the last flag with a code ... */
  lemma {:induction false} LastCodeIsTheLanguage(args: seq<string>, k: nat)
    requires k < |args| && IsCode(args, k) && forall j :: k < j < |args| ==> !IsCode(args, j)
    ensures LaunchLanguage(args) == Some(args[k])
  {
    LastPair(args);
    hide LaunchLanguage;
    if k < |args| - 1 {
      var most := args[..|args| - 1];
      forall j | 0 <= j < |most| ensures IsCode(most, j) <==> IsCode(args, j) { CodeOfMost(args, j); }
      hide IsCode;
      LastCodeIsTheLanguage(most, k);
    }
  }

  /** ... and there is none without one. */
  lemma {:induction false} NoCodeNoLanguage(args: seq<string>)
    requires forall j :: 0 <= j < |args| ==> !IsCode(args, j)
    ensures LaunchLanguage(args) == None
  {
    LastPair(args);
    hide LaunchLanguage;
    if args != [] {
      var most := args[..|args| - 1];
      forall j | 0 <= j < |most| ensures IsCode(most, j) <==> IsCode(args, j) { CodeOfMost(args, j); }
      hide IsCode;
      NoCodeNoLanguage(most);
    }
  }

  lemma LastPair(args: seq<string>)
    ensures LaunchLanguage(args)
            == if args == [] then None
               else if IsCode(args, |args| - 1) then Some(args[|args| - 1])
               else LaunchLanguage(args[..|args| - 1])
  {
    hide IsLanguageFlag;
    hide IsFlagValue;
  }

  lemma CodeOfMost(args: seq<string>, k: nat)
    requires k < |args| - 1
    ensures IsCode(args[..|args| - 1], k) <==> IsCode(args, k)
  {
    hide IsLanguageFlag;
    hide IsFlagValue;
  }

  predicate HasCode(args: seq<string>, i: nat)
    requires i < |args|
  {
    IsLanguageFlag(args[i]) && i + 1 < |args| && IsFlagValue(args[i + 1])
  }

  /** One turn of either loop at a token that is no code. */
  lemma Turn(args: seq<string>, i: nat, out: seq<string>)
    requires i < |args| && !IsCode(args, i)
    ensures HasCode(args, i) ==>
              Survivors(args, i) == Survivors(args, i + 2) && (i + 2 < |args| ==> !IsCode(args, i + 2))
    ensures !HasCode(args, i) ==> (i + 1 < |args| ==> !IsCode(args, i + 1))
    ensures !HasCode(args, i) && IsLanguageFlag(args[i]) ==> Survivors(args, i) == Survivors(args, i + 1)
    ensures !IsLanguageFlag(args[i]) ==> out + Survivors(args, i) == out + [args[i]] + Survivors(args, i + 1)
  {
    hide IsLanguageFlag;
    hide IsFlagValue;
    hide IsProcessSerial;
    FlagsAreNoValues(args[i]);
    if HasCode(args, i) {
      FlagsAreNoValues(args[i + 1]);
      assert Survivors(args, i + 1) == Survivors(args, i + 2);
    }
    Regroup(out, [args[i]], Survivors(args, i + 1));
  }

  lemma BareTurn(args: seq<string>, i: nat, out: seq<string>)
    requires i < |args|
    ensures HasCode(args, i) ==> Bare(args, i) == Bare(args, i + 2)
    ensures !HasCode(args, i) && IsLanguageFlag(args[i]) ==> out + Bare(args, i) == out + [args[i]] + Bare(args, i + 1)
    ensures !IsLanguageFlag(args[i]) ==> Bare(args, i) == Bare(args, i + 1)
  {
    hide IsLanguageFlag;
    hide IsFlagValue;
    hide IsProcessSerial;
    if HasCode(args, i) { FlagsAreNoValues(args[i + 1]); }
    Regroup(out, [args[i]], Bare(args, i + 1));
  }

  lemma AtTheEnd(args: seq<string>, out: seq<string>)
    ensures out + Survivors(args, |args|) == out && out + Bare(args, |args|) == out
  {
  }

  /** On every command line the tool keeps exactly the surviving tokens, in order, complains
      about exactly the flags with no code, and takes the same language as the app. */
  method StripLanguageFlag(args: seq<string>)
    returns (filtered: seq<string>, language: Option<string>, complaints: seq<string>)
    ensures filtered == Survivors(args, 0)
    ensures language == LaunchLanguage(args)
    ensures complaints == Bare(args, 0)
  {
    hide IsLanguageFlag;
    hide IsFlagValue;
    hide IsProcessSerial;
    hide LaunchLanguage;
    hide Survivors;
    hide Bare;
    hide IsCode;
    filtered, language, complaints := [], None, [];
    var i := 0;
    Pairs(args, 0);
    FirstIsNoCode(args);
    Nothing(Survivors(args, 0));
    Nothing(Bare(args, 0));
    while i < |args|
      invariant i <= |args| && (i < |args| ==> !IsCode(args, i))
      invariant filtered + Survivors(args, i) == Survivors(args, 0)
      invariant complaints + Bare(args, i) == Bare(args, 0)
      invariant language == LaunchLanguage(args[..i])
    {
      Turn(args, i, filtered);
      BareTurn(args, i, complaints);
      Pairs(args, i);
      if IsLanguageFlag(args[i]) {
        if i + 1 < |args| && IsFlagValue(args[i + 1]) {
          Pairs(args, i + 1);
          CodeFollows(args, i);
          language := Some(args[i + 1]);
          i := i + 2;
        } else {
          complaints := complaints + [args[i]];
          i := i + 1;
        }
      } else {
        filtered := filtered + [args[i]];
        i := i + 1;
      }
    }
    assert args[..i] == args;
    AtTheEnd(args, filtered);
    AtTheEnd(args, complaints);
  }

  lemma FirstIsNoCode(args: seq<string>)
    ensures args != [] ==> !IsCode(args, 0)
  {
  }

  lemma Nothing(rest: seq<string>)
    ensures [] + rest == rest
  {
  }

  lemma CodeFollows(args: seq<string>, i: nat)
    requires i < |args| && HasCode(args, i)
    ensures IsCode(args, i + 1)
  {
  }

  lemma Pairs(args: seq<string>, i: nat)
    ensures i == 0 ==> LaunchLanguage(args[..i]) == None
    ensures i < |args| ==> LaunchLanguage(args[..i + 1])
                           == if IsCode(args, i) then Some(args[i]) else LaunchLanguage(args[..i])
  {
    hide IsLanguageFlag;
    hide IsFlagValue;
    if 0 < i < |args| {
      assert args[..i + 1][..i] == args[..i];
    }
  }

  /** `drop_process_serial`. */
  function DropProcessSerial(args: seq<string>): seq<string> {
    if |args| > 1 && IsProcessSerial(args[1]) then args[..1] + args[2..] else args
  }

  /** The app's arguments: past the program name and a leading process serial, the tokens that
      survive. */
  function AppArgs(args: seq<string>): seq<string> {
    var rest := if args == [] then [] else args[1..];
    Survivors(if rest != [] && IsProcessSerial(rest[0]) then rest[1..] else rest, 0)
  }

  method CommandArgs(args: seq<string>) returns (out: seq<string>)
    ensures out == AppArgs(args)
  {
    hide IsLanguageFlag;
    hide IsFlagValue;
    hide IsProcessSerial;
    hide Survivors;
    hide IsCode;
    var rest := if args == [] then [] else args[1..];
    if rest != [] && IsProcessSerial(rest[0]) {
      rest := rest[1..];
    }
    out := [];
    var i := 0;
    FirstIsNoCode(rest);
    Nothing(Survivors(rest, 0));
    while i < |rest|
      invariant i <= |rest| && (i < |rest| ==> !IsCode(rest, i))
      invariant out + Survivors(rest, i) == Survivors(rest, 0)
    {
      Turn(rest, i, out);
      if IsLanguageFlag(rest[i]) {
        i := i + if i + 1 < |rest| && IsFlagValue(rest[i + 1]) then 2 else 1;
      } else {
        out := out + [rest[i]];
        i := i + 1;
      }
    }
    AtTheEnd(rest, out);
  }

  // ---- Where the two parsers agree --------------------------------------------------------

  /** The tool's arguments without the program name. */
  function ToolArgs(args: seq<string>): seq<string> {
    var kept := DropProcessSerial(Survivors(args, 0));
    if kept == [] then [] else kept[1..]
  }

  /** Token `k` is there and is a process serial. */
  predicate SerialAt(args: seq<string>, k: nat) { k < |args| && IsProcessSerial(args[k]) }

  /** The first token from `m` on that is no language flag nor its code: both parsers skip
      nothing else. */
  function FirstFrom(args: seq<string>, m: nat): (k: nat)
    requires m <= |args|
    ensures m <= k <= |args|
    ensures k < |args| ==> !IsLanguageFlag(args[k])
    decreases |args| - m
  {
    if m == |args| || !IsLanguageFlag(args[m]) then m
    else if HasCode(args, m) then FirstFrom(args, m + 2)
    else FirstFrom(args, m + 1)
  }

  /** What a caller can check beforehand. With an ordinary program name, the one disagreement is
      a process serial that only becomes the first argument once the language flags before it
      are gone. A program name that is itself a language flag is dropped by the tool, which
      then takes another token for the program name. */
  predicate ParsersAgree(args: seq<string>) {
    args == []
    || (if !IsLanguageFlag(args[0]) then SerialAt(args, 1) || !SerialAt(args, FirstFrom(args, 1))
        else if HasCode(args, 0) then false
        else if SerialAt(args, 1) then !SerialAt(args, FirstFrom(args, 2))
        else FirstFrom(args, 1) == |args|)
  }

  /** Survival looks one token back, so past a token that is no pair with the next one the
      survivors are those of the rest alone. */
  lemma {:induction false} SurvivorsBehind(args: seq<string>, m: nat, k: nat)
    requires m + k <= |args| && (m < |args| ==> !IsCode(args, m))
    ensures Survivors(args, m + k) == Survivors(args[m..], k)
    decreases |args| - m - k
  {
    hide IsLanguageFlag;
    hide IsFlagValue;
    if m + k < |args| {
      SurvivorsBehind(args, m, k + 1);
      assert Survives(args, m + k) == Survives(args[m..], k);
    }
  }

  lemma FirstToken(args: seq<string>)
    requires args != []
    ensures !HasCode(args, 0)
            ==> Survivors(args, 0) == (if IsLanguageFlag(args[0]) then [] else [args[0]]) + Survivors(args[1..], 0)
    ensures HasCode(args, 0) ==> |args| > 1 && Survivors(args, 0) == Survivors(args[2..], 0)
  {
    CodeNeedsRoom(args);
    hide *;
    FirstIsNoCode(args);
    TurnAtStart(args);
    if HasCode(args, 0) {
      SurvivorsBehind(args, 2, 0);
    } else {
      SurvivorsBehind(args, 1, 0);
    }
  }

  lemma CodeNeedsRoom(args: seq<string>)
    requires args != []
    ensures HasCode(args, 0) ==> |args| > 1
  {
  }

  lemma TurnAtStart(args: seq<string>)
    requires args != [] && !IsCode(args, 0)
    ensures Survivors(args, 0)
            == if HasCode(args, 0) then Survivors(args, 2)
               else (if IsLanguageFlag(args[0]) then [] else [args[0]]) + Survivors(args, 1)
    ensures if HasCode(args, 0) then 2 < |args| ==> !IsCode(args, 2) else 1 < |args| ==> !IsCode(args, 1)
  {
    hide *;
    SurvivorsUnfold(args);
    CodeIsFlags(args, 0);
    Turn(args, 0, []);
  }

  lemma SurvivorsUnfold(args: seq<string>)
    requires args != []
    ensures Survivors(args, 0) == (if IsLanguageFlag(args[0]) then [] else [args[0]]) + Survivors(args, 1)
  {
    hide IsLanguageFlag;
    hide IsFlagValue;
  }

  /** The survivors of the tokens from `m` on. */
  function Behind(args: seq<string>, m: nat): seq<string>
    requires m <= |args|
  {
    Survivors(args[m..], 0)
  }

  lemma NoTokens()
    ensures Survivors([], 0) == [] && DropProcessSerial([]) == []
  {
  }

  lemma BehindStep(args: seq<string>, m: nat)
    requires m < |args|
    ensures HasCode(args, m) ==> m + 2 <= |args| && Behind(args, m) == Behind(args, m + 2)
    ensures !HasCode(args, m) ==>
              Behind(args, m) == (if IsLanguageFlag(args[m]) then [] else [args[m]]) + Behind(args, m + 1)
  {
    hide IsLanguageFlag;
    hide IsFlagValue;
    hide Survivors;
    var rest := args[m..];
    FirstToken(rest);
    assert rest[1..] == args[m + 1..];
    if HasCode(args, m) { assert rest[2..] == args[m + 2..]; }
  }

  /** The first survivor and what survives behind it. */
  lemma {:induction false} FirstSurvives(args: seq<string>, m: nat)
    requires m <= |args|
    ensures var k := FirstFrom(args, m);
            Behind(args, m) == if k == |args| then [] else [args[k]] + Behind(args, k + 1)
    decreases |args| - m
  {
    hide IsLanguageFlag;
    hide Behind;
    if m == |args| {
      NothingBehind(args);
    } else {
      BehindStep(args, m);
      hide HasCode;
      if IsLanguageFlag(args[m]) {
        FirstSurvives(args, if HasCode(args, m) then m + 2 else m + 1);
        if !HasCode(args, m) { Nothing(Behind(args, m + 1)); }
      } else {
        CodeIsFlags(args, m);
      }
    }
  }

  lemma CodeIsFlags(args: seq<string>, m: nat)
    requires m < |args|
    ensures HasCode(args, m) ==> IsLanguageFlag(args[m])
  {
  }

  lemma NothingBehind(args: seq<string>)
    ensures Behind(args, |args|) == []
  {
    NoTokens();
    assert args[|args|..] == [];
  }

  lemma ToolArgsOf(args: seq<string>, name: string, tokens: seq<string>)
    requires Survivors(args, 0) == [name] + tokens
    ensures ToolArgs(args) == DropLeading(tokens)
  {
    hide IsProcessSerial;
    hide Survivors;
    var kept := [name] + tokens;
    assert kept[1..] == tokens;
    if tokens != [] {
      assert kept[1] == tokens[0];
      assert (kept[..1] + kept[2..])[1..] == tokens[1..];
    }
  }

  lemma ToolArgsOfNone(args: seq<string>)
    requires Survivors(args, 0) == []
    ensures ToolArgs(args) == []
  {
    NoTokens();
    hide Survivors;
  }

  lemma WholeBehind(args: seq<string>)
    ensures Behind(args, 0) == Survivors(args, 0)
  {
    assert args[0..] == args;
  }

  predicate Leads(tokens: seq<string>) { tokens != [] && IsProcessSerial(tokens[0]) }

  function DropLeading(tokens: seq<string>): seq<string> { if Leads(tokens) then tokens[1..] else tokens }

  lemma LeadsAt(args: seq<string>, m: nat, k: nat)
    requires m <= |args| && k == FirstFrom(args, m)
    ensures Leads(Behind(args, m)) <==> SerialAt(args, k)
    ensures SerialAt(args, k) ==> k < |args| && DropLeading(Behind(args, m)) == Behind(args, k + 1)
  {
    SerialOrNot(args, k);
    hide Survivors;
    hide Behind;
    hide FirstFrom;
    hide IsProcessSerial;
    FirstSurvives(args, m);
    if k < |args| { FirstApart(args[k], Behind(args, k + 1)); }
  }

  lemma NameApart(args: seq<string>, p: nat, whole: seq<string>)
    requires p == FirstFrom(args, 0) && whole == Behind(args, 0)
    ensures p == |args| ==> whole == []
    ensures p < |args| ==> whole == [args[p]] + Behind(args, p + 1)
  {
    hide FirstFrom;
    hide Behind;
    FirstSurvives(args, 0);
  }

  /** The tool's arguments: what survives behind its program name, less a leading serial. */
  lemma ToolArgsAt(args: seq<string>, p: nat)
    requires p == FirstFrom(args, 0)
    ensures ToolArgs(args) == if p == |args| then [] else DropLeading(Behind(args, p + 1))
  {
    hide *;
    WholeBehind(args);
    NameApart(args, p, Survivors(args, 0));
    if p == |args| {
      ToolArgsOfNone(args);
    } else {
      ToolArgsOf(args, args[p], Behind(args, p + 1));
    }
  }

  lemma DropIsShorter(tokens: seq<string>)
    ensures |DropLeading(tokens)| <= |tokens|
    ensures !Leads(tokens) ==> DropLeading(tokens) == tokens
    ensures Leads(tokens) ==> |DropLeading(tokens)| < |tokens|
  {
  }

  lemma SerialOrNot(args: seq<string>, k: nat)
    ensures SerialAt(args, k) <==> k < |args| && IsProcessSerial(args[k])
  {
  }

  lemma FirstApart(first: string, rest: seq<string>)
    ensures var tokens := [first] + rest;
            tokens != [] && tokens[0] == first && tokens[1..] == rest && |tokens| == 1 + |rest|
  {
  }

  lemma AppArgsAt(args: seq<string>)
    requires args != []
    ensures AppArgs(args) == if SerialAt(args, 1) then Behind(args, 2) else Behind(args, 1)
  {
    hide IsProcessSerial;
    hide Survivors;
    assert |args| > 1 ==> args[1..][1..] == args[2..];
  }

  /** The tokens the parsers look at first, and what they skip. */
  lemma FirstSteps(args: seq<string>)
    requires args != []
    ensures FirstFrom(args, 0)
            == if !IsLanguageFlag(args[0]) then 0 else FirstFrom(args, if HasCode(args, 0) then 2 else 1)
    ensures SerialAt(args, 1) ==> FirstFrom(args, 1) == 1 && !HasCode(args, 0)
    ensures HasCode(args, 0) ==> |args| > 1 && FirstFrom(args, 1) == 1 && !SerialAt(args, 1)
  {
    if |args| > 1 { FlagsAreNoValues(args[1]); }
    hide IsLanguageFlag;
    hide IsFlagValue;
    hide IsProcessSerial;
  }

  /** The app and the tool see the same arguments exactly when `ParsersAgree`. */
  lemma ParsersAgreeExactly(args: seq<string>)
    ensures AppArgs(args) == ToolArgs(args) <==> ParsersAgree(args)
  {
    if args == [] {
      NoTokens();
      ToolArgsOfNone(args);
    } else if IsLanguageFlag(args[0]) {
      FlagAsProgramName(args);
    } else {
      PlainProgramName(args);
    }
  }

  lemma PlainProgramName(args: seq<string>)
    requires args != [] && !IsLanguageFlag(args[0])
    ensures AppArgs(args) == ToolArgs(args) <==> ParsersAgree(args)
  {
    hide IsLanguageFlag;
    hide HasCode;
    hide Behind;
    hide FirstFrom;
    hide AppArgs;
    hide ToolArgs;
    hide Leads;
    hide DropLeading;
    hide SerialAt;
    FirstSteps(args);
    AppArgsAt(args);
    ToolArgsAt(args, 0);
    var q := FirstFrom(args, 1);
    LeadsAt(args, 1, q);
    DropIsShorter(Behind(args, 1));
  }

  lemma FlagAsProgramName(args: seq<string>)
    requires args != [] && IsLanguageFlag(args[0])
    ensures AppArgs(args) == ToolArgs(args) <==> ParsersAgree(args)
  {
    hide IsLanguageFlag;
    hide HasCode;
    hide Behind;
    hide FirstFrom;
    hide AppArgs;
    hide ToolArgs;
    hide Leads;
    hide DropLeading;
    hide SerialAt;
    var p := FirstFrom(args, 0);
    FirstSteps(args);
    AppArgsAt(args);
    ToolArgsAt(args, p);
    SerialIsThere(args, 1);
    FirstSurvives(args, 1);
    if |args| > 1 { FirstSurvives(args, 2); }
    if p < |args| {
      DropIsShorter(Behind(args, p + 1));
      LeadsAt(args, p + 1, FirstFrom(args, p + 1));
    }
  }

  lemma SerialIsThere(args: seq<string>, k: nat)
    ensures SerialAt(args, k) ==> k < |args|
    ensures !SerialAt(args, |args|)
  {
  }

  // ---- The window ---------------------------------------------------------------------------

  predicate WantsGui(args: seq<string>, display: bool) { OpensFor(AppArgs(args), display) }

  /** The same choice on the arguments the tool would run with. */
  predicate ToolWantsGui(args: seq<string>, display: bool) { OpensFor(ToolArgs(args), display) }

  predicate OpensFor(commands: seq<string>, display: bool) {
    if commands == [] then display else commands[0] == "gui"
  }

  /** The choice on the token at `k`, if there is one. */
  predicate OpensAt(args: seq<string>, k: nat, display: bool) {
    if k < |args| then args[k] == "gui" else display
  }

  /** Where the app finds its command. */
  function AppCommand(args: seq<string>): nat {
    if args == [] then 0
    else if SerialAt(args, 1) then FirstFrom(args, 2)
    else FirstFrom(args, 1)
  }

  /** Where the tool finds its command: past the token it takes for the program name and past a
      serial behind that. */
  function ToolCommand(args: seq<string>): nat {
    var p := FirstFrom(args, 0);
    if p == |args| then p
    else
      var q := FirstFrom(args, p + 1);
      if SerialAt(args, q) then FirstFrom(args, q + 1) else q
  }

  lemma OpensBehind(args: seq<string>, m: nat, display: bool)
    requires m <= |args|
    ensures OpensFor(Behind(args, m), display) <==> OpensAt(args, FirstFrom(args, m), display)
  {
    hide FirstFrom;
    hide Behind;
    FirstSurvives(args, m);
  }

  lemma CommandsFound(args: seq<string>, display: bool)
    ensures WantsGui(args, display) <==> OpensAt(args, AppCommand(args), display)
    ensures ToolWantsGui(args, display) <==> OpensAt(args, ToolCommand(args), display)
  {
    hide SerialAt;
    hide FirstFrom;
    hide Behind;
    hide OpensFor;
    hide OpensAt;
    hide AppArgs;
    hide ToolArgs;
    hide Leads;
    hide DropLeading;
    var p := FirstFrom(args, 0);
    ToolArgsAt(args, p);
    NoOpening(args, display);
    SerialIsThere(args, 1);
    if p < |args| {
      var q := FirstFrom(args, p + 1);
      OpensBehind(args, p + 1, display);
      LeadsAt(args, p + 1, q);
      DropIsShorter(Behind(args, p + 1));
      if SerialAt(args, q) { OpensBehind(args, q + 1, display); }
    }
    if args == [] {
      NoAppArgs();
    } else {
      AppArgsAt(args);
      OpensBehind(args, 1, display);
      if |args| > 1 { OpensBehind(args, 2, display); }
    }
  }

  lemma NoAppArgs()
    ensures AppArgs([]) == []
  {
    NoTokens();
  }

  lemma NoOpening(args: seq<string>, display: bool)
    ensures OpensFor([], display) == display && OpensAt(args, |args|, display) == display
    ensures FirstFrom([], 0) == 0
  {
  }

  /** On every command line: the app opens the window for the command it finds, and makes the
      choice the tool's arguments call for exactly when the two tokens call for the same. Under
      an ordinary program name that is when the parsers agree, or when the token behind the
      stranded serial is there and is not `gui`, or is missing and there is no display. */
  lemma WindowOpensExactly(args: seq<string>, display: bool)
    ensures WantsGui(args, display) <==> OpensAt(args, AppCommand(args), display)
    ensures WantsGui(args, display) == ToolWantsGui(args, display)
            <==> OpensAt(args, AppCommand(args), display) == OpensAt(args, ToolCommand(args), display)
    ensures args != [] && !IsLanguageFlag(args[0]) ==>
              (WantsGui(args, display) == ToolWantsGui(args, display)
               <==> ParsersAgree(args) || !OpensAt(args, ToolCommand(args), display))
  {
    hide WantsGui;
    hide ToolWantsGui;
    CommandsFound(args, display);
    if args != [] && !IsLanguageFlag(args[0]) {
      FirstSteps(args);
      SerialIsNoGui(args, FirstFrom(args, 1));
      SerialIsNoGui(args, 1);
      hide IsLanguageFlag;
      hide IsProcessSerial;
      hide FirstFrom;
    }
  }

  lemma SerialIsNoGui(args: seq<string>, k: nat)
    ensures SerialAt(args, k) ==> args[k] != "gui"
  {
    if SerialAt(args, k) { assert args[k][0] == "-psn_"[0]; }
  }

  /** `freemkv --lang de -psn_0_1 info`: the tool drops the serial, the app runs it. */
  lemma ParsersDisagree()
    ensures var args := ["freemkv", "--lang", "de", "-psn_0_1", "info"];
            ToolArgs(args) == ["info"] && AppArgs(args) == ["-psn_0_1", "info"]
  {
    var args := ["freemkv", "--lang", "de", "-psn_0_1", "info"];
    Tokens();
    hide IsLanguageFlag;
    hide IsFlagValue;
    hide IsProcessSerial;
    assert Survivors(args, 3) == ["-psn_0_1", "info"];
    assert Survivors(args, 0) == ["freemkv"] + Survivors(args, 3);
    SurvivorsBehind(args, 1, 0);
    assert Survivors(args, 1) == Survivors(args, 3);
  }

  lemma Tokens()
    ensures IsLanguageFlag("--lang") && !IsLanguageFlag("freemkv") && !IsLanguageFlag("-psn_0_1")
    ensures !IsLanguageFlag("info") && !IsLanguageFlag("de")
    ensures IsFlagValue("de") && !IsFlagValue("-psn_0_1")
    ensures IsProcessSerial("-psn_0_1") && !IsProcessSerial("info") && !IsProcessSerial("--lang")
  {
    assert "--lang"[1] != "-psn_"[1] && "info"[0] != "-psn_"[0];
    assert "--lang"[0] == '-' && "-psn_0_1"[1] == 'p';
    assert !("://" <= "de") && "de"[1..] == "e" && "e"[1..] == "";
  }

  // ---- Stream URLs ------------------------------------------------------------------------

  const VALUE_FLAGS: set<string> := {"-t", "--title", "-a", "--audio", "--presentation-language", "-s",
    "--subtitles", "--keydb", "--key-url", "--key-auth", "--log-file", "--log-level"}

  const RETIRED_VALUE_FLAGS: set<string> := {"-k", "--device", "-d"}

  predicate TakesValue(arg: string) { IsFlagToken(arg) && (arg in VALUE_FLAGS || arg in RETIRED_VALUE_FLAGS) }

  /** Token `k` stands where a flag's value stands; a flag standing there is itself a value and
      takes none. */
  predicate Consumed(args: seq<string>, k: nat)
    requires k <= |args|
  {
    k > 0 && TakesValue(args[k - 1]) && !Consumed(args, k - 1)
  }

  /** The tokens `collect_urls` keeps: the positional ones, and a URL in place of a value unless
      it is the key service's. */
  predicate Kept(args: seq<string>, k: nat)
    requires k < |args|
  {
    if Consumed(args, k) then args[k - 1] != "--key-url" && IsUrlToken(args[k]) else !IsFlagToken(args[k])
  }

  /** Which tokens are kept, without going back to the first: with `n` flags that take a value
      right before token `k`, it stands in for a value exactly when `n` is odd. Then it is kept
      only as a URL that is not the key service's, otherwise unless it is a flag. */
  lemma KeptExactly(args: seq<string>, k: nat, n: nat)
    requires n <= k < |args| && (forall j :: k - n <= j < k ==> TakesValue(args[j]))
    requires n < k ==> !TakesValue(args[k - n - 1])
    ensures Kept(args, k)
            <==> if n % 2 == 1 then IsUrlToken(args[k]) && args[k - 1] != "--key-url" else !IsFlagToken(args[k])
  {
    ConsumedExactly(args, k, n);
  }

  lemma {:induction false} ConsumedExactly(args: seq<string>, k: nat, n: nat)
    requires n <= k <= |args| && (forall j :: k - n <= j < k ==> TakesValue(args[j]))
    requires n < k ==> !TakesValue(args[k - n - 1])
    ensures Consumed(args, k) <==> n % 2 == 1
  {
    hide TakesValue;
    if n > 0 { ConsumedExactly(args, k - 1, n - 1); }
  }

  function KeptFrom(args: seq<string>, k: nat): seq<string>
    requires k <= |args|
    decreases |args| - k
  {
    if k == |args| then [] else (if Kept(args, k) then [args[k]] else []) + KeptFrom(args, k + 1)
  }

  method CollectUrls(args: seq<string>) returns (urls: seq<string>)
    ensures urls == KeptFrom(args, 0)
  {
    hide IsUrlToken;
    hide IsFlagToken;
    hide TakesValue;
    hide Consumed;
    hide KeptFrom;
    urls := [];
    NothingIsConsumed(args);
    var skipNext, skipIsKeyUrl := false, false;
    for i := 0 to |args|
      invariant skipNext == Consumed(args, i)
      invariant skipIsKeyUrl == (skipNext && args[i - 1] == "--key-url")
      invariant urls + KeptFrom(args, i) == KeptFrom(args, 0)
    {
      var arg := args[i];
      NextIsConsumed(args, i, urls);
      if skipNext {
        skipNext := false;
        var consumeKeyUrl := skipIsKeyUrl;
        skipIsKeyUrl := false;
        if !consumeKeyUrl && IsUrlToken(arg) { urls := urls + [arg]; }
      } else if IsFlagToken(arg) {
        if arg in VALUE_FLAGS || arg in RETIRED_VALUE_FLAGS {
          skipNext := true;
          skipIsKeyUrl := arg == "--key-url";
        }
      } else {
        urls := urls + [arg];
      }
    }
    NothingIsKept(args, urls);
  }

  lemma NothingIsConsumed(args: seq<string>)
    ensures !Consumed(args, 0) && [] + KeptFrom(args, 0) == KeptFrom(args, 0)
  {
  }

  lemma NothingIsKept(args: seq<string>, urls: seq<string>)
    ensures urls + KeptFrom(args, |args|) == urls
  {
  }

  lemma NextIsKept(args: seq<string>, k: nat, urls: seq<string>)
    requires k < |args|
    ensures urls + KeptFrom(args, k) == (if Kept(args, k) then urls + [args[k]] else urls) + KeptFrom(args, k + 1)
  {
    var rest := KeptFrom(args, k + 1);
    assert KeptFrom(args, k) == (if Kept(args, k) then [args[k]] else []) + rest;
    hide Kept;
    hide KeptFrom;
    Regroup(urls, [args[k]], rest);
    Nothing(rest);
  }

  lemma NextIsConsumed(args: seq<string>, k: nat, urls: seq<string>)
    requires k < |args|
    ensures Consumed(args, k + 1) == (TakesValue(args[k]) && !Consumed(args, k))
    ensures TakesValue(args[k]) == (IsFlagToken(args[k]) && (args[k] in VALUE_FLAGS || args[k] in RETIRED_VALUE_FLAGS))
    ensures urls + KeptFrom(args, k) == (if Kept(args, k) then urls + [args[k]] else urls) + KeptFrom(args, k + 1)
  {
    NextIsKept(args, k, urls);
    hide Kept;
    hide KeptFrom;
    hide IsFlagToken;
  }

  /** A stream URL is lost exactly when it is the value of `--key-url`: a flag that forgot its
      value never swallows one. */
  lemma UrlsAreKept(args: seq<string>, k: nat)
    requires k < |args| && IsUrlToken(args[k]) && !IsFlagToken(args[k])
    ensures Kept(args, k) <==> !(k > 0 && args[k - 1] == "--key-url" && !Consumed(args, k - 1))
  {
    hide IsUrlToken;
    if k > 0 && args[k - 1] == "--key-url" {
      assert "--key-url"[0] == '-' && "--key-url"[1] == '-';
      assert TakesValue(args[k - 1]);
    }
  }
}

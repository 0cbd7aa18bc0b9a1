/**
 The worker thread of a run (`start_rip_with` and `run_verdict` in src/engine.rs), interleaved
 with Stop presses and with panics anywhere before it writes its verdict.
 */
module Worker {
  import opened Basics

  datatype RunOutcome = Completed | Cancelled | Failed

  /** Text the worker takes from the message catalogue and its plan. */
  datatype Texts = Texts(plan: string, nothing: string, interrupted: string)

  /** The part of the shared run state that the worker and its observers use. */
  datatype Shared = Shared(summary: string, outcome: RunOutcome, cancel: bool, finished: bool, lines: seq<string>)

  function RunVerdict(res: Result<string, string>, cancelled: bool, texts: Texts): (string, RunOutcome) {
    match res
    case Ok(s) => if cancelled then (s, Cancelled) else (s, Completed)
    case Err(e) => if cancelled then (texts.interrupted, Cancelled) else (e, Failed)
  }

  /** `SignalDone` before its last store: an empty summary reads as a failure. */
  function Settled(s: Shared, texts: Texts): Shared {
    if s.summary == "" then s.(summary := texts.nothing, outcome := Failed) else s
  }

  /** What a run shows that returned `res`: the text it returned; behind a Stop in place of its
      error that it was interrupted; the error otherwise; and that it did nothing when that text
      is empty, which is a failure, as an error without a Stop is. */
  ghost predicate Shows(s: Shared, res: Result<string, string>, stopped: bool, texts: Texts) {
    var text := if res.Ok? then res.value else if stopped then texts.interrupted else res.error;
    && s.summary == (if text == "" then texts.nothing else text)
    && (s.outcome == Failed <==> text == "" || (res.Err? && !stopped))
    && (s.outcome == Cancelled <==> text != "" && stopped)
    && (s.outcome == Completed <==> text != "" && res.Ok? && !stopped)
  }

  class RunState {
    var summary: string
    var outcome: RunOutcome
    var cancel: bool
    var finished: bool
    var lines: seq<string>

    /** `RunState::default()`. */
    constructor ()
      ensures Now() == Shared("", Completed, false, false, [])
    {
      summary, outcome, cancel, finished, lines := "", Completed, false, false, [];
    }

    function Now(): Shared
      reads this
    {
      Shared(summary, outcome, cancel, finished, lines)
    }

    method Stop()
      modifies this
      ensures Now() == old(Now()).(cancel := true)
    {
      cancel := true;
    }

    method PushLine(line: string)
      modifies this
      ensures Now() == old(Now()).(lines := old(lines) + [line])
    {
      lines := lines + [line];
    }

    method SetSummary(text: string)
      modifies this
      ensures Now() == old(Now()).(summary := text)
    {
      summary := text;
    }

    method SetOutcome(verdict: RunOutcome)
      modifies this
      ensures Now() == old(Now()).(outcome := verdict)
    {
      outcome := verdict;
    }

    /** `SignalDone::drop`, which runs on every exit. */
    method SignalDone(texts: Texts)
      modifies this
      ensures Now() == Settled(old(Now()), texts).(finished := true)
    {
      if summary == "" {
        summary := texts.nothing;
        outcome := Failed;
      }
      finished := true;
    }

    /** The worker behind its run when nobody presses Stop meanwhile: the same last state as
        the steps below reach. */
    method Conclude(res: Result<string, string>, texts: Texts)
      modifies this
      ensures var how := Returned(res, old(cancel), old(lines));
              && (summary, outcome) == Verdict(how, "", Completed, texts)
              && lines == AllLines(how) && finished && cancel == old(cancel)
      ensures Shows(Now(), res, old(cancel), texts)
      ensures lines == old(lines) + if res.Err? && !old(cancel) then [res.error] else []
    {
      var cancelled := cancel;
      if res.Err? && !cancelled { PushLine(res.error); }
      var (text, verdict) := RunVerdict(res, cancelled, texts);
      SetSummary(text);
      SetOutcome(verdict);
      SignalDone(texts);
    }
  }

  // ---- Any interleaving ---------------------------------------------------------------------

  /** How the worker's own code ended: with what it returned, whether it then saw a Stop, and
      the lines logged up to its return. */
  datatype How = Panicked(logged: seq<string>) | Returned(res: Result<string, string>, cancelled: bool, logged: seq<string>)

  datatype Pc =
    | Planning
    | Running
    | Back(res: Result<string, string>)
    | Looked(how: How)
    | Logged(how: How)
    | Summarised(how: How)
    | Leaving(how: How)
    | Settling(how: How)
    | Gone(how: How)

  datatype World = World(shared: Shared, pc: Pc)

  /** A press of Stop, the worker's next step (its run returns `res` having logged `said`), or a
      panic in it. */
  datatype Event = Stop | Work(res: Result<string, string>, said: seq<string>) | Panic

  function Step(w: World, e: Event, texts: Texts): World {
    var s := w.shared;
    match e
    case Stop => w.(shared := s.(cancel := true))
    case Panic =>
      if w.pc.Planning? || w.pc.Running? || w.pc.Back? || w.pc.Looked? || w.pc.Logged? then w.(pc := Leaving(Panicked(s.lines)))
      else w
    case Work(res, said) =>
      match w.pc
      case Planning => World(s.(lines := s.lines + [texts.plan]), Running)
      case Running => World(s.(lines := s.lines + said), Back(res))
      case Back(r) => w.(pc := Looked(Returned(r, s.cancel, s.lines)))
      case Looked(how) =>
        World(if how.Returned? && how.res.Err? && !how.cancelled then s.(lines := s.lines + [how.res.error]) else s, Logged(how))
      case Logged(how) => World(s.(summary := Said(how, texts).0), Summarised(how))
      case Summarised(how) => World(s.(outcome := Said(how, texts).1), Leaving(how))
      case Leaving(how) => World(Settled(s, texts), Settling(how))
      case Settling(how) => World(s.(finished := true), Gone(how))
      case Gone(_) => w
  }

  function Said(how: How, texts: Texts): (string, RunOutcome) {
    match how
    case Panicked(_) => ("", Completed)
    case Returned(res, cancelled, _) => RunVerdict(res, cancelled, texts)
  }

  function Run(w: World, events: seq<Event>, texts: Texts): World {
    if events == [] then w else Step(Run(w, events[..|events| - 1], texts), events[|events| - 1], texts)
  }

  function Start(summary: string, outcome: RunOutcome): World {
    World(Shared(summary, outcome, false, false, []), Planning)
  }

  /** What a finished run shows, from how its worker ended alone. */
  function Verdict(how: How, summary: string, outcome: RunOutcome, texts: Texts): (string, RunOutcome) {
    var (text, verdict) := if how.Panicked? then (summary, outcome) else RunVerdict(how.res, how.cancelled, texts);
    if text == "" then (texts.nothing, Failed) else (text, verdict)
  }

  function AllLines(how: How): seq<string> {
    match how
    case Panicked(logged) => logged
    case Returned(res, cancelled, logged) => if res.Err? && !cancelled then logged + [res.error] else logged
  }

  ghost predicate Inv(w: World, summary: string, outcome: RunOutcome, texts: Texts) {
    var s := w.shared;
    && s.finished == w.pc.Gone?
    && (match w.pc
        case Planning => s.summary == summary && s.outcome == outcome
        case Running => s.summary == summary && s.outcome == outcome
        case Back(_) => s.summary == summary && s.outcome == outcome
        case Looked(how) => how.Returned? && s.summary == summary && s.outcome == outcome && s.lines == how.logged
        case Logged(how) => how.Returned? && s.summary == summary && s.outcome == outcome && s.lines == AllLines(how)
        case Summarised(how) => how.Returned? && s.summary == Said(how, texts).0 && s.lines == AllLines(how)
        case Leaving(how) =>
          s.lines == AllLines(how)
          && (s.summary, s.outcome) == if how.Panicked? then (summary, outcome) else Said(how, texts)
        case Settling(how) => s.lines == AllLines(how) && (s.summary, s.outcome) == Verdict(how, summary, outcome, texts)
        case Gone(how) => s.lines == AllLines(how) && (s.summary, s.outcome) == Verdict(how, summary, outcome, texts))
  }

  lemma StepKeeps(w: World, e: Event, summary: string, outcome: RunOutcome, texts: Texts)
    requires Inv(w, summary, outcome, texts)
    ensures Inv(Step(w, e, texts), summary, outcome, texts)
  {
  }

  lemma {:induction false} RunKeeps(events: seq<Event>, summary: string, outcome: RunOutcome, texts: Texts)
    ensures Inv(Run(Start(summary, outcome), events, texts), summary, outcome, texts)
  {
    if events != [] {
      hide Inv;
      hide Step;
      var before := events[..|events| - 1];
      RunKeeps(before, summary, outcome, texts);
      StepKeeps(Run(Start(summary, outcome), before, texts), events[|events| - 1], summary, outcome, texts);
    } else {
      assert Inv(Start(summary, outcome), summary, outcome, texts);
    }
  }

  /** How the events went: what each of the worker's own steps returned and logged (its run is
      `steps[1]`), whether a Stop was pressed before the third of them, the worker's look for one,
      and whether a panic came before the fifth, which writes the summary. */
  datatype Course = Course(steps: seq<(Result<string, string>, seq<string>)>, stopped: bool, panicked: bool)

  function Next(c: Course, e: Event): Course {
    match e
    case Stop => c.(stopped := c.stopped || |c.steps| < 3)
    case Panic => c.(panicked := c.panicked || |c.steps| < 5)
    case Work(res, said) => if c.panicked then c else c.(steps := c.steps + [(res, said)])
  }

  function CourseOf(events: seq<Event>): (c: Course)
    ensures c.stopped ==> Stop in events
  {
    if events == [] then Course([], false, false)
    else Next(CourseOf(events[..|events| - 1]), events[|events| - 1])
  }

  /** The log: the plan, what the run logged, and the error of a run that no Stop interrupted. */
  function LinesOf(c: Course, texts: Texts): seq<string> {
    (if |c.steps| > 0 then [texts.plan] else [])
    + (if |c.steps| > 1 then c.steps[1].1 else [])
    + (if |c.steps| > 3 && c.steps[1].0.Err? && !c.stopped then [c.steps[1].0.error] else [])
  }

  ghost predicate IsReturn(how: How, c: Course) {
    |c.steps| > 1 && how.Returned? && how.res == c.steps[1].0 && how.cancelled == c.stopped
  }

  /** Where the worker stands is how far its own steps came. */
  ghost predicate Follows(w: World, c: Course, texts: Texts) {
    && (|c.steps| < 3 ==> w.shared.cancel == c.stopped)
    && (c.stopped ==> w.shared.cancel)
    && w.shared.lines == LinesOf(c, texts)
    && (c.panicked ==> |c.steps| < 5 && (w.pc.Leaving? || w.pc.Settling? || w.pc.Gone?) && w.pc.how.Panicked?)
    && (!c.panicked ==>
          match w.pc
          case Planning => |c.steps| == 0
          case Running => |c.steps| == 1
          case Back(res) => |c.steps| == 2 && res == c.steps[1].0
          case Looked(how) => |c.steps| == 3 && IsReturn(how, c)
          case Logged(how) => |c.steps| == 4 && IsReturn(how, c)
          case Summarised(how) => |c.steps| == 5 && IsReturn(how, c)
          case Leaving(how) => |c.steps| > 5 && IsReturn(how, c)
          case Settling(how) => |c.steps| > 5 && IsReturn(how, c)
          case Gone(how) => |c.steps| > 5 && IsReturn(how, c))
  }

  lemma LinesGrow(c: Course, res: Result<string, string>, said: seq<string>, texts: Texts)
    ensures var more := LinesOf(c.(steps := c.steps + [(res, said)]), texts);
            more == match |c.steps|
                    case 0 => [texts.plan]
                    case 1 => [texts.plan] + said
                    case 3 => if c.steps[1].0.Err? && !c.stopped then LinesOf(c, texts) + [c.steps[1].0.error]
                              else LinesOf(c, texts)
                    case _ => LinesOf(c, texts)
    ensures |c.steps| == 1 ==> LinesOf(c, texts) == [texts.plan]
    ensures |c.steps| == 0 ==> LinesOf(c, texts) == []
  {
  }

  lemma WorkFollows(w: World, res: Result<string, string>, said: seq<string>, c: Course, texts: Texts)
    requires Follows(w, c, texts)
    ensures Follows(Step(w, Work(res, said), texts), Next(c, Work(res, said)), texts)
  {
    LinesGrow(c, res, said, texts);
    hide LinesOf;
    hide Said;
  }

  lemma StepFollows(w: World, e: Event, c: Course, texts: Texts)
    requires Follows(w, c, texts)
    ensures Follows(Step(w, e, texts), Next(c, e), texts)
  {
    if e.Work? { WorkFollows(w, e.res, e.said, c, texts); }
    else { StopFollows(w, e, c, texts); }
    hide *;
  }

  lemma StopFollows(w: World, e: Event, c: Course, texts: Texts)
    requires Follows(w, c, texts) && !e.Work?
    ensures Follows(Step(w, e, texts), Next(c, e), texts)
  {
    assert LinesOf(Next(c, e), texts) == LinesOf(c, texts);
    hide LinesOf;
  }

  lemma {:induction false} RunFollows(events: seq<Event>, summary: string, outcome: RunOutcome, texts: Texts)
    ensures Follows(Run(Start(summary, outcome), events, texts), CourseOf(events), texts)
  {
    if events != [] {
      hide Follows;
      hide Step;
      hide Next;
      var before := events[..|events| - 1];
      RunFollows(before, summary, outcome, texts);
      StepFollows(Run(Start(summary, outcome), before, texts), events[|events| - 1], CourseOf(before), texts);
    }
  }

  /** Every run of a fresh state, once `finished` reads true. A panicked run shows that it did
      nothing, as a failure. Any other shows what its run returned, with a Stop taken into account
      exactly when one was pressed before the worker looked. The log holds the plan, the run's own
      lines, and the error of a run that no Stop interrupted, as far as the worker came. */
  lemma VerdictOfEveryRun(events: seq<Event>, texts: Texts)
    requires texts.nothing != ""
    ensures var s, c := Run(Start("", Completed), events, texts).shared, CourseOf(events);
            s.finished ==>
              && s.summary != "" && s.lines == LinesOf(c, texts)
              && (c.panicked ==> s.summary == texts.nothing && s.outcome == Failed)
              && (!c.panicked ==> |c.steps| > 5 && Shows(s, c.steps[1].0, c.stopped, texts))
              && (s.outcome == Cancelled ==> s.cancel && Stop in events)
  {
    hide Run;
    hide CourseOf;
    hide LinesOf;
    RunKeeps(events, "", Completed, texts);
    RunFollows(events, "", Completed, texts);
  }

  /** What made the state fresh matters: a panicked run always reads Failed exactly when the
      state started with an empty summary, or as Failed already. */
  lemma PanicsReadFailedExactly(summary: string, outcome: RunOutcome, texts: Texts)
    ensures (forall events ::
               var w := Run(Start(summary, outcome), events, texts);
               w.pc.Gone? && w.pc.how.Panicked? ==> w.shared.outcome == Failed)
            <==> summary == "" || outcome == Failed
  {
    if summary == "" || outcome == Failed {
      forall events
        ensures var w := Run(Start(summary, outcome), events, texts);
                w.pc.Gone? && w.pc.how.Panicked? ==> w.shared.outcome == Failed
      {
        hide Run;
        RunKeeps(events, summary, outcome, texts);
      }
    } else {
      var start, work := Start(summary, outcome), Work(Ok(""), []);
      OneMore(start, [], Panic, texts);
      OneMore(start, [Panic], work, texts);
      OneMore(start, [Panic, work], work, texts);
      var w := Run(start, [Panic, work, work], texts);
      assert w.pc.Gone? && w.pc.how.Panicked? && w.shared.outcome == outcome;
    }
  }

  lemma OneMore(w: World, events: seq<Event>, e: Event, texts: Texts)
    ensures Run(w, [], texts) == w
    ensures Run(w, events + [e], texts) == Step(Run(w, events, texts), e, texts)
    ensures events == [] ==> events + [e] == [e]
    ensures |events| == 1 ==> events + [e] == [events[0], e]
    ensures |events| == 2 ==> events + [e] == [events[0], events[1], e]
  {
    assert (events + [e])[..|events|] == events;
  }

  /** What an observer of `finished` reads stays what it is. */
  lemma {:induction false} FinishedIsFinal(w: World, more: seq<Event>, texts: Texts)
    requires w.pc.Gone?
    ensures var v := Run(w, more, texts);
            v.pc == w.pc && v.shared == w.shared.(cancel := v.shared.cancel)
  {
    if more != [] { FinishedIsFinal(w, more[..|more| - 1], texts); }
  }

  function StepsLeft(pc: Pc): nat {
    match pc
    case Planning => 8
    case Running => 7
    case Back(_) => 6
    case Looked(_) => 5
    case Logged(_) => 4
    case Summarised(_) => 3
    case Leaving(_) => 2
    case Settling(_) => 1
    case Gone(_) => 0
  }

  /** A worker that takes eight more steps has finished, wherever it stands; neither a panic
      nor a press of Stop in between holds it up. */
  lemma {:induction false} EveryRunFinishes(w: World, events: seq<Event>, texts: Texts)
    ensures var v := Run(w, events, texts);
            StepsLeft(v.pc) == 0 || StepsLeft(v.pc) + Works(events) <= StepsLeft(w.pc)
    ensures Works(events) >= 8 ==> Run(w, events, texts).pc.Gone?
  {
    if events != [] { EveryRunFinishes(w, events[..|events| - 1], texts); }
  }

  /** How many steps of the worker are among the events. */
  function Works(events: seq<Event>): nat {
    if events == [] then 0
    else Works(events[..|events| - 1]) + if events[|events| - 1].Work? then 1 else 0
  }
}

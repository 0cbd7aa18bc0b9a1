/**
 The drive recovery arm of a rip (`recovery_plan`, `recovery_terminal_result`,
 `should_delete_staging_iso`, `remove_staging_iso`, `release_iso_lock` and their caller in
 src/engine.rs) over a file system of three files: the image, its mapfile and its lock sidecar.
 */
module RecoveryArm {
  import opened Basics
  import Names = TitleNamesDiffer

  /** `scoped`: only the chosen titles are staged, so the image is not a whole disc's. */
  datatype Request = Request(wantIso: bool, keepIso: bool, scoped: bool)

  datatype DiscPlan = Recover(deliverIso: bool) | PerTitle

  function RecoveryPlan(kind: Names.OutKind, multipass: bool): DiscPlan {
    if kind.IsoImage? || multipass then Recover(kind.IsoImage?) else PerTitle
  }

  /** What the engine's recovery reports when it ran. */
  datatype Recovery = Recovery(halted: bool, abortedForLoss: bool, goodBytes: nat)

  datatype Report = Recovered(r: Recovery) | OtherReport | Failed

  datatype Message =
    | PartialKept      // cancelled while reading; the partial image is kept
    | AbortedKept      // too much loss; the partial image is kept
    | IsoWritten
    | NoDataIsoKept    // nothing readable; the image is kept
    | NothingToMux     // nothing readable; no claim about the image
    | MuxFailedKept    // the titles failed; the recovered image is kept
    | CancelledKept    // cancelled while muxing; the recovered image is kept
    | TitlesWritten
    | RecoveryFailed

  type Outcome = Result<Message, Message>

  predicate SaysKept(res: Outcome) {
    var m := if res.Ok? then res.value else res.error;
    m.PartialKept? || m.AbortedKept? || m.NoDataIsoKept? || m.MuxFailedKept? || m.CancelledKept?
  }

  /** How far a run came: no usable report, a verdict on the read alone, or a mux that ended
      with a Stop seen after it or not. */
  datatype Story = NoReport | Read(r: Recovery) | Mux(r: Recovery, ok: bool, seenStop: bool)

  predicate GoesToMux(req: Request, r: Recovery) {
    !r.halted && !r.abortedForLoss && !req.wantIso && r.goodBytes > 0
  }

  function RecoveryTerminalResult(r: Recovery): Option<Outcome> {
    if r.halted then Some(Ok(PartialKept)) else if r.abortedForLoss then Some(Err(AbortedKept)) else None
  }

  predicate ShouldDeleteStagingIso(keepIso: bool, muxSucceeded: bool, cancelled: bool) {
    !keepIso && muxSucceeded && !cancelled
  }

  function ReadVerdict(req: Request, r: Recovery): Outcome {
    var terminal := RecoveryTerminalResult(r);
    if terminal.Some? then terminal.value
    else if req.wantIso then if r.goodBytes == 0 then Err(NoDataIsoKept) else Ok(IsoWritten)
    else Err(NothingToMux)
  }

  function MuxVerdict(ok: bool, seenStop: bool): Outcome {
    if !ok then Err(MuxFailedKept) else if seenStop then Ok(CancelledKept) else Ok(TitlesWritten)
  }

  /** The run's result, and whether it is known to have been halted. */
  function Verdict(req: Request, story: Story): (Outcome, bool) {
    match story
    case NoReport => (Err(RecoveryFailed), false)
    case Read(r) => (ReadVerdict(req, r), r.halted)
    case Mux(_, ok, seenStop) => (MuxVerdict(ok, seenStop), false)
  }

  /** Whether the run removes the staged image: it read nothing, or its titles landed, no Stop
      was seen, and no whole image is to be kept. Never a deliverable. */
  predicate Removes(req: Request, story: Story) {
    match story
    case NoReport => false
    case Read(r) => !r.halted && !r.abortedForLoss && !req.wantIso && r.goodBytes == 0
    case Mux(_, ok, seenStop) => ok && !seenStop && !(req.keepIso && !req.scoped)
  }

  datatype Files = Files(iso: bool, mapfile: bool, lock: bool)

  /** Which removals the file system refuses. */
  datatype Refusals = Refusals(mapfile: bool, iso: bool, lock: bool)

  function WithoutStaging(f: Files, no: Refusals): Files {
    f.(mapfile := f.mapfile && no.mapfile, iso := f.iso && no.iso)
  }

  function Released(f: Files, res: Outcome, halted: bool, no: Refusals): Files {
    if (res.Ok? && !halted) || !f.iso then f.(lock := f.lock && no.lock) else f
  }

  /** The files a run leaves, from those the recovery left. */
  function End(req: Request, story: Story, found: Files, no: Refusals): Files {
    var (res, halted) := Verdict(req, story);
    Released(if Removes(req, story) then WithoutStaging(found, no) else found, res, halted, no)
  }

  // ---- What a run comes to -----------------------------------------------------------------------

  /** The read went through: it was not halted, and not given up for loss. */
  predicate Clean(report: Report) { report.Recovered? && !report.r.halted && !report.r.abortedForLoss }

  /** A run that does not get what it was for: no usable report, a read that did not go through or
      found nothing readable, or titles that did not land. */
  predicate FallsShort(req: Request, report: Report, muxOk: bool) {
    !Clean(report) || report.r.goodBytes == 0 || (!req.wantIso && !muxOk)
  }

  /** A run that clears its staged image away: nothing was readable, or the titles landed, no Stop
      was seen behind the mux, and no whole image is to be kept. */
  predicate Clears(req: Request, report: Report, muxOk: bool, sawStop: bool) {
    && Clean(report) && !req.wantIso
    && (report.r.goodBytes == 0 || (muxOk && !sawStop && (!req.keepIso || req.scoped)))
  }

  /** What a run says and leaves, by what its recovery reported and left (`found`), what its mux
      did and whether a Stop was seen behind it. */
  ghost predicate EndsAs(req: Request, report: Report, muxOk: bool, sawStop: bool, found: Files, no: Refusals,
                         res: Outcome, left: Files) {
    var clean := Clean(report);
    var muxes := clean && !req.wantIso && report.r.goodBytes > 0;
    && (res == Err(RecoveryFailed) <==> !report.Recovered?)
    && (res == Ok(PartialKept) <==> report.Recovered? && report.r.halted)
    && (res == Err(AbortedKept) <==> report.Recovered? && !report.r.halted && report.r.abortedForLoss)
    && (res == Err(NoDataIsoKept) <==> clean && req.wantIso && report.r.goodBytes == 0)
    && (res == Ok(IsoWritten) <==> clean && req.wantIso && report.r.goodBytes > 0)
    && (res == Err(NothingToMux) <==> clean && !req.wantIso && report.r.goodBytes == 0)
    && (res == Err(MuxFailedKept) <==> muxes && !muxOk)
    && (res == Ok(CancelledKept) <==> muxes && muxOk && sawStop)
    && (res == Ok(TitlesWritten) <==> muxes && muxOk && !sawStop)
    && left.iso == (found.iso && (Clears(req, report, muxOk, sawStop) ==> no.iso))
    && left.mapfile == (found.mapfile && (Clears(req, report, muxOk, sawStop) ==> no.mapfile))
    && left.lock == (no.lock || (left.iso && FallsShort(req, report, muxOk)))
  }

  function StoryOf(req: Request, report: Report, muxOk: bool, stopped: bool): Story {
    if !report.Recovered? then NoReport
    else if GoesToMux(req, report.r) then Mux(report.r, muxOk, stopped)
    else Read(report.r)
  }

  lemma StoryEnds(req: Request, report: Report, muxOk: bool, sawStop: bool, found: Files, no: Refusals)
    requires found.lock
    ensures var story := StoryOf(req, report, muxOk, sawStop);
            EndsAs(req, report, muxOk, sawStop, found, no, Verdict(req, story).0, End(req, story, found, no))
  {
  }

  class Image {
    var iso: bool
    var mapfile: bool
    var lock: bool

    function Now(): Files
      reads this
    {
      Files(iso, mapfile, lock)
    }

    constructor (files: Files)
      ensures Now() == files
    {
      iso, mapfile, lock := files.iso, files.mapfile, files.lock;
    }

    method RemoveStagingIso(no: Refusals)
      modifies this
      ensures Now() == WithoutStaging(old(Now()), no)
    {
      if !no.mapfile { mapfile := false; }
      if !no.iso { iso := false; }
    }

    /** Returns whether the run's progress is said to be kept. */
    method ReleaseIsoLock(res: Outcome, halted: bool, no: Refusals) returns (progressKept: bool)
      modifies this
      ensures Now() == Released(old(Now()), res, halted, no)
      ensures progressKept <==> halted && iso
    {
      var done := (res.Ok? && !halted) || !iso;
      progressKept := halted && !done;
      if done && !no.lock { lock := false; }
    }

    /** The arm, behind its lock: `report`, `after` and `muxOk` are what the engine's recovery
        and mux did, `stopped` is the Stop flag as the arm reads it behind the mux. */
    method Recover(req: Request, report: Report, after: Files, muxOk: bool, stopped: bool, no: Refusals)
      returns (res: Outcome)
      requires lock && after.lock
      modifies this
      ensures var story := StoryOf(req, report, muxOk, stopped);
              res == Verdict(req, story).0 && Now() == End(req, story, after, no)
      ensures EndsAs(req, report, muxOk, stopped, after, no, res, Now())
    {
      StoryEnds(req, report, muxOk, stopped, after, no);
      hide EndsAs;
      hide WithoutStaging;
      hide Released;
      var halted := false;
      iso, mapfile := after.iso, after.mapfile;
      res := Err(RecoveryFailed);
      if report.Recovered? {
        var r := report.r;
        halted := r.halted;
        var terminal := RecoveryTerminalResult(r);
        if terminal.Some? {
          res := terminal.value;
        } else if req.wantIso {
          res := if r.goodBytes == 0 then Err(NoDataIsoKept) else Ok(IsoWritten);
        } else if r.goodBytes == 0 {
          RemoveStagingIso(no);
          res := Err(NothingToMux);
        } else {
          var keep := req.keepIso && !req.scoped;
          if ShouldDeleteStagingIso(keep, muxOk, stopped) { RemoveStagingIso(no); }
          res := if !muxOk then Err(MuxFailedKept) else if stopped then Ok(CancelledKept) else Ok(TitlesWritten);
        }
      }
      var _ := ReleaseIsoLock(res, halted, no);
    }
  }

  // ---- Every run, stopped or killed anywhere ---------------------------------------------------

  datatype Pc =
    | Starting
    | Reading
    | Judging(r: Recovery)
    | Muxing(r: Recovery)
    | Muxed(r: Recovery, ok: bool)
    | RemovingMap(story: Story)
    | RemovingIso(story: Story)
    | Releasing(story: Story)
    | Done(story: Story, res: Outcome)
    | Killed

  /** A run; `cancel` is the Stop flag, `found` what the recovery left. */
  datatype Run = Run(files: Files, cancel: bool, pc: Pc, found: Files)

  /** A press of Stop; the end of the process, by a panic or a crash, in which a recovery under
      way leaves any image and mapfile; or the arm's next step. */
  datatype Event =
    | Stop
    | Kill(iso: bool, mapfile: bool)
    | Act(answer: Answer)

  /** What the engine does in a step of the arm: its recovery's report and the image and mapfile
      that leaves, or how its mux ends. */
  datatype Answer = Answer(report: Report, iso: bool, mapfile: bool, muxOk: bool)

  function Step(w: Run, e: Event, req: Request, no: Refusals): Run {
    var f := w.files;
    match e
    case Stop => w.(cancel := true)
    case Kill(iso, mapfile) =>
      if w.pc.Done? || w.pc.Killed? then w
      else w.(files := if w.pc.Reading? then f.(iso := iso, mapfile := mapfile) else f, pc := Killed)
    case Act(Answer(report, iso, mapfile, muxOk)) =>
      match w.pc
      case Starting => w.(files := f.(lock := true), pc := Reading)
      case Reading =>
        var g := f.(iso := iso, mapfile := mapfile);
        w.(files := g, found := g, pc := if report.Recovered? then Judging(report.r) else Releasing(NoReport))
      case Judging(r) =>
        w.(pc := if GoesToMux(req, r) then Muxing(r)
                 else if Removes(req, Read(r)) then RemovingMap(Read(r))
                 else Releasing(Read(r)))
      case Muxing(r) => w.(pc := Muxed(r, muxOk))
      case Muxed(r, ok) =>
        var story := Mux(r, ok, w.cancel);
        w.(pc := if ShouldDeleteStagingIso(req.keepIso && !req.scoped, ok, w.cancel) then RemovingMap(story)
                 else Releasing(story))
      case RemovingMap(story) => w.(files := f.(mapfile := f.mapfile && no.mapfile), pc := RemovingIso(story))
      case RemovingIso(story) => w.(files := f.(iso := f.iso && no.iso), pc := Releasing(story))
      case Releasing(story) =>
        var (res, halted) := Verdict(req, story);
        w.(files := Released(f, res, halted, no), pc := Done(story, res))
      case Done(_, _) => w
      case Killed => w
  }

  function After(w: Run, events: seq<Event>, req: Request, no: Refusals): Run {
    if events == [] then w
    else Step(After(w, events[..|events| - 1], req, no), events[|events| - 1], req, no)
  }

  function Start(files: Files): Run { Run(files, false, Starting, files) }

  predicate StoryFits(req: Request, story: Story) {
    match story
    case NoReport => true
    case Read(r) => !GoesToMux(req, r)
    case Mux(r, _, _) => GoesToMux(req, r)
  }

  ghost predicate Inv(w: Run, req: Request, no: Refusals) {
    && (!w.pc.Starting? && !w.pc.Done? && !w.pc.Killed? ==> w.files.lock)
    && (match w.pc
        case Starting => true
        case Reading => true
        case Judging(r) => w.files == w.found
        case Muxing(r) => w.files == w.found && GoesToMux(req, r)
        case Muxed(r, _) => w.files == w.found && GoesToMux(req, r)
        case RemovingMap(story) => w.files == w.found && StoryFits(req, story) && Removes(req, story)
        case RemovingIso(story) =>
          w.files == w.found.(mapfile := w.found.mapfile && no.mapfile) && StoryFits(req, story) && Removes(req, story)
        case Releasing(story) =>
          StoryFits(req, story) && w.files == if Removes(req, story) then WithoutStaging(w.found, no) else w.found
        case Done(story, res) =>
          && StoryFits(req, story) && w.found.lock
          && res == Verdict(req, story).0 && w.files == End(req, story, w.found, no)
        case Killed => true)
  }

  lemma StepKeeps(w: Run, e: Event, req: Request, no: Refusals)
    requires Inv(w, req, no)
    ensures Inv(Step(w, e, req, no), req, no)
  {
    hide Verdict;
    hide Released;
  }

  lemma {:induction false} RunKeeps(files: Files, events: seq<Event>, req: Request, no: Refusals)
    ensures Inv(After(Start(files), events, req, no), req, no)
  {
    if events != [] {
      hide Inv;
      hide Step;
      var before := events[..|events| - 1];
      RunKeeps(files, before, req, no);
      StepKeeps(After(Start(files), before, req, no), events[|events| - 1], req, no);
    } else {
      assert Inv(Start(files), req, no);
    }
  }

  // ---- The arm's own steps -----------------------------------------------------------------------

  /** The steps the arm took: it takes its lock, recovers (`acts[1]`), judges the report, muxes
      (`acts[3]`), looks for a Stop behind the mux (`acts[4]`), clears away, releases. */
  function Acts(events: seq<Event>): seq<Answer> {
    if events == [] then []
    else
      var most, e := Acts(events[..|events| - 1]), events[|events| - 1];
      if e.Act? then most + [e.answer] else most
  }

  /** A Stop was pressed before the arm's fifth step, its look behind the mux. */
  predicate SawStop(events: seq<Event>) {
    events != [] &&
    var most, e := events[..|events| - 1], events[|events| - 1];
    SawStop(most) || (e.Stop? && |Acts(most)| < 5)
  }

  predicate MuxLanded(acts: seq<Answer>) { |acts| > 3 && acts[3].muxOk }

  ghost predicate Tells(story: Story, acts: seq<Answer>, sawStop: bool) {
    |acts| > 1 &&
    match story
    case NoReport => !acts[1].report.Recovered?
    case Read(r) => acts[1].report == Recovered(r)
    case Mux(r, ok, seenStop) =>
      |acts| > 4 && acts[1].report == Recovered(r) && MuxLanded(acts) == ok && seenStop == sawStop
  }

  /** Where a run stands is how far its own steps came. */
  ghost predicate Follows(w: Run, acts: seq<Answer>, sawStop: bool) {
    && (|acts| < 5 ==> w.cancel == sawStop)
    && (|acts| > 1 && !w.pc.Killed? ==> w.found.iso == acts[1].iso && w.found.mapfile == acts[1].mapfile)
    && match w.pc
       case Starting => |acts| == 0
       case Reading => |acts| == 1
       case Judging(r) => |acts| == 2 && acts[1].report == Recovered(r)
       case Muxing(r) => |acts| == 3 && acts[1].report == Recovered(r)
       case Muxed(r, ok) => |acts| == 4 && acts[1].report == Recovered(r) && MuxLanded(acts) == ok
       case RemovingMap(story) => Tells(story, acts, sawStop)
       case RemovingIso(story) => Tells(story, acts, sawStop)
       case Releasing(story) => Tells(story, acts, sawStop)
       case Done(story, _) => Tells(story, acts, sawStop)
       case Killed => true
  }

  lemma StepFollows(w: Run, e: Event, req: Request, no: Refusals, acts: seq<Answer>, sawStop: bool)
    requires Follows(w, acts, sawStop)
    ensures Follows(Step(w, e, req, no), if e.Act? then acts + [e.answer] else acts,
                    sawStop || (e.Stop? && |acts| < 5))
  {
    hide Released;
    hide WithoutStaging;
    hide Verdict;
    hide Removes;
    hide ShouldDeleteStagingIso;
    hide GoesToMux;
  }

  lemma {:induction false} RunFollows(files: Files, events: seq<Event>, req: Request, no: Refusals)
    ensures Follows(After(Start(files), events, req, no), Acts(events), SawStop(events))
  {
    if events != [] {
      hide Follows;
      hide Step;
      var before := events[..|events| - 1];
      RunFollows(files, before, req, no);
      StepFollows(After(Start(files), before, req, no), events[|events| - 1], req, no, Acts(before), SawStop(before));
    }
  }

  /** What every finished run says and leaves, read off what the engine answered in the arm's own
      steps and whether a Stop was pressed before the arm looked behind the mux. */
  lemma RunEndsExactly(files: Files, events: seq<Event>, req: Request, no: Refusals)
    ensures var w, acts := After(Start(files), events, req, no), Acts(events);
            w.pc.Done? ==>
              && |acts| > 1 && w.found == Files(acts[1].iso, acts[1].mapfile, true)
              && EndsAs(req, acts[1].report, MuxLanded(acts), SawStop(events), w.found, no, w.pc.res, w.files)
  {
    RunKeeps(files, events, req, no);
    RunFollows(files, events, req, no);
    var w, acts := After(Start(files), events, req, no), Acts(events);
    if w.pc.Done? { ToldEnds(w, acts, req, no, SawStop(events)); }
    hide After;
    hide EndsAs;
  }

  lemma ToldEnds(w: Run, acts: seq<Answer>, req: Request, no: Refusals, sawStop: bool)
    requires w.pc.Done? && Inv(w, req, no) && Follows(w, acts, sawStop)
    ensures EndsAs(req, acts[1].report, MuxLanded(acts), sawStop, w.found, no, w.pc.res, w.files)
  {
    StoryEnds(req, acts[1].report, MuxLanded(acts), sawStop, w.found, no);
    hide EndsAs;
    hide End;
    hide Verdict;
  }

  // ---- What that means for the image ---------------------------------------------------------------

  /** Once the lock is taken, a killed run leaves it; so does every run that leaves an image and
      falls short: no usable report, a halted read, one given up for loss, nothing readable, or
      titles that did not land. Exactly those say an error or were halted, and with removals the
      file system grants, the lock of a finished run is left exactly then. */
  lemma LockGuardsTheImage(files: Files, events: seq<Event>, req: Request, no: Refusals)
    ensures var w, acts := After(Start(files), events, req, no), Acts(events);
            && (w.pc.Killed? && (exists k | 0 <= k < |events| :: After(Start(files), events[..k], req, no).pc.Reading?)
                ==> w.files.lock)
            && (w.pc.Done? ==>
                  && |acts| > 1
                  && var short := FallsShort(req, acts[1].report, MuxLanded(acts));
                     && (short <==> w.pc.res.Err? || w.pc.res == Ok(PartialKept))
                     && (w.files.iso && short ==> w.files.lock)
                     && (!no.lock ==> (w.files.lock <==> w.files.iso && short)))
  {
    RunEndsExactly(files, events, req, no);
    RunKeeps(files, events, req, no);
    LockIsHeld(files, events, req, no);
    hide After;
  }

  lemma StepHoldsLock(v: Run, e: Event, req: Request, no: Refusals)
    requires Inv(v, req, no)
    ensures var w := Step(v, e, req, no);
            && (w.pc.Reading? ==> w.files.lock)
            && (!v.pc.Starting? && (v.pc.Done? || v.files.lock) ==> !w.pc.Starting? && (w.pc.Done? || w.files.lock))
  {
  }

  lemma {:induction false} LockIsHeld(files: Files, events: seq<Event>, req: Request, no: Refusals)
    ensures var w := After(Start(files), events, req, no);
            (exists k | 0 <= k <= |events| :: After(Start(files), events[..k], req, no).pc.Reading?)
            ==> !w.pc.Starting? && (w.pc.Done? || w.files.lock)
  {
    if events != [] {
      var start, before := Start(files), events[..|events| - 1];
      LockIsHeld(files, before, req, no);
      RunKeeps(files, before, req, no);
      assert events[..|events|] == events;
      assert forall k | 0 <= k < |events| :: events[..k] == before[..k];
      assert before[..|before|] == before;
      StepHoldsLock(After(start, before, req, no), events[|events| - 1], req, no);
      hide Step;
      hide Inv;
    } else {
      assert events[..0] == [];
    }
  }

  /** The image is removed in one step only, and only for a staged image of which nothing could
      be read, or whose titles landed, no Stop having been pressed when the arm looked behind the
      mux, with no whole image to keep. */
  lemma ImageIsRemovedOnlyWhen(files: Files, events: seq<Event>, e: Event, req: Request, no: Refusals)
    ensures var w, acts := After(Start(files), events, req, no), Acts(events);
            w.files.iso && !w.pc.Reading? && !Step(w, e, req, no).files.iso ==>
              w.pc.RemovingIso? && |acts| > 1 && Clears(req, acts[1].report, MuxLanded(acts), SawStop(events))
  {
    RunKeeps(files, events, req, no);
    RunFollows(files, events, req, no);
    hide After;
  }

  /** What a finished run leaves: a deliverable is never removed, and a message that says the
      image is kept is true. */
  lemma KeptIsKept(files: Files, events: seq<Event>, req: Request, no: Refusals)
    ensures var w, acts := After(Start(files), events, req, no), Acts(events);
            w.pc.Done? ==>
              && |acts| > 1
              && (req.wantIso || SaysKept(w.pc.res) ==> w.files.iso == acts[1].iso && w.files.mapfile == acts[1].mapfile)
              && (!w.files.iso && acts[1].iso ==> w.pc.res in {Err(NothingToMux), Ok(TitlesWritten)})
  {
    RunEndsExactly(files, events, req, no);
    hide After;
  }

  /** Keeping the lock after a Stop, as documented for it, holds exactly when the Stop halted
      the read: a run told it was cancelled leaves an image and no lock when a Stop was pressed
      before the arm looked behind the mux. */
  lemma CancelledKeepsItsLockExactly(files: Files, events: seq<Event>, req: Request, no: Refusals)
    ensures var w, acts := After(Start(files), events, req, no), Acts(events);
            w.pc.Done? && !no.lock && w.files.iso && w.pc.res in {Ok(PartialKept), Ok(CancelledKept)} ==>
              && |acts| > 1 && acts[1].report.Recovered?
              && (w.files.lock <==> acts[1].report.r.halted)
              && (!w.files.lock ==> |acts| > 4 && SawStop(events))
  {
    RunEndsExactly(files, events, req, no);
    RunFollows(files, events, req, no);
    RunKeeps(files, events, req, no);
    hide After;
  }

  /** Such a run: everything is read, Stop is pressed while the titles are muxed, they land. */
  lemma StopDuringTheMux()
    ensures var req, no := Request(false, false, false), Refusals(false, false, false);
            var act := Act(Answer(Recovered(Recovery(false, false, 1)), true, true, true));
            var w := After(Start(Files(false, false, false)), [act, act, act, Stop, act, act, act], req, no);
            w.pc.Done? && w.pc.res == Ok(CancelledKept) && w.files == Files(true, true, false)
  {
    var req, no := Request(false, false, false), Refusals(false, false, false);
    var act := Act(Answer(Recovered(Recovery(false, false, 1)), true, true, true));
    var start := Start(Files(false, false, false));
    OneMore(start, [], act, req, no);
    OneMore(start, [act], act, req, no);
    OneMore(start, [act, act], act, req, no);
    OneMore(start, [act, act, act], Stop, req, no);
    OneMore(start, [act, act, act, Stop], act, req, no);
    OneMore(start, [act, act, act, Stop, act], act, req, no);
    OneMore(start, [act, act, act, Stop, act, act], act, req, no);
    Spelled(act);
  }

  lemma Spelled(a: Event)
    ensures [] + [a] == [a] && [a] + [a] == [a, a] && [a, a] + [a] == [a, a, a]
    ensures [a, a, a] + [Stop] == [a, a, a, Stop]
    ensures [a, a, a, Stop] + [a] == [a, a, a, Stop, a]
    ensures [a, a, a, Stop, a] + [a] == [a, a, a, Stop, a, a]
    ensures [a, a, a, Stop, a, a] + [a] == [a, a, a, Stop, a, a, a]
  {
  }

  lemma OneMore(w: Run, events: seq<Event>, e: Event, req: Request, no: Refusals)
    ensures After(w, [], req, no) == w
    ensures After(w, events + [e], req, no) == Step(After(w, events, req, no), e, req, no)
  {
    assert (events + [e])[..|events|] == events;
  }

  /** A request that the arm leaves to the per-title path, and one whose image it muxes, name a
      target for every title. */
  lemma TitlesHaveTargets(kind: Names.OutKind, multipass: bool)
    requires !kind.DecryptedFolder?
    ensures RecoveryPlan(kind, multipass) == PerTitle || RecoveryPlan(kind, multipass) == Recover(false)
            <==> kind.File? || kind.Demux?
    ensures RecoveryPlan(kind, multipass) == PerTitle <==> !kind.IsoImage? && !multipass
  {
  }
}

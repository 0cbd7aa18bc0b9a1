/**
 What a presence check on a held drive answers, and how long the hold lives on those answers
 (`presence` and `expire` in src/engine.rs), read off the run's own steps.
 */
module HeldDrivePresence {
  import opened Basics
  import opened HeldDrive
  import opened HeldDriveRuns
  import opened HeldDriveTheorems
  import opened HeldDriveRegistry

  // ---- The answer ---------------------------------------------------------------------------

  /** The drive in the slot was opened from `source`. */
  predicate SlotIsOf(w: World, source: string) {
    match w.slot.held
    case None => false
    case Some(h) => h.source == source
  }

  lemma CheckedAnswer(w: World, source: string, now: nat, status: DriveStatus)
    ensures var w' := Checked(w, source, now, status);
            var mine := SlotIsOf(w, source);
            && (w'.told == Some(Verdict(Some(true))) <==> mine && status == DiscPresent)
            && (w'.told == Some(Verdict(Some(false))) <==> mine && (status == NoDisc || status == TrayOpen))
            && (w'.told == Some(Verdict(None))
                <==> (mine && (status == NotReady || status == Unknown))
                     || (w.slot.held == None && Settles(w.slot.released, source, now)))
            && (w'.told == Some(AskRegistry)
                <==> !mine && !(w.slot.held == None && Settles(w.slot.released, source, now)))
  {
    CheckedSlot(w, source, now, status);
    hide Checked;
  }

  lemma CheckedCloses(w: World, source: string, now: nat, status: DriveStatus)
    requires w.slot.held.Some?
    ensures var w' := Checked(w, source, now, status);
            var h := w.slot.held.value;
            if h.source != source || status == NoDisc || status == TrayOpen then
              w'.slot.held == None && w'.closed == w.closed + multiset{h.handle}
            else
              && w'.slot.held == Some(if status == DiscPresent then h.(renewed := now) else h)
              && w'.closed == w.closed
  {
  }

  /** After any run, with any hold in the slot: the answers of a check of `source`. With a drive
      of it held, the disc is there exactly when that drive reports one, and gone exactly when it
      reports none or an open tray; a drive that is not ready or says nothing decides nothing, nor
      does a source released less than `HOLD_SETTLE` ago, and in all other cases the registry is
      asked. The drive is closed exactly when it reported the disc gone or is another source's;
      the hold is renewed exactly when it reported the disc there. */
  lemma PresenceTellsExactly(actions: seq<Action>, source: string, now: nat, status: DriveStatus)
    requires Possible(Idle, actions) && Enabled(Run(Idle, actions), CheckPresence(source, now, status))
    ensures var w := Run(Idle, actions);
            var w' := Step(w, CheckPresence(source, now, status));
            var mine := SlotIsOf(w, source);
            var settling := w.slot.held == None && Settles(LastRelease(Idle, actions), source, now);
            && (w'.told == Some(Verdict(Some(true))) <==> mine && status == DiscPresent)
            && (w'.told == Some(Verdict(Some(false))) <==> mine && (status == NoDisc || status == TrayOpen))
            && (w'.told == Some(Verdict(None)) <==> settling || (mine && (status == NotReady || status == Unknown)))
            && (w'.told == Some(AskRegistry) <==> !mine && !settling)
    ensures var w := Run(Idle, actions);
            var w' := Step(w, CheckPresence(source, now, status));
            w.slot.held.Some? ==>
              var h := w.slot.held.value;
              if h.source != source || w'.told == Some(Verdict(Some(false))) then
                w'.slot.held == None && w'.closed == w.closed + multiset{h.handle}
              else
                && w'.slot.held == Some(if w'.told == Some(Verdict(Some(true))) then h.(renewed := now) else h)
                && w'.closed == w.closed
  {
    RunRecords(Idle, actions);
    var w := Run(Idle, actions);
    CheckedAnswer(w, source, now, status);
    if w.slot.held.Some? { CheckedCloses(w, source, now, status); }
    hide Checked;
  }

  // ---- The lease ----------------------------------------------------------------------------

  /** When this step last made sure of the drive `handle`: an Open at the time it brings with it,
      a check of its source that is told by the held drive itself that a disc is there. */
  function Renews(w: World, a: Action, handle: nat): Option<nat> {
    match a
    case Offer(h) => if h.handle == handle then Some(h.renewed) else None
    case CheckPresence(source, now, status) =>
      if InSlot(w, handle) && SlotIsOf(w, source) && status == DiscPresent then Some(now) else None
    case _ => None
  }

  /** The last time in a run that the drive `handle` was made sure of. */
  function LastRenewal(w: World, actions: seq<Action>, handle: nat): Option<nat>
    requires Possible(w, actions)
    decreases |actions|
  {
    if actions == [] then None
    else
      var later := LastRenewal(Step(w, actions[0]), actions[1..], handle);
      if later.Some? then later else Renews(w, actions[0], handle)
  }

  /** What the books say about that, wherever the drive is. */
  function Renewal(w: World, handle: nat): Option<nat> {
    if InSlot(w, handle) then Some(w.slot.held.value.renewed)
    else if handle in w.pending then Some(w.pending[handle].renewed)
    else if handle in w.offered then Some(w.offered[handle].renewed)
    else None
  }

  /** At most the drive in the slot has left its place. */
  predicate Dropped(w: World, w': World) {
    && w'.pending == w.pending && w'.offered == w.offered
    && (w'.slot.held == None || w'.slot.held == w.slot.held)
  }

  lemma DroppedRenews(w: World, w': World, handle: nat)
    requires Inv(w) && Dropped(w, w')
    ensures Renewal(w', handle).Some? ==> Renewal(w', handle) == Renewal(w, handle)
  {
    assert Places(w, handle) == Ones(handle in w.seen);
  }

  lemma OfferedRenews(w: World, h: Held, handle: nat)
    requires Inv(w) && h.handle !in w.seen
    ensures var w' := Offered(w, h);
            Renewal(w', handle).Some? ==>
              Renewal(w', handle) == if h.handle == handle then Some(h.renewed) else Renewal(w, handle)
  {
    assert Places(w, h.handle) == Ones(h.handle in w.seen);
  }

  lemma DrawnRenews(w: World, drawn: nat, handle: nat)
    requires Inv(w) && drawn in w.offered
    ensures Renewal(Drawn(w, drawn), handle) == Renewal(w, handle)
  {
    assert Places(w, handle) == Ones(handle in w.seen);
  }

  lemma FilledRenews(w: World, filled: nat, handle: nat)
    requires Inv(w) && filled in w.pending
    ensures var w' := Filled(w, filled); Renewal(w', handle).Some? ==> Renewal(w', handle) == Renewal(w, handle)
  {
    assert Places(w, handle) == Ones(handle in w.seen);
    assert w.pending[filled].handle == filled;
  }

  lemma CheckedRenews(w: World, source: string, now: nat, status: DriveStatus, handle: nat)
    requires Inv(w)
    ensures var w' := Checked(w, source, now, status);
            var renewed := Renews(w, CheckPresence(source, now, status), handle);
            Renewal(w', handle).Some? ==>
              Renewal(w', handle) == if renewed.Some? then renewed else Renewal(w, handle)
  {
    var w' := Checked(w, source, now, status);
    CheckedMovesNothing(w, source, now, status);
    hide Checked;
    hide Inv;
    hide Renewal;
    match w.slot.held
    case None => DroppedRenews(w, w', handle);
    case Some(h) =>
      CheckedCloses(w, source, now, status);
      if w'.slot.held == None {
        DroppedRenews(w, w', handle);
      } else {
        RenewedInPlace(w, w', handle);
      }
  }

  lemma CheckedMovesNothing(w: World, source: string, now: nat, status: DriveStatus)
    ensures var w' := Checked(w, source, now, status);
            w'.pending == w.pending && w'.offered == w.offered && (w.slot.held == None ==> w'.slot.held == None)
  {
  }

  lemma RenewedInPlace(w: World, w': World, handle: nat)
    requires w'.pending == w.pending && w'.offered == w.offered && w.slot.held.Some? && w'.slot.held.Some?
    requires w'.slot.held.value == w.slot.held.value.(renewed := w'.slot.held.value.renewed)
    ensures Renewal(w', handle) == if InSlot(w, handle) then Some(w'.slot.held.value.renewed) else Renewal(w, handle)
    ensures InSlot(w, handle) ==> Renewal(w, handle) == Some(w.slot.held.value.renewed)
  {
  }

  predicate Drops(a: Action) { !a.Offer? && !a.Draw? && !a.Install? && !a.CheckPresence? }

  lemma HelpersDrop(w: World)
    ensures Dropped(w, Freed(w)) && Dropped(w, Taken(w))
  {
  }

  lemma EjectedDrops(w: World, source: string)
    ensures Dropped(w, Ejected(w, source))
  {
  }

  lemma StepDrops(w: World, a: Action)
    requires Enabled(w, a) && Drops(a)
    ensures Dropped(w, Step(w, a))
  {
    hide KeepsWatching;
    hide HoldCancelled;
    hide Freed;
    hide Taken;
    hide Ejected;
    HelpersDrop(w);
    if a.Eject? { EjectedDrops(w, a.source); }
  }

  lemma StepRenews(w: World, a: Action, handle: nat)
    requires Inv(w) && Enabled(w, a)
    ensures var w' := Step(w, a);
            Renewal(w', handle).Some? ==>
              Renewal(w', handle) == if Renews(w, a, handle).Some? then Renews(w, a, handle) else Renewal(w, handle)
  {
    if Drops(a) { StepDrops(w, a); }
    hide Inv;
    hide Renewal;
    hide Freed;
    hide Taken;
    hide Ejected;
    hide Offered;
    hide Drawn;
    hide Filled;
    hide Checked;
    hide KeepsWatching;
    match a
    case Offer(h) => OfferedRenews(w, h, handle);
    case Draw(drawn) => DrawnRenews(w, drawn, handle);
    case Install(filled) => FilledRenews(w, filled, handle);
    case CheckPresence(source, now, status) => CheckedRenews(w, source, now, status, handle);
    case _ => DroppedRenews(w, Step(w, a), handle);
  }

  lemma {:induction false} RunRenews(w: World, actions: seq<Action>, handle: nat)
    requires Inv(w) && Possible(w, actions)
    ensures var end := Run(w, actions);
            Renewal(end, handle).Some? ==>
              Renewal(end, handle)
              == if LastRenewal(w, actions, handle).Some? then LastRenewal(w, actions, handle) else Renewal(w, handle)
    decreases |actions|
  {
    if actions != [] {
      hide Inv;
      hide Step;
      hide Renewal;
      hide Renews;
      StepKeeps(w, actions[0]);
      StepRenews(w, actions[0], handle);
      RunRenews(Step(w, actions[0]), actions[1..], handle);
    }
  }

  /** A hold lives exactly as long as the checks of its own source keep finding its disc: its
      reaper's step closes the drive when its open was cancelled, or when `HOLD_LEASE` has passed
      since the run's last such check (or since its Open, before the first), and touches nothing
      otherwise. */
  lemma LeaseRunsExactly(actions: seq<Action>, now: nat)
    requires Possible(Idle, actions) && Run(Idle, actions).slot.held.Some?
    requires Enabled(Run(Idle, actions), Expire(Run(Idle, actions).slot.held.value.serial, now))
    ensures var w := Run(Idle, actions);
            var h := w.slot.held.value;
            var w' := Step(w, Expire(h.serial, now));
            var renewed := LastRenewal(Idle, actions, h.handle);
            && renewed.Some?
            && if h.open in w.cancelled || now >= renewed.value + HOLD_LEASE then
                 w'.slot.held == None && w'.closed == w.closed + multiset{h.handle}
               else
                 w' == w
  {
    IdleKeeps();
    var w := Run(Idle, actions);
    RunRenews(Idle, actions, w.slot.held.value.handle);
  }
}

/**
 When a presence check asks the registry (`disc_present_with`, `presence` and `eject_held_or`
 in src/engine.rs). The decision is taken under the lock, the registry is called behind it, and
 anything can happen in between.
 */
module HeldDriveRegistry {
  import opened Basics
  import opened HeldDrive
  import opened HeldDriveRuns
  import opened HeldDriveTheorems

  /** Whether `disc_present(source)` decides here to ask the registry. */
  predicate Asks(w: World, source: string, now: nat, status: DriveStatus) {
    Checked(w, source, now, status).told == Some(AskRegistry)
  }

  // ---- What a run released last -----------------------------------------------------------

  /** The source whose hold this step releases, which is what the settle record remembers. A
      take is no release, nor is the drop of a hold that an eject of another source took. */
  function Releases(w: World, a: Action): Option<string>
    requires Enabled(w, a)
  {
    match w.slot.held
    case None => None
    case Some(h) =>
      var released :=
        match a
        case Install(_) => true
        case SpawnReaper(_, ok) => !ok
        case Close => true
        case CheckPresence(source, _, status) => h.source != source || status == NoDisc || status == TrayOpen
        case Expire(serial, now) =>
          h.serial == serial && (h.open in w.cancelled || Since(now, h.renewed) >= HOLD_LEASE)
        case _ => false;
      if released then Some(h.source) else None
  }

  /** The last release of a run: its source and its time. */
  function LastRelease(w: World, actions: seq<Action>): Option<(string, nat)>
    requires Possible(w, actions)
    decreases |actions|
  {
    if actions == [] then None
    else
      var later := LastRelease(Step(w, actions[0]), actions[1..]);
      var released := Releases(w, actions[0]);
      if later.Some? || released.None? then later else Some((released.value, w.clock))
  }

  /** The release was of this source and is less than `HOLD_SETTLE` old. */
  predicate Settles(release: Option<(string, nat)>, source: string, now: nat) {
    release.Some? && release.value.0 == source && now < release.value.1 + HOLD_SETTLE
  }

  lemma StepRecords(w: World, a: Action)
    requires Enabled(w, a)
    ensures Step(w, a).slot.released
            == if Releases(w, a).Some? then Some((Releases(w, a).value, w.clock)) else w.slot.released
  {
    SlotFollowsTheSource(w, a);
    hide Step;
  }

  lemma {:induction false} RunRecords(w: World, actions: seq<Action>)
    requires Possible(w, actions)
    ensures Run(w, actions).slot.released
            == if LastRelease(w, actions).Some? then LastRelease(w, actions) else w.slot.released
    decreases |actions|
  {
    if actions != [] {
      hide Step;
      hide Releases;
      StepRecords(w, actions[0]);
      RunRecords(Step(w, actions[0]), actions[1..]);
    }
  }

  /** Which closes are recorded: all but those of an open cancelled before it was held and of a
      hold taken by an eject of another source. */
  lemma ClosesRecordedExactly(w: World, a: Action)
    requires Enabled(w, a)
    ensures Releases(w, a).Some? ==> Step(w, a).closed == w.closed + multiset{w.slot.held.value.handle}
    ensures Step(w, a).closed != w.closed ==> (Releases(w, a).None? <==> a.Offer? || a.Eject?)
  {
    hide PresenceStep;
    assert a.CheckPresence? ==> (PresenceStep(w.slot, a.source, a.now, a.status, w.clock).0.held.None?
                                 <==> w.slot.held.None? || Releases(w, a).Some?) by {
      CheckReleases(w, a);
    }
  }

  lemma CheckReleases(w: World, a: Action)
    requires Enabled(w, a)
    ensures a.CheckPresence? ==> (PresenceStep(w.slot, a.source, a.now, a.status, w.clock).0.held.None?
                                  <==> w.slot.held.None? || Releases(w, a).Some?)
  {
  }

  // ---- The decision -------------------------------------------------------------------------

  /** After any run, with any hold in the slot: a check leaves the registry alone exactly when
      it finds its own source held, or nothing held and the last release of the whole run was
      of its source and is less than `HOLD_SETTLE` old. Any other close of the source, and any
      later release of another, opens no settle window. */
  lemma SettlesExactlyWhenRecorded(actions: seq<Action>, source: string, now: nat, status: DriveStatus)
    requires Possible(Idle, actions) && Enabled(Run(Idle, actions), CheckPresence(source, now, status))
    ensures var w := Run(Idle, actions);
            !Asks(w, source, now, status) <==>
              HeldFor(w.slot, source) || (w.slot.held.None? && Settles(LastRelease(Idle, actions), source, now))
  {
    RunRecords(Idle, actions);
    AsksExactly(Run(Idle, actions), source, now, status);
    hide Asks;
    hide Step;
  }

  /** The release a check finds: that of the other source's hold it has just released, or the
      one on record. */
  function FoundRelease(w: World): Option<(string, nat)> {
    if w.slot.held.Some? then Some((w.slot.held.value.source, w.clock)) else w.slot.released
  }

  lemma AsksExactly(w: World, source: string, now: nat, status: DriveStatus)
    ensures Asks(w, source, now, status) <==> !HeldFor(w.slot, source) && !Settles(FoundRelease(w), source, now)
  {
    CheckedSlot(w, source, now, status);
    hide Checked;
  }

  /** Ejecting another source closes the held drive but opens no settle window for it: at once
      the registry is asked about it, unless an earlier release of the same source still counts.
      Through `release` (Close, say) it is left alone. */
  lemma EjectElsewhereSkipsSettling(w: World, other: string, status: DriveStatus)
    requires Inv(w) && w.slot.held.Some? && w.slot.held.value.source != other
    ensures var h := w.slot.held.value;
            var ejected, closed := Step(w, Eject(other)), Step(w, Close);
            && ejected.closed == w.closed + multiset{h.handle} == closed.closed
            && ejected.lastClose[h.source] == w.clock == closed.lastClose[h.source]
            && (Asks(ejected, h.source, w.clock, status) <==> !Settles(w.slot.released, h.source, w.clock))
            && !Asks(closed, h.source, w.clock, status)
  {
    hide Inv;
    hide Asks;
    var h := w.slot.held.value;
    BothClose(w, other);
    hide Step;
    AsksExactly(Step(w, Eject(other)), h.source, w.clock, status);
    AsksExactly(Step(w, Close), h.source, w.clock, status);
  }

  lemma BothClose(w: World, other: string)
    requires w.slot.held.Some? && w.slot.held.value.source != other
    ensures var h := w.slot.held.value;
            var ejected, closed := Step(w, Eject(other)), Step(w, Close);
            && ejected.closed == w.closed + multiset{h.handle} == closed.closed
            && h.source in ejected.lastClose && ejected.lastClose[h.source] == w.clock
            && h.source in closed.lastClose && closed.lastClose[h.source] == w.clock
            && ejected.slot == w.slot.(held := None) && closed.slot == Released(w.slot, w.clock)
  {
  }

  /** Releasing keeps only the last source: a check of `a` that releases `b` asks the
      registry about `a` although `a` was released this instant. */
  lemma OtherReleaseEndsSettling(w: World, a: string, b: string, status: DriveStatus)
    requires Inv(w) && a != b && HeldFor(w.slot, b)
    requires a in w.lastRelease && w.lastRelease[a] == w.clock
    ensures Enabled(w, CheckPresence(a, w.clock, status)) && Asks(w, a, w.clock, status)
  {
  }

  // ---- The call -----------------------------------------------------------------------------

  function HeldHandle(w: World): Option<nat> {
    if w.slot.held.Some? then Some(w.slot.held.value.handle) else None
  }

  /** The last step that changed which drive is in the slot, with the world it met. */
  function LastChange(w: World, actions: seq<Action>): (r: Option<(World, Action)>)
    requires Possible(w, actions)
    ensures r.Some? ==> Enabled(r.value.0, r.value.1)
    decreases |actions|
  {
    if actions == [] then None
    else
      var w' := Step(w, actions[0]);
      var later := LastChange(w', actions[1..]);
      if later.Some? || HeldHandle(w') == HeldHandle(w) then later else Some((w, actions[0]))
  }

  /** A drive of this source was put in the slot by that step. */
  predicate InstalledBy(change: Option<(World, Action)>, source: string)
    requires change.Some? ==> Enabled(change.value.0, change.value.1)
  {
    change.Some? && change.value.1.Install? && change.value.0.pending[change.value.1.handle].source == source
  }

  lemma StepChanges(w: World, a: Action, source: string)
    requires Inv(w) && Enabled(w, a)
    ensures HeldHandle(Step(w, a)) == HeldHandle(w) ==> (HeldFor(Step(w, a).slot, source) <==> HeldFor(w.slot, source))
    ensures HeldHandle(Step(w, a)) != HeldHandle(w) ==> (HeldFor(Step(w, a).slot, source) <==> InstalledBy(Some((w, a)), source))
  {
    SlotFollowsTheSource(w, a);
    if a.Install? { InstallChanges(w, a.handle); }
    hide Step;
    hide Inv;
  }

  lemma InstallChanges(w: World, handle: nat)
    requires Inv(w) && handle in w.pending
    ensures w.pending[handle].handle == handle && HeldHandle(w) != Some(handle)
  {
    assert Places(w, handle) == Ones(handle in w.seen);
  }

  lemma {:induction false} HeldIsTheLastChange(w: World, actions: seq<Action>, source: string)
    requires Inv(w) && Possible(w, actions)
    ensures var change := LastChange(w, actions);
            HeldFor(Run(w, actions).slot, source)
            <==> if change.None? then HeldFor(w.slot, source) else InstalledBy(change, source)
    decreases |actions|
  {
    if actions != [] {
      hide Inv;
      hide Step;
      StepKeeps(w, actions[0]);
      StepChanges(w, actions[0], source);
      HeldIsTheLastChange(Step(w, actions[0]), actions[1..], source);
    }
  }

  lemma StepAges(w: World, a: Action)
    requires Enabled(w, a)
    ensures w.clock <= Step(w, a).clock
  {
    FreedKeepsGone(w);
    hide Freed;
    hide Released;
    hide KeepsWatching;
    if a.CheckPresence? { CheckedKeepsGone(w, a.source, a.now, a.status); }
    hide Checked;
  }

  lemma {:induction false} RunAges(w: World, actions: seq<Action>)
    requires Possible(w, actions)
    ensures w.clock <= Run(w, actions).clock
    decreases |actions|
  {
    if actions != [] {
      hide Step;
      StepAges(w, actions[0]);
      RunAges(Step(w, actions[0]), actions[1..]);
    }
  }

  lemma Decided(w: World, source: string, now: nat, status: DriveStatus)
    requires Enabled(w, CheckPresence(source, now, status)) && Asks(w, source, now, status)
    ensures var decided := Step(w, CheckPresence(source, now, status));
            && decided.slot.held.None? && !Settling(decided.slot, source, now) && source in decided.asking
            && now <= decided.clock
  {
    CheckedSlot(w, source, now, status);
    CheckedKeepsGone(w, source, now, status);
    assert source in Checked(w, source, now, status).asking;
    hide Checked;
  }

  /** The registry is called some steps behind the decision to ask it. By then the source is in
      the slot exactly when, of the steps in between, the last one that changed the slot put a
      drive of it there; and it is inside its settle window exactly when the last release in
      between was of it and is less than `HOLD_SETTLE` old. With no step in between it is
      neither. */
  lemma RegistryCalledExactly(before: seq<Action>, source: string, now: nat, status: DriveStatus, between: seq<Action>)
    requires Possible(Idle, before) && Enabled(Run(Idle, before), CheckPresence(source, now, status))
    requires Asks(Run(Idle, before), source, now, status)
    requires Possible(Step(Run(Idle, before), CheckPresence(source, now, status)), between)
    ensures var decided := Step(Run(Idle, before), CheckPresence(source, now, status));
            var w := Run(decided, between);
            && source in decided.asking
            && (HeldFor(w.slot, source) <==> InstalledBy(LastChange(decided, between), source))
            && (Settling(w.slot, source, w.clock) <==> Settles(LastRelease(decided, between), source, w.clock))
  {
    IdleKeeps();
    RunKeeps(Idle, before);
    var w := Run(Idle, before);
    var decided := Step(w, CheckPresence(source, now, status));
    StepKeeps(w, CheckPresence(source, now, status));
    Decided(w, source, now, status);
    hide Inv;
    hide Step;
    hide PresenceStep;
    HeldIsTheLastChange(decided, between, source);
    RunRecords(decided, between);
    RunAges(decided, between);
  }

  lemma OneMore(actions: seq<Action>, a: Action) returns (more: seq<Action>)
    requires Possible(Idle, actions) && Enabled(Run(Idle, actions), a)
    ensures more == actions + [a] && Possible(Idle, more) && Run(Idle, more) == Step(Run(Idle, actions), a)
  {
    RunSnoc(actions, a);
    more := actions + [a];
  }

  /** An Open that has its serial and waits for the lock. */
  lemma OneOpen(source: string) returns (actions: seq<Action>)
    ensures Possible(Idle, actions)
    ensures var w := Run(Idle, actions);
            w.pending == map[7 := Held(1, source, 7, 1, 0)] && w.slot == Slot(None, None) && w.closed == multiset{}
  {
    actions := OneMore([], Offer(Held(0, source, 7, 1, 0)));
    actions := OneMore(actions, Action.Draw(7));
  }

  lemma HeldAtTheCall(source: string, status: DriveStatus) returns (held: seq<Action>)
    ensures Possible(Idle, held)
    ensures var w := Run(Idle, held); source in w.asking && HeldFor(w.slot, source)
  {
    held := OneOpen(source);
    AsksUnreleased(Run(Idle, held), source, 0, status);
    hide Checked;
    held := OneMore(held, CheckPresence(source, 0, status));
    held := OneMore(held, Install(7));
  }

  /** Such runs: a check decides to ask, an Open installs its hold on the same source, and the
      registry is called while that source is held; a Close later it is called inside the
      settle window. */
  lemma CalledWhileHeld(source: string, status: DriveStatus) returns (held: seq<Action>, settling: seq<Action>)
    ensures Possible(Idle, held) && Possible(Idle, settling)
    ensures var w := Run(Idle, held); Enabled(w, CallRegistry(source)) && HeldFor(w.slot, source)
    ensures var w := Run(Idle, settling);
            Enabled(w, CallRegistry(source)) && w.slot.held.None? && Settling(w.slot, source, w.clock)
  {
    held := HeldAtTheCall(source, status);
    settling := OneMore(held, Close);
  }

  lemma AsksUnreleased(w: World, source: string, now: nat, status: DriveStatus)
    requires w.slot == Slot(None, None)
    ensures Checked(w, source, now, status) == w.(told := Some(AskRegistry), asking := w.asking + multiset{source})
  {
  }

  /** A run in which an eject of another source skips the settle window: the drive is closed,
      and the registry is asked about it at the same instant. */
  lemma EjectedWithoutSettling(source: string, other: string, status: DriveStatus) returns (actions: seq<Action>)
    requires source != other
    ensures Possible(Idle, actions)
    ensures var w := Run(Idle, actions);
            && w.closed[7] == 1 && source in w.lastClose && w.lastClose[source] == w.clock
            && Enabled(w, CheckPresence(source, w.clock, status)) && Asks(w, source, w.clock, status)
  {
    actions := OneOpen(source);
    actions := OneMore(actions, Install(7));
    actions := OneMore(actions, Eject(other));
  }

  /** A run in which a check releases another source's hold: both are released at one instant, and
      the registry is asked about the one that was released before. */
  lemma OtherReleased(a: string, b: string, status: DriveStatus) returns (actions: seq<Action>)
    requires a != b
    ensures Possible(Idle, actions)
    ensures var w := Run(Idle, actions);
            && HeldFor(w.slot, b) && a in w.lastRelease && w.lastRelease[a] == w.clock
            && Enabled(w, CheckPresence(a, w.clock, status)) && Asks(w, a, w.clock, status)
  {
    actions := TwoOpens(Held(0, a, 7, 1, 0), Held(0, b, 8, 2, 0));
    actions := OneMore(actions, Install(7));
    actions := OneMore(actions, Install(8));
  }
}

/** What the held-drive protocol promises, in every interleaving. */
module HeldDriveTheorems {
  import opened Basics
  import opened HeldDrive
  import opened HeldDriveRuns

  /** The world's slot is what the source's critical sections make of it, and what a check is
      told is what they answer. */
  lemma SlotFollowsTheSource(w: World, a: Action)
    requires Enabled(w, a)
    ensures var slot := Step(w, a).slot;
            && (a.CheckPresence? ==>
                  Step(w, a).told == Some(PresenceStep(w.slot, a.source, a.now, a.status, w.clock).1))
            && match a
            case Install(handle) => slot == Installed(w.slot, w.pending[handle], w.clock)
            case SpawnReaper(_, ok) => slot == if ok then w.slot else Released(w.slot, w.clock)
            case Start => slot == w.slot.(held := None)
            case Eject(_) => slot == w.slot.(held := None)
            case Close => slot == Released(w.slot, w.clock)
            case CheckPresence(source, now, status) => slot == PresenceStep(w.slot, source, now, status, w.clock).0
            case Expire(serial, now) => slot == ExpireStep(w.slot, serial, HoldCancelled(w), now, w.clock)
            case _ => slot == w.slot
  {
    if a.CheckPresence? { CheckedSlot(w, a.source, a.now, a.status); }
    hide Checked;
    hide PresenceStep;
  }

  lemma CheckedSlot(w: World, source: string, now: nat, status: DriveStatus)
    ensures Checked(w, source, now, status).slot == PresenceStep(w.slot, source, now, status, w.clock).0
    ensures Checked(w, source, now, status).told == Some(PresenceStep(w.slot, source, now, status, w.clock).1)
  {
    PresenceFrees(w.slot, source, now, status, w.clock);
    hide PresenceStep;
  }

  lemma PresenceFrees(s: Slot, source: string, now: nat, status: DriveStatus, clock: nat)
    ensures var after := PresenceStep(s, source, now, status, clock).0; after.held.None? ==> after == Released(s, clock)
  {
  }

  lemma {:induction false} RunKeeps(w: World, actions: seq<Action>)
    requires Inv(w) && Possible(w, actions)
    ensures Inv(Run(w, actions))
    decreases |actions|
  {
    if actions != [] {
      StepKeeps(w, actions[0]);
      RunKeeps(Step(w, actions[0]), actions[1..]);
    }
  }

  lemma IdleKeeps()
    ensures Inv(Idle)
  {
    forall handle: nat ensures Places(Idle, handle) == Ones(handle in Idle.seen) {
      assert handle !in Idle.offered && handle !in Idle.pending;
    }
  }

  lemma {:induction false} RunSplit(w: World, before: seq<Action>, after: seq<Action>)
    requires Possible(w, before + after)
    ensures Possible(w, before) && Possible(Run(w, before), after)
    ensures Run(w, before + after) == Run(Run(w, before), after)
    decreases |before|
  {
    if before == [] {
      assert before + after == after;
    } else {
      assert (before + after)[0] == before[0] && (before + after)[1..] == before[1..] + after;
      RunSplit(Step(w, before[0]), before[1..], after);
    }
  }

  /** Conservation of handles: every drive ever handed to `hold_for_start` is, at all times,
      in exactly one place: waiting, in the slot, taken once, or closed once. No other handle
      is anywhere. */
  lemma EveryHandleOnce(actions: seq<Action>, handle: nat)
    requires Possible(Idle, actions)
    ensures var w := Run(Idle, actions);
            && Places(w, handle) == Ones(handle in w.seen)
            && w.taken[handle] + w.closed[handle] <= 1
            && (InSlot(w, handle) ==> w.taken[handle] + w.closed[handle] == 0)
  {
    IdleKeeps();
    RunKeeps(Idle, actions);
    var w := Run(Idle, actions);
    assert Places(w, handle) == Ones(handle in w.seen);
  }

  lemma StepGrows(w: World, a: Action, handle: nat)
    requires Enabled(w, a)
    ensures w.taken[handle] <= Step(w, a).taken[handle] && w.closed[handle] <= Step(w, a).closed[handle]
    ensures handle in w.seen ==> handle in Step(w, a).seen
  {
    hide Checked;
    hide Freed;
    hide PresenceStep;
    hide KeepsWatching;
    hide HoldCancelled;
    hide Released;
    hide Taken;
    hide Ejected;
    hide Offered;
    hide Filled;
    FreedGrows(w, handle);
    TakenGrows(w, handle);
    match a
    case Install(filled) => FilledGrows(w, filled, handle);
    case CheckPresence(source, now, status) => CheckedGrows(w, source, now, status, handle);
    case Eject(source) => EjectedGrows(w, source, handle);
    case Offer(h) => OfferedGrows(w, h, handle);
    case _ =>
  }

  lemma TakenGrows(w: World, handle: nat)
    ensures var w' := Taken(w);
            w.taken[handle] <= w'.taken[handle] && w.closed == w'.closed && w.seen == w'.seen
  {
  }

  lemma FilledGrows(w: World, filled: nat, handle: nat)
    requires filled in w.pending
    ensures var w' := Filled(w, filled);
            w.taken == w'.taken && w.closed[handle] <= w'.closed[handle] && w.seen == w'.seen
  {
    FreedGrows(w, handle);
    hide Freed;
  }

  lemma EjectedGrows(w: World, source: string, handle: nat)
    ensures var w' := Ejected(w, source);
            w.taken[handle] <= w'.taken[handle] && w.closed[handle] <= w'.closed[handle] && w.seen == w'.seen
  {
    TakenGrows(w, handle);
    hide Taken;
  }

  lemma OfferedGrows(w: World, h: Held, handle: nat)
    ensures var w' := Offered(w, h);
            w.taken == w'.taken && w.closed[handle] <= w'.closed[handle] && w.seen <= w'.seen
  {
  }

  lemma CheckedGrows(w: World, source: string, now: nat, status: DriveStatus, handle: nat)
    ensures var w' := Checked(w, source, now, status);
            w.taken[handle] <= w'.taken[handle] && w.closed[handle] <= w'.closed[handle] && w.seen == w'.seen
  {
    hide PresenceStep;
    hide Freed;
    FreedGrows(w, handle);
  }

  lemma FreedGrows(w: World, handle: nat)
    ensures var w' := Freed(w);
            w.taken == w'.taken && w.closed[handle] <= w'.closed[handle] && w.seen == w'.seen
  {
  }

  /** A handle once taken or closed is never held again. */
  lemma {:induction false} SpentStaysSpent(w: World, actions: seq<Action>, handle: nat)
    requires Inv(w) && Possible(w, actions) && w.taken[handle] + w.closed[handle] == 1
    ensures !InSlot(Run(w, actions), handle)
    ensures Run(w, actions).taken[handle] == w.taken[handle] && Run(w, actions).closed[handle] == w.closed[handle]
    decreases |actions|
  {
    assert Places(w, handle) == Ones(handle in w.seen);
    if actions != [] {
      var w' := Step(w, actions[0]);
      StepKeeps(w, actions[0]);
      StepGrows(w, actions[0], handle);
      assert Places(w', handle) == Ones(handle in w'.seen);
      SpentStaysSpent(w', actions[1..], handle);
    }
  }

  /** A reaper closes nothing but its own serial's hold. */
  lemma ReaperClosesItsOwn(w: World, serial: nat, now: nat)
    requires Inv(w) && Enabled(w, Expire(serial, now))
    ensures var w' := Step(w, Expire(serial, now));
            && w'.taken == w.taken
            && (w'.closed != w.closed ==>
                  SerialInSlot(w, serial) && w'.closed == w.closed + multiset{w.slot.held.value.handle})
            && (!SerialInSlot(w, serial) ==> w'.slot == w.slot && w'.closed == w.closed)
  {
  }

  lemma StepKeepsGone(w: World, a: Action)
    requires Enabled(w, a)
    ensures w.gone <= Step(w, a).gone
  {
    FreedKeepsGone(w);
    match a
    case CheckPresence(source, now, status) => CheckedKeepsGone(w, source, now, status);
    case _ =>
      hide Checked;
      hide Freed;
      hide Released;
      hide KeepsWatching;
      hide HoldCancelled;
  }

  lemma FreedKeepsGone(w: World)
    ensures Freed(w).gone == w.gone && Freed(w).asking == w.asking && Freed(w).clock == w.clock
  {
  }

  lemma CheckedKeepsGone(w: World, source: string, now: nat, status: DriveStatus)
    ensures Checked(w, source, now, status).gone == w.gone && Checked(w, source, now, status).clock == w.clock
  {
    FreedKeepsGone(w);
    hide Freed;
    hide PresenceStep;
  }

  lemma GoneIsNotHeld(w: World, serial: nat)
    requires Inv(w) && serial in w.gone
    ensures !SerialInSlot(w, serial)
  {
    hide HandlesConserved;
    hide SettleRecorded;
  }

  lemma {:induction false} GoneStaysGone(w: World, actions: seq<Action>, serial: nat)
    requires Inv(w) && Possible(w, actions) && serial in w.gone
    ensures serial in Run(w, actions).gone && !SerialInSlot(Run(w, actions), serial)
    decreases |actions|
  {
    hide Inv;
    hide Step;
    if actions == [] {
      GoneIsNotHeld(w, serial);
    } else {
      StepKeeps(w, actions[0]);
      StepKeepsGone(w, actions[0]);
      GoneStaysGone(Step(w, actions[0]), actions[1..], serial);
    }
  }

  /** Once `expire(serial)` has returned false, that serial is never in the slot again,
      whatever happens after, although serials do not enter the slot in order. */
  lemma ExpiredNeverReturns(before: seq<Action>, serial: nat, now: nat, after: seq<Action>)
    requires Possible(Idle, before + ([Expire(serial, now)] + after))
    ensures Possible(Idle, before)
    ensures var w := Run(Idle, before);
            !KeepsWatching(w.slot, serial, HoldCancelled(w), now) ==>
              !SerialInSlot(Run(Idle, before + ([Expire(serial, now)] + after)), serial)
  {
    var reap := [Expire(serial, now)];
    RunSplit(Idle, before, reap + after);
    var w := Run(Idle, before);
    RunSplit(w, reap, after);
    IdleKeeps();
    RunKeeps(Idle, before);
    assert reap[1..] == [];
    assert Run(w, reap) == Step(w, reap[0]);
    StepKeeps(w, reap[0]);
    if !KeepsWatching(w.slot, serial, HoldCancelled(w), now) {
      GoneStaysGone(Step(w, reap[0]), after, serial);
    }
  }

  lemma RunSnoc(actions: seq<Action>, a: Action)
    requires Possible(Idle, actions) && Enabled(Run(Idle, actions), a)
    ensures Possible(Idle, actions + [a]) && Run(Idle, actions + [a]) == Step(Run(Idle, actions), a)
  {
    RunJoin(Idle, actions, [a]);
    assert [a][1..] == [];
  }

  lemma {:induction false} RunJoin(w: World, before: seq<Action>, after: seq<Action>)
    requires Possible(w, before) && Possible(Run(w, before), after)
    ensures Possible(w, before + after) && Run(w, before + after) == Run(Run(w, before), after)
    decreases |before|
  {
    if before == [] {
      assert before + after == after;
    } else {
      assert (before + after)[0] == before[0] && (before + after)[1..] == before[1..] + after;
      RunJoin(Step(w, before[0]), before[1..], after);
    }
  }

  /** Two Opens that draw their serials and then take the lock in the other order. */
  lemma TwoOpens(a: Held, b: Held) returns (actions: seq<Action>)
    requires a.handle != b.handle && a.renewed == b.renewed == 0
    ensures Possible(Idle, actions)
    ensures var w := Run(Idle, actions);
            w.pending == map[a.handle := a.(serial := 1), b.handle := b.(serial := 2)] && w.slot == Idle.slot
            && w.next == 2 && w.closed == multiset{}
  {
    actions := [];
    RunSnoc(actions, Offer(a));
    actions := actions + [Offer(a)];
    RunSnoc(actions, Offer(b));
    actions := actions + [Offer(b)];
    RunSnoc(actions, Action.Draw(a.handle));
    actions := actions + [Action.Draw(a.handle)];
    RunSnoc(actions, Action.Draw(b.handle));
    actions := actions + [Action.Draw(b.handle)];
  }

  /** Serials are not monotone: the hold in the slot can be an older draw than one that was
      installed and released before it. */
  lemma SerialsOutOfOrder() returns (actions: seq<Action>)
    ensures Possible(Idle, actions)
    ensures var w := Run(Idle, actions); SerialInSlot(w, 1) && w.closed[8] == 1 && w.next == 2
  {
    var a, b := Held(0, "disc://a", 7, 1, 0), Held(0, "disc://b", 8, 2, 0);
    actions := TwoOpens(a, b);
    RunSnoc(actions, Install(8));
    actions := actions + [Install(8)];
    RunSnoc(actions, Install(7));
    actions := actions + [Install(7)];
  }

  /** Timing. Whatever is in the slot has a reaper running or about to start. The first step
      of that reaper at or after the cancellation of its open, or a lease after its last
      renewal, closes it, once, and for good. */
  lemma LapsedHoldIsClosed(before: seq<Action>, now: nat, after: seq<Action>)
    requires Possible(Idle, before) && Run(Idle, before).slot.held.Some?
    requires var w := Run(Idle, before);
             var h := w.slot.held.value;
             && Possible(Idle, before + ([Expire(h.serial, now)] + after))
             && (h.open in w.cancelled || now >= h.renewed + HOLD_LEASE)
    ensures var w := Run(Idle, before);
            var h := w.slot.held.value;
            var end := Run(Idle, before + ([Expire(h.serial, now)] + after));
            !SerialInSlot(end, h.serial) && !InSlot(end, h.handle) && end.closed[h.handle] == 1 && end.taken[h.handle] == 0
  {
    var w := Run(Idle, before);
    var h := w.slot.held.value;
    var reap := [Expire(h.serial, now)];
    ExpiredNeverReturns(before, h.serial, now, after);
    RunSplit(Idle, before, reap + after);
    RunSplit(w, reap, after);
    assert reap[1..] == [];
    assert Run(w, reap) == Step(w, reap[0]);
    IdleKeeps();
    RunKeeps(Idle, before);
    StepKeeps(w, reap[0]);
    assert Places(w, h.handle) == Ones(h.handle in w.seen);
    SpentStaysSpent(Step(w, reap[0]), after, h.handle);
  }

  /** A hold that its watch keeps renewing, under an open nobody cancelled, is left alone by
      its reaper. */
  lemma RenewedHoldStays(w: World, serial: nat, now: nat)
    requires Inv(w) && Enabled(w, Expire(serial, now)) && SerialInSlot(w, serial)
    requires !HoldCancelled(w) && now < w.slot.held.value.renewed + HOLD_LEASE
    ensures Step(w, Expire(serial, now)) == w
  {
  }

  lemma EveryHoldIsWatched(actions: seq<Action>)
    requires Possible(Idle, actions)
    ensures var w := Run(Idle, actions);
            w.slot.held.Some? ==>
              var n := w.slot.held.value.serial;
              (n in w.spawning && Enabled(w, SpawnReaper(n, true))) || (n in w.reapers && Enabled(w, Expire(n, w.clock)))
  {
    IdleKeeps();
    RunKeeps(Idle, actions);
  }
}

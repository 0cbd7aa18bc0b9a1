/**
 The held-drive protocol over every interleaving: Opens, Starts, Ejects, presence checks,
 Closes and one reaper per hold, each critical section one atomic step, with a clock.

 A serial is drawn before the lock is taken, so two Opens can install their holds in the
 opposite order of their serials: nothing here assumes that serials grow in the slot.
 */
module HeldDriveRuns {
  import opened Basics
  import opened HeldDrive

  /**
   offered: drives whose open was not cancelled when `hold_for_start` looked, by handle;
   pending: drives with a serial drawn, waiting for the lock, by handle;
   spawning: serials installed whose reaper is not started yet; reapers: running ones;
   gone: serials whose reaper was told there is nothing left to watch;
   seen, taken, closed: every handle ever offered, and how often it was taken or closed;
   lastRelease: when each source was last released;
   lastClose: when a handle of each source was last closed, by a release or otherwise;
   asking: presence checks that decided to ask the registry and have not asked it yet;
   told: what the last presence check answered.
   */
  datatype World = World(
    clock: nat, next: nat, slot: Slot, cancelled: set<nat>,
    offered: map<nat, Held>, pending: map<nat, Held>,
    spawning: set<nat>, reapers: set<nat>, gone: set<nat>,
    seen: set<nat>, taken: multiset<nat>, closed: multiset<nat>,
    lastRelease: map<string, nat>, lastClose: map<string, nat>, asking: multiset<string>, told: Option<Presence>)

  datatype Action =
    | Advance(ms: nat)
    | Cancel(token: nat)
    | Offer(h: Held)
    | Draw(handle: nat)
    | Install(handle: nat)
    | SpawnReaper(serial: nat, ok: bool)
    | Start
    | Eject(source: string)
    | Close
    | CheckPresence(source: string, now: nat, status: DriveStatus)
    | CallRegistry(source: string)
    | Expire(serial: nat, now: nat)

  const Idle := World(0, 0, Slot(None, None), {}, map[], map[], {}, {}, {}, {}, multiset{}, multiset{}, map[], map[], multiset{}, None)

  /** Releasing the slot, on the books: the hold's handle is closed. */
  function Freed(w: World): World {
    match w.slot.held
    case None => w
    case Some(h) =>
      w.(slot := Released(w.slot, w.clock),
         closed := w.closed + multiset{h.handle},
         lastRelease := w.lastRelease[h.source := w.clock],
         lastClose := w.lastClose[h.source := w.clock])
  }

  /** Moving the hold out of the slot into the caller's hands (`DriveHold::take`). */
  function Taken(w: World): World {
    match w.slot.held
    case None => w
    case Some(h) => w.(slot := w.slot.(held := None), taken := w.taken + multiset{h.handle})
  }

  /** `eject_held_or`: takes the hold whatever its source is, and drops it, closing its
      handle, when it is another source's. */
  function Ejected(w: World, source: string): World {
    match w.slot.held
    case None => w
    case Some(h) =>
      if h.source == source then Taken(w)
      else
        w.(slot := w.slot.(held := None), closed := w.closed + multiset{h.handle},
           lastClose := w.lastClose[h.source := w.clock])
  }

  function Offered(w: World, h: Held): World {
    var w' := w.(seen := w.seen + {h.handle});
    if h.open in w.cancelled then
      w'.(closed := w.closed + multiset{h.handle}, lastClose := w.lastClose[h.source := w.clock])
    else
      w'.(offered := w.offered[h.handle := h])
  }

  function Drawn(w: World, handle: nat): World
    requires handle in w.offered
  {
    w.(next := w.next + 1, offered := w.offered - {handle},
       pending := w.pending[handle := w.offered[handle].(serial := w.next + 1)])
  }

  /** `hold`'s locked half: frees the slot, then fills it. */
  function Filled(w: World, handle: nat): World
    requires handle in w.pending
  {
    var h := w.pending[handle];
    var w' := Freed(w);
    w'.(slot := w'.slot.(held := Some(h)), pending := w.pending - {handle}, spawning := w.spawning + {h.serial})
  }

  /** Reaper `serial` finds nothing left to watch and ends. */
  function Retired(w: World, serial: nat): World {
    w.(reapers := w.reapers - {serial}, gone := w.gone + {serial})
  }

  /** `presence`, and on its word the question that `disc_present_with` puts to the registry
      once the lock is gone. */
  function Checked(w: World, source: string, now: nat, status: DriveStatus): World {
    var (after, answer) := PresenceStep(w.slot, source, now, status, w.clock);
    var w' := if after.held.None? then Freed(w) else w.(slot := after);
    w'.(told := Some(answer), asking := if answer == AskRegistry then w.asking + multiset{source} else w.asking)
  }

  predicate Enabled(w: World, a: Action) {
    match a
    case Offer(h) => h.handle !in w.seen && h.renewed <= w.clock
    case Draw(handle) => handle in w.offered
    case Install(handle) => handle in w.pending
    case SpawnReaper(serial, _) => serial in w.spawning
    case CheckPresence(_, now, _) => now <= w.clock
    case CallRegistry(source) => source in w.asking
    case Expire(serial, now) => serial in w.reapers && now <= w.clock
    case _ => true
  }

  /** Whether the hold in the slot was opened under a cancelled token. */
  predicate HoldCancelled(w: World) { w.slot.held.Some? && w.slot.held.value.open in w.cancelled }

  function Step(w: World, a: Action): World
    requires Enabled(w, a)
  {
    match a
    case Advance(ms) => w.(clock := w.clock + ms)
    case Cancel(token) => w.(cancelled := w.cancelled + {token})
    case Offer(h) => Offered(w, h)
    case Draw(handle) => Drawn(w, handle)
    case Install(handle) => Filled(w, handle)
    case SpawnReaper(serial, ok) =>
      if ok then w.(spawning := w.spawning - {serial}, reapers := w.reapers + {serial})
      else Freed(w).(spawning := w.spawning - {serial})
    case Start => Taken(w)
    case Eject(source) => Ejected(w, source)
    case Close => Freed(w)
    case CheckPresence(source, now, status) => Checked(w, source, now, status)
    case CallRegistry(source) => w.(asking := w.asking - multiset{source})
    case Expire(serial, now) =>
      if KeepsWatching(w.slot, serial, HoldCancelled(w), now) then w
      else Retired(if SerialInSlot(w, serial) then Freed(w) else w, serial)
  }

  predicate Possible(w: World, actions: seq<Action>)
    decreases |actions|
  {
    actions == [] || (Enabled(w, actions[0]) && Possible(Step(w, actions[0]), actions[1..]))
  }

  function Run(w: World, actions: seq<Action>): World
    requires Possible(w, actions)
    decreases |actions|
  {
    if actions == [] then w else Run(Step(w, actions[0]), actions[1..])
  }

  // ---- The invariant ------------------------------------------------------------------

  function Ones(b: bool): nat { if b then 1 else 0 }

  predicate InSlot(w: World, handle: nat) { w.slot.held.Some? && w.slot.held.value.handle == handle }

  predicate SerialInSlot(w: World, serial: nat) { w.slot.held.Some? && w.slot.held.value.serial == serial }

  /** In how many places a handle is. */
  function Places(w: World, handle: nat): nat {
    Ones(handle in w.offered) + Ones(handle in w.pending) + Ones(InSlot(w, handle))
    + w.taken[handle] + w.closed[handle]
  }

  ghost predicate HandlesConserved(w: World) {
    && (forall handle: nat :: Places(w, handle) == Ones(handle in w.seen))
    && (forall handle :: handle in w.offered ==> w.offered[handle].handle == handle)
    && (forall handle :: handle in w.pending ==> w.pending[handle].handle == handle)
  }

  /** Serials are unique, not monotone. */
  ghost predicate SerialsUnique(w: World) {
    && (forall i, j :: i in w.pending && j in w.pending && i != j ==> w.pending[i].serial != w.pending[j].serial)
    && (forall i :: i in w.pending ==>
          var n := w.pending[i].serial;
          n <= w.next && n !in w.spawning && n !in w.reapers && n !in w.gone && !SerialInSlot(w, n))
    && (forall n :: n in w.spawning || n in w.reapers || n in w.gone ==> n <= w.next)
    && w.spawning !! w.reapers !! w.gone
  }

  /** Whatever is in the slot has its reaper, started or about to be. */
  ghost predicate Watched(w: World) {
    w.slot.held.Some? ==>
      var h := w.slot.held.value;
      h.serial in w.spawning + w.reapers && h.serial <= w.next && h.renewed <= w.clock
  }

  /** The settle record names the last release; releases lie in the past. */
  ghost predicate SettleRecorded(w: World) {
    && (forall s :: s in w.lastRelease ==> w.lastRelease[s] <= w.clock)
    && (forall s :: s in w.lastRelease ==> s in w.lastClose && w.lastRelease[s] <= w.lastClose[s] <= w.clock)
    && (match w.slot.released
        case None => w.lastRelease == map[]
        case Some((source, at)) =>
          source in w.lastRelease && w.lastRelease[source] == at
          && forall s :: s in w.lastRelease ==> w.lastRelease[s] <= at)
    && (forall h :: h in w.offered ==> w.offered[h].renewed <= w.clock)
    && (forall h :: h in w.pending ==> w.pending[h].renewed <= w.clock)
  }

  ghost predicate Inv(w: World) {
    HandlesConserved(w) && SerialsUnique(w) && Watched(w) && SettleRecorded(w)
  }

  // Each kind of step keeps the invariant.

  lemma FreedKeeps(w: World)
    requires Inv(w)
    ensures Inv(Freed(w)) && Freed(w).slot.held == None
  {
    var w' := Freed(w);
    forall handle: nat ensures Places(w', handle) == Ones(handle in w'.seen) {
      assert Places(w, handle) == Ones(handle in w.seen);
    }
  }

  lemma TakenKeeps(w: World)
    requires Inv(w)
    ensures Inv(Taken(w))
  {
    var w' := Taken(w);
    forall handle: nat ensures Places(w', handle) == Ones(handle in w'.seen) {
      assert Places(w, handle) == Ones(handle in w.seen);
    }
  }

  lemma EjectedConserves(w: World, source: string)
    requires Inv(w)
    ensures HandlesConserved(Ejected(w, source))
  {
    TakenKeeps(w);
    DroppedConserves(w, Ejected(w, source));
    hide Inv;
    hide Taken;
    hide HandlesConserved;
  }

  lemma DroppedConserves(w: World, w': World)
    requires HandlesConserved(w)
    ensures w.slot.held.Some?
            && w' == w.(slot := w.slot.(held := None), closed := w.closed + multiset{w.slot.held.value.handle},
                        lastClose := w'.lastClose)
            ==> HandlesConserved(w')
    ensures w' == w ==> HandlesConserved(w')
  {
    if w.slot.held.Some?
       && w' == w.(slot := w.slot.(held := None), closed := w.closed + multiset{w.slot.held.value.handle},
                   lastClose := w'.lastClose) {
      forall handle: nat ensures Places(w', handle) == Ones(handle in w'.seen) {
        assert Places(w, handle) == Ones(handle in w.seen);
      }
    }
  }

  lemma EjectedKeeps(w: World, source: string)
    requires Inv(w)
    ensures Inv(Ejected(w, source))
  {
    hide HandlesConserved;
    TakenKeeps(w);
    EjectedConserves(w, source);
  }

  lemma OfferedConserves(w: World, h: Held)
    requires Inv(w) && h.handle !in w.seen
    ensures HandlesConserved(Offered(w, h))
  {
    var w' := Offered(w, h);
    assert Places(w, h.handle) == 0;
    forall handle: nat ensures Places(w', handle) == Ones(handle in w'.seen) {
      assert Places(w, handle) == Ones(handle in w.seen);
    }
  }

  lemma SerialsSame(w: World, w': World)
    requires SerialsUnique(w)
    requires w' == w.(offered := w'.offered, seen := w'.seen, closed := w'.closed, lastClose := w'.lastClose)
    ensures SerialsUnique(w')
  {
  }

  lemma OfferedSettles(w: World, h: Held)
    requires SettleRecorded(w) && h.renewed <= w.clock
    ensures SettleRecorded(Offered(w, h))
  {
  }

  lemma OfferedKeeps(w: World, h: Held)
    requires Inv(w) && h.handle !in w.seen && h.renewed <= w.clock
    ensures Inv(Offered(w, h))
  {
    hide HandlesConserved;
    hide SerialsUnique;
    hide SettleRecorded;
    OfferedConserves(w, h);
    OfferedSettles(w, h);
    SerialsSame(w, Offered(w, h));
  }

  lemma DrawnKeeps(w: World, handle: nat)
    requires Inv(w) && handle in w.offered
    ensures Inv(Drawn(w, handle))
  {
    var w' := Drawn(w, handle);
    assert Places(w, handle) == Ones(handle in w.seen);
    forall other: nat ensures Places(w', other) == Ones(other in w'.seen) {
      assert Places(w, other) == Ones(other in w.seen);
    }
  }

  lemma FilledConserves(w: World, handle: nat)
    requires Inv(w) && handle in w.pending && w.slot.held == None
    ensures HandlesConserved(Filled(w, handle))
  {
    var w' := Filled(w, handle);
    assert Places(w, handle) == Ones(handle in w.seen);
    forall other: nat ensures Places(w', other) == Ones(other in w'.seen) {
      assert Places(w, other) == Ones(other in w.seen);
    }
  }

  lemma FilledSerials(w: World, handle: nat)
    requires Inv(w) && handle in w.pending && w.slot.held == None
    ensures SerialsUnique(Filled(w, handle))
  {
  }

  lemma FilledKeeps(w: World, handle: nat)
    requires Inv(w) && handle in w.pending
    ensures Inv(Filled(w, handle))
  {
    FreedKeeps(w);
    FilledConserves(Freed(w), handle);
    FilledSerials(Freed(w), handle);
    assert Filled(w, handle) == Filled(Freed(w), handle);
    assert Watched(Filled(w, handle));
    assert SettleRecorded(Filled(w, handle));
  }

  lemma BookkeepingKeeps(w: World, w': World)
    requires Inv(w)
    requires w' == w.(clock := w'.clock, cancelled := w'.cancelled, slot := w'.slot, asking := w'.asking, told := w'.told)
    requires w.clock <= w'.clock
    requires w'.slot.released == w.slot.released
    requires match w.slot.held
             case None => w'.slot.held == None
             case Some(h) => w'.slot.held.Some? && w'.slot.held.value == h.(renewed := w'.slot.held.value.renewed)
                             && w'.slot.held.value.renewed <= w'.clock
    ensures Inv(w')
  {
    forall handle: nat ensures Places(w', handle) == Ones(handle in w'.seen) {
      assert Places(w, handle) == Ones(handle in w.seen);
    }
  }

  lemma SpawnedKeeps(w: World, serial: nat)
    requires Inv(w) && serial in w.spawning
    ensures Inv(w.(spawning := w.spawning - {serial}, reapers := w.reapers + {serial}))
  {
    var w' := w.(spawning := w.spawning - {serial}, reapers := w.reapers + {serial});
    forall handle: nat ensures Places(w', handle) == Ones(handle in w'.seen) {
      assert Places(w, handle) == Ones(handle in w.seen);
    }
  }

  lemma UnspawnedKeeps(w: World, serial: nat)
    requires Inv(w) && serial in w.spawning && w.slot.held.None?
    ensures Inv(w.(spawning := w.spawning - {serial}))
  {
    var w' := w.(spawning := w.spawning - {serial});
    forall handle: nat ensures Places(w', handle) == Ones(handle in w'.seen) {
      assert Places(w, handle) == Ones(handle in w.seen);
    }
  }

  lemma RetiredKeeps(w: World, serial: nat)
    requires Inv(w) && serial in w.reapers && !SerialInSlot(w, serial)
    ensures Inv(Retired(w, serial))
  {
    var w' := Retired(w, serial);
    forall handle: nat ensures Places(w', handle) == Ones(handle in w'.seen) {
      assert Places(w, handle) == Ones(handle in w.seen);
    }
  }

  lemma CheckedKeeps(w: World, source: string, now: nat, status: DriveStatus)
    requires Inv(w) && now <= w.clock
    ensures Inv(Checked(w, source, now, status))
  {
    hide Inv;
    FreedKeeps(w);
    var (after, _) := PresenceStep(w.slot, source, now, status, w.clock);
    var w' := Checked(w, source, now, status);
    if after.held.Some? {
      RenewedInThePast(w);
      BookkeepingKeeps(w, w');
    } else {
      BookkeepingKeeps(Freed(w), w');
    }
  }

  lemma RenewedInThePast(w: World)
    requires Inv(w)
    ensures w.slot.held.Some? ==> w.slot.held.value.renewed <= w.clock
  {
  }

  lemma StepKeeps(w: World, a: Action)
    requires Inv(w) && Enabled(w, a)
    ensures Inv(Step(w, a))
  {
    hide HandlesConserved;
    hide SerialsUnique;
    hide SettleRecorded;
    hide Checked;
    FreedKeeps(w);
    match a
    case Offer(h) => OfferedKeeps(w, h);
    case Draw(handle) => DrawnKeeps(w, handle);
    case Install(handle) => FilledKeeps(w, handle);
    case SpawnReaper(serial, ok) =>
      SpawnedKeeps(w, serial);
      UnspawnedKeeps(Freed(w), serial);
    case Start => TakenKeeps(w);
    case Eject(source) => EjectedKeeps(w, source);
    case Close =>
    case Expire(serial, now) =>
      if !KeepsWatching(w.slot, serial, HoldCancelled(w), now) {
        RetiredKeeps(if SerialInSlot(w, serial) then Freed(w) else w, serial);
      }
    case CheckPresence(source, now, status) => CheckedKeeps(w, source, now, status);
    case _ => BookkeepingKeeps(w, Step(w, a));
  }
}

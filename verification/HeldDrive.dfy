/**
 The one drive that Open leaves open for Start (`DriveHold` and `HoldSlot` in
 src/engine.rs): a slot under a mutex, a serial counter outside it.

 `Slot` functions say what each critical section computes; class `DriveHold` is the slot as
 the source holds it. Times are naturals (milliseconds); a handle is the identity of one
 open drive.
 */
module HeldDrive {
  import opened Basics

  const HOLD_LEASE: nat := 30_000
  const HOLD_SETTLE: nat := 5_000

  datatype Held = Held(serial: nat, source: string, handle: nat, open: nat, renewed: nat)

  datatype DriveStatus = DiscPresent | NoDisc | TrayOpen | NotReady | Unknown

  datatype Slot = Slot(held: Option<Held>, released: Option<(string, nat)>)

  /** How long after `at` the time `now` is; 0 when it is before. */
  function Since(now: nat, at: nat): nat { if now >= at then now - at else 0 }

  /** `HoldSlot::release` at clock time `clock`. */
  function Released(s: Slot, clock: nat): Slot {
    match s.held
    case None => s
    case Some(h) => Slot(None, Some((h.source, clock)))
  }

  /** The second half of `DriveHold::hold`, under the lock. */
  function Installed(s: Slot, h: Held, clock: nat): Slot { Released(s, clock).(held := Some(h)) }

  predicate HeldFor(s: Slot, source: string) { s.held.Some? && s.held.value.source == source }

  predicate Settling(s: Slot, source: string, now: nat) {
    s.released.Some? && s.released.value.0 == source && Since(now, s.released.value.1) < HOLD_SETTLE
  }

  /** What `disc_present` answers from: the registry, or a verdict. */
  datatype Presence = AskRegistry | Verdict(present: Option<bool>)

  /** `DriveHold::presence`: the slot afterwards and the answer. */
  function PresenceStep(s: Slot, source: string, now: nat, status: DriveStatus, clock: nat): (Slot, Presence) {
    if !HeldFor(s, source) then
      var freed := Released(s, clock);
      (freed, if Settling(freed, source, now) then Verdict(None) else AskRegistry)
    else
      match status
      case DiscPresent => (s.(held := Some(s.held.value.(renewed := now))), Verdict(Some(true)))
      case NoDisc => (Released(s, clock), Verdict(Some(false)))
      case TrayOpen => (Released(s, clock), Verdict(Some(false)))
      case NotReady => (s, Verdict(None))
      case Unknown => (s, Verdict(None))
  }

  /** Whether the reaper of `serial` finds its hold still there to watch. */
  predicate KeepsWatching(s: Slot, serial: nat, cancelled: bool, now: nat) {
    s.held.Some? && s.held.value.serial == serial && !cancelled && Since(now, s.held.value.renewed) < HOLD_LEASE
  }

  /** `DriveHold::expire`: the slot afterwards. */
  function ExpireStep(s: Slot, serial: nat, cancelled: bool, now: nat, clock: nat): Slot {
    if s.held.None? || s.held.value.serial != serial || KeepsWatching(s, serial, cancelled, now) then s
    else Released(s, clock)
  }

  /** The slot and its counter, updated in place. */
  class DriveHold {
    var held: Option<Held>
    var released: Option<(string, nat)>
    var next: nat

    ghost function Value(): Slot
      reads this
    {
      Slot(held, released)
    }

    constructor ()
      ensures Value() == Slot(None, None) && next == 0
    {
      held, released, next := None, None, 0;
    }

    method ReleaseSlot(clock: nat)
      modifies this`held, this`released
      ensures Value() == Released(old(Value()), clock)
    {
      if held.Some? {
        released := Some((held.value.source, clock));
        held := None;
      }
    }

    /** Drawing the serial, before the lock is taken. */
    method Draw(h: Held) returns (numbered: Held)
      modifies this`next
      ensures next == old(next) + 1 && numbered == h.(serial := next)
    {
      next := next + 1;
      numbered := h.(serial := next);
    }

    method Install(h: Held, clock: nat)
      modifies this`held, this`released
      ensures Value() == Installed(old(Value()), h, clock)
    {
      ReleaseSlot(clock);
      held := Some(h);
    }

    method Take() returns (h: Option<Held>)
      modifies this`held
      ensures h == old(held) && Value() == old(Value()).(held := None)
    {
      h := held;
      held := None;
    }

    /** `drive_status` of the held drive answers `status`; `now` was read before the lock. */
    method CheckPresence(source: string, now: nat, status: DriveStatus, clock: nat) returns (answer: Presence)
      modifies this`held, this`released
      ensures (Value(), answer) == PresenceStep(old(Value()), source, now, status, clock)
    {
      if !(held.Some? && held.value.source == source) {
        ReleaseSlot(clock);
        if released.Some? && released.value.0 == source && Since(now, released.value.1) < HOLD_SETTLE {
          return Verdict(None);
        }
        return AskRegistry;
      }
      match status {
        case DiscPresent =>
          held := Some(held.value.(renewed := now));
          return Verdict(Some(true));
        case NoDisc =>
          ReleaseSlot(clock);
          return Verdict(Some(false));
        case TrayOpen =>
          ReleaseSlot(clock);
          return Verdict(Some(false));
        case NotReady => return Verdict(None);
        case Unknown => return Verdict(None);
      }
    }

    method Expire(serial: nat, cancelled: bool, now: nat, clock: nat) returns (watching: bool)
      modifies this`held, this`released
      ensures Value() == ExpireStep(old(Value()), serial, cancelled, now, clock)
      ensures watching <==> KeepsWatching(old(Value()), serial, cancelled, now)
    {
      if held.None? || held.value.serial != serial { return false; }
      if cancelled || Since(now, held.value.renewed) >= HOLD_LEASE {
        ReleaseSlot(clock);
        return false;
      }
      return true;
    }
  }
}

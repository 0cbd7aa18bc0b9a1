/**
 The tool's Ctrl-C (`on_ctrl`, `handle_sigint` and `watch` in src/cli_stop.rs): one flag, one
 watcher, one token. Control events are taken one at a time.
 */
module CliStop {
  import opened Basics

  const CTRL_C_EVENT: nat := 0
  const CTRL_BREAK_EVENT: nat := 1

  datatype CtrlAction = Handled | ForceExit(code: nat) | Default

  /** The console handler's decision. */
  function OnCtrl(event: nat, alreadyInterrupted: bool): CtrlAction {
    if event == CTRL_C_EVENT || event == CTRL_BREAK_EVENT then
      if alreadyInterrupted then ForceExit(130) else Handled
    else Default
  }

  /** The watcher: looking at the flag, about to speak behind its cancel, or gone. */
  datatype Watcher = Looking | Speaking | Gone

  /** `held`: a token other than the watcher's own is alive; `exited`: the exit code. */
  datatype State = State(interrupted: bool, cancelled: bool, held: bool, watcher: Watcher, said: nat, exited: Option<nat>)

  /** A SIGINT; a console control event, of which one left to the system ends the process with
      the system's own code; the last other token dropped; a turn of the watcher; a normal exit. */
  datatype Event = Sigint | Console(event: nat, systemCode: nat) | Dropped | Turn | Exit(code: nat)

  predicate IsCtrlC(e: Event) {
    e.Sigint? || (e.Console? && (e.event == CTRL_C_EVENT || e.event == CTRL_BREAK_EVENT))
  }

  function Interrupt(s: State): State {
    if s.interrupted then s.(exited := Some(130)) else s.(interrupted := true)
  }

  function WatchTurn(s: State): State {
    match s.watcher
    case Looking =>
      if !s.held then s.(watcher := Gone)
      else if s.interrupted then s.(cancelled := true, watcher := Speaking)
      else s
    case Speaking => s.(said := s.said + 1, watcher := Gone)
    case Gone => s
  }

  function Step(s: State, e: Event): State {
    if s.exited.Some? then s
    else
      match e
      case Sigint => Interrupt(s)
      case Console(event, systemCode) =>
        (match OnCtrl(event, s.interrupted)
         case Handled => s.(interrupted := true)
         case ForceExit(code) => s.(exited := Some(code))
         case Default => s.(exited := Some(systemCode)))
      case Dropped => s.(held := false)
      case Turn => WatchTurn(s)
      case Exit(code) => s.(exited := Some(code))
  }

  class Process {
    var interrupted: bool
    var cancelled: bool
    var held: bool
    var watcher: Watcher
    var said: nat
    var exited: Option<nat>

    function Now(): State
      reads this
    {
      State(interrupted, cancelled, held, watcher, said, exited)
    }

    constructor ()
      ensures Now() == Start()
    {
      interrupted, cancelled, held, watcher, said, exited := false, false, true, Looking, 0, None;
    }

    method HandleSigint()
      requires exited.None?
      modifies this
      ensures Now() == Step(old(Now()), Sigint)
    {
      if interrupted {
        exited := Some(130);
        return;
      }
      interrupted := true;
    }

    /** The watcher's loop, up to a turn that ends it or the end of `turns` slices. */
    method Watch(turns: nat)
      requires exited.None? && watcher.Looking?
      modifies this
      ensures var s := old(Now());
              Now() == if turns == 0 || (s.held && !s.interrupted) then s
                       else if s.held then s.(cancelled := true, said := s.said + 1, watcher := Gone)
                       else s.(watcher := Gone)
    {
      var slice := 0;
      while slice < turns
        invariant slice <= turns && Now() == old(Now())
        invariant slice > 0 ==> held && !interrupted
      {
        if !held {
          watcher := Gone;
          return;
        }
        if interrupted {
          cancelled := true;
          said := said + 1;
          watcher := Gone;
          return;
        }
        slice := slice + 1;
      }
    }
  }

  function Start(): State { State(false, false, true, Looking, 0, None) }

  function After(events: seq<Event>): State {
    if events == [] then Start() else Step(After(events[..|events| - 1]), events[|events| - 1])
  }

  function Count(events: seq<Event>): nat {
    if events == [] then 0
    else Count(events[..|events| - 1]) + if IsCtrlC(events[|events| - 1]) then 1 else 0
  }

  /** The operations stop only after a Ctrl-C, and the user is told at most once, after them. */
  lemma {:induction false} StopsOnlyAfterCtrlC(events: seq<Event>)
    ensures var s := After(events);
            && (s.cancelled ==> s.interrupted) && (s.interrupted ==> Count(events) >= 1)
            && s.said <= 1 && (s.said == 1 ==> s.cancelled && s.watcher.Gone?)
            && (s.watcher.Speaking? ==> s.cancelled && s.said == 0)
            && (s.cancelled && s.watcher.Gone? ==> s.said == 1)
            && (s.watcher.Looking? ==> !s.cancelled) && (s.watcher.Gone? && s.held ==> s.cancelled)
  {
    if events != [] { StopsOnlyAfterCtrlC(events[..|events| - 1]); }
  }

  /** While nothing else ends the process, it runs until the second Ctrl-C, of whichever kind,
      and that one ends it with 130. */
  lemma {:induction false} SecondCtrlCExits(events: seq<Event>)
    requires forall e :: e in events ==> !e.Exit? && (e.Console? ==> IsCtrlC(e))
    ensures var s := After(events);
            && (s.interrupted <==> Count(events) >= 1)
            && s.exited == if Count(events) >= 2 then Some(130) else None
  {
    if events != [] { SecondCtrlCExits(events[..|events| - 1]); }
  }

  /** The first turn of the watcher behind the first Ctrl-C cancels the token that operations
      hold, unless a second event ended the process before. */
  lemma CancelledByTheNextTurn(events: seq<Event>)
    requires var s := After(events); s.interrupted && s.held && s.exited.None?
    ensures After(events + [Turn]).cancelled
  {
    StopsOnlyAfterCtrlC(events);
    assert (events + [Turn])[..|events|] == events;
  }
}

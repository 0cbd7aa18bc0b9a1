/**
 The admission gate for DNS lookups (`resolve_and_guard` in src/keydb_fetch.rs): one atomic
 counter, bumped by each caller before it looks at the old value, lowered by a refused
 caller's undo or by the resolver thread when its lookup returns. Any number of callers and
 lookups, in any interleaving; a caller that gives up waiting leaves its lookup running.
 */
module DnsGate {
  const MAX_DNS_IN_FLIGHT: nat := 4

  /** The counter, the callers that were refused but have not undone their bump yet, and the
      lookups that have not returned. */
  datatype Gate = Gate(counter: int, undoing: nat, running: nat, refused: nat)

  datatype Action = Admit | Undo | LookupReturns

  const Quiet := Gate(0, 0, 0, 0)

  predicate Enabled(g: Gate, a: Action) {
    match a
    case Admit => true
    case Undo => g.undoing > 0
    case LookupReturns => g.running > 0
  }

  /** `fetch_add` and the test of the value it returned are one step, as is each `fetch_sub`
      (a wrap-around of the counter would be a negative value here). */
  function Step(g: Gate, a: Action): Gate
    requires Enabled(g, a)
  {
    match a
    case Admit =>
      if g.counter >= MAX_DNS_IN_FLIGHT then
        g.(counter := g.counter + 1, undoing := g.undoing + 1, refused := g.refused + 1)
      else g.(counter := g.counter + 1, running := g.running + 1)
    case Undo => g.(counter := g.counter - 1, undoing := g.undoing - 1)
    case LookupReturns => g.(counter := g.counter - 1, running := g.running - 1)
  }

  predicate Accounted(g: Gate) {
    g.counter == g.running + g.undoing && g.running <= MAX_DNS_IN_FLIGHT
  }

  lemma StepAccounted(g: Gate, a: Action)
    requires Accounted(g) && Enabled(g, a)
    ensures Accounted(Step(g, a))
  {
  }

  predicate Possible(g: Gate, actions: seq<Action>)
    decreases |actions|
  {
    actions == [] || (Enabled(g, actions[0]) && Possible(Step(g, actions[0]), actions[1..]))
  }

  function Run(g: Gate, actions: seq<Action>): Gate
    requires Possible(g, actions)
    decreases |actions|
  {
    if actions == [] then g else Run(Step(g, actions[0]), actions[1..])
  }

  function Count(actions: seq<Action>, a: Action): nat {
    if actions == [] then 0 else (if actions[0] == a then 1 else 0) + Count(actions[1..], a)
  }

  /** In every interleaving: never more than `MAX_DNS_IN_FLIGHT` lookups at once; the counter
      is the running lookups plus the callers between their bump and its undo, so with no
      caller in between it is the running lookups; and no bump or undo is lost. */
  lemma {:induction false} GateHolds(g: Gate, actions: seq<Action>)
    requires Accounted(g) && Possible(g, actions)
    ensures var end := Run(g, actions);
            && end.running <= MAX_DNS_IN_FLIGHT
            && end.counter == end.running + end.undoing
            && (end.undoing == 0 ==> end.counter == end.running)
            && end.counter + Count(actions, Undo) + Count(actions, LookupReturns) == g.counter + Count(actions, Admit)
            && end.refused + end.running + Count(actions, LookupReturns)
               == g.refused + g.running + Count(actions, Admit)
    decreases |actions|
  {
    if actions != [] {
      StepAccounted(g, actions[0]);
      GateHolds(Step(g, actions[0]), actions[1..]);
    }
  }

  /** A caller is refused exactly when the lookups and the undos under way fill the gate: so
      a refusal with a lookup slot free happens only while another refused caller is between
      its bump and its undo. */
  lemma RefusedExactly(g: Gate)
    requires Accounted(g)
    ensures Step(g, Admit).refused == g.refused + 1 <==> g.running + g.undoing >= MAX_DNS_IN_FLIGHT
    ensures Step(g, Admit).refused == g.refused + 1 && g.running < MAX_DNS_IN_FLIGHT ==> g.undoing > 0
  {
  }

  lemma {:induction false} RunSnoc(g: Gate, actions: seq<Action>, a: Action)
    requires Possible(g, actions) && Enabled(Run(g, actions), a)
    ensures Possible(g, actions + [a]) && Run(g, actions + [a]) == Step(Run(g, actions), a)
    decreases |actions|
  {
    if actions == [] {
      assert [] + [a] == [a] && [a][1..] == [];
    } else {
      assert (actions + [a])[0] == actions[0] && (actions + [a])[1..] == actions[1..] + [a];
      RunSnoc(Step(g, actions[0]), actions[1..], a);
    }
  }

  lemma {:induction false} Callers(n: nat) returns (actions: seq<Action>)
    requires n <= MAX_DNS_IN_FLIGHT
    ensures Possible(Quiet, actions) && Run(Quiet, actions) == Gate(n, 0, n, 0)
  {
    actions := [];
    if n > 0 {
      actions := Callers(n - 1);
      RunSnoc(Quiet, actions, Admit);
      actions := actions + [Admit];
    }
  }

  /** Such a refusal does happen: five callers, then one lookup returns before the fifth
      caller's undo, and a sixth is turned away from a free slot. */
  lemma RefusedWithASlotFree() returns (actions: seq<Action>)
    ensures Possible(Quiet, actions)
    ensures var g := Run(Quiet, actions);
            Accounted(g) && g.running < MAX_DNS_IN_FLIGHT && Step(g, Admit).refused == g.refused + 1
  {
    var four := Callers(4);
    actions := four + [Admit] + [LookupReturns];
    OneMoreThenReturn(Quiet, four);
  }

  lemma OneMoreThenReturn(g: Gate, four: seq<Action>)
    requires Possible(g, four) && Run(g, four) == Gate(4, 0, 4, 0)
    ensures var actions := four + [Admit] + [LookupReturns];
            Possible(g, actions) && Run(g, actions) == Gate(4, 1, 3, 1)
  {
    RunSnoc(g, four, Admit);
    RunSnoc(g, four + [Admit], LookupReturns);
  }
}

/**
 The two reporters of a title (`TitleBars` and `UiSink::event` in src/engine.rs): the front end's
 guard and the engine's events both say when a title starts and ends, in any order.
 */
module ProgressReporters {
  import opened Basics
  import opened ProgressBars
  import opened ProgressBarsTheorems
  import opened ProgressCounts

  // ---- Repeats --------------------------------------------------------------------------------

  /** The event says again what the events before it said already: the title under way starts,
      a title that is not under way ends, or a plan comes after a plan. */
  ghost predicate Repeats(most: seq<Event>, e: Event) {
    match e
    case TitleStart(idx) => Open(most) == Some(idx)
    case TitleEnd(idx) => Open(most) != Some(idx)
    case Plan(_) => PlanSeen(most)
    case _ => false
  }

  /** The events of a run without the repeats. */
  ghost function Once(events: seq<Event>): seq<Event> {
    if events == [] then []
    else
      var most, e := events[..|events| - 1], events[|events| - 1];
      if Repeats(most, e) then Once(most) else Once(most) + [e]
  }

  ghost predicate Published(s: State) { s == Publish(s.bars, s.prog) }

  lemma PublishTwice(b: Bars, p: Prog)
    ensures Published(Publish(b, p))
  {
  }

  lemma ApplyPublishes(s: State, e: Event)
    ensures Published(Apply(s, e))
  {
    PublishTwice(NextBars(s.bars, e), NextProg(s.bars, s.prog, e));
  }

  lemma FreshIsPublished()
    ensures Published(Fresh)
  {
  }

  lemma RunPublished(events: seq<Event>)
    ensures Published(Run(Fresh, events))
  {
    FreshIsPublished();
    if events != [] { ApplyPublishes(Run(Fresh, events[..|events| - 1]), events[|events| - 1]); }
  }

  lemma RepeatChangesNothing(most: seq<Event>, e: Event)
    requires Repeats(most, e)
    ensures Apply(Run(Fresh, most), e) == Run(Fresh, most)
  {
    BarsFollowTheEvents(most);
    RunPublished(most);
  }

  /** Any run leaves the state that it leaves without its repeats. */
  lemma {:induction false} RepeatsCountOnce(events: seq<Event>)
    ensures Run(Fresh, Once(events)) == Run(Fresh, events)
  {
    if events != [] {
      var most, e := events[..|events| - 1], events[|events| - 1];
      RepeatsCountOnce(most);
      if Repeats(most, e) {
        RepeatChangesNothing(most, e);
      } else {
        RunSnoc(Fresh, Once(most), e);
      }
    }
  }

  // ---- Two reporters ----------------------------------------------------------------------------

  datatype Reporter = Guard | Engine

  /** A start or an end of a title by one of the two reporters, or any other event. */
  datatype Report = By(who: Reporter, e: Event) | Else(e: Event)

  predicate IsTitleEvent(e: Event) { e.TitleStart? || e.TitleEnd? }

  function All(reports: seq<Report>): seq<Event> {
    if reports == [] then [] else All(reports[..|reports| - 1]) + [reports[|reports| - 1].e]
  }

  /** What is left when only `who` reports titles. */
  function Alone(reports: seq<Report>, who: Reporter): seq<Event> {
    if reports == [] then []
    else
      var most, r := Alone(reports[..|reports| - 1], who), reports[|reports| - 1];
      if r.By? && r.who != who then most else most + [r.e]
  }

  /** Where the two reporters stand: they agree on the title under way, or one of them has
      started or ended a title and the other has not yet. */
  datatype Phase = Agree(title: Option<nat>) | StartedBy(who: Reporter, idx: nat) | EndedBy(who: Reporter, idx: nat)

  /** One report of two overlapping accounts: each title is started by both before either ends
      it, in any order of the two; nothing else is reported while they disagree. */
  function NextPhase(phase: Phase, r: Report): Option<Phase> {
    match r
    case Else(e) => if phase.Agree? && !IsTitleEvent(e) then Some(phase) else None
    case By(who, e) =>
      match phase
      case Agree(None) => if e.TitleStart? then Some(StartedBy(who, e.idx)) else None
      case Agree(Some(idx)) => if e == TitleEnd(idx) then Some(EndedBy(who, idx)) else None
      case StartedBy(first, idx) => if who != first && e == TitleStart(idx) then Some(Agree(Some(idx))) else None
      case EndedBy(first, idx) => if who != first && e == TitleEnd(idx) then Some(Agree(None)) else None
  }

  /** Where the reporters stand after these reports, if their accounts overlap. */
  function PhaseAfter(reports: seq<Report>): Option<Phase> {
    if reports == [] then Some(Agree(None))
    else
      match PhaseAfter(reports[..|reports| - 1])
      case None => None
      case Some(phase) => NextPhase(phase, reports[|reports| - 1])
  }

  /** The state both leave, against the state `who` alone leaves: the same, or one report of the
      other's ahead. */
  ghost predicate Tracks(both: State, alone: State, phase: Phase, who: Reporter) {
    && Published(both)
    && (match phase
        case Agree(title) => both == alone && title == CurrentIdx(both)
        case StartedBy(first, idx) =>
          CurrentIdx(both) == Some(idx) && both == if who == first then alone else Apply(alone, TitleStart(idx))
        case EndedBy(first, idx) =>
          CurrentIdx(both) == None && both == if who == first then alone else Apply(alone, TitleEnd(idx)))
  }

  function CurrentIdx(s: State): Option<nat> {
    match s.bars.current case None => None case Some(t) => Some(t.idx)
  }

  lemma TracksOn(both: State, alone: State, phase: Phase, who: Reporter, r: Report)
    requires Tracks(both, alone, phase, who) && NextPhase(phase, r).Some?
    ensures Tracks(Apply(both, r.e), if r.By? && r.who != who then alone else Apply(alone, r.e), NextPhase(phase, r).value, who)
  {
    ApplyPublishes(both, r.e);
    StaysPublished(both, r.e);
    ApplyMoves(both, r.e);
    hide Apply;
    hide Published;
  }

  /** A start of the title under way and an end with none under way change nothing. */
  lemma StaysPublished(s: State, e: Event)
    requires Published(s)
    ensures (e.TitleStart? && CurrentIdx(s) == Some(e.idx)) || (e.TitleEnd? && CurrentIdx(s) != Some(e.idx)) ==> Apply(s, e) == s
  {
  }

  lemma ApplyMoves(s: State, e: Event)
    ensures CurrentIdx(Apply(s, e))
            == match e
               case TitleStart(idx) => Some(idx)
               case TitleEnd(idx) => if CurrentIdx(s) == Some(idx) then None else CurrentIdx(s)
               case _ => CurrentIdx(s)
  {
  }

  lemma {:induction false} RunTracks(reports: seq<Report>, who: Reporter)
    requires PhaseAfter(reports).Some?
    ensures Tracks(Run(Fresh, All(reports)), Run(Fresh, Alone(reports, who)), PhaseAfter(reports).value, who)
  {
    if reports == [] {
      FreshIsPublished();
    } else {
      var most, r := reports[..|reports| - 1], reports[|reports| - 1];
      RunTracks(most, who);
      RunSnoc(Fresh, All(most), r.e);
      RunSnoc(Fresh, Alone(most, who), r.e);
      hide Tracks;
      hide Apply;
      TracksOn(Run(Fresh, All(most)), Run(Fresh, Alone(most, who)), PhaseAfter(most).value, who, r);
    }
  }

  /** A title reported by both is counted once: whenever the two agree again, any interleaving
      of their overlapping accounts has left exactly the state that either of them alone leaves. */
  lemma EitherReporterAlone(reports: seq<Report>, who: Reporter)
    requires PhaseAfter(reports).Some? && PhaseAfter(reports).value.Agree?
    ensures Run(Fresh, All(reports)) == Run(Fresh, Alone(reports, who))
  {
    RunTracks(reports, who);
  }

  // ---- One title, any order ---------------------------------------------------------------------

  lemma {:induction false} ReportsSplit(reports: seq<Report>)
    requires forall r :: r in reports ==> r.By?
    ensures |reports| == |Alone(reports, Guard)| + |Alone(reports, Engine)|
  {
    if reports != [] { ReportsSplit(reports[..|reports| - 1]); }
  }

  function Mine(r: Report, who: Reporter): seq<Event> { if r.By? && r.who != who then [] else [r.e] }

  lemma Reported(reports: seq<Report>, r: Report)
    ensures All(reports + [r]) == All(reports) + [r.e]
    ensures forall who :: Alone(reports + [r], who) == Alone(reports, who) + Mine(r, who)
    ensures PhaseAfter(reports + [r])
            == if PhaseAfter(reports).None? then None else NextPhase(PhaseAfter(reports).value, r)
  {
    assert (reports + [r])[..|reports|] == reports;
    assert forall who :: Alone(reports, who) + [] == Alone(reports, who);
  }

  lemma Spelled<T>(a: T, b: T, c: T, d: T)
    ensures [] + [a] == [a] && [a] + [b] == [a, b] && [a, b] + [c] == [a, b, c] && [a, b, c] + [d] == [a, b, c, d]
  {
  }

  lemma FourReported(a: Report, b: Report, c: Report, d: Report, who: Reporter)
    ensures All([a, b, c, d]) == [a.e, b.e, c.e, d.e]
    ensures Alone([a, b, c, d], who) == Mine(a, who) + Mine(b, who) + Mine(c, who) + Mine(d, who)
  {
    hide *;
    Spelled(a, b, c, d);
    Spelled(a.e, b.e, c.e, d.e);
    NothingReported(who);
    Reported([], a);
    Reported([a], b);
    Reported([a, b], c);
    Reported([a, b, c], d);
    EmptyFront(Mine(a, who));
  }

  lemma EmptyFront(events: seq<Event>)
    ensures [] + events == events
  {
  }

  lemma NothingReported(who: Reporter)
    ensures All([]) == [] && Alone([], who) == [] && PhaseAfter([]) == Some(Agree(None))
  {
  }

  lemma FourPhases(a: Report, b: Report, c: Report, d: Report)
    ensures PhaseAfter([a, b, c, d]) == Then(Then(Then(NextPhase(Agree(None), a), b), c), d)
  {
    hide PhaseAfter;
    hide NextPhase;
    hide All;
    hide Alone;
    hide Mine;
    Spelled(a, b, c, d);
    NothingReported(Guard);
    Reported([], a);
    Reported([a], b);
    Reported([a, b], c);
    Reported([a, b, c], d);
  }

  function Then(phase: Option<Phase>, r: Report): Option<Phase> {
    if phase.None? then None else NextPhase(phase.value, r)
  }

  /** The order of the four reports, whoever sends which: either both starts come first, and the
      accounts overlap, or they do not. */
  lemma TwoOrders(a: Report, b: Report, c: Report, d: Report, idx: nat)
    requires a.By? && b.By? && c.By? && d.By?
    requires forall who :: Mine(a, who) + Mine(b, who) + Mine(c, who) + Mine(d, who) == [TitleStart(idx), TitleEnd(idx)]
    ensures var start, end := TitleStart(idx), TitleEnd(idx);
            && a.e == start && d.e == end
            && ((b.e == start && c.e == end && b.who != a.who && d.who != c.who)
                || (b.e == end && c.e == start && b.who == a.who && c.who != a.who && d.who == c.who))
  {
    var g := Mine(a, Guard) + Mine(b, Guard) + Mine(c, Guard) + Mine(d, Guard);
    var e := Mine(a, Engine) + Mine(b, Engine) + Mine(c, Engine) + Mine(d, Engine);
    assert g == e == [TitleStart(idx), TitleEnd(idx)];
    assert g[0] == TitleStart(idx) && g[1] == TitleEnd(idx) && e[0] == TitleStart(idx) && e[1] == TitleEnd(idx);
    match (a.who, b.who, c.who)
    case (Guard, Guard, _) =>
    case (Guard, Engine, Guard) =>
    case (Guard, Engine, Engine) =>
    case (Engine, Engine, _) =>
    case (Engine, Guard, Guard) =>
    case (Engine, Guard, Engine) =>
  }

  /** Of one title, reported by both in any order, one end finds it under way when the accounts
      overlap, and both do when they do not. */
  lemma OneTitleEnds(order: seq<Report>, idx: nat)
    requires forall r :: r in order ==> r.By?
    requires forall who :: Alone(order, who) == [TitleStart(idx), TitleEnd(idx)]
    ensures Ends(All(order), idx) == if PhaseAfter(order).Some? then 1 else 2
    ensures forall other :: other != idx ==> Ends(All(order), other) == 0
  {
    ReportsSplit(order);
    var a, b, c, d := order[0], order[1], order[2], order[3];
    assert order == [a, b, c, d];
    FourReported(a, b, c, d, Guard);
    FourReported(a, b, c, d, Engine);
    FourPhases(a, b, c, d);
    TwoOrders(a, b, c, d, idx);
    FourEnds(idx);
    hide All;
    hide Alone;
    hide Mine;
    hide PhaseAfter;
    hide Ends;
  }

  lemma FourEnds(idx: nat)
    ensures var start, end := TitleStart(idx), TitleEnd(idx);
            && Ends([start, start, end, end], idx) == 1 && Ends([start, end, start, end], idx) == 2
            && forall other :: other != idx ==> Ends([start, start, end, end], other) == 0 == Ends([start, end, start, end], other)
  {
    var start, end := TitleStart(idx), TitleEnd(idx);
    forall other
      ensures Ends([start, start, end, end], other) == if other == idx then 1 else 0
      ensures Ends([start, end, start, end], other) == if other == idx then 2 else 0
    {
      EndsOfFour(start, start, end, end, other);
      EndsOfFour(start, end, start, end, other);
    }
  }

  lemma EndsOfFour(a: Event, b: Event, c: Event, d: Event, idx: nat)
    ensures Ends([a, b, c, d], idx)
            == EndsAt(None, a, idx) + EndsAt(OpenNow(None, a), b, idx) + EndsAt(OpenNow(OpenNow(None, a), b), c, idx)
               + EndsAt(OpenNow(OpenNow(OpenNow(None, a), b), c), d, idx)
  {
    hide Ends;
    hide Open;
    hide EndsAt;
    hide OpenNow;
    Spelled(a, b, c, d);
    NothingEnded(idx);
    EndsSnoc([], a, idx);
    EndsSnoc([a], b, idx);
    EndsSnoc([a, b], c, idx);
    EndsSnoc([a, b, c], d, idx);
  }

  /** For one planned title this is all that counts: its bytes are counted once exactly when the
      two accounts overlap, otherwise twice. */
  lemma CountedOnceExactly(order: seq<Report>, idx: nat, size: nat)
    requires forall r :: r in order ==> r.By?
    requires forall who :: Alone(order, who) == [TitleStart(idx), TitleEnd(idx)]
    ensures Run(Fresh, [Event.Plan([(idx, size)])] + All(order)).bars.passed
            == if PhaseAfter(order).Some? then size else 2 * size
  {
    OneTitleEnds(order, idx);
    EachTitleCountsItsEnds([(idx, size)], All(order));
    OnePlanned(idx, size, All(order));
    hide *;
  }

  lemma OnePlanned(idx: nat, size: nat, events: seq<Event>)
    ensures CountedBytes([(idx, size)], events) == size * Ends(events, idx)
  {
    assert [(idx, size)][1..] == [];
  }

  /** With more titles an account can be cut short by the other's next title, and then neither
      overlap nor its absence decides: here the accounts of the second title do not overlap, yet
      it is counted once and the first twice. */
  lemma CutShort(first: nat, second: nat, a: nat, b: nat)
    requires first != second
    ensures var reports := [By(Guard, TitleStart(first)), By(Guard, TitleEnd(first)), By(Guard, TitleStart(second)),
                            By(Engine, TitleStart(first)), By(Guard, TitleEnd(second)), By(Engine, TitleEnd(first)),
                            By(Engine, TitleStart(second)), By(Engine, TitleEnd(second))];
            Run(Fresh, [Event.Plan([(first, a), (second, b)])] + All(reports)).bars.passed == 2 * a + b
  {
    var g := [By(Guard, TitleStart(first)), By(Guard, TitleEnd(first)), By(Guard, TitleStart(second)), By(Engine, TitleStart(first))];
    var e := [By(Guard, TitleEnd(second)), By(Engine, TitleEnd(first)), By(Engine, TitleStart(second)), By(Engine, TitleEnd(second))];
    var before := [TitleStart(first), TitleEnd(first), TitleStart(second), TitleStart(first)];
    var after := [TitleEnd(second), TitleEnd(first), TitleStart(second), TitleEnd(second)];
    FourReported(g[0], g[1], g[2], g[3], Guard);
    FourMoreReported(g, e[0], e[1], e[2], e[3]);
    assert All(g + e) == before + after;
    assert g + e == [g[0], g[1], g[2], g[3], e[0], e[1], e[2], e[3]];
    CutShortEnds(first, second);
    TwoPlanned(first, second, a, b, before + after);
    EachTitleCountsItsEnds([(first, a), (second, b)], before + after);
  }

  lemma FourMoreReported(reports: seq<Report>, a: Report, b: Report, c: Report, d: Report)
    ensures All(reports + [a, b, c, d]) == All(reports) + [a.e, b.e, c.e, d.e]
  {
    Reported(reports, a);
    Reported(reports + [a], b);
    Reported(reports + [a] + [b], c);
    Reported(reports + [a] + [b] + [c], d);
    hide All;
    assert reports + [a, b, c, d] == reports + [a] + [b] + [c] + [d];
  }

  lemma TwoPlanned(first: nat, second: nat, a: nat, b: nat, events: seq<Event>)
    ensures CountedBytes([(first, a), (second, b)], events) == a * Ends(events, first) + b * Ends(events, second)
  {
    hide Ends;
    assert [(first, a), (second, b)][1..] == [(second, b)] && [(second, b)][1..] == [];
    assert CountedBytes([(second, b)], events) == b * Ends(events, second);
  }

  lemma CutShortEnds(first: nat, second: nat)
    requires first != second
    ensures var events := [TitleStart(first), TitleEnd(first), TitleStart(second), TitleStart(first)]
                          + [TitleEnd(second), TitleEnd(first), TitleStart(second), TitleEnd(second)];
            Ends(events, first) == 2 && Ends(events, second) == 1
  {
    var s1, e1, s2, e2 := TitleStart(first), TitleEnd(first), TitleStart(second), TitleEnd(second);
    OpenAfterFour(s1, e1, s2, s1);
    forall idx
      ensures Ends([s1, e1, s2, s1] + [e2, e1, s2, e2], idx)
              == EndsAt(Some(first), e1, idx) + EndsAt(Some(first), e1, idx) + EndsAt(Some(second), e2, idx)
    {
      EndsOfFour(s1, e1, s2, s1, idx);
      EndsOfFourMore([s1, e1, s2, s1], e2, e1, s2, e2, idx);
    }
  }

  lemma OpenAfterFour(a: Event, b: Event, c: Event, d: Event)
    ensures Open([a, b, c, d]) == OpenNow(OpenNow(OpenNow(OpenNow(None, a), b), c), d)
  {
    hide Open;
    hide OpenNow;
    Spelled(a, b, c, d);
    NothingEnded(0);
    OpenSnoc([], a);
    OpenSnoc([a], b);
    OpenSnoc([a, b], c);
    OpenSnoc([a, b, c], d);
  }

  lemma EndsOfFourMore(events: seq<Event>, a: Event, b: Event, c: Event, d: Event, idx: nat)
    ensures var o := Open(events);
            Ends(events + [a, b, c, d], idx)
            == Ends(events, idx) + EndsAt(o, a, idx) + EndsAt(OpenNow(o, a), b, idx) + EndsAt(OpenNow(OpenNow(o, a), b), c, idx)
               + EndsAt(OpenNow(OpenNow(OpenNow(o, a), b), c), d, idx)
  {
    hide Ends;
    hide Open;
    hide EndsAt;
    hide OpenNow;
    EndsSnoc(events, a, idx);
    EndsSnoc(events + [a], b, idx);
    EndsSnoc(events + [a] + [b], c, idx);
    EndsSnoc(events + [a] + [b] + [c], d, idx);
    assert events + [a, b, c, d] == events + [a] + [b] + [c] + [d];
  }

  /** Such an order: the guard's whole account, then the engine's. */
  lemma ApartCountsTwice(idx: nat, size: nat)
    ensures var order := [By(Guard, TitleStart(idx)), By(Guard, TitleEnd(idx)), By(Engine, TitleStart(idx)), By(Engine, TitleEnd(idx))];
            && (forall who :: Alone(order, who) == [TitleStart(idx), TitleEnd(idx)])
            && Run(Fresh, [Event.Plan([(idx, size)])] + All(order)).bars.passed == 2 * size
  {
    var a, b, c, d := By(Guard, TitleStart(idx)), By(Guard, TitleEnd(idx)), By(Engine, TitleStart(idx)), By(Engine, TitleEnd(idx));
    forall who
      ensures Alone([a, b, c, d], who) == [TitleStart(idx), TitleEnd(idx)]
    {
      FourReported(a, b, c, d, who);
    }
    FourPhases(a, b, c, d);
    CountedOnceExactly([a, b, c, d], idx, size);
    hide All;
    hide Alone;
    hide Run;
    hide PhaseAfter;
  }
}

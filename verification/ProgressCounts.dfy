/**
 What the bars count, whatever order the events come in (`Bars` and `RunState` in src/engine.rs).
 */
module ProgressCounts {
  import opened Basics
  import opened ProgressBars
  import opened ProgressBarsTheorems

  /** In any order of events, the title and the plan in the bars are those of the events. */
  lemma {:induction false} BarsFollowTheEvents(events: seq<Event>)
    ensures var b := Run(Fresh, events).bars;
            && Open(events) == (match b.current case None => None case Some(t) => Some(t.idx))
            && (PlanSeen(events) <==> b.sizes != [])
  {
    if events != [] {
      var most, e := events[..|events| - 1], events[|events| - 1];
      BarsFollowTheEvents(most);
      SeenSnoc(most, e);
      assert most + [e] == events;
      ApplyBars(Run(Fresh, most), e);
      hide Apply;
      hide PlanSeen;
      hide Tick;
      hide SizeOf;
      TickKeeps(Run(Fresh, most).bars, e);
    }
  }

  /** A sample changes neither the plan nor which title is under way. */
  lemma TickKeeps(b: Bars, e: Event)
    ensures e.Progress? ==>
              var c := Tick(b, e.sample);
              && c.sizes == b.sizes && (c.current.Some? <==> b.current.Some?)
              && (c.current.Some? ==> c.current.value.idx == b.current.value.idx)
  {
    hide TickRead;
    hide Fraction;
  }

  lemma ApplyBars(s: State, e: Event)
    ensures Apply(s, e).bars == NextBars(s.bars, e)
  {
  }

  // ---- The bytes passed -----------------------------------------------------------------------

  /** The plan that stands: the first one that is not empty. */
  ghost function PlanOf(events: seq<Event>): seq<(nat, nat)> {
    if events == [] then []
    else
      var most, e := PlanOf(events[..|events| - 1]), events[|events| - 1];
      if most == [] && e.Plan? then e.sizes else most
  }

  /** The planned size of the title under way, as it was when that title started. */
  ghost function OpenSize(events: seq<Event>): nat {
    if events == [] then 0
    else
      var most, e := events[..|events| - 1], events[|events| - 1];
      if e.TitleStart? && Open(most) != Some(e.idx) then SizeOf(PlanOf(most), e.idx) else OpenSize(most)
  }

  /** The sizes of the titles that an end found under way, each as often as one did. */
  ghost function EndedBytes(events: seq<Event>): nat {
    if events == [] then 0
    else
      var most, e := events[..|events| - 1], events[|events| - 1];
      EndedBytes(most) + if e.TitleEnd? && Open(most) == Some(e.idx) then OpenSize(most) else 0
  }

  /** In any order of events the bytes passed are those of the ends that found their title under
      way, and nothing else counts. */
  lemma {:induction false} PassedIsWhatEnded(events: seq<Event>)
    ensures var b := Run(Fresh, events).bars;
            && b.passed == EndedBytes(events) && b.sizes == PlanOf(events)
            && (b.current.Some? ==> b.current.value.size == OpenSize(events))
  {
    if events != [] {
      var most, e := events[..|events| - 1], events[|events| - 1];
      PassedIsWhatEnded(most);
      BarsFollowTheEvents(most);
      ApplyBars(Run(Fresh, most), e);
      hide Apply;
    }
  }

  // ---- Title by title ---------------------------------------------------------------------------

  /** The title under way after one more event. */
  ghost function OpenNow(title: Option<nat>, e: Event): Option<nat> {
    match e
    case TitleStart(idx) => Some(idx)
    case TitleEnd(idx) => if title == Some(idx) then None else title
    case _ => title
  }

  /** Whether the event ends title `idx`, found under way. */
  ghost function EndsAt(title: Option<nat>, e: Event, idx: nat): nat {
    if e == TitleEnd(idx) && title == Some(idx) then 1 else 0
  }

  /** How many ends of title `idx` found it under way. */
  ghost function Ends(events: seq<Event>, idx: nat): nat {
    if events == [] then 0
    else
      var most := events[..|events| - 1];
      Ends(most, idx) + EndsAt(Open(most), events[|events| - 1], idx)
  }

  lemma OpenSnoc(events: seq<Event>, e: Event)
    ensures Open(events + [e]) == OpenNow(Open(events), e)
  {
    assert (events + [e])[..|events|] == events;
  }

  lemma EndsSnoc(events: seq<Event>, e: Event, idx: nat)
    ensures Ends(events + [e], idx) == Ends(events, idx) + EndsAt(Open(events), e, idx)
    ensures Open(events + [e]) == OpenNow(Open(events), e)
  {
    OpenSnoc(events, e);
    assert (events + [e])[..|events|] == events;
  }

  lemma NothingEnded(idx: nat)
    ensures Ends([], idx) == 0 && Open([]) == None
  {
  }

  /** Each planned title's size, as often as an end found the title under way. */
  ghost function CountedBytes(sizes: seq<(nat, nat)>, events: seq<Event>): nat {
    if sizes == [] then 0 else sizes[0].1 * Ends(events, sizes[0].0) + CountedBytes(sizes[1..], events)
  }

  lemma {:induction false} CountedSnoc(sizes: seq<(nat, nat)>, events: seq<Event>, e: Event)
    requires Distinct(sizes)
    ensures CountedBytes(sizes, events + [e])
            == CountedBytes(sizes, events)
               + if e.TitleEnd? && Open(events) == Some(e.idx) then SizeOf(sizes, e.idx) else 0
  {
    if sizes != [] {
      hide Open;
      hide Ends;
      EndsSnoc(events, e, sizes[0].0);
      CountedSnoc(sizes[1..], events, e);
      hide CountedBytes;
      if e.TitleEnd? && e.idx == sizes[0].0 { SizeOfAbsent(sizes[1..], e.idx); }
      OneMoreTime(sizes[0].1, Ends(events, sizes[0].0));
      CountedCons(sizes, events);
      CountedCons(sizes, events + [e]);
    }
  }

  lemma CountedCons(sizes: seq<(nat, nat)>, events: seq<Event>)
    requires sizes != []
    ensures CountedBytes(sizes, events) == sizes[0].1 * Ends(events, sizes[0].0) + CountedBytes(sizes[1..], events)
  {
  }

  lemma OneMoreTime(size: nat, n: nat)
    ensures size * (n + 1) == size * n + size && size * (n + 0) == size * n
  {
  }

  lemma {:induction false} NothingCounted(sizes: seq<(nat, nat)>)
    ensures CountedBytes(sizes, []) == 0
  {
    if sizes != [] { NothingCounted(sizes[1..]); }
  }

  /** Behind one plan, each planned title is counted once for every end that finds it under way,
      for any number of titles and any events: so a title is counted once exactly when one end
      of it does. */
  lemma {:induction false} EachTitleCountsItsEnds(sizes: seq<(nat, nat)>, events: seq<Event>)
    requires sizes != [] && Distinct(sizes)
    ensures var b := Run(Fresh, [Event.Plan(sizes)] + events).bars;
            && b.sizes == sizes && b.passed == CountedBytes(sizes, events)
            && (match b.current
                case None => Open(events) == None
                case Some(t) => Open(events) == Some(t.idx) && t.size == SizeOf(sizes, t.idx))
  {
    var plan := [Event.Plan(sizes)];
    if events == [] {
      NothingCounted(sizes);
      assert plan + [] == plan && plan[..0] == [];
      assert Run(Fresh, plan) == Apply(Run(Fresh, []), plan[0]);
      ApplyBars(Fresh, plan[0]);
    } else {
      var most, e := events[..|events| - 1], events[|events| - 1];
      assert events == most + [e] && plan + events == plan + most + [e];
      EachTitleCountsItsEnds(sizes, most);
      CountedSnoc(sizes, most, e);
      OpenSnoc(most, e);
      RunSnoc(Fresh, plan + most, e);
      ApplyBars(Run(Fresh, plan + most), e);
      hide Apply;
      hide Run;
      hide CountedBytes;
      hide Open;
    }
  }
}

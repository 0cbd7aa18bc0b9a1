/** What the two bars promise, over whole runs of events. */
module ProgressBarsTheorems {
  import opened Basics
  import opened ProgressBars

  // ---- Any order of events at all ---------------------------------------------------

  /** What every reachable state satisfies, whatever order the events came in. */
  ghost predicate Sound(s: State) {
    var b := s.bars;
    && (b.read.Some? ==> b.read.value.done <= b.read.value.total)
    && (b.current.Some? ==> 0.0 <= b.current.value.frac <= 1.0)
    && 0.0 <= s.prog.titlePct <= 100.0
    && (s.prog.batchPct.Some? <==> b.sizes != [])
    && (s.prog.batchPct.Some? ==> 0.0 <= s.prog.batchPct.value <= 100.0)
    && (SomeSizeUnknown(b.sizes) ==> s.prog.batchPct == Some(0.0))
  }

  lemma ShareNonNegative(b: Bars)
    requires Measurable(b)
    requires b.current.Some? ==> 0.0 <= b.current.value.frac
    ensures 0.0 <= Share(b)
  {
    MeasurableTotal(b);
    var done := ReadDone(b) as real + b.passed as real + CurrentDone(b);
    assert CurrentDone(b) >= 0.0 by {
      if b.current.Some? { ProductNonNegative(b.current.value.size as real, b.current.value.frac); }
    }
    QuotientOrder(0.0, done, Total(b) as real);
  }

  lemma ProductNonNegative(a: real, b: real)
    requires a >= 0.0 && b >= 0.0
    ensures a * b >= 0.0
  {
  }

  lemma QuotientOrder(a: real, b: real, d: real)
    requires a <= b && d > 0.0
    ensures a / d <= b / d
  {
    assert b / d - a / d == (b - a) / d;
  }

  lemma PublishSound(b: Bars, p: Prog, was: seq<(nat, nat)>)
    requires b.read.Some? ==> b.read.value.done <= b.read.value.total
    requires b.current.Some? ==> 0.0 <= b.current.value.frac <= 1.0
    requires p.batchPct.Some? ==> was == b.sizes && b.sizes != [] && 0.0 <= p.batchPct.value <= 100.0
    requires p.batchPct.Some? && SomeSizeUnknown(b.sizes) ==> p.batchPct == Some(0.0)
    ensures Sound(Publish(b, p))
  {
    if Measurable(b) { ShareNonNegative(b); }
  }

  /** The bottom bar of `t`, shown some time after `s`, keeps what `s` showed. */
  ghost predicate Keeps(s: State, t: State) {
    && (s.bars.sizes != [] ==> t.bars.sizes == s.bars.sizes)
    && (s.prog.batchPct.Some? ==> t.prog.batchPct.Some? && s.prog.batchPct.value <= t.prog.batchPct.value)
  }

  lemma StepSound(s: State, e: Event)
    requires Sound(s)
    ensures Sound(Apply(s, e)) && Keeps(s, Apply(s, e))
  {
    PublishSound(NextBars(s.bars, e), NextProg(s.bars, s.prog, e), s.bars.sizes);
  }

  lemma {:induction false} RunSound(events: seq<Event>)
    ensures Sound(Run(Fresh, events))
  {
    if events != [] {
      RunSound(events[..|events| - 1]);
      StepSound(Run(Fresh, events[..|events| - 1]), events[|events| - 1]);
    }
  }

  lemma RunSnoc(s: State, events: seq<Event>, e: Event)
    ensures Run(s, events + [e]) == Apply(Run(s, events), e)
  {
    assert (events + [e])[..|events|] == events;
  }

  lemma {:induction false} RunKeeps(before: seq<Event>, after: seq<Event>)
    ensures Keeps(Run(Fresh, before), Run(Fresh, before + after))
  {
    if after == [] {
      assert before + after == before;
    } else {
      var most, e := after[..|after| - 1], after[|after| - 1];
      assert before + after == before + most + [e];
      RunKeeps(before, most);
      RunSound(before + most);
      StepSound(Run(Fresh, before + most), e);
      RunSnoc(Fresh, before + most, e);
    }
  }

  /** In any order of events: both bars stay in range, the bottom bar never falls, never
      returns to `None` once planned, and reads 0 for good if a planned size is unknown. */
  lemma BarsNeverFall(before: seq<Event>, after: seq<Event>)
    ensures var s, t := Run(Fresh, before), Run(Fresh, before + after);
            && 0.0 <= t.prog.titlePct <= 100.0
            && (t.prog.batchPct.Some? ==> 0.0 <= t.prog.batchPct.value <= 100.0)
            && (s.bars.sizes != [] ==> s.prog.batchPct.Some? && t.prog.batchPct.Some?)
            && (s.prog.batchPct.Some? ==> t.prog.batchPct.Some? && s.prog.batchPct.value <= t.prog.batchPct.value)
            && (SomeSizeUnknown(s.bars.sizes) ==> t.prog.batchPct == Some(0.0))
  {
    RunSound(before);
    RunSound(before + after);
    RunKeeps(before, after);
  }

  // ---- Runs that follow the title protocol ------------------------------------------

  predicate Distinct(sizes: seq<(nat, nat)>) {
    forall i, j :: 0 <= i < j < |sizes| ==> sizes[i].0 != sizes[j].0
  }

  /** Bytes of the planned titles whose index is in `ended`. */
  ghost function SumOver(sizes: seq<(nat, nat)>, ended: set<nat>): nat {
    if sizes == [] then 0
    else (if sizes[0].0 in ended then sizes[0].1 else 0) + SumOver(sizes[1..], ended)
  }

  ghost predicate AllEnded(sizes: seq<(nat, nat)>, ended: set<nat>) {
    forall k :: 0 <= k < |sizes| ==> sizes[k].0 in ended
  }

  /** The titles a run has ended, read off its events alone. */
  ghost function Ended(events: seq<Event>): set<nat> {
    if events == [] then {}
    else
      var most, e := events[..|events| - 1], events[|events| - 1];
      if e.TitleEnd? && Open(most) == Some(e.idx) then Ended(most) + {e.idx} else Ended(most)
  }

  /** The title that is under way after these events. */
  ghost function Open(events: seq<Event>): Option<nat> {
    if events == [] then None
    else
      var most, e := events[..|events| - 1], events[|events| - 1];
      match e
      case TitleStart(idx) => Some(idx)
      case TitleEnd(idx) => if Open(most) == Some(idx) then None else Open(most)
      case _ => Open(most)
  }

  ghost predicate PlanSeen(events: seq<Event>) {
    exists k :: 0 <= k < |events| && events[k].Plan? && events[k].sizes != []
  }

  ghost predicate ReadSeen(events: seq<Event>) {
    exists k :: 0 <= k < |events| && events[k].BeginRead?
  }

  /** The protocol: plan first (a later plan is ignored), then at most one read, then the
      titles, each started once and ended before the next. Both reporters may report the
      same start and the same end, and progress may come at any time. */
  ghost predicate Orderly(events: seq<Event>) {
    events == [] ||
    var most, e := events[..|events| - 1], events[|events| - 1];
    && Orderly(most)
    && match e
       case Plan(sizes) => PlanSeen(most) || (Distinct(sizes) && Ended(most) == {} && Open(most) == None)
       case BeginRead => !ReadSeen(most) && Ended(most) == {} && Open(most) == None
       case TitleStart(idx) => Open(most) == Some(idx) || (Open(most) == None && idx !in Ended(most))
       case TitleEnd(_) => true
       case Progress(_) => true
  }

  lemma {:induction false} SumOverNothing(sizes: seq<(nat, nat)>)
    ensures SumOver(sizes, {}) == 0
  {
    if sizes != [] { SumOverNothing(sizes[1..]); }
  }

  lemma {:induction false} SizeOfAbsent(sizes: seq<(nat, nat)>, idx: nat)
    requires forall k :: 0 <= k < |sizes| ==> sizes[k].0 != idx
    ensures SizeOf(sizes, idx) == 0
    ensures forall ended: set<nat> :: SumOver(sizes, ended + {idx}) == SumOver(sizes, ended)
  {
    if sizes != [] { SizeOfAbsent(sizes[1..], idx); }
  }

  lemma {:induction false} SumOverAdds(sizes: seq<(nat, nat)>, ended: set<nat>, idx: nat)
    requires Distinct(sizes) && idx !in ended
    ensures SumOver(sizes, ended + {idx}) == SumOver(sizes, ended) + SizeOf(sizes, idx)
  {
    if sizes != [] {
      if sizes[0].0 == idx {
        SizeOfAbsent(sizes[1..], idx);
      } else {
        SumOverAdds(sizes[1..], ended, idx);
      }
    }
  }

  lemma {:induction false} SumOverBounds(sizes: seq<(nat, nat)>, ended: set<nat>)
    ensures SumOver(sizes, ended) <= Sum(sizes)
    ensures !SomeSizeUnknown(sizes) ==> (SumOver(sizes, ended) == Sum(sizes) <==> AllEnded(sizes, ended))
  {
    if sizes != [] {
      var rest := sizes[1..];
      SumOverBounds(rest, ended);
      if !SomeSizeUnknown(sizes) {
        assert sizes[0].1 != 0;
        assert !SomeSizeUnknown(rest) by {
          if k :| 0 <= k < |rest| && rest[k].1 == 0 { assert sizes[k + 1].1 == 0; }
        }
        if AllEnded(sizes, ended) {
          assert forall k :: 0 <= k < |rest| ==> rest[k] == sizes[k + 1];
          assert AllEnded(rest, ended);
        }
        if SumOver(sizes, ended) == Sum(sizes) {
          assert AllEnded(rest, ended);
          forall k | 0 <= k < |sizes| ensures sizes[k].0 in ended {
            if k > 0 { assert rest[k - 1] == sizes[k]; }
          }
        }
      }
    }
  }

  lemma RealSum(a: nat, b: nat)
    ensures (a + b) as real == a as real + b as real
  {
  }

  lemma SelfQuotient(d: real)
    requires d > 0.0
    ensures d / d == 1.0
  {
  }

  /** The current title's part is at most its size. */
  lemma CurrentWithin(b: Bars)
    requires b.current.Some? && 0.0 <= b.current.value.frac <= 1.0
    ensures 0.0 <= CurrentDone(b)
    ensures CurrentDone(b) <= b.current.value.size as real
  {
    var size, frac := b.current.value.size as real, b.current.value.frac;
    assert CurrentDone(b) == size * frac;
    ProductNonNegative(size, frac);
    ProductNonNegative(size, 1.0 - frac);
    assert size * (1.0 - frac) == size - size * frac;
    assert size * frac <= size;
  }

  /** The ended titles and the current one, as far as it got, fit in the plan. */
  lemma DoneWithinPlan(b: Bars, ended: set<nat>)
    requires Distinct(b.sizes) && b.passed == SumOver(b.sizes, ended)
    requires b.current.Some? ==>
               && b.current.value.idx !in ended
               && b.current.value.size == SizeOf(b.sizes, b.current.value.idx)
               && 0.0 <= b.current.value.frac <= 1.0
    ensures b.passed as real + CurrentDone(b) <= Sum(b.sizes) as real
  {
    SumOverBounds(b.sizes, ended);
    if b.current.Some? {
      var t := b.current.value;
      SumOverAdds(b.sizes, ended, t.idx);
      SumOverBounds(b.sizes, ended + {t.idx});
      CurrentWithin(b);
      RealSum(b.passed, t.size);
      assert b.passed + t.size <= Sum(b.sizes);
    }
  }

  lemma ShareAtMostOne(b: Bars)
    requires Measurable(b)
    requires b.read.Some? ==> b.read.value.done <= b.read.value.total
    requires b.passed as real + CurrentDone(b) <= Sum(b.sizes) as real
    ensures Share(b) <= 1.0
  {
    MeasurableTotal(b);
    RealSum(ReadTotal(b), Sum(b.sizes));
    SelfQuotient(Total(b) as real);
    QuotientOrder(DoneBytes(b), Total(b) as real, Total(b) as real);
  }

  /** The unclamped share never falls across an event. */
  lemma ShareOrder(b: Bars, c: Bars)
    requires Measurable(b) && Measurable(c) && b.sizes == c.sizes
    requires DoneBytes(b) == 0.0 <= DoneBytes(c) || (ReadTotal(b) == ReadTotal(c) && DoneBytes(b) <= DoneBytes(c))
    ensures Share(b) <= Share(c)
  {
    MeasurableTotal(b);
    MeasurableTotal(c);
    if DoneBytes(b) == 0.0 {
      QuotientOrder(0.0, DoneBytes(c), Total(c) as real);
    } else {
      QuotientOrder(DoneBytes(b), DoneBytes(c), Total(b) as real);
    }
  }

  /** How the code's bookkeeping relates to the events of an orderly run. */
  ghost predicate CountsHold(events: seq<Event>, b: Bars) {
    var ended := Ended(events);
    && (b.sizes != [] <==> PlanSeen(events))
    && (b.read.Some? <==> ReadSeen(events))
    && Distinct(b.sizes)
    && b.passed == SumOver(b.sizes, ended)
    && (match b.current
        case None => Open(events) == None
        case Some(t) => Open(events) == Some(t.idx) && t.idx !in ended && t.size == SizeOf(b.sizes, t.idx))
    && (b.read.Some? && (ended != {} || b.current.Some?) ==> b.read.value.over)
    && (b.read.Some? && b.read.value.over ==> b.read.value.done == b.read.value.total)
    && (b.read.Some? && b.read.value.pass.None? ==> b.read.value.total == 0 == b.read.value.done)
  }

  lemma SeenSnoc(events: seq<Event>, e: Event)
    ensures PlanSeen(events + [e]) <==> PlanSeen(events) || (e.Plan? && e.sizes != [])
    ensures ReadSeen(events + [e]) <==> ReadSeen(events) || e.BeginRead?
  {
    var all := events + [e];
    assert all[|events|] == e;
    if PlanSeen(events) {
      var k :| 0 <= k < |events| && events[k].Plan? && events[k].sizes != [];
      assert all[k] == events[k];
    }
    if ReadSeen(events) {
      var k :| 0 <= k < |events| && events[k].BeginRead?;
      assert all[k] == events[k];
    }
  }

  lemma CountsStep(events: seq<Event>, e: Event, s: State)
    requires Sound(s) && CountsHold(events, s.bars) && Orderly(events + [e])
    ensures CountsHold(events + [e], NextBars(s.bars, e))
  {
    var all := events + [e];
    assert all[..|events|] == events;
    SeenSnoc(events, e);
    var b := s.bars;
    if e.Plan? {
      SumOverNothing(e.sizes);
    } else if e.TitleEnd? && b.current.Some? && b.current.value.idx == e.idx {
      SumOverAdds(b.sizes, Ended(events), e.idx);
    }
  }

  lemma TickRaises(b: Bars, p: Sample)
    requires b.read.Some? ==> b.read.value.done <= b.read.value.total
    requires b.read.Some? && b.read.value.pass.None? ==> b.read.value.total == 0 == b.read.value.done
    requires b.read.Some? && !b.read.value.over && b.current.None? ==> b.passed == 0
    requires b.current.Some? ==> 0.0 <= b.current.value.frac <= 1.0
    ensures var c := Tick(b, p);
            DoneBytes(b) == 0.0 <= DoneBytes(c) || (ReadTotal(b) == ReadTotal(c) && DoneBytes(b) <= DoneBytes(c))
  {
    var c := Tick(b, p);
    if b.current.Some? {
      var t, f := b.current.value, c.current.value.frac;
      ProductNonNegative(t.size as real, f - t.frac);
      assert t.size as real * f == t.size as real * t.frac + t.size as real * (f - t.frac);
    }
  }

  lemma CountsRaise(events: seq<Event>, e: Event, s: State)
    requires Sound(s) && CountsHold(events, s.bars) && Orderly(events + [e]) && s.bars.sizes != []
    ensures var b, c := s.bars, NextBars(s.bars, e);
            DoneBytes(b) == 0.0 <= DoneBytes(c) || (ReadTotal(b) == ReadTotal(c) && DoneBytes(b) <= DoneBytes(c))
  {
    assert (events + [e])[..|events|] == events;
    var b := s.bars;
    SumOverNothing(b.sizes);
    match e
    case Progress(p) => TickRaises(b, p);
    case TitleEnd(idx) =>
      if b.current.Some? {
        CurrentWithin(b);
        RealSum(b.passed, b.current.value.size);
      }
    case _ =>
  }

  /** The state an orderly run is in: the code's counts are the events', and the bar shows
      their exact quotient. */
  ghost predicate Accounts(events: seq<Event>, s: State) {
    && CountsHold(events, s.bars)
    && (Measurable(s.bars) ==> Share(s.bars) <= 1.0 && s.prog.batchPct == Some(Share(s.bars) * 100.0))
  }

  lemma {:induction false} AccountsStep(events: seq<Event>, e: Event, s: State)
    requires Sound(s) && Accounts(events, s) && Orderly(events + [e])
    ensures Accounts(events + [e], Apply(s, e))
    ensures Measurable(s.bars) ==> Measurable(Apply(s, e).bars) && Share(s.bars) <= Share(Apply(s, e).bars)
  {
    hide Sound;
    hide Share;
    hide Orderly;
    hide CountsHold;
    hide NextBars;
    hide Apply;
    hide Measurable;
    CountsStep(events, e, s);
    StepSound(s, e);
    StepBars(s, e);
    if Measurable(NextBars(s.bars, e)) {
      ShareInRange(events + [e], Apply(s, e));
      if s.bars.sizes != [] { ShareRises(events, e, s); }
      PublishesShare(s, e);
    }
  }

  lemma StepBars(s: State, e: Event)
    ensures Apply(s, e).bars == NextBars(s.bars, e)
    ensures s.bars.sizes != [] ==> NextBars(s.bars, e).sizes == s.bars.sizes
    ensures Measurable(s.bars) ==> s.bars.sizes != [] && Measurable(NextBars(s.bars, e))
  {
  }

  lemma ShareInRange(events: seq<Event>, s: State)
    requires Sound(s) && CountsHold(events, s.bars) && Measurable(s.bars)
    ensures 0.0 <= Share(s.bars) <= 1.0
  {
    var b := s.bars;
    DoneWithinPlan(b, Ended(events));
    ShareAtMostOne(b);
    ShareNonNegative(b);
  }

  lemma ShareRises(events: seq<Event>, e: Event, s: State)
    requires Sound(s) && CountsHold(events, s.bars) && Orderly(events + [e]) && s.bars.sizes != []
    requires Measurable(NextBars(s.bars, e))
    ensures Measurable(s.bars) && Share(s.bars) <= Share(NextBars(s.bars, e))
  {
    StepBars(s, e);
    CountsRaise(events, e, s);
    hide NextBars;
    hide Orderly;
    hide CountsHold;
    ShareOrder(s.bars, NextBars(s.bars, e));
  }

  /** With the share in range and not falling, what is published is the share itself. */
  lemma PublishesShare(s: State, e: Event)
    requires Sound(s)
    ensures var c := NextBars(s.bars, e);
            Measurable(c) && 0.0 <= Share(c) <= 1.0
            && (s.bars.sizes != [] ==>
                  Measurable(s.bars) && s.prog.batchPct == Some(Share(s.bars) * 100.0) && Share(s.bars) <= Share(c))
            ==> Apply(s, e).prog.batchPct == Some(Share(c) * 100.0)
  {
    hide Share;
    hide NextBars;
    NextProgKeeps(s, e);
    hide NextProg;
  }

  lemma NextProgKeeps(s: State, e: Event)
    ensures NextProg(s.bars, s.prog, e).batchPct == s.prog.batchPct
  {
  }

  lemma {:induction false} OrderlyAccounts(events: seq<Event>)
    requires Orderly(events)
    ensures Sound(Run(Fresh, events)) && Accounts(events, Run(Fresh, events))
  {
    RunSound(events);
    if events != [] {
      var most, e := events[..|events| - 1], events[|events| - 1];
      assert most + [e] == events;
      OrderlyAccounts(most);
      RunSound(most);
      AccountsStep(most, e, Run(Fresh, most));
    }
  }

  /** The exact quotient itself never falls, so the bar would not need its running maximum. */
  lemma {:induction false} QuotientNeverFalls(before: seq<Event>, after: seq<Event>)
    requires Orderly(before + after)
    requires Measurable(Run(Fresh, before).bars)
    ensures Measurable(Run(Fresh, before + after).bars)
    ensures Share(Run(Fresh, before).bars) <= Share(Run(Fresh, before + after).bars) <= 1.0
  {
    OrderlyAccounts(before + after);
    if after == [] {
      assert before + after == before;
    } else {
      var most, e := after[..|after| - 1], after[|after| - 1];
      assert before + after == before + most + [e];
      assert (before + after)[..|before + after| - 1] == before + most;
      QuotientNeverFalls(before, most);
      OrderlyAccounts(before + most);
      AccountsStep(before + most, e, Run(Fresh, before + most));
      RunSnoc(Fresh, before + most, e);
    }
  }

  lemma FullShare(b: Bars)
    requires Measurable(b)
    ensures DoneBytes(b) == Total(b) as real ==> Share(b) == 1.0
    ensures DoneBytes(b) < Total(b) as real ==> Share(b) < 1.0
  {
    MeasurableTotal(b);
    SelfQuotient(Total(b) as real);
    if DoneBytes(b) < Total(b) as real { BelowOne(DoneBytes(b), Total(b) as real); }
  }

  lemma FullAt(events: seq<Event>, s: State)
    requires Sound(s) && Accounts(events, s) && Measurable(s.bars) && s.bars.current.None?
    ensures s.prog.batchPct == Some(100.0) <==> AllEnded(s.bars.sizes, Ended(events))
  {
    var b := s.bars;
    FullShare(b);
    SumOverBounds(b.sizes, Ended(events));
    if AllEnded(b.sizes, Ended(events)) {
      assert b.sizes[0].0 in Ended(events);
      assert DoneBytes(b) == Total(b) as real;
    } else {
      assert b.passed < Sum(b.sizes);
      assert DoneBytes(b) < Total(b) as real;
    }
  }

  /** Between titles the bottom bar is at 100 exactly when every planned title has ended. */
  lemma FullExactlyWhenAllEnded(events: seq<Event>)
    requires Orderly(events) && Open(events) == None
    requires Measurable(Run(Fresh, events).bars)
    ensures var s := Run(Fresh, events);
            s.prog.batchPct == Some(100.0) <==> AllEnded(s.bars.sizes, Ended(events))
  {
    OrderlyAccounts(events);
    FullAt(events, Run(Fresh, events));
  }

  lemma BelowOne(a: real, b: real)
    requires a < b && b > 0.0
    ensures a / b < 1.0
  {
  }

  /** Between titles, once the read is over, the top bar reads 0 until the last planned
      title has ended and 100 from then on. */
  lemma TopBarBetweenTitles(events: seq<Event>)
    requires Orderly(events) && Open(events) == None
    requires Measurable(Run(Fresh, events).bars)
    requires PreparationOf(Run(Fresh, events).bars) != Reading
    ensures var s := Run(Fresh, events);
            s.prog.titlePct == if AllEnded(s.bars.sizes, Ended(events)) then 100.0 else 0.0
  {
    OrderlyAccounts(events);
    var b := Run(Fresh, events).bars;
    SumOverBounds(b.sizes, Ended(events));
    assert Sum(b.sizes) > 0 by { assert b.sizes[0].1 != 0; }
    assert events != [];
  }

  // ---- What the pre-title read measures ------------------------------------------------

  ghost function ReadOver(samples: seq<Sample>): ReadPass {
    if samples == [] then ReadPass(None, 0, 0, false)
    else TickRead(ReadOver(samples[..|samples| - 1]), samples[|samples| - 1])
  }

  /** Sample `m` is the first of the read's first pass that knows a byte total. */
  ghost predicate FirstMeasure(samples: seq<Sample>, m: nat) {
    && m < |samples| && Measures(samples, m)
    && forall k :: 0 <= k < m ==> !Measures(samples, k)
  }

  ghost predicate Measures(samples: seq<Sample>, k: nat)
    requires k < |samples|
  {
    samples[k].pass == samples[0].pass && samples[k].bytesTotal > 0
  }

  /** A later pass has reported since sample `m`. */
  ghost predicate LaterPassSince(samples: seq<Sample>, m: nat) {
    exists k :: m < k < |samples| && samples[k].pass != samples[0].pass
  }

  /** `done` is the most that the samples from `m` on reached, never past the total. */
  ghost predicate MostDone(samples: seq<Sample>, m: nat, total: nat, done: nat) {
    && (forall k :: m <= k < |samples| ==> Min(samples[k].bytesDone, total) <= done)
    && exists k :: m <= k < |samples| && done == Min(samples[k].bytesDone, total)
  }

  lemma MeasuresMost(samples: seq<Sample>)
    requires samples != []
    ensures var most := samples[..|samples| - 1];
            forall k: nat | k < |most| :: Measures(most, k) <==> Measures(samples, k)
  {
    var most := samples[..|samples| - 1];
    assert forall k :: 0 <= k < |most| ==> most[k] == samples[k];
  }

  lemma {:induction false} ReadsFirstPass(samples: seq<Sample>)
    requires samples != []
    ensures ReadOver(samples).pass == Some(samples[0].pass)
  {
    if |samples| > 1 { ReadsFirstPass(samples[..|samples| - 1]); }
  }

  lemma {:induction false} NothingMeasured(samples: seq<Sample>)
    requires forall k: nat | k < |samples| :: !Measures(samples, k)
    ensures ReadOver(samples).total == 0 == ReadOver(samples).done
  {
    if samples != [] {
      var n := |samples| - 1;
      MeasuresMost(samples);
      NothingMeasured(samples[..n]);
      if n > 0 { ReadsFirstPass(samples[..n]); }
      assert !Measures(samples, n);
    }
  }

  /** The read's bytes from its samples `m` on, the first of which names the total. */
  ghost predicate MeasuredFrom(samples: seq<Sample>, m: nat, r: ReadPass)
    requires FirstMeasure(samples, m)
  {
    && r.total == samples[m].bytesTotal
    && if LaterPassSince(samples, m) then r.done == r.total else MostDone(samples, m, r.total, r.done)
  }

  lemma {:induction false} Measured(samples: seq<Sample>, m: nat)
    requires FirstMeasure(samples, m)
    ensures MeasuredFrom(samples, m, ReadOver(samples))
  {
    var n := |samples| - 1;
    var most := samples[..n];
    var r, t := ReadOver(most), ReadOver(samples);
    assert t == TickRead(r, samples[n]);
    assert forall k :: 0 <= k < n ==> most[k] == samples[k];
    MeasuresMost(samples);
    if n > 0 { ReadsFirstPass(most); }
    if m == n {
      NothingMeasured(most);
      assert t.done == Min(samples[n].bytesDone, t.total);
    } else {
      Measured(most, m);
      if samples[n].pass != samples[0].pass {
        assert LaterPassSince(samples, m);
      } else {
        LaterPassSnoc(samples, m);
        if !LaterPassSince(most, m) { MostDoneSnoc(samples, m, r.total, r.done, t.done); }
      }
    }
  }

  lemma MostDoneSnoc(samples: seq<Sample>, m: nat, total: nat, was: nat, done: nat)
    requires samples != [] && MostDone(samples[..|samples| - 1], m, total, was)
    requires var sample := Min(samples[|samples| - 1].bytesDone, total);
             done == if was >= sample then was else sample
    ensures MostDone(samples, m, total, done)
  {
    var n := |samples| - 1;
    var most := samples[..n];
    var k :| m <= k < n && was == Min(most[k].bytesDone, total);
    assert done == Min(samples[k].bytesDone, total) || done == Min(samples[n].bytesDone, total);
    forall k | m <= k < |samples|
      ensures Min(samples[k].bytesDone, total) <= done
    {
      if k < n { assert most[k] == samples[k]; }
    }
  }

  /** What the read's samples measure, whatever they are: before the first pass knows a byte
      total there is nothing to count, also when a later pass reports meanwhile; the first total
      that pass names stands; and the bytes done are the most it reached from there on, until a
      later pass reports, then all of them. */
  lemma ReadMeasuredByFirstPass(samples: seq<Sample>)
    requires samples != []
    ensures var r := ReadOver(samples);
            && r.pass == Some(samples[0].pass)
            && ((forall k: nat | k < |samples| :: !Measures(samples, k)) ==> r.total == 0 == r.done)
            && forall m: nat | FirstMeasure(samples, m) :: MeasuredFrom(samples, m, r)
  {
    ReadsFirstPass(samples);
    if forall k: nat | k < |samples| :: !Measures(samples, k) { NothingMeasured(samples); }
    forall m: nat | FirstMeasure(samples, m)
      ensures MeasuredFrom(samples, m, ReadOver(samples))
    {
      Measured(samples, m);
    }
  }

  lemma LaterPassSnoc(samples: seq<Sample>, m: nat)
    requires samples != [] && m < |samples| - 1 && samples[|samples| - 1].pass == samples[0].pass
    ensures LaterPassSince(samples, m) <==> LaterPassSince(samples[..|samples| - 1], m)
  {
    var most := samples[..|samples| - 1];
    if LaterPassSince(samples, m) {
      var k :| m < k < |samples| && samples[k].pass != samples[0].pass;
      assert most[k].pass != most[0].pass;
    }
    if LaterPassSince(most, m) {
      var k :| m < k < |most| && most[k].pass != most[0].pass;
      assert samples[k].pass != samples[0].pass;
    }
  }

  lemma {:induction false} ReadNotOver(samples: seq<Sample>)
    ensures !ReadOver(samples).over
  {
    if samples != [] { ReadNotOver(samples[..|samples| - 1]); }
  }
}

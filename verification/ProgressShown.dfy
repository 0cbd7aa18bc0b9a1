/**
 What the two bars show, read off the events alone, in whatever order those come (`Bars` and
 `RunState` in src/engine.rs).
 */
module ProgressShown {
  import opened Basics
  import opened ProgressBars
  import opened ProgressBarsTheorems
  import opened ProgressCounts

  lemma RunStep(events: seq<Event>)
    requires events != []
    ensures var s, e := Run(Fresh, events[..|events| - 1]), events[|events| - 1];
            && Run(Fresh, events) == Apply(s, e)
            && Run(Fresh, events).bars == NextBars(s.bars, e)
            && Run(Fresh, events) == Publish(NextBars(s.bars, e), NextProg(s.bars, s.prog, e))
  {
  }

  // ---- The title under way ------------------------------------------------------------------

  /** The samples reported since the title under way started. */
  ghost function TitleSamples(events: seq<Event>): seq<Sample> {
    if events == [] then []
    else
      var most, e := events[..|events| - 1], events[|events| - 1];
      match e
      case Progress(p) => TitleSamples(most) + [p]
      case TitleStart(idx) => if Open(most) == Some(idx) then TitleSamples(most) else []
      case _ => TitleSamples(most)
  }

  /** `f` is the best fraction any of the samples reached, 0 when none had a total. */
  ghost predicate BestFraction(samples: seq<Sample>, f: real) {
    && f >= 0.0
    && (forall k :: 0 <= k < |samples| && samples[k].bytesTotal > 0 ==>
          Fraction(samples[k].bytesDone, samples[k].bytesTotal) <= f)
    && (f != 0.0 ==> exists k :: 0 <= k < |samples| && samples[k].bytesTotal > 0
                                 && f == Fraction(samples[k].bytesDone, samples[k].bytesTotal))
  }

  /** A fraction is the share done, and 1 from there on when more is done than there is. */
  lemma FractionIsTheShare(done: nat, total: nat)
    requires total > 0
    ensures done >= total ==> Fraction(done, total) == 1.0
    ensures done <= total ==> Fraction(done, total) * total as real == done as real
  {
    var d, t := done as real, total as real;
    assert d / t * t == d;
    if done >= total {
      QuotientOrder(t, d, t);
      SelfQuotient(t);
    }
    if done <= total {
      QuotientOrder(d, t, t);
      SelfQuotient(t);
    }
  }

  lemma BestFractionSnoc(samples: seq<Sample>, f: real, p: Sample)
    requires BestFraction(samples, f)
    ensures BestFraction(samples + [p],
                         if p.bytesTotal > 0 then RealMax(f, Fraction(p.bytesDone, p.bytesTotal)) else f)
  {
    var all := samples + [p];
    assert all[|samples|] == p;
    if f != 0.0 {
      var k :| 0 <= k < |samples| && samples[k].bytesTotal > 0
               && f == Fraction(samples[k].bytesDone, samples[k].bytesTotal);
      assert all[k] == samples[k];
    }
  }

  lemma BestIsOne(samples: seq<Sample>, f: real, g: real)
    requires BestFraction(samples, f) && BestFraction(samples, g)
    ensures f == g
  {
    hide Fraction;
  }

  /** The current title's fraction is the best one reported since that title started. */
  lemma {:induction false} CurrentIsBest(events: seq<Event>)
    ensures var b := Run(Fresh, events).bars;
            b.current.Some? ==> BestFraction(TitleSamples(events), b.current.value.frac)
  {
    if events != [] {
      var most, e := events[..|events| - 1], events[|events| - 1];
      CurrentIsBest(most);
      BarsFollowTheEvents(most);
      RunStep(events);
      var b := Run(Fresh, most).bars;
      if e.Progress? && b.current.Some? {
        BestFractionSnoc(TitleSamples(most), b.current.value.frac, e.sample);
      }
      hide Apply;
      hide Run;
      hide Publish;
      hide Fraction;
    }
  }

  // ---- The pre-title read -------------------------------------------------------------------

  /** Whether a read has begun and no title has started since. */
  ghost function ReadRunning(events: seq<Event>): bool {
    if events == [] then false
    else
      var most, e := events[..|events| - 1], events[|events| - 1];
      match e
      case BeginRead => true
      case TitleStart(idx) => Open(most) == Some(idx) && ReadRunning(most)
      case _ => ReadRunning(most)
  }

  /** The samples of the last read: those reported while it runs and no title is under way. */
  ghost function ReadSamples(events: seq<Event>): seq<Sample> {
    if events == [] then []
    else
      var most, e := events[..|events| - 1], events[|events| - 1];
      match e
      case BeginRead => []
      case Progress(p) => if ReadRunning(most) && Open(most) == None then ReadSamples(most) + [p] else ReadSamples(most)
      case _ => ReadSamples(most)
  }

  lemma ReadOverSnoc(samples: seq<Sample>, p: Sample)
    ensures ReadOver(samples + [p]) == TickRead(ReadOver(samples), p)
  {
    assert (samples + [p])[..|samples|] == samples;
  }

  /** The read in the bars whose samples are these. */
  ghost function ReadAs(seen: bool, running: bool, samples: seq<Sample>): Option<ReadPass> {
    var r := ReadOver(samples);
    if !seen then None else if running then Some(r) else Some(r.(done := r.total, over := true))
  }

  lemma ReadStep(b: Bars, e: Event, seen: bool, running: bool, samples: seq<Sample>)
    requires b.read == ReadAs(seen, running, samples) && (running ==> seen)
    ensures NextBars(b, e).read
            == ReadAs(seen || e.BeginRead?,
                      if e.TitleStart? then UnderWay(b, e.idx) && running else running || e.BeginRead?,
                      if e.BeginRead? then []
                      else if e.Progress? && running && b.current == None then samples + [e.sample]
                      else samples)
  {
    ReadNotOver(samples);
    if e.Progress? { ReadOverSnoc(samples, e.sample); }
    hide Fraction;
    hide TickRead;
    hide SizeOf;
  }

  /** In any order of events the read in the bars is the one its own samples measure, and from
      the next title's start on it is complete: its total in the bottom bar is what its samples
      named. */
  lemma {:induction false} ReadIsItsSamples(events: seq<Event>)
    ensures var r := ReadOver(ReadSamples(events));
            Run(Fresh, events).bars.read
            == if !ReadSeen(events) then None
               else if ReadRunning(events) then Some(r)
               else Some(r.(done := r.total, over := true))
    ensures ReadRunning(events) ==> ReadSeen(events)
  {
    if events != [] {
      var most, e := events[..|events| - 1], events[|events| - 1];
      assert most + [e] == events;
      SeenSnoc(most, e);
      ReadIsItsSamples(most);
      BarsFollowTheEvents(most);
      RunStep(events);
      ReadStep(Run(Fresh, most).bars, e, ReadSeen(most), ReadRunning(most), ReadSamples(most));
      hide Apply;
      hide Run;
      hide NextBars;
      hide Publish;
      hide ReadSeen;
      hide ReadOver;
    }
  }

  // ---- The top bar --------------------------------------------------------------------------

  /** The last sample since the title under way, if any, started. */
  ghost function LastSample(events: seq<Event>): Option<Sample> {
    if events == [] then None
    else
      var most, e := events[..|events| - 1], events[|events| - 1];
      match e
      case Progress(p) => Some(p)
      case TitleStart(idx) => if Open(most) == Some(idx) then LastSample(most) else None
      case _ => LastSample(most)
  }

  lemma {:induction false} CountersAreTheLastSample(events: seq<Event>)
    ensures var p := Run(Fresh, events).prog;
            match LastSample(events)
            case None => p.bytesDone == 0 == p.bytesTotal
            case Some(sample) => p.bytesDone == sample.bytesDone && p.bytesTotal == sample.bytesTotal
  {
    if events != [] {
      var most := events[..|events| - 1];
      CountersAreTheLastSample(most);
      BarsFollowTheEvents(most);
      RunStep(events);
      hide Apply;
      hide Run;
      hide NextBars;
      hide TitlePct;
      hide BatchPct;
    }
  }

  /** The last sample, when it knows how many bytes there are. */
  ghost predicate LastMeasures(events: seq<Event>) {
    LastSample(events).Some? && LastSample(events).value.bytesTotal > 0
  }

  ghost function LastFraction(events: seq<Event>): real
    requires LastMeasures(events)
  {
    Fraction(LastSample(events).value.bytesDone, LastSample(events).value.bytesTotal)
  }

  /** The top bar, after any events at all. In a title it is the best fraction reported since that
      title started. In a read it is the fraction of the last sample. Between titles, and in a
      read before its first sample, it is 0 while the bytes that ended are below the planned sum
      and 100 from then on; with nothing planned, or no planned size known, the fraction of the
      last sample, 0 without one. */
  lemma TopBarInAnyOrder(events: seq<Event>)
    ensures var pct, planned := Run(Fresh, events).prog.titlePct, Sum(PlanOf(events));
            if Open(events).Some? then BestFraction(TitleSamples(events), pct / 100.0)
            else if LastMeasures(events) && (ReadRunning(events) || planned == 0) then
              pct == 100.0 * LastFraction(events)
            else
              pct == if planned > 0 && EndedBytes(events) >= planned then 100.0 else 0.0
  {
    BarsFollowTheEvents(events);
    PassedIsWhatEnded(events);
    CurrentIsBest(events);
    CountersAreTheLastSample(events);
    ReadIsItsSamples(events);
    ReadNotOver(ReadSamples(events));
    TopPublished(events);
    hide Run;
    hide Fraction;
    hide Open;
    hide PlanOf;
    hide LastSample;
    hide BestFraction;
    hide ReadOver;
    if Open(events).Some? { OneHundredth(Run(Fresh, events).bars.current.value.frac); }
  }

  lemma TopPublished(events: seq<Event>)
    ensures var t := Run(Fresh, events); t.prog.titlePct == TitlePct(t.bars, t.prog.bytesDone, t.prog.bytesTotal)
  {
    if events != [] { RunStep(events); }
    hide NextBars;
    hide BatchPct;
  }

  lemma OneHundredth(f: real)
    ensures f * 100.0 / 100.0 == f
  {
  }

  /** Which preparation is shown, in any order of events. */
  lemma PreparationFollows(events: seq<Event>)
    ensures Run(Fresh, events).prog.preparation
            == if !ReadSeen(events) then NotNeeded else if ReadRunning(events) then Reading else Complete
  {
    ReadIsItsSamples(events);
    ReadNotOver(ReadSamples(events));
    if events != [] { RunStep(events); }
    hide NextBars;
    hide TitlePct;
    hide BatchPct;
    hide ReadOver;
    hide ReadRunning;
  }

  // ---- The bottom bar -----------------------------------------------------------------------

  /** Titles are planned and every planned size is known. */
  ghost predicate SizesKnown(events: seq<Event>) {
    PlanOf(events) != [] && forall k :: 0 <= k < |PlanOf(events)| ==> PlanOf(events)[k].1 > 0
  }

  /** The bytes of the read: as far as its samples got, and all of them once a title started. */
  ghost function BytesRead(events: seq<Event>): nat {
    var r := ReadOver(ReadSamples(events));
    if ReadRunning(events) then r.done else r.total
  }

  /** The bytes done, with the title under way counted at `frac`. */
  ghost function BytesDone(events: seq<Event>, frac: real): real {
    BytesRead(events) as real + EndedBytes(events) as real + OpenPart(events, frac)
  }

  ghost function OpenPart(events: seq<Event>, frac: real): real {
    if Open(events).Some? then OpenSize(events) as real * frac else 0.0
  }

  ghost function BytesPlanned(events: seq<Event>): nat {
    ReadOver(ReadSamples(events)).total + Sum(PlanOf(events))
  }

  lemma {:induction false} NoReadNoSamples(events: seq<Event>)
    requires !ReadSeen(events)
    ensures !ReadRunning(events) && ReadSamples(events) == []
  {
    if events != [] {
      var most := events[..|events| - 1];
      assert most + [events[|events| - 1]] == events;
      SeenSnoc(most, events[|events| - 1]);
      hide ReadSeen;
      NoReadNoSamples(most);
    }
  }

  lemma ReadCounted(events: seq<Event>)
    ensures var b := Run(Fresh, events).bars;
            ReadDone(b) == BytesRead(events) && ReadTotal(b) == ReadOver(ReadSamples(events)).total
  {
    ReadIsItsSamples(events);
    if !ReadSeen(events) { NoReadNoSamples(events); }
    hide Run;
    hide ReadSeen;
    hide ReadRunning;
  }

  lemma CurrentIs(b: Bars, events: seq<Event>, frac: real)
    requires b.current.Some? <==> Open(events).Some?
    requires b.current.Some? ==> b.current.value.size == OpenSize(events) && b.current.value.frac == frac
    ensures CurrentDone(b) == OpenPart(events, frac)
  {
    hide Open;
    hide OpenSize;
  }

  lemma CurrentCounted(events: seq<Event>, frac: real)
    requires BestFraction(TitleSamples(events), frac)
    ensures CurrentDone(Run(Fresh, events).bars) == OpenPart(events, frac)
  {
    hide *;
    BarsFollowTheEvents(events);
    PassedIsWhatEnded(events);
    CurrentIsBest(events);
    var b := Run(Fresh, events).bars;
    if b.current.Some? { BestIsOne(TitleSamples(events), frac, b.current.value.frac); }
    CurrentIs(b, events, frac);
  }

  lemma Summed(b: Bars, read: nat, ended: nat, part: real, total: nat, plan: seq<(nat, nat)>)
    requires ReadDone(b) == read && b.passed == ended && CurrentDone(b) == part
    requires ReadTotal(b) == total && b.sizes == plan
    ensures DoneBytes(b) == read as real + ended as real + part && Total(b) == total + Sum(plan)
  {
    hide ReadDone;
    hide ReadTotal;
    hide CurrentDone;
    hide Sum;
  }

  /** What the bars measure is what the events say. */
  lemma DoneIsTheEvents(events: seq<Event>, frac: real)
    requires BestFraction(TitleSamples(events), frac)
    ensures var b := Run(Fresh, events).bars;
            DoneBytes(b) == BytesDone(events, frac) && Total(b) == BytesPlanned(events)
  {
    PassedIsWhatEnded(events);
    ReadCounted(events);
    CurrentCounted(events, frac);
    Summed(Run(Fresh, events).bars, BytesRead(events), EndedBytes(events), OpenPart(events, frac),
           ReadOver(ReadSamples(events)).total, PlanOf(events));
    hide Run;
    hide Open;
    hide PlanOf;
    hide BestFraction;
    hide ReadOver;
    hide ReadSamples;
    hide ReadRunning;
    hide DoneBytes;
    hide Total;
    hide EndedBytes;
    hide OpenPart;
    hide BytesRead;
    hide Sum;
  }

  lemma SizesKnownMeasurable(events: seq<Event>)
    ensures Measurable(Run(Fresh, events).bars) <==> SizesKnown(events)
    ensures SizesKnown(events) ==> BytesPlanned(events) > 0
  {
    PassedIsWhatEnded(events);
    hide Run;
    hide ReadOver;
    if SizesKnown(events) { assert PlanOf(events)[0].1 > 0; }
  }

  lemma ShareIs(b: Bars, done: real)
    requires Measurable(b) && done == DoneBytes(b)
    ensures Total(b) > 0 && Share(b) == done / Total(b) as real
  {
    MeasurableTotal(b);
    hide DoneBytes;
    hide Total;
  }

  lemma ShareIsTheQuotient(events: seq<Event>, frac: real)
    requires BestFraction(TitleSamples(events), frac) && SizesKnown(events)
    ensures BytesPlanned(events) > 0 && Measurable(Run(Fresh, events).bars)
    ensures Share(Run(Fresh, events).bars) == BytesDone(events, frac) / BytesPlanned(events) as real
  {
    SizesKnownMeasurable(events);
    DoneIsTheEvents(events, frac);
    ShareIs(Run(Fresh, events).bars, BytesDone(events, frac));
    hide *;
  }

  /** The bottom bar after any events, `e` the last of them: no value while nothing is planned; 0
      with a planned size unknown; else the greater of what it showed before and the bytes done
      over the bytes planned, at most 100. */
  lemma BottomBarInAnyOrder(events: seq<Event>, e: Event, frac: real)
    requires BestFraction(TitleSamples(events + [e]), frac)
    ensures var all := events + [e];
            var was, now := Run(Fresh, events).prog.batchPct, Run(Fresh, all).prog.batchPct;
            if PlanOf(all) == [] then now == None
            else if !SizesKnown(all) then now == Some(0.0)
            else
              && now.Some? && BytesPlanned(all) > 0
              && var pct := BytesDone(all, frac) / BytesPlanned(all) as real * 100.0;
                 var capped := if pct > 100.0 then 100.0 else pct;
                 now.value == if was.Some? && was.value > capped then was.value else capped
  {
    var all := events + [e];
    assert all[..|events|] == events;
    RunSound(all);
    PassedIsWhatEnded(all);
    BottomPublished(events, e);
    if SizesKnown(all) { ShareIsTheQuotient(all, frac); }
    SizesKnownMeasurable(all);
    hide Run;
    hide Share;
    hide BytesPlanned;
    hide BytesDone;
    hide SizesKnown;
    hide PlanOf;
    hide BestFraction;
  }

  lemma BottomPublished(events: seq<Event>, e: Event)
    ensures var s, t := Run(Fresh, events), Run(Fresh, events + [e]);
            t.prog.batchPct == Raise(BatchPct(t.bars), s.prog.batchPct)
  {
    var all := events + [e];
    assert all[..|events|] == events;
    RunStep(all);
    NextProgKeeps(Run(Fresh, events), e);
    hide NextBars;
    hide NextProg;
    hide TitlePct;
    hide BatchPct;
  }

  /** Conservation: after an orderly run with every planned size known, the bottom bar shows
      exactly (bytes read + sizes of the ended titles + the current title's part) over
      (bytes to read + all planned sizes). */
  lemma BottomBarConserves(events: seq<Event>, frac: real)
    requires Orderly(events) && SizesKnown(events) && BestFraction(TitleSamples(events), frac)
    ensures BytesPlanned(events) > 0
    ensures EndedBytes(events) == SumOver(PlanOf(events), Ended(events))
    ensures Run(Fresh, events).prog.batchPct == Some(BytesDone(events, frac) / BytesPlanned(events) as real * 100.0)
  {
    OrderlyAccounts(events);
    PassedIsWhatEnded(events);
    ShareIsTheQuotient(events, frac);
    hide Run;
    hide Share;
    hide BytesPlanned;
    hide BytesDone;
    hide SizesKnown;
    hide Orderly;
    hide BestFraction;
  }
}

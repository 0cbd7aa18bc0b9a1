/**
 The two progress bars of a running rip (`Bars` and `RunState` in src/engine.rs).

 The front end and the engine both report events into one `RunState`. Every event is one
 critical section that updates `Bars` and republishes two percentages. Percentages and
 fractions are exact `real`s here, byte counts are unbounded naturals.
 */
module ProgressBars {
  import opened Basics

  /** What one engine progress sample says about bytes. */
  datatype Sample = Sample(pass: string, bytesDone: nat, bytesTotal: nat)

  /** The pre-title read, measured by its first pass. */
  datatype ReadPass = ReadPass(pass: Option<string>, done: nat, total: nat, over: bool)

  /** The title being muxed and the fraction of it done. */
  datatype Title = Title(idx: nat, size: nat, frac: real)

  datatype Bars = Bars(sizes: seq<(nat, nat)>, read: Option<ReadPass>, passed: nat, current: Option<Title>)

  datatype Preparation = NotNeeded | Reading | Complete

  /** The published part of the progress state that the bars read and write. */
  datatype Prog = Prog(bytesDone: nat, bytesTotal: nat, titlePct: real, batchPct: Option<real>, preparation: Preparation)

  datatype State = State(bars: Bars, prog: Prog)

  datatype Event =
    | Plan(sizes: seq<(nat, nat)>)
    | BeginRead
    | Progress(sample: Sample)
    | TitleStart(idx: nat)
    | TitleEnd(idx: nat)

  const Fresh := State(Bars([], None, 0, None), Prog(0, 0, 0.0, None, NotNeeded))

  function Min(a: nat, b: nat): nat { if a <= b then a else b }

  function RealMin(a: real, b: real): real { if a <= b then a else b }

  function RealMax(a: real, b: real): real { if a >= b then a else b }

  // ---- The values an event computes ------------------------------------------------

  function Sum(sizes: seq<(nat, nat)>): nat {
    if sizes == [] then 0 else sizes[0].1 + Sum(sizes[1..])
  }

  function SizeOf(sizes: seq<(nat, nat)>, idx: nat): nat {
    if sizes == [] then 0
    else if sizes[0].0 == idx then sizes[0].1
    else SizeOf(sizes[1..], idx)
  }

  predicate SomeSizeUnknown(sizes: seq<(nat, nat)>) {
    exists k :: 0 <= k < |sizes| && sizes[k].1 == 0
  }

  /** The share of `total` that `done` is, at most 1. */
  function Fraction(done: nat, total: nat): (f: real)
    requires total > 0
    ensures 0.0 <= f <= 1.0
  {
    RealMin(done as real / total as real, 1.0)
  }

  function TickRead(r: ReadPass, p: Sample): ReadPass {
    match r.pass
    case None =>
      r.(pass := Some(p.pass), total := p.bytesTotal, done := Min(p.bytesDone, p.bytesTotal))
    case Some(k) =>
      if k == p.pass then
        var total := if r.total == 0 then p.bytesTotal else r.total;
        var sample := Min(p.bytesDone, total);
        r.(total := total, done := if r.done >= sample then r.done else sample)
      else
        r.(done := r.total)
  }

  function Tick(b: Bars, p: Sample): Bars {
    match b.current
    case Some(t) =>
      if p.bytesTotal > 0 then
        b.(current := Some(t.(frac := RealMax(t.frac, Fraction(p.bytesDone, p.bytesTotal)))))
      else b
    case None =>
      match b.read
      case None => b
      case Some(r) => if r.over then b else b.(read := Some(TickRead(r, p)))
  }

  function EndRead(b: Bars): Bars {
    match b.read
    case None => b
    case Some(r) => b.(read := Some(r.(done := r.total, over := true)))
  }

  function ReadDone(b: Bars): nat { match b.read case None => 0 case Some(r) => r.done }

  function ReadTotal(b: Bars): nat { match b.read case None => 0 case Some(r) => r.total }

  function CurrentDone(b: Bars): real {
    match b.current case None => 0.0 case Some(t) => t.size as real * t.frac
  }

  function Total(b: Bars): nat { ReadTotal(b) + Sum(b.sizes) }

  /** Whether the bottom bar has a byte total: planned, with every size known. */
  predicate Measurable(b: Bars) {
    b.sizes != [] && !SomeSizeUnknown(b.sizes)
  }

  lemma MeasurableTotal(b: Bars)
    requires Measurable(b)
    ensures Total(b) > 0
  {
    assert b.sizes[0].1 != 0;
  }

  function DoneBytes(b: Bars): real { ReadDone(b) as real + b.passed as real + CurrentDone(b) }

  /** Bytes done over bytes planned, not clamped. */
  function Share(b: Bars): real
    requires Measurable(b)
  {
    MeasurableTotal(b);
    DoneBytes(b) / Total(b) as real
  }

  function BatchPct(b: Bars): Option<real> {
    if b.sizes == [] then None
    else if SomeSizeUnknown(b.sizes) then Some(0.0)
    else Some(RealMin(Share(b) * 100.0, 100.0))
  }

  function TitlePct(b: Bars, bytesDone: nat, bytesTotal: nat): real {
    var planned := Sum(b.sizes);
    match b.current
    case Some(t) => t.frac * 100.0
    case None =>
      if b.read.Some? && !b.read.value.over && bytesTotal > 0 then Fraction(bytesDone, bytesTotal) * 100.0
      else if planned > 0 && b.passed < planned then 0.0
      else if planned > 0 then 100.0
      else if bytesTotal > 0 then Fraction(bytesDone, bytesTotal) * 100.0
      else 0.0
  }

  function PreparationOf(b: Bars): Preparation {
    match b.read
    case None => NotNeeded
    case Some(r) => if r.over then Complete else Reading
  }

  /** The bottom bar never goes down: the new value against the one already shown. */
  function Raise(now: Option<real>, was: Option<real>): Option<real> {
    if now.Some? && was.Some? then Some(RealMax(now.value, was.value)) else now
  }

  function Publish(b: Bars, p: Prog): State {
    State(b, p.(titlePct := TitlePct(b, p.bytesDone, p.bytesTotal),
                batchPct := Raise(BatchPct(b), p.batchPct),
                preparation := PreparationOf(b)))
  }

  /** Whether title `idx` is the one under way. */
  predicate UnderWay(b: Bars, idx: nat) { b.current.Some? && b.current.value.idx == idx }

  /** The bars after an event. */
  function NextBars(b: Bars, e: Event): Bars {
    match e
    case Plan(sizes) => if b.sizes == [] then b.(sizes := sizes) else b
    case BeginRead => b.(read := Some(ReadPass(None, 0, 0, false)))
    case Progress(p) => Tick(b, p)
    case TitleStart(idx) =>
      if UnderWay(b, idx) then b else EndRead(b).(current := Some(Title(idx, SizeOf(b.sizes, idx), 0.0)))
    case TitleEnd(idx) =>
      if UnderWay(b, idx) then b.(passed := b.passed + b.current.value.size, current := None) else b
  }

  /** The byte counters after an event, before the bars are republished. */
  function NextProg(b: Bars, p: Prog, e: Event): Prog {
    match e
    case Progress(sample) => p.(bytesDone := sample.bytesDone, bytesTotal := sample.bytesTotal)
    case TitleStart(idx) => if UnderWay(b, idx) then p else p.(bytesDone := 0, bytesTotal := 0)
    case _ => p
  }

  /** One event's critical section. */
  function Apply(s: State, e: Event): State {
    Publish(NextBars(s.bars, e), NextProg(s.bars, s.prog, e))
  }

  function Run(s: State, events: seq<Event>): State {
    if events == [] then s else Apply(Run(s, events[..|events| - 1]), events[|events| - 1])
  }

  // ---- The state as the source holds it --------------------------------------------

  /** `RunState`: the bars and the progress they are published into, updated in place. */
  class RunState {
    var sizes: seq<(nat, nat)>
    var read: Option<ReadPass>
    var passed: nat
    var current: Option<Title>
    var prog: Prog

    ghost function Value(): State
      reads this
    {
      State(Bars(sizes, read, passed, current), prog)
    }

    constructor ()
      ensures Value() == Fresh
    {
      sizes, read, passed, current := [], None, 0, None;
      prog := Prog(0, 0, 0.0, None, NotNeeded);
    }

    /** `Bars::size_of`: the first planned size under `idx`, 0 when unplanned. */
    method SizeOfTitle(idx: nat) returns (size: nat)
      ensures size == SizeOf(sizes, idx)
      ensures forall k :: 0 <= k < |sizes| && sizes[k].0 == idx && (forall j :: 0 <= j < k ==> sizes[j].0 != idx) ==>
                size == sizes[k].1
      ensures (forall k :: 0 <= k < |sizes| ==> sizes[k].0 != idx) ==> size == 0
    {
      var k := 0;
      while k < |sizes|
        invariant k <= |sizes|
        invariant forall j :: 0 <= j < k ==> sizes[j].0 != idx
        invariant SizeOf(sizes, idx) == SizeOf(sizes[k..], idx)
      {
        if sizes[k].0 == idx { return sizes[k].1; }
        k := k + 1;
      }
      return 0;
    }

    /** `Bars::batch_pct`: sums the plan in a loop. */
    method MeasureBatch() returns (pct: Option<real>)
      ensures pct == BatchPct(Value().bars)
      ensures (pct == None <==> sizes == []) && ((exists k :: 0 <= k < |sizes| && sizes[k].1 == 0) ==> pct == Some(0.0))
    {
      if sizes == [] { return None; }
      var planned, k := 0, 0;
      while k < |sizes|
        invariant k <= |sizes|
        invariant forall j :: 0 <= j < k ==> sizes[j].1 != 0
        invariant planned + Sum(sizes[k..]) == Sum(sizes)
      {
        if sizes[k].1 == 0 { return Some(0.0); }
        planned := planned + sizes[k].1;
        k := k + 1;
      }
      ghost var b := Value().bars;
      MeasurableTotal(b);
      var readDone := if read.Some? then read.value.done else 0;
      var readTotal := if read.Some? then read.value.total else 0;
      var cur := if current.Some? then current.value.size as real * current.value.frac else 0.0;
      var done := readDone as real + passed as real + cur;
      assert Total(b) == readTotal + planned && !SomeSizeUnknown(b.sizes);
      assert Share(b) == done / (readTotal + planned) as real;
      return Some(RealMin(done / (readTotal + planned) as real * 100.0, 100.0));
    }

    method Republish()
      modifies this`prog
      ensures Value() == Publish(old(Value()).bars, old(prog))
    {
      var batch := MeasureBatch();
      prog := prog.(titlePct := TitlePct(Bars(sizes, read, passed, current), prog.bytesDone, prog.bytesTotal),
                    batchPct := Raise(batch, prog.batchPct),
                    preparation := if read.None? then NotNeeded else if read.value.over then Complete else Reading);
    }

    method PlanTitles(plan: seq<(nat, nat)>)
      modifies this
      ensures Value() == Apply(old(Value()), Event.Plan(plan))
    {
      if sizes == [] { sizes := plan; }
      Republish();
    }

    method StartRead()
      modifies this
      ensures Value() == Apply(old(Value()), Event.BeginRead)
    {
      read := Some(ReadPass(None, 0, 0, false));
      Republish();
    }

    method StartTitle(idx: nat)
      modifies this
      ensures Value() == Apply(old(Value()), Event.TitleStart(idx))
    {
      if !(current.Some? && current.value.idx == idx) {
        if read.Some? { read := Some(read.value.(done := read.value.total, over := true)); }
        var size := SizeOfTitle(idx);
        current := Some(Title(idx, size, 0.0));
        prog := prog.(bytesDone := 0, bytesTotal := 0);
      }
      Republish();
    }

    method EndTitle(idx: nat)
      modifies this
      ensures Value() == Apply(old(Value()), Event.TitleEnd(idx))
    {
      if current.Some? && current.value.idx == idx {
        passed := passed + current.value.size;
        current := None;
      }
      Republish();
    }

    method Report(p: Sample)
      modifies this
      ensures Value() == Apply(old(Value()), Event.Progress(p))
    {
      prog := prog.(bytesDone := p.bytesDone, bytesTotal := p.bytesTotal);
      if current.Some? {
        if p.bytesTotal > 0 {
          var f := Fraction(p.bytesDone, p.bytesTotal);
          current := Some(current.value.(frac := RealMax(current.value.frac, f)));
        }
      } else if read.Some? && !read.value.over {
        var r := read.value;
        if r.pass.None? {
          r := r.(pass := Some(p.pass), total := p.bytesTotal);
          r := r.(done := Min(p.bytesDone, r.total));
        } else if r.pass.value == p.pass {
          if r.total == 0 { r := r.(total := p.bytesTotal); }
          var sample := Min(p.bytesDone, r.total);
          if sample > r.done { r := r.(done := sample); }
        } else {
          r := r.(done := r.total);
        }
        read := Some(r);
      }
      Republish();
    }
  }
}

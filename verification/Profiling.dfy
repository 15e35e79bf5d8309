// Profiling regions: a doubling array of samples. Time stamps, the outcomes of allocations and
// whatever fresh memory holds are inputs; region names are not modelled.
module Profiling {
  import opened Codes

  const MIN_SAMPLES: nat := 1024
  const U64: nat := 0x1_0000_0000_0000_0000

  // `start` and `time` are 64 bits wide.
  datatype Sample = Sample(start: nat, time: nat)

  // The samples in use, the capacity, and how many samples reallocations have copied so far.
  datatype Region = Region(used: seq<Sample>, size: nat, copied: nat)

  // Every call but printing. `on` says whether profiling is enabled, `now` is the clock, `junk`
  // is what the `time` field of a sample holds before it is written.
  datatype Command =
    | Init(on: bool, nameOk: bool, memOk: bool)
    | Start(on: bool, now: nat, memOk: bool, junk: nat)
    | Stop(on: bool, now: nat)
    | Destroy(on: bool)

  function Pow2(k: nat): nat {
    if k == 0 then 1 else 2 * Pow2(k - 1)
  }

  function Grow(r: Region): Region {
    r.(size := if r.size == 0 then MIN_SAMPLES else 2 * r.size, copied := r.copied + r.size)
  }

  // The region with room for one more sample, if there is or can be any.
  function Roomy(r: Region, memOk: bool): Region {
    if |r.used| >= r.size && memOk then Grow(r) else r
  }

  function Step(r: Region, c: Command): Region {
    match c
    case Init(on, nameOk, memOk) =>
      if !on || !nameOk then r
      else if memOk then Grow(r.(used := [])) else r.(used := [])
    case Start(on, now, memOk, junk) =>
      if !on || (|r.used| >= r.size && !memOk) then r
      else Roomy(r, memOk).(used := r.used + [Sample(now, junk)])
    case Stop(on, now) =>
      if !on || r.used == [] then r
      else
        var last := |r.used| - 1;
        r.(used := r.used[last := Sample(r.used[last].start, (now + U64 - r.used[last].start) % U64)])
    case Destroy(on) =>
      if !on then r else Region([], 0, r.copied)
  }

  function Run(r: Region, cs: seq<Command>): Region
    decreases |cs|
  {
    if cs == [] then r else Step(Run(r, cs[..|cs| - 1]), cs[|cs| - 1])
  }

  predicate Ticks(c: Command) {
    match c
    case Start(_, now, _, junk) => now < U64 && junk < U64
    case Stop(_, now) => now < U64
    case _ => true
  }

  // ---- Single calls ----

  // Profiling is off unless it has been asked for: then no call does anything.
  lemma OffDoesNothing(r: Region, c: Command)
    requires !c.on
    ensures Step(r, c) == r
  {
  }

  // A destroyed region is like one that was never used, and an initialised one has no samples
  // and new memory.
  lemma FreshAgain(r: Region, memOk: bool)
    ensures var n := Step(r, Destroy(true)); n.used == [] && n.size == 0 && n.copied == r.copied
    ensures var n := Step(r, Init(true, true, memOk));
      && n.used == []
      && (memOk ==> n.size == (if r.size == 0 then 1024 else 2 * r.size) && n.copied == r.copied + r.size)
      && (!memOk ==> n.size == r.size && n.copied == r.copied)
    ensures Step(r, Init(true, false, memOk)) == r
  {
  }

  // ---- Every run ----

  // The capacity is 0 or 1024 * 2^k.
  ghost predicate Doubled(size: nat) {
    size == 0 || exists k: nat :: size == MIN_SAMPLES * Pow2(k)
  }

  predicate Wide(s: Sample) {
    s.start < U64 && s.time < U64
  }

  ghost predicate Inv(r: Region) {
    |r.used| <= r.size && Doubled(r.size) && forall i :: 0 <= i < |r.used| ==> Wide(r.used[i])
  }

  lemma StepKeeps(r: Region, c: Command)
    requires Inv(r) && Ticks(c)
    ensures Inv(Step(r, c))
  {
    GrowDoubles(r.size);
  }

  lemma GrowDoubles(size: nat)
    requires Doubled(size)
    ensures Doubled(if size == 0 then MIN_SAMPLES else 2 * size)
  {
    if size == 0 {
      assert MIN_SAMPLES == MIN_SAMPLES * Pow2(0);
    } else {
      var k: nat :| size == MIN_SAMPLES * Pow2(k);
      assert 2 * size == MIN_SAMPLES * Pow2(k + 1);
    }
  }

  // Over any run of any calls the samples fit the capacity, which is 0 or 1024 * 2^k.
  lemma {:induction false} EveryRun(r: Region, cs: seq<Command>)
    requires Inv(r) && forall i :: 0 <= i < |cs| ==> Ticks(cs[i])
    ensures Inv(Run(r, cs))
    decreases |cs|
  {
    if cs != [] {
      EveryRun(r, cs[..|cs| - 1]);
      StepKeeps(Run(r, cs[..|cs| - 1]), cs[|cs| - 1]);
    }
  }

  // Starting keeps every sample taken so far and stopping changes no more than the last time.
  lemma SamplesSurvive(r: Region, c: Command)
    requires c.Start? || c.Stop?
    ensures var n := Step(r, c);
      && |r.used| <= |n.used| <= |r.used| + 1
      && (c.Start? ==> n.used[..|r.used|] == r.used)
      && (c.Stop? ==> |n.used| == |r.used|)
      && (forall i :: 0 <= i < |r.used| ==> n.used[i].start == r.used[i].start)
      && (forall i :: 0 <= i < |r.used| - 1 ==> n.used[i] == r.used[i])
  {
  }

  // ---- Copying ----

  // What starts alone have copied since `base`, when the first one found no memory allocated.
  ghost predicate Amortised(r: Region, base: nat) {
    && |r.used| <= r.size
    && (r.size == 0 ==> r.copied == base)
    && (r.size != 0 ==> r.size >= MIN_SAMPLES && r.copied == base + r.size - MIN_SAMPLES)
    && (r.size > MIN_SAMPLES ==> 2 * |r.used| > r.size)
  }

  // n starts, from an empty region without memory or with its first allocation, copy fewer than
  // 2n samples in total, however often stops, failed allocations or disabled calls intervene.
  lemma {:induction false} CopiesAmortised(r: Region, cs: seq<Command>)
    requires r.used == [] && (r.size == 0 || r.size == MIN_SAMPLES)
    requires forall i :: 0 <= i < |cs| ==> cs[i].Start? || cs[i].Stop?
    ensures var n := Run(r, cs); Amortised(n, r.copied) && |n.used| <= Starts(cs)
    ensures Starts(cs) > 0 ==> Run(r, cs).copied < r.copied + 2 * Starts(cs)
    decreases |cs|
  {
    if cs != [] {
      CopiesAmortised(r, cs[..|cs| - 1]);
    }
  }

  lemma {:induction false} RunConcat(r: Region, cs: seq<Command>, ds: seq<Command>)
    ensures Run(r, cs + ds) == Run(Run(r, cs), ds)
    decreases |ds|
  {
    if ds == [] {
      assert cs + ds == cs;
    } else {
      var all, front := cs + ds, ds[..|ds| - 1];
      assert all[..|all| - 1] == cs + front;
      RunConcat(r, cs, front);
    }
  }

  // A destroy in the middle of a run: the starts after it copy fewer than twice as many samples
  // as they are, whatever came before.
  lemma CopiesAfterDestroy(r: Region, cs: seq<Command>, ds: seq<Command>)
    requires forall i :: 0 <= i < |ds| ==> ds[i].Start? || ds[i].Stop?
    ensures var n := Run(r, cs + [Destroy(true)] + ds);
      && |n.used| <= Starts(ds)
      && (Starts(ds) > 0 ==> n.copied < Run(r, cs).copied + 2 * Starts(ds))
  {
    var mid := Step(Run(r, cs), Destroy(true));
    FreshAgain(Run(r, cs), true);
    assert (cs + [Destroy(true)])[..|cs|] == cs;
    RunConcat(r, cs + [Destroy(true)], ds);
    CopiesAmortised(mid, ds);
  }

  function Starts(cs: seq<Command>): nat
    decreases |cs|
  {
    if cs == [] then 0 else Starts(cs[..|cs| - 1]) + (if cs[|cs| - 1].Start? then 1 else 0)
  }

  // ---- Totals ----

  // What printing adds up, in 64 bits.
  function Total(s: seq<Sample>, n: nat): nat
    requires n <= |s|
  {
    if n == 0 then 0 else (Total(s, n - 1) + s[n - 1].time) % U64
  }

  // One pass through a profiled region: a start, whose allocation may fail if it needs one, and
  // the stop that follows it.
  datatype Visit = Visit(start: nat, stop: nat, memOk: bool, junk: nat)

  function Enter(v: Visit): Command {
    Start(true, v.start, v.memOk, v.junk)
  }

  function Leave(v: Visit): Command {
    Stop(true, v.stop)
  }

  function Alternating(vs: seq<Visit>): seq<Command>
    decreases |vs|
  {
    if vs == [] then []
    else Alternating(vs[..|vs| - 1]) + [Enter(vs[|vs| - 1]), Leave(vs[|vs| - 1])]
  }

  // The region after the visits.
  function After(r: Region, vs: seq<Visit>): Region {
    Run(r, Alternating(vs))
  }

  // The clock is 64 bits wide and does not go back.
  predicate Clock(vs: seq<Visit>) {
    && (forall i :: 0 <= i < |vs| ==> vs[i].start <= vs[i].stop < U64)
    && (forall i :: 0 <= i < |vs| - 1 ==> vs[i].stop <= vs[i + 1].start)
  }

  // A start on r gets no sample: the array is full and there is no memory.
  predicate Refused(r: Region, memOk: bool) {
    |r.used| >= r.size && !memOk
  }

  function Intervals(vs: seq<Visit>): nat
    requires Clock(vs)
    decreases |vs|
  {
    if vs == [] then 0 else Intervals(vs[..|vs| - 1]) + (vs[|vs| - 1].stop - vs[|vs| - 1].start)
  }

  // The time between each refused visit and the one before it, where there is a sample to stretch.
  function Gaps(r: Region, vs: seq<Visit>): nat
    requires Clock(vs)
    decreases |vs|
  {
    if |vs| < 2 then 0
    else
      var before, v := vs[..|vs| - 1], vs[|vs| - 1];
      Gaps(r, before) +
      (if Refused(After(r, before), v.memOk) && After(r, before).used != [] then v.start - vs[|vs| - 2].stop else 0)
  }

  // The intervals of the refused visits that found no sample at all.
  function Lost(r: Region, vs: seq<Visit>): nat
    requires Clock(vs)
    decreases |vs|
  {
    if vs == [] then 0
    else
      var before, v := vs[..|vs| - 1], vs[|vs| - 1];
      Lost(r, before) +
      (if Refused(After(r, before), v.memOk) && After(r, before).used == [] then v.stop - v.start else 0)
  }

  lemma RunTwo(r: Region, cs: seq<Command>, a: Command, b: Command)
    ensures Run(r, cs + [a, b]) == Step(Step(Run(r, cs), a), b)
  {
    var two := cs + [a, b];
    assert two[..|two| - 1] == cs + [a] && (cs + [a])[..|cs|] == cs;
  }

  lemma AfterNext(r: Region, vs: seq<Visit>)
    requires vs != []
    ensures var before, v := vs[..|vs| - 1], vs[|vs| - 1];
      After(r, vs) == Step(Step(After(r, before), Enter(v)), Leave(v))
  {
    RunTwo(r, Alternating(vs[..|vs| - 1]), Enter(vs[|vs| - 1]), Leave(vs[|vs| - 1]));
  }

  // The last sample with its time running up to `stop`.
  function Stretched(s: seq<Sample>, stop: nat): seq<Sample>
    requires s != [] && s[|s| - 1].start <= stop
  {
    s[..|s| - 1] + [Sample(s[|s| - 1].start, stop - s[|s| - 1].start)]
  }

  // A visit records its interval if and only if its start is not refused. A refused visit
  // stretches the sample before it, if there is one, and is lost otherwise.
  lemma FailedStartStretches(r: Region, v: Visit)
    requires v.start <= v.stop < U64 && (r.used != [] ==> r.used[|r.used| - 1].start <= v.start)
    ensures var n := Step(Step(r, Enter(v)), Leave(v));
      && (n.used == r.used + [Sample(v.start, v.stop - v.start)] <==> !Refused(r, v.memOk))
      && (Refused(r, v.memOk) ==> n.size == r.size && n.used == if r.used == [] then [] else Stretched(r.used, v.stop))
      && (r.size > 0 ==> n.size > 0)
  {
    var n := Step(Step(r, Enter(v)), Leave(v));
    if Refused(r, v.memOk) {
      assert |n.used| == |r.used|;
    }
  }

  // The same sum without the wrap-around.
  function Sum(s: seq<Sample>): nat {
    if s == [] then 0 else Sum(s[..|s| - 1]) + s[|s| - 1].time
  }

  lemma SumAppend(s: seq<Sample>, x: Sample)
    ensures Sum(s + [x]) == Sum(s) + x.time
  {
    assert (s + [x])[..|s|] == s;
  }

  lemma {:induction false} SumIsTotal(s: seq<Sample>, n: nat)
    requires n <= |s| && Sum(s[..n]) < U64
    ensures Total(s, n) == Sum(s[..n])
  {
    if n > 0 {
      assert s[..n][..n - 1] == s[..n - 1];
      SumIsTotal(s, n - 1);
    }
  }

  // The 64-bit sum is the sum modulo 2^64.
  lemma {:induction false} TotalWraps(s: seq<Sample>, n: nat)
    requires n <= |s|
    ensures Total(s, n) == Sum(s[..n]) % 0x1_0000_0000_0000_0000
  {
    if n > 0 {
      assert s[..n][..n - 1] == s[..n - 1];
      TotalWraps(s, n - 1);
    }
  }

  // What the visits have left behind: the books balance, the last sample ends at the last stop,
  // and all the time accounted for lies between the first start and the last stop.
  ghost predicate Balanced(r: Region, vs: seq<Visit>)
    requires Clock(vs)
  {
    var n := After(r, vs);
    && Sum(n.used) + Lost(r, vs) == Intervals(vs) + Gaps(r, vs)
    && |n.used| <= |vs|
    && (vs != [] ==> vs[0].start + Sum(n.used) <= vs[|vs| - 1].stop)
    && (n.used != [] ==>
          var last := n.used[|n.used| - 1]; vs != [] && last.start + last.time == vs[|vs| - 1].stop)
  }

  lemma {:induction false} VisitsBalance(r: Region, vs: seq<Visit>)
    requires r.used == [] && Clock(vs)
    ensures Balanced(r, vs)
    decreases |vs|
  {
    hide Run, Alternating, Step, After;
    if vs == [] {
      NothingYet(r);
    } else {
      VisitsBalance(r, vs[..|vs| - 1]);
      NextBalances(r, vs);
    }
  }

  lemma NothingYet(r: Region)
    requires r.used == []
    ensures Balanced(r, [])
  {
  }

  // How one more visit enters the books.
  lemma NextEntry(r: Region, vs: seq<Visit>)
    requires vs != [] && Clock(vs)
    ensures var before, v := vs[..|vs| - 1], vs[|vs| - 1];
      && Clock(before) && v.start <= v.stop < U64
      && Intervals(vs) == Intervals(before) + (v.stop - v.start)
      && (before != [] ==> before[0] == vs[0] && before[|before| - 1].stop <= v.start)
      && Lost(r, vs) == Lost(r, before) +
           (if Refused(After(r, before), v.memOk) && After(r, before).used == [] then v.stop - v.start else 0)
      && Gaps(r, vs) == Gaps(r, before) +
           (if before != [] && Refused(After(r, before), v.memOk) && After(r, before).used != []
            then v.start - before[|before| - 1].stop else 0)
  {
    hide After, Refused;
  }

  lemma SumStretched(s: seq<Sample>, stop: nat)
    requires s != [] && s[|s| - 1].start <= stop
    ensures Sum(Stretched(s, stop)) + s[|s| - 1].time == Sum(s) + (stop - s[|s| - 1].start)
    ensures var n := Stretched(s, stop); |n| == |s| && n[|n| - 1] == Sample(s[|s| - 1].start, stop - s[|s| - 1].start)
  {
    SumAppend(s[..|s| - 1], Sample(s[|s| - 1].start, stop - s[|s| - 1].start));
  }

  lemma NextBalances(r: Region, vs: seq<Visit>)
    requires vs != [] && Clock(vs) && Balanced(r, vs[..|vs| - 1])
    ensures Balanced(r, vs)
  {
    hide After, Step, Enter, Leave, Refused, Stretched, Sum, Intervals, Gaps, Lost, Clock;
    var before, v := vs[..|vs| - 1], vs[|vs| - 1];
    NextEntry(r, vs);
    AfterNext(r, vs);
    var was := After(r, before);
    FailedStartStretches(was, v);
    if !Refused(was, v.memOk) {
      SumAppend(was.used, Sample(v.start, v.stop - v.start));
      SumNone(was.used);
    } else if was.used != [] {
      SumStretched(was.used, v.stop);
    } else {
      SumNone(was.used);
    }
  }

  lemma SumNone(s: seq<Sample>)
    ensures s == [] ==> Sum(s) == 0
  {
  }

  // What printing reports after starts and stops that alternate, under a clock that does not go
  // back, whatever allocation does: the intervals, plus the gaps before refused starts, minus
  // what refused starts lost while there was no sample. It is at most the time from the first
  // start to the last stop, so the 64-bit sum has not wrapped.
  lemma TotalBalances(r: Region, vs: seq<Visit>)
    requires r.used == [] && Clock(vs)
    ensures var n := After(r, vs);
      && Total(n.used, |n.used|) + Lost(r, vs) == Intervals(vs) + Gaps(r, vs)
      && (Total(n.used, |n.used|) == Intervals(vs) <==> Gaps(r, vs) == Lost(r, vs))
      && (vs != [] ==> vs[0].start + Total(n.used, |n.used|) <= vs[|vs| - 1].stop < U64)
      && |n.used| <= |vs|
  {
    hide After;
    VisitsBalance(r, vs);
    var used := After(r, vs).used;
    assert used[..|used|] == used;
    if vs == [] {
      assert used == [] && Sum(used) == 0;
    }
    SumIsTotal(used, |used|);
  }

  // A region that has memory from the start loses nothing.
  lemma {:induction false} NothingLost(r: Region, vs: seq<Visit>)
    requires r.used == [] && r.size > 0 && Clock(vs)
    ensures Lost(r, vs) == 0 && (After(r, vs).size > 0 && (vs != [] ==> After(r, vs).used != []))
    decreases |vs|
  {
    hide Run, Alternating, Step;
    if vs == [] {
      NothingRun(r);
    } else {
      NothingLost(r, vs[..|vs| - 1]);
      VisitsBalance(r, vs[..|vs| - 1]);
      AfterNext(r, vs);
      FailedStartStretches(After(r, vs[..|vs| - 1]), vs[|vs| - 1]);
    }
  }

  lemma NothingRun(r: Region)
    ensures Run(r, Alternating([])) == r
  {
  }

  // So there the total is the sum of the intervals if and only if no refused start came later
  // than the stop before it.
  lemma TotalIsIntervalsIff(r: Region, vs: seq<Visit>)
    requires r.used == [] && r.size > 0 && Clock(vs)
    ensures var n := After(r, vs);
      && Total(n.used, |n.used|) == Intervals(vs) + Gaps(r, vs)
      && (Total(n.used, |n.used|) == Intervals(vs) <==> Gaps(r, vs) == 0)
  {
    TotalBalances(r, vs);
    NothingLost(r, vs);
  }

  // When no start is refused, every visit has its sample and the total is the sum of the intervals.
  lemma TotalIsIntervals(r: Region, vs: seq<Visit>)
    requires r.used == [] && Clock(vs)
    requires forall i :: 0 <= i < |vs| ==> !Refused(After(r, vs[..i]), vs[i].memOk)
    ensures var n := After(r, vs);
      && |n.used| == |vs|
      && Total(n.used, |vs|) == Intervals(vs)
      && (vs != [] ==> vs[0].start + Intervals(vs) <= vs[|vs| - 1].stop < U64)
  {
    ServedEach(r, vs);
    TotalBalances(r, vs);
  }

  lemma {:induction false} ServedEach(r: Region, vs: seq<Visit>)
    requires r.used == [] && Clock(vs)
    requires forall i :: 0 <= i < |vs| ==> !Refused(After(r, vs[..i]), vs[i].memOk)
    ensures |After(r, vs).used| == |vs| && Gaps(r, vs) == 0 && Lost(r, vs) == 0
    decreases |vs|
  {
    hide Run, Alternating, Step;
    if vs == [] {
      NothingRun(r);
    } else {
      var before := vs[..|vs| - 1];
      forall i | 0 <= i < |before|
        ensures !Refused(After(r, before[..i]), before[i].memOk)
      {
        assert before[..i] == vs[..i];
      }
      ServedEach(r, before);
      VisitsBalance(r, before);
      AfterNext(r, vs);
      FailedStartStretches(After(r, before), vs[|vs| - 1]);
    }
  }

  // And the totals after it are about the visits after it only.
  lemma TotalAfterDestroy(r: Region, cs: seq<Command>, vs: seq<Visit>)
    requires Clock(vs)
    ensures var mid := Run(r, cs + [Destroy(true)]); var n := Run(r, cs + [Destroy(true)] + Alternating(vs));
      && mid.used == [] && mid.size == 0
      && Total(n.used, |n.used|) + Lost(mid, vs) == Intervals(vs) + Gaps(mid, vs)
  {
    var mid := Run(r, cs + [Destroy(true)]);
    assert (cs + [Destroy(true)])[..|cs|] == cs;
    FreshAgain(Run(r, cs), true);
    RunConcat(r, cs + [Destroy(true)], Alternating(vs));
    TotalBalances(mid, vs);
  }

  class ProfRegion {
    var nrEntries: nat
    var samples: array?<Sample>
    var size: nat
    ghost var copied: nat

    // As VACCEL_PROF_REGION_INIT initialises it.
    constructor ()
      ensures Shape() && View() == Region([], 0, 0)
    {
      nrEntries, samples, size, copied := 0, null, 0, 0;
    }

    ghost predicate Shape()
      reads this
    {
      && (samples == null <==> size == 0)
      && (samples != null ==> samples.Length == size)
      && nrEntries <= size
    }

    ghost function View(): Region
      reads this, samples
      requires Shape()
    {
      Region(if samples == null then [] else samples[..nrEntries], size, copied)
    }

    // Reallocation keeps what the old memory holds; the rest of the new memory is anything.
    method GrowSamplesArray(memOk: bool) returns (ret: int)
      requires Shape()
      modifies this`samples, this`size, this`copied
      ensures ret == if memOk then OK else ENOMEM
      ensures Shape() && View() == if memOk then Grow(old(View())) else old(View())
      ensures nrEntries == old(nrEntries) && (memOk ==> fresh(samples)) && (!memOk ==> unchanged(this))
      ensures memOk ==> size == (if old(size) == 0 then 1024 else 2 * old(size)) && size > old(size)
      ensures memOk && old(samples) != null ==> forall i :: 0 <= i < old(size) ==> samples[i] == old(samples[i])
    {
      var allocSize := if size != 0 then size * 2 else MIN_SAMPLES;
      if !memOk {
        return ENOMEM;
      }
      var newPtr := new Sample[allocSize];
      if samples != null {
        forall i | 0 <= i < size {
          newPtr[i] := samples[i];
        }
        assert newPtr[..nrEntries] == samples[..nrEntries];
        copied := copied + size;
      }
      samples := newPtr;
      size := allocSize;
      return OK;
    }

    // The position of the last used sample, or -1 for none.
    method GetLastSample() returns (pos: int)
      requires Shape()
      ensures pos == nrEntries - 1
    {
      if nrEntries == 0 {
        return -1;
      }
      return nrEntries - 1;
    }

    // The position of the first unused sample, making room if needed, or -1 without memory.
    method GetNextSample(memOk: bool) returns (pos: int)
      requires Shape()
      modifies this
      ensures Shape() && (samples != old(samples) ==> fresh(samples))
      ensures old(nrEntries) >= old(size) && !memOk ==> pos == -1 && unchanged(this) && View() == old(View())
      ensures old(nrEntries) < old(size) ==> samples == old(samples) && size == old(size)
      ensures old(nrEntries) >= old(size) && memOk ==> size == if old(size) == 0 then 1024 else 2 * old(size)
      ensures old(nrEntries) < old(size) || memOk ==>
        && samples != null && 0 <= pos == old(nrEntries) < samples.Length
        && View() == Roomy(old(View()), memOk).(used := old(View()).used + [samples[pos]])
    {
      pos := nrEntries;
      if pos >= size {
        var ret := GrowSamplesArray(memOk);
        if ret != OK {
          return -1;
        }
      }
      assert samples[..pos + 1] == samples[..pos] + [samples[pos]];
      nrEntries := nrEntries + 1;
    }
  }

  method RegionStart(region: ProfRegion?, on: bool, now: nat, memOk: bool) returns (ret: int, ghost junk: nat)
    requires region != null ==> region.Shape()
    modifies if region == null then {} else {region}
    modifies if region == null then null else region.samples
    ensures ret == if !on then OK else if region == null then EINVAL
                   else if old(region.nrEntries) >= old(region.size) && !memOk then ENOMEM else OK
    ensures region != null ==> region.Shape() && (region.samples != old(region.samples) ==> fresh(region.samples))
    ensures region != null ==> region.View() == Step(old(region.View()), Start(on, now, memOk, junk))
    ensures region != null && (!on || ret != OK) ==> unchanged(region) && region.View() == old(region.View())
    ensures on && region != null && ret == OK ==>
      && region.nrEntries == old(region.nrEntries) + 1 && region.samples != null && region.nrEntries <= region.samples.Length
      && region.samples[region.nrEntries - 1].start == now
      && region.size == (if old(region.nrEntries) < old(region.size) then old(region.size)
                         else if old(region.size) == 0 then 1024 else 2 * old(region.size))
      && (forall i :: 0 <= i < old(region.nrEntries) ==> region.samples[i] == old(region.View()).used[i])
  {
    junk := 0;
    if !on {
      return OK, junk;
    }
    if region == null {
      return EINVAL, junk;
    }
    var sample := region.GetNextSample(memOk);
    if sample < 0 {
      return ENOMEM, junk;
    }
    junk := region.samples[sample].time;
    region.samples[sample] := Sample(now, region.samples[sample].time);
    assert region.View().used == old(region.View().used) + [Sample(now, junk)];
    return OK, junk;
  }

  method RegionStop(region: ProfRegion?, on: bool, now: nat) returns (ret: int)
    requires region != null ==> region.Shape()
    modifies if region == null then null else region.samples
    ensures ret == if !on then OK else if region == null then EINVAL
                   else if region.nrEntries == 0 then ENOENT else OK
    ensures region != null ==> region.Shape() && region.View() == Step(old(region.View()), Stop(on, now))
    ensures region != null && (!on || ret != OK) ==> region.View() == old(region.View())
    ensures on && region != null && ret == OK ==> var last := region.nrEntries - 1;
      && 0 <= last < region.samples.Length
      && (region.samples[last].start + region.samples[last].time) % U64 == now % U64 && region.samples[last].time < U64
      && region.samples[last].start == old(region.samples[last].start)
      && (forall i :: 0 <= i < last ==> region.samples[i] == old(region.samples[i]))
  {
    if !on {
      return OK;
    }
    if region == null {
      return EINVAL;
    }
    var sample := region.GetLastSample();
    if sample < 0 {
      return ENOENT;
    }
    var start := region.samples[sample].start;
    region.samples[sample] := Sample(start, (now + U64 - start) % U64);
    assert region.View().used == old(region.View().used)[sample := Sample(start, (now + U64 - start) % U64)];
    return OK;
  }

  method RegionInit(region: ProfRegion?, on: bool, nameOk: bool, memOk: bool) returns (ret: int)
    requires region != null ==> region.Shape()
    modifies region
    ensures ret == if !on then OK else if region == null then EINVAL else if !nameOk || !memOk then ENOMEM else OK
    ensures region != null ==> region.Shape() && (region.samples != old(region.samples) ==> fresh(region.samples))
    ensures region != null ==> region.View() == Step(old(region.View()), Init(on, nameOk, memOk))
    ensures region != null && (!on || !nameOk) ==> unchanged(region)
    ensures on && region != null && nameOk ==> region.nrEntries == 0
    ensures on && region != null && nameOk ==>
      region.size == if !memOk then old(region.size) else if old(region.size) == 0 then 1024 else 2 * old(region.size)
  {
    if !on {
      return OK;
    }
    if region == null {
      return EINVAL;
    }
    if !nameOk {
      return ENOMEM;
    }
    region.nrEntries := 0;
    var grown := region.GrowSamplesArray(memOk);
    if grown != OK {
      return ENOMEM;
    }
    return OK;
  }

  method RegionDestroy(region: ProfRegion?, on: bool) returns (ret: int)
    requires region != null ==> region.Shape()
    modifies region
    ensures ret == if !on then OK else if region == null then EINVAL else OK
    ensures region != null ==> region.Shape() && region.View() == Step(old(region.View()), Destroy(on))
    ensures region != null && !on ==> unchanged(region)
    ensures region != null && on ==> region.nrEntries == 0 && region.samples == null && region.size == 0
  {
    if !on {
      return OK;
    }
    if region == null {
      return EINVAL;
    }
    region.nrEntries := 0;
    region.samples := null;
    region.size := 0;
    return OK;
  }

  // `total` is what is logged; nothing is when profiling is off or nothing was sampled.
  method RegionPrint(region: ProfRegion?, on: bool) returns (ret: int, total: nat)
    requires region != null ==> region.Shape()
    ensures ret == if on && region == null then EINVAL else OK
    ensures on && region != null ==> total == Total(region.View().used, region.nrEntries)
    ensures !on || region == null ==> total == 0
    ensures on && region != null ==> total == Sum(region.View().used) % U64
  {
    total := 0;
    if !on {
      return OK, total;
    }
    if region == null {
      return EINVAL, total;
    }
    if region.nrEntries == 0 {
      return OK, total;
    }
    var i := 0;
    while i < region.nrEntries
      invariant i <= region.nrEntries && total == Total(region.View().used, i)
    {
      total := (total + region.samples[i].time) % U64;
      i := i + 1;
    }
    TotalWraps(region.View().used, region.nrEntries);
    assert region.View().used[..region.nrEntries] == region.View().used;
    return OK, total;
  }
}

/** What a run did with the schedule: how far the two models drifted apart, and
    for how long both burst at once. */
module AntiPhase {
  import opened Options
  import opened Partitions
  import opened Schedules

  function Larger(a: real, b: real): real { if a >= b then a else b }

  function Lesser(a: real, b: real): real { if a <= b then a else b }

  function Distance(a: real, b: real): real { if a >= b then a - b else b - a }

  // Each model's own clock.

  /** When the model with these per-stage elapsed times reaches stage i. */
  function Clock(e: seq<real>, i: nat): real
    requires i <= |e|
  {
    if i == 0 then 0.0 else Clock(e, i - 1) + e[i - 1]
  }

  function MaxRate(st: seq<Phase>, a: bool, n: nat): (m: real)
    requires 0 < n <= |st|
    ensures (forall i :: 0 <= i < n ==> Rate(st[i], a) <= m) && exists i :: 0 <= i < n && Rate(st[i], a) == m
  {
    if n == 1 then Rate(st[0], a) else Larger(MaxRate(st, a, n - 1), Rate(st[n - 1], a))
  }

  function MinRate(st: seq<Phase>, a: bool, n: nat): (m: real)
    requires 0 < n <= |st|
    ensures (forall i :: 0 <= i < n ==> Rate(st[i], a) >= m) && exists i :: 0 <= i < n && Rate(st[i], a) == m
  {
    if n == 1 then Rate(st[0], a) else Lesser(MinRate(st, a, n - 1), Rate(st[n - 1], a))
  }

  /** Stage i runs the model at its high rate; a model of one rate never bursts. */
  predicate Bursts(st: seq<Phase>, a: bool, i: nat)
    requires i < |st|
  {
    MaxRate(st, a, |st|) > MinRate(st, a, |st|) && Rate(st[i], a) == MaxRate(st, a, |st|)
  }

  type Span = (real, real)

  function Spans(st: seq<Phase>, e: seq<real>, a: bool, n: nat): (xs: seq<Span>)
    requires n <= |st| == |e|
  {
    if n == 0 then []
    else Spans(st, e, a, n - 1) + if Bursts(st, a, n - 1) then [(Clock(e, n - 1), Clock(e, n))] else []
  }

  // The two measurements.

  function Shared(x: Span, y: Span): real {
    Larger(0.0, Lesser(x.1, y.1) - Larger(x.0, y.0))
  }

  function RowSum(x: Span, ys: seq<Span>): real {
    if ys == [] then 0.0 else RowSum(x, ys[..|ys| - 1]) + Shared(x, ys[|ys| - 1])
  }

  function PairSum(xs: seq<Span>, ys: seq<Span>): real {
    if xs == [] then 0.0 else PairSum(xs[..|xs| - 1], ys) + RowSum(xs[|xs| - 1], ys)
  }

  /** The elapsed times, if every stage reported one. */
  function Reported(e: seq<Option<real>>): (r: Option<seq<real>>)
    ensures r.Some? ==> |r.value| == |e|
    ensures r.Some? <==> forall i :: 0 <= i < |e| ==> e[i].Some?
  {
    if e == [] then Some([])
    else
      var n := |e| - 1;
      var r := Reported(e[..n]);
      if r.Some? && e[n].Some? then Some(r.value + [e[n].value]) else None
  }

  function Overlap(st: seq<Phase>, ea: seq<Option<real>>, eb: seq<Option<real>>): Option<real> {
    if |ea| != |st| || |eb| != |st| || st == [] || Reported(ea).None? || Reported(eb).None? then None
    else Some(PairSum(Spans(st, Reported(ea).value, true, |st|), Spans(st, Reported(eb).value, false, |st|)))
  }

  /** The largest distance of the two clocks at the first n stage ends. */
  function DriftTo(ea: seq<real>, eb: seq<real>, n: nat): (d: real)
    requires n <= |ea| == |eb|
    ensures d >= 0.0 && forall i :: 0 <= i <= n ==> Distance(Clock(ea, i), Clock(eb, i)) <= d
  {
    if n == 0 then 0.0 else Larger(DriftTo(ea, eb, n - 1), Distance(Clock(ea, n), Clock(eb, n)))
  }

  function Drift(ea: seq<Option<real>>, eb: seq<Option<real>>): Option<real> {
    if ea == [] || |ea| != |eb| || Reported(ea).None? || Reported(eb).None? then None
    else Some(DriftTo(Reported(ea).value, Reported(eb).value, |ea|))
  }

  // The loops of the source.

  method SpansLoop(st: seq<Phase>, e: seq<Option<real>>, a: bool) returns (spans: Option<seq<Span>>)
    requires |e| == |st| && st != []
    ensures spans == if Reported(e).None? then None else Some(Spans(st, Reported(e).value, a, |st|))
  {
    var high, low := MaxRate(st, a, |st|), MinRate(st, a, |st|);
    var t, out := 0.0, [];
    for i := 0 to |st|
      invariant Reported(e[..i]).Some?
      invariant t == Clock(Reported(e[..i]).value, i)
      invariant out == Spans(st[..], Padded(Reported(e[..i]).value, |st|), a, i)
    {
      assert e[..i + 1][..i] == e[..i];
      if e[i].None? {
        assert !Reported(e).Some?;
        return None;
      }
      var d := e[i].value;
      PaddedSpans(st, Reported(e[..i]).value, d, a, i);
      if high > low && Rate(st[i], a) == high {
        out := out + [(t, t + d)];
      }
      t := t + d;
    }
    assert e[..|st|] == e && st[..] == st;
    assert Padded(Reported(e).value, |st|) == Reported(e).value;
    spans := Some(out);
  }

  ghost function Padded(e: seq<real>, n: nat): (f: seq<real>)
    requires |e| <= n
    ensures |f| == n && f[..|e|] == e
  {
    e + seq(n - |e|, i => 0.0)
  }

  lemma {:induction false} ClockPrefix(e: seq<real>, f: seq<real>, i: nat)
    requires i <= |e| && i <= |f| && e[..i] == f[..i]
    ensures Clock(e, i) == Clock(f, i)
  {
    if i > 0 {
      assert e[i - 1] == e[..i][i - 1] == f[..i][i - 1] == f[i - 1];
      assert e[..i - 1] == e[..i][..i - 1] == f[..i][..i - 1] == f[..i - 1];
      ClockPrefix(e, f, i - 1);
    }
  }

  lemma {:induction false} SpansPrefix(st: seq<Phase>, e: seq<real>, f: seq<real>, a: bool, n: nat)
    requires n <= |st| == |e| == |f| && e[..n] == f[..n]
    ensures Spans(st, e, a, n) == Spans(st, f, a, n)
  {
    if n > 0 {
      assert e[..n - 1] == e[..n][..n - 1] == f[..n][..n - 1] == f[..n - 1];
      SpansPrefix(st, e, f, a, n - 1);
      ClockPrefix(e, f, n - 1);
      ClockPrefix(e, f, n);
    }
  }

  lemma PaddedSpans(st: seq<Phase>, e: seq<real>, d: real, a: bool, i: nat)
    requires |e| == i < |st|
    ensures var f, g := Padded(e, |st|), Padded(e + [d], |st|);
      && Clock(e + [d], i + 1) == Clock(e, i) + d
      && Spans(st, g, a, i + 1)
         == Spans(st, f, a, i) + if Bursts(st, a, i) then [(Clock(e, i), Clock(e, i) + d)] else []
  {
    var f, g := Padded(e, |st|), Padded(e + [d], |st|);
    ClockPrefix(e + [d], e, i);
    assert g[..i] == g[..i + 1][..i] == e;
    ClockPrefix(g, e, i);
    ClockPrefix(g, e + [d], i + 1);
    SpansPrefix(st, f, g, a, i);
  }

  method BurstOverlapLoop(st: seq<Phase>, ea: seq<Option<real>>, eb: seq<Option<real>>) returns (total: Option<real>)
    ensures total == Overlap(st, ea, eb)
  {
    hide Spans, Reported, Shared;
    if |ea| != |st| || |eb| != |st| || st == [] {
      return None;
    }
    var xs := SpansLoop(st, ea, true);
    if xs.None? {
      return None;
    }
    var ys := SpansLoop(st, eb, false);
    if ys.None? {
      return None;
    }
    var sum := 0.0;
    for i := 0 to |xs.value|
      invariant sum == PairSum(xs.value[..i], ys.value)
    {
      for k := 0 to |ys.value|
        invariant sum == PairSum(xs.value[..i], ys.value) + RowSum(xs.value[i], ys.value[..k])
      {
        assert ys.value[..k + 1][..k] == ys.value[..k];
        sum := sum + Shared(xs.value[i], ys.value[k]);
      }
      assert ys.value[..|ys.value|] == ys.value;
      assert xs.value[..i + 1][..i] == xs.value[..i];
    }
    assert xs.value[..|xs.value|] == xs.value;
    return Some(sum);
  }

  method PhaseDriftLoop(ea: seq<Option<real>>, eb: seq<Option<real>>) returns (worst: Option<real>)
    ensures worst == Drift(ea, eb)
  {
    if ea == [] || |ea| != |eb| {
      return None;
    }
    var w, ta, tb := 0.0, 0.0, 0.0;
    for i := 0 to |ea|
      invariant Reported(ea[..i]).Some? && Reported(eb[..i]).Some?
      invariant ta == Clock(Reported(ea[..i]).value, i) && tb == Clock(Reported(eb[..i]).value, i)
      invariant w == DriftTo(Reported(ea[..i]).value, Reported(eb[..i]).value, i)
    {
      assert ea[..i + 1][..i] == ea[..i] && eb[..i + 1][..i] == eb[..i];
      if ea[i].None? || eb[i].None? {
        assert Reported(ea).None? || Reported(eb).None?;
        return None;
      }
      DriftAppend(Reported(ea[..i]).value, Reported(eb[..i]).value, ea[i].value, eb[i].value);
      ta, tb := ta + ea[i].value, tb + eb[i].value;
      w := Larger(w, Distance(ta, tb));
    }
    assert ea[..|ea|] == ea && eb[..|ea|] == eb;
    return Some(w);
  }

  lemma DriftAppend(ea: seq<real>, eb: seq<real>, x: real, y: real)
    requires |ea| == |eb|
    ensures var n := |ea|;
      && Clock(ea + [x], n + 1) == Clock(ea, n) + x && Clock(eb + [y], n + 1) == Clock(eb, n) + y
      && DriftTo(ea + [x], eb + [y], n + 1) == Larger(DriftTo(ea, eb, n), Distance(Clock(ea, n) + x, Clock(eb, n) + y))
  {
    var n := |ea|;
    ClockPrefix(ea + [x], ea, n);
    ClockPrefix(eb + [y], eb, n);
    DriftPrefix(ea + [x], eb + [y], ea, eb, n);
  }

  lemma {:induction false} DriftPrefix(ea: seq<real>, eb: seq<real>, fa: seq<real>, fb: seq<real>, n: nat)
    requires |ea| == |eb| && |fa| == |fb| && n <= |ea| && n <= |fa| && ea[..n] == fa[..n] && eb[..n] == fb[..n]
    ensures DriftTo(ea, eb, n) == DriftTo(fa, fb, n)
  {
    if n > 0 {
      assert ea[..n - 1] == ea[..n][..n - 1] == fa[..n][..n - 1] == fa[..n - 1];
      assert eb[..n - 1] == eb[..n][..n - 1] == fb[..n][..n - 1] == fb[..n - 1];
      DriftPrefix(ea, eb, fa, fb, n - 1);
      ClockPrefix(ea, fa, n);
      ClockPrefix(eb, fb, n);
    }
  }

  // The overlap is a measure of time.

  ghost predicate Elapsed(e: seq<real>) {
    forall i :: 0 <= i < |e| ==> e[i] >= 0.0
  }

  lemma {:induction false} ClockMonotone(e: seq<real>, i: nat, j: nat)
    requires Elapsed(e) && i <= j <= |e|
    ensures Clock(e, i) <= Clock(e, j)
  {
    if i < j {
      ClockMonotone(e, i, j - 1);
    }
  }

  /** At time t, by its own clock, the model is in a stage at its high rate. */
  ghost predicate AtHigh(st: seq<Phase>, e: seq<real>, a: bool, n: nat, t: real)
    requires n <= |st| == |e|
  {
    exists i :: 0 <= i < n && InStage(e, i, t) && Bursts(st, a, i)
  }

  predicate InStage(e: seq<real>, i: nat, t: real)
    requires i < |e|
  {
    Clock(e, i) <= t < Clock(e, i + 1)
  }

  function Hits(xs: seq<Span>, t: real): real {
    if xs == [] then 0.0 else Hits(xs[..|xs| - 1], t) + Inside(xs[|xs| - 1].0, xs[|xs| - 1].1, t)
  }

  /** A time lies in at most one stage, so the spans count the high rate once. */
  lemma {:induction false} HitsHigh(st: seq<Phase>, e: seq<real>, a: bool, n: nat, t: real)
    requires n <= |st| == |e| && Elapsed(e)
    ensures Hits(Spans(st, e, a, n), t) == if AtHigh(st, e, a, n, t) then 1.0 else 0.0
  {
    hide Hits, AtHigh, Bursts, Clock, Spans, Inside, InStage;
    if n == 0 {
      HighNone(st, e, a, t);
    } else {
      HitsHigh(st, e, a, n - 1, t);
      AtHighStep(st, e, a, n - 1, t);
      SpansStep(st, e, a, n - 1);
      HitsAppend(Spans(st, e, a, n - 1), (Clock(e, n - 1), Clock(e, n)), t);
    }
  }

  lemma HighNone(st: seq<Phase>, e: seq<real>, a: bool, t: real)
    requires |st| == |e|
    ensures Hits(Spans(st, e, a, 0), t) == 0.0 && !AtHigh(st, e, a, 0, t)
  {
  }

  lemma SpansStep(st: seq<Phase>, e: seq<real>, a: bool, n: nat)
    requires n < |st| == |e|
    ensures Spans(st, e, a, n + 1)
         == if Bursts(st, a, n) then Spans(st, e, a, n) + [(Clock(e, n), Clock(e, n + 1))] else Spans(st, e, a, n)
  {
    hide Bursts, Clock;
    assert Spans(st, e, a, n) + [] == Spans(st, e, a, n);
  }

  lemma HitsAppend(xs: seq<Span>, x: Span, t: real)
    ensures Hits(xs + [x], t) == Hits(xs, t) + Inside(x.0, x.1, t)
  {
    assert (xs + [x])[..|xs|] == xs;
  }

  lemma AtHighStep(st: seq<Phase>, e: seq<real>, a: bool, n: nat, t: real)
    requires n < |st| == |e| && Elapsed(e)
    ensures AtHigh(st, e, a, n + 1, t) <==> AtHigh(st, e, a, n, t) || (InStage(e, n, t) && Bursts(st, a, n))
    ensures InStage(e, n, t) ==> !AtHigh(st, e, a, n, t)
    ensures Inside(Clock(e, n), Clock(e, n + 1), t) == if InStage(e, n, t) then 1.0 else 0.0
  {
    hide Bursts, Clock, Elapsed;
    OneStageAtATime(e, n, t);
  }

  lemma OneStageAtATime(e: seq<real>, n: nat, t: real)
    requires n < |e| && Elapsed(e)
    ensures InStage(e, n, t) ==> forall i :: 0 <= i < n ==> !InStage(e, i, t)
  {
    hide Clock, Elapsed;
    forall i | 0 <= i < n
      ensures InStage(e, n, t) ==> !InStage(e, i, t)
    {
      ClockMonotone(e, i + 1, n);
    }
  }

  ghost function Products(xs: seq<Span>, ys: seq<Span>, ps: seq<real>): (vs: seq<real>)
    requires |ps| > 0
    ensures |vs| == |ps| - 1 && forall i :: 0 <= i < |vs| ==> vs[i] == Hits(xs, ps[i]) * Hits(ys, ps[i])
  {
    seq(|ps| - 1, i requires 0 <= i < |ps| - 1 => Hits(xs, ps[i]) * Hits(ys, ps[i]))
  }

  ghost predicate OnPartition(xs: seq<Span>, ps: seq<real>) {
    forall i :: 0 <= i < |xs| ==> xs[i].0 in ps && xs[i].1 in ps && xs[i].0 <= xs[i].1
  }

  lemma InsideBoth(x: Span, y: Span, t: real)
    ensures Inside(x.0, x.1, t) * Inside(y.0, y.1, t) == Inside(Larger(x.0, y.0), Lesser(x.1, y.1), t)
  {
  }

  lemma SharedWeight(x: Span, y: Span, ps: seq<real>)
    requires Sorted(ps) && |ps| > 0 && OnPartition([x], ps) && OnPartition([y], ps)
    ensures Weighted(Indicator(Larger(x.0, y.0), Lesser(x.1, y.1), ps), ps) == Shared(x, y)
  {
    var s, e := Larger(x.0, y.0), Lesser(x.1, y.1);
    assert [x][0] == x && [y][0] == y;
    if s <= e {
      IntervalLength(s, e, ps);
    } else {
      WeightedZero(Indicator(s, e, ps), ps);
    }
  }

  lemma {:induction false} RowWeight(x: Span, ys: seq<Span>, ps: seq<real>)
    requires Sorted(ps) && |ps| > 0 && OnPartition([x], ps) && OnPartition(ys, ps)
    ensures Weighted(Products([x], ys, ps), ps) == RowSum(x, ys)
  {
    hide Weighted, Inside, Hits, Shared;
    if ys == [] {
      HitsNone();
      WeightedZero(Products([x], ys, ps), ps);
    } else {
      var n := |ys| - 1;
      var rest, y := ys[..n], ys[n];
      RowWeight(x, rest, ps);
      assert OnPartition([y], ps);
      SharedWeight(x, y, ps);
      var I := Indicator(Larger(x.0, y.0), Lesser(x.1, y.1), ps);
      forall i | 0 <= i < |ps| - 1
        ensures Products([x], ys, ps)[i] == Products([x], rest, ps)[i] + 1.0 * I[i]
      {
        RowCell(x, ys, ps[i]);
      }
      WeightedAdd(Products([x], rest, ps), I, Products([x], ys, ps), 1.0, ps);
    }
  }

  lemma HitsNone()
    ensures forall t :: Hits([], t) == 0.0
  {
  }

  lemma RowCell(x: Span, ys: seq<Span>, t: real)
    requires ys != []
    ensures var y, rest := ys[|ys| - 1], ys[..|ys| - 1];
      Hits([x], t) * Hits(ys, t) == Hits([x], t) * Hits(rest, t) + Inside(Larger(x.0, y.0), Lesser(x.1, y.1), t)
  {
    var y, rest := ys[|ys| - 1], ys[..|ys| - 1];
    HitsOne(x, t);
    InsideBoth(x, y, t);
    Distribute(Hits([x], t), Hits(rest, t), Inside(y.0, y.1, t));
  }

  lemma PairCell(xs: seq<Span>, ys: seq<Span>, t: real)
    requires xs != []
    ensures var x, rest := xs[|xs| - 1], xs[..|xs| - 1];
      Hits(xs, t) * Hits(ys, t) == Hits(rest, t) * Hits(ys, t) + Hits([x], t) * Hits(ys, t)
  {
    var x, rest := xs[|xs| - 1], xs[..|xs| - 1];
    HitsOne(x, t);
    Distribute(Hits(ys, t), Hits(rest, t), Inside(x.0, x.1, t));
  }

  lemma HitsOne(x: Span, t: real)
    ensures Hits([x], t) == Inside(x.0, x.1, t)
  {
    assert [x][..0] == [];
  }

  lemma Distribute(a: real, b: real, c: real)
    ensures a * (b + c) == a * b + a * c && (b + c) * a == b * a + c * a
  {
  }

  lemma {:induction false} PairWeight(xs: seq<Span>, ys: seq<Span>, ps: seq<real>)
    requires Sorted(ps) && |ps| > 0 && OnPartition(xs, ps) && OnPartition(ys, ps)
    ensures Weighted(Products(xs, ys, ps), ps) == PairSum(xs, ys)
  {
    hide Weighted, Inside, Hits, RowSum;
    if xs == [] {
      HitsNone();
      WeightedZero(Products(xs, ys, ps), ps);
    } else {
      var n := |xs| - 1;
      var rest, x := xs[..n], xs[n];
      PairWeight(rest, ys, ps);
      assert OnPartition([x], ps);
      RowWeight(x, ys, ps);
      forall i | 0 <= i < |ps| - 1
        ensures Products(xs, ys, ps)[i] == Products(rest, ys, ps)[i] + 1.0 * Products([x], ys, ps)[i]
      {
        PairCell(xs, ys, ps[i]);
      }
      WeightedAdd(Products(rest, ys, ps), Products([x], ys, ps), Products(xs, ys, ps), 1.0, ps);
    }
  }

  ghost function BothHigh(st: seq<Phase>, ea: seq<real>, eb: seq<real>, ps: seq<real>): (vs: seq<real>)
    requires |st| == |ea| == |eb| && |ps| > 0
    ensures |vs| == |ps| - 1
    ensures forall i :: 0 <= i < |vs| ==>
      vs[i] == if AtHigh(st, ea, true, |st|, ps[i]) && AtHigh(st, eb, false, |st|, ps[i]) then 1.0 else 0.0
  {
    seq(|ps| - 1, i requires 0 <= i < |ps| - 1 =>
      if AtHigh(st, ea, true, |st|, ps[i]) && AtHigh(st, eb, false, |st|, ps[i]) then 1.0 else 0.0)
  }

  ghost predicate ClocksOn(e: seq<real>, ps: seq<real>) {
    forall i :: 0 <= i <= |e| ==> Clock(e, i) in ps
  }

  lemma {:induction false} SpansOnPartition(st: seq<Phase>, e: seq<real>, a: bool, ps: seq<real>, n: nat)
    requires n <= |st| == |e| && Elapsed(e) && ClocksOn(e, ps)
    ensures OnPartition(Spans(st, e, a, n), ps)
  {
    if n > 0 {
      SpansOnPartition(st, e, a, ps, n - 1);
      ClockMonotone(e, n - 1, n);
      assert Clock(e, n - 1) in ps && Clock(e, n) in ps;
    }
  }

  /** The pairwise sum of burst intersections is the measure of the time at which
      both models are at their high rate: any partition that holds every stage
      boundary of both clocks weighs that time the same. */
  lemma OverlapIsMeasure(st: seq<Phase>, ea: seq<real>, eb: seq<real>, ps: seq<real>)
    requires |st| == |ea| == |eb| && Elapsed(ea) && Elapsed(eb)
    requires |ps| > 0 && Sorted(ps) && ClocksOn(ea, ps) && ClocksOn(eb, ps)
    ensures PairSum(Spans(st, ea, true, |st|), Spans(st, eb, false, |st|)) == Weighted(BothHigh(st, ea, eb, ps), ps)
  {
    hide PairSum, Weighted, Spans, AtHigh;
    var n := |st|;
    var xs, ys := Spans(st, ea, true, n), Spans(st, eb, false, n);
    SpansOnPartition(st, ea, true, ps, n);
    SpansOnPartition(st, eb, false, ps, n);
    PairWeight(xs, ys, ps);
    forall i | 0 <= i < |ps| - 1
      ensures BothHigh(st, ea, eb, ps)[i] == Products(xs, ys, ps)[i]
    {
      HitsHigh(st, ea, true, n, ps[i]);
      HitsHigh(st, eb, false, n, ps[i]);
    }
    assert BothHigh(st, ea, eb, ps) == Products(xs, ys, ps);
  }

  // A small drift and wide bands leave no overlap.

  /** Between a burst of one model and a burst of the other lies a stage with both low. */
  ghost predicate Separated(low: real, st: seq<Phase>) {
    forall i, k :: 0 <= i < k < |st| && Opposite(low, st[i], st[k]) ==> exists m :: i < m < k && BothLow(low, st[m])
  }

  predicate Opposite(low: real, x: Phase, y: Phase) {
    (x.ra > low && y.rb > low) || (x.rb > low && y.ra > low)
  }

  predicate BothLow(low: real, x: Phase) {
    x.ra == low && x.rb == low
  }

  /** Rates of a generated schedule: at least the low rate, and never both above. */
  ghost predicate Alternating(p: Params, st: seq<Phase>) {
    forall i :: 0 <= i < |st| ==>
      && (st[i].ra == p.low || st[i].ra == p.highA) && (st[i].rb == p.low || st[i].rb == p.highB)
      && (st[i].ra == p.low || st[i].rb == p.low)
  }

  lemma AppendQuiet(p: Params, st: seq<Phase>, x: Phase)
    requires Separated(p.low, st) && Alternating(p, st) && BothLow(p.low, x)
    ensures Separated(p.low, st + [x]) && Alternating(p, st + [x])
  {
    var u := st + [x];
    forall i, k | 0 <= i < k < |u| && Opposite(p.low, u[i], u[k])
      ensures exists m :: i < m < k && BothLow(p.low, u[m])
    {
      assert k < |st| && Opposite(p.low, st[i], st[k]);
      var m :| i < m < k && BothLow(p.low, st[m]);
      assert BothLow(p.low, u[m]);
    }
  }

  /** A burst stage may follow a both-low stage, a stage of the same burst, or
      stages that are all low. */
  lemma AppendBurst(p: Params, st: seq<Phase>, x: Phase)
    requires Separated(p.low, st) && Alternating(p, st) && Alternating(p, [x])
    requires st != [] ==>
      || BothLow(p.low, st[|st| - 1])
      || (st[|st| - 1].ra == x.ra && st[|st| - 1].rb == x.rb)
    ensures Separated(p.low, st + [x]) && Alternating(p, st + [x])
  {
    var u, n := st + [x], |st|;
    assert [x][0] == x;
    forall i, k | 0 <= i < k < |u| && Opposite(p.low, u[i], u[k])
      ensures exists m :: i < m < k && BothLow(p.low, u[m])
    {
      if k < n {
        assert Opposite(p.low, st[i], st[k]);
        var m :| i < m < k && BothLow(p.low, st[m]);
        assert BothLow(p.low, u[m]);
      } else if BothLow(p.low, st[n - 1]) {
        assert BothLow(p.low, u[n - 1]);
      } else {
        assert i < n - 1 && Opposite(p.low, st[i], st[n - 1]);
        var m :| i < m < n - 1 && BothLow(p.low, st[m]);
        assert BothLow(p.low, u[m]);
      }
    }
  }

  lemma AppendPhase(p: Params, s: seq<Phase>, x: Phase, window: real)
    requires Separated(p.low, StageMap(s, window)) && Alternating(p, StageMap(s, window)) && Alternating(p, [x])
    requires s != [] ==> BothLow(p.low, s[|s| - 1]) || BothLow(p.low, x)
    ensures Separated(p.low, StageMap(s + [x], window)) && Alternating(p, StageMap(s + [x], window))
  {
    hide Separated, StageMap;
    var st, c := StageMap(s, window), Cut(x, Last(s), window);
    StageMapAppend(s, x, window);
    StagesLast(s, window);
    assert [x][0] == x;
    AppendStage(p, st, c[0]);
    if |c| == 2 {
      AppendBurst(p, st + [c[0]], c[1]);
      assert st + c == st + [c[0]] + [c[1]];
    } else {
      assert st + c == st + [c[0]];
    }
  }

  lemma AppendStage(p: Params, st: seq<Phase>, x: Phase)
    requires Separated(p.low, st) && Alternating(p, st) && Alternating(p, [x])
    requires st != [] ==> BothLow(p.low, st[|st| - 1]) || BothLow(p.low, x)
    ensures Separated(p.low, st + [x]) && Alternating(p, st + [x])
  {
    if BothLow(p.low, x) {
      AppendQuiet(p, st, x);
    } else {
      AppendBurst(p, st, x);
    }
  }

  lemma {:induction false} BuildSeparated(p: Params, window: real, b: nat)
    requires p.overlap > 0.0
    ensures Separated(p.low, StageMap(Build(p, b), window)) && Alternating(p, StageMap(Build(p, b), window))
  {
    hide Separated, StageMap, Alternating, EndTime;
    if b == 0 {
      StartSeparated(p, window);
    } else {
      BuildSeparated(p, window, b - 1);
      BuildStep(p, b - 1);
      BuildEmpty(p, b - 1);
      var s, band, burst := Build(p, b - 1), Band(p, b - 1), Burst(p, b - 1);
      RatesAlternate(p, b - 1);
      if band == [] {
        assert s + band == s;
      } else {
        AppendPhase(p, s, band[0], window);
        assert s + band == s + [band[0]];
      }
      assert s + band != [] ==> BothLow(p.low, (s + band)[|s + band| - 1]);
      AppendPhase(p, s + band, burst, window);
    }
  }

  lemma StartSeparated(p: Params, window: real)
    ensures Separated(p.low, StageMap(Build(p, 0), window)) && Alternating(p, StageMap(Build(p, 0), window))
  {
    var s := Build(p, 0);
    assert StageMap([], window) == [];
    if s != [] {
      AppendPhase(p, [], s[0], window);
      assert s == [] + [s[0]];
    }
  }

  lemma RatesAlternate(p: Params, b: nat)
    ensures Alternating(p, [Burst(p, b)])
    ensures Band(p, b) != [] ==> |Band(p, b)| == 1 && BothLow(p.low, Band(p, b)[0]) && Alternating(p, [Band(p, b)[0]])
  {
  }

  /** What the burst test finds in a generated schedule is above the low rate. */
  lemma BurstsAboveLow(p: Params, st: seq<Phase>, a: bool, i: nat)
    requires Alternating(p, st) && i < |st| && p.low <= p.highA && p.low <= p.highB && Bursts(st, a, i)
    ensures Rate(st[i], a) > p.low
  {
    var k :| 0 <= k < |st| && Rate(st[k], a) == MinRate(st, a, |st|);
  }

  /** Two stages of opposite bursts do not meet: the band between them is at least
      as long as the clocks can be apart. */
  lemma BandKeepsApart(ea: seq<real>, eb: seq<real>, D: real, i: nat, m: nat, k: nat)
    requires |ea| == |eb| && Elapsed(ea) && Elapsed(eb) && i < m < k < |ea|
    requires Distance(Clock(ea, m), Clock(eb, m)) <= D && ea[m] >= D && eb[m] >= D
    ensures Clock(ea, i + 1) <= Clock(eb, k) && Clock(eb, i + 1) <= Clock(ea, k)
  {
    ClockMonotone(ea, i + 1, m);
    ClockMonotone(eb, i + 1, m);
    ClockMonotone(ea, m + 1, k);
    ClockMonotone(eb, m + 1, k);
  }

  lemma {:induction false} NoSharedRow(x: Span, ys: seq<Span>)
    requires forall j :: 0 <= j < |ys| ==> Shared(x, ys[j]) == 0.0
    ensures RowSum(x, ys) == 0.0
  {
    if ys != [] {
      NoSharedRow(x, ys[..|ys| - 1]);
    }
  }

  lemma {:induction false} NoShared(xs: seq<Span>, ys: seq<Span>)
    requires forall i, j :: 0 <= i < |xs| && 0 <= j < |ys| ==> Shared(xs[i], ys[j]) == 0.0
    ensures PairSum(xs, ys) == 0.0
  {
    if xs != [] {
      NoShared(xs[..|xs| - 1], ys);
      NoSharedRow(xs[|xs| - 1], ys);
    }
  }

  lemma {:induction false} SpanStage(st: seq<Phase>, e: seq<real>, a: bool, n: nat, j: nat) returns (i: nat)
    requires n <= |st| == |e| && j < |Spans(st, e, a, n)|
    ensures i < n && Bursts(st, a, i) && Spans(st, e, a, n)[j] == (Clock(e, i), Clock(e, i + 1))
    ensures j == |Spans(st, e, a, i)|
  {
    if j < |Spans(st, e, a, n - 1)| {
      i := SpanStage(st, e, a, n - 1, j);
    } else {
      i := n - 1;
    }
  }

  /** On the stages of a generated schedule: if the clocks never drift further
      apart than D, and every both-low band took at least D by both clocks, the
      models never burst at the same time. */
  lemma DriftWithinBands(p: Params, window: real, b: nat, ea: seq<real>, eb: seq<real>, D: real)
    requires p.overlap > 0.0 && p.low <= p.highA && p.low <= p.highB
    requires var st := StageMap(Build(p, b), window);
      && |st| == |ea| == |eb|
      && forall m :: 0 <= m < |st| && BothLow(p.low, st[m]) ==> ea[m] >= D && eb[m] >= D
    requires Elapsed(ea) && Elapsed(eb) && DriftTo(ea, eb, |ea|) <= D
    ensures var st := StageMap(Build(p, b), window);
      PairSum(Spans(st, ea, true, |st|), Spans(st, eb, false, |st|)) == 0.0
  {
    var st := StageMap(Build(p, b), window);
    BuildSeparated(p, window, b);
    hide StageMap, Build, PairSum, Spans, Bursts;
    var xs, ys := Spans(st, ea, true, |st|), Spans(st, eb, false, |st|);
    forall i, j | 0 <= i < |xs| && 0 <= j < |ys|
      ensures Shared(xs[i], ys[j]) == 0.0
    {
      var x := SpanStage(st, ea, true, |st|, i);
      var y := SpanStage(st, eb, false, |st|, j);
      BurstsAboveLow(p, st, true, x);
      BurstsAboveLow(p, st, false, y);
      StagesApart(p, st, ea, eb, D, x, y);
    }
    NoShared(xs, ys);
  }

  /** The same of the two reported figures, for a run whose stages all reported
      their times: a drift of at most D and bands of at least D give an overlap of
      exactly 0. */
  lemma BandsPreventOverlap(p: Params, window: real, cycles: nat, ea: seq<Option<real>>, eb: seq<Option<real>>, D: real)
    requires p.overlap > 0.0 && p.low <= p.highA && p.low <= p.highB
    requires var st := StageMap(Build(p, 2 * cycles), window);
      && |st| == |ea| == |eb| && Drift(ea, eb).Some? && Drift(ea, eb).value <= D
      && (forall m :: 0 <= m < |st| ==> Reported(ea).value[m] >= 0.0 && Reported(eb).value[m] >= 0.0)
      && forall m :: 0 <= m < |st| && BothLow(p.low, st[m]) ==> Reported(ea).value[m] >= D && Reported(eb).value[m] >= D
    ensures Overlap(StageMap(Build(p, 2 * cycles), window), ea, eb) == Some(0.0)
  {
    hide StageMap, Build, PairSum, Spans, DriftTo;
    DriftWithinBands(p, window, 2 * cycles, Reported(ea).value, Reported(eb).value, D);
  }

  lemma StagesApart(p: Params, st: seq<Phase>, ea: seq<real>, eb: seq<real>, D: real, x: nat, y: nat)
    requires |st| == |ea| == |eb| && Elapsed(ea) && Elapsed(eb) && DriftTo(ea, eb, |ea|) <= D
    requires Separated(p.low, st) && Alternating(p, st)
    requires forall m :: 0 <= m < |st| && BothLow(p.low, st[m]) ==> ea[m] >= D && eb[m] >= D
    requires x < |st| && y < |st| && st[x].ra > p.low && st[y].rb > p.low
    ensures Shared((Clock(ea, x), Clock(ea, x + 1)), (Clock(eb, y), Clock(eb, y + 1))) == 0.0
  {
    hide Clock, DriftTo, Elapsed;
    if x < y {
      assert Opposite(p.low, st[x], st[y]);
      var m :| x < m < y && BothLow(p.low, st[m]);
      BandKeepsApart(ea, eb, D, x, m, y);
    } else if y < x {
      assert Opposite(p.low, st[y], st[x]);
      var m :| y < m < x && BothLow(p.low, st[m]);
      BandKeepsApart(ea, eb, D, y, m, x);
    }
  }

  // Without bands.

  lemma {:induction false} StagesAlternate(p: Params, s: seq<Phase>, window: real)
    requires Alternating(p, s)
    ensures Alternating(p, StageMap(s, window))
  {
    if s != [] {
      var n := |s| - 1;
      StagesAlternate(p, s[..n], window);
      assert forall x :: x in Cut(s[n], Last(s[..n]), window) ==> x.ra == s[n].ra && x.rb == s[n].rb;
    }
  }

  lemma {:induction false} BuildAlternates(p: Params, b: nat)
    ensures Alternating(p, Build(p, b))
  {
    if b > 0 {
      BuildAlternates(p, b - 1);
      RatesAlternate(p, b - 1);
    }
  }

  /** Clocks that never part are safe even without bands: the bursts then touch
      but do not overlap. */
  lemma NoDriftNoOverlap(p: Params, window: real, b: nat, ea: seq<real>, eb: seq<real>)
    requires p.low <= p.highA && p.low <= p.highB
    requires |StageMap(Build(p, b), window)| == |ea| == |eb|
    requires Elapsed(ea) && Elapsed(eb) && DriftTo(ea, eb, |ea|) == 0.0
    ensures var st := StageMap(Build(p, b), window);
      PairSum(Spans(st, ea, true, |st|), Spans(st, eb, false, |st|)) == 0.0
  {
    var st := StageMap(Build(p, b), window);
    BuildAlternates(p, b);
    StagesAlternate(p, Build(p, b), window);
    hide PairSum, Spans, Bursts, StageMap, Build, DriftTo, Elapsed, Shared;
    var xs, ys := Spans(st, ea, true, |st|), Spans(st, eb, false, |st|);
    forall i, j | 0 <= i < |xs| && 0 <= j < |ys|
      ensures Shared(xs[i], ys[j]) == 0.0
    {
      var x := SpanStage(st, ea, true, |st|, i);
      var y := SpanStage(st, eb, false, |st|, j);
      BurstsAboveLow(p, st, true, x);
      BurstsAboveLow(p, st, false, y);
      assert x != y;
      StagesTouch(ea, eb, x, y);
    }
    NoShared(xs, ys);
  }

  lemma StagesTouch(ea: seq<real>, eb: seq<real>, x: nat, y: nat)
    requires |ea| == |eb| && Elapsed(ea) && Elapsed(eb) && DriftTo(ea, eb, |ea|) == 0.0
    requires x < |ea| && y < |ea| && x != y
    ensures Shared((Clock(ea, x), Clock(ea, x + 1)), (Clock(eb, y), Clock(eb, y + 1))) == 0.0
  {
    hide Clock, Elapsed;
    if x < y {
      ClockMonotone(ea, x + 1, y);
      assert Distance(Clock(ea, y), Clock(eb, y)) <= 0.0;
    } else {
      ClockMonotone(eb, y + 1, x);
      assert Distance(Clock(ea, x), Clock(eb, x)) <= 0.0;
    }
  }

  // The run that makes no drift above 0 safe.

  /** The stages as long as scheduled. */
  function Planned(st: seq<Phase>): (e: seq<real>)
    ensures |e| == |st| && Elapsed(e)
  {
    seq(|st|, i requires 0 <= i < |st| => Larger(0.0, st[i].end - st[i].start))
  }

  /** With one stage D seconds late. */
  function Late(e: seq<real>, k: nat, D: real): (f: seq<real>)
    requires k < |e|
    ensures |f| == |e|
  {
    e[k := e[k] + D]
  }

  lemma {:induction false} LateClock(e: seq<real>, k: nat, D: real, i: nat)
    requires k < |e| && i <= |e|
    ensures Clock(Late(e, k, D), i) == Clock(e, i) + if i > k then D else 0.0
  {
    if i > 0 {
      LateClock(e, k, D, i - 1);
    }
  }

  lemma {:induction false} DriftAtMost(ea: seq<real>, eb: seq<real>, n: nat, D: real)
    requires n <= |ea| == |eb| && D >= 0.0
    requires forall i :: 0 <= i <= n ==> Distance(Clock(ea, i), Clock(eb, i)) <= D
    ensures DriftTo(ea, eb, n) <= D
  {
    if n > 0 {
      DriftAtMost(ea, eb, n - 1, D);
    }
  }

  lemma {:induction false} StageSpan(st: seq<Phase>, e: seq<real>, a: bool, n: nat, i: nat)
    requires i < n <= |st| == |e| && Bursts(st, a, i)
    ensures |Spans(st, e, a, i)| < |Spans(st, e, a, n)|
    ensures Spans(st, e, a, n)[|Spans(st, e, a, i)|] == (Clock(e, i), Clock(e, i + 1))
  {
    if i < n - 1 {
      StageSpan(st, e, a, n - 1, i);
    }
  }

  lemma {:induction false} OneSharedRow(x: Span, ys: seq<Span>, k: nat)
    requires k < |ys| && forall j :: 0 <= j < |ys| && j != k ==> Shared(x, ys[j]) == 0.0
    ensures RowSum(x, ys) == Shared(x, ys[k])
  {
    var n := |ys| - 1;
    if k < n {
      OneSharedRow(x, ys[..n], k);
    } else {
      NoSharedRow(x, ys[..n]);
    }
  }

  lemma {:induction false} OneShared(xs: seq<Span>, ys: seq<Span>, i: nat, k: nat)
    requires i < |xs| && k < |ys|
    requires forall x, y :: 0 <= x < |xs| && 0 <= y < |ys| && (x != i || y != k) ==> Shared(xs[x], ys[y]) == 0.0
    ensures PairSum(xs, ys) == Shared(xs[i], ys[k])
  {
    var n := |xs| - 1;
    if i < n {
      OneShared(xs[..n], ys, i, k);
      NoSharedRow(xs[n], ys);
    } else {
      NoShared(xs[..n], ys);
      OneSharedRow(xs[n], ys, k);
    }
  }

  /** B late by D in stage m and A in the next: every other pair of stages is
      still one after the other. */
  lemma LateStages(e: seq<real>, m: nat, D: real, x: nat, y: nat)
    requires Elapsed(e) && m + 1 < |e| && D > 0.0 && x < |e| && y < |e| && x != y
    ensures var ea, eb := Late(e, m + 1, D), Late(e, m, D);
      Shared((Clock(ea, x), Clock(ea, x + 1)), (Clock(eb, y), Clock(eb, y + 1))) == if x == m + 1 && y == m then D else 0.0
  {
    hide Clock;
    LateClock(e, m + 1, D, x);
    LateClock(e, m + 1, D, x + 1);
    LateClock(e, m, D, y);
    LateClock(e, m, D, y + 1);
    ClockMonotone(e, x, x + 1);
    ClockMonotone(e, y, y + 1);
    if x < y {
      ClockMonotone(e, x + 1, y);
    } else {
      ClockMonotone(e, y + 1, x);
    }
  }

  lemma LateDrift(e: seq<real>, m: nat, D: real)
    requires m + 1 < |e| && D > 0.0
    ensures DriftTo(Late(e, m + 1, D), Late(e, m, D), |e|) == D
  {
    hide Clock, Late;
    var ea, eb := Late(e, m + 1, D), Late(e, m, D);
    forall i | 0 <= i <= |e|
      ensures Distance(Clock(ea, i), Clock(eb, i)) == if i == m + 1 then D else 0.0
    {
      LateClock(e, m + 1, D, i);
      LateClock(e, m, D, i);
    }
    DriftAtMost(ea, eb, |e|, D);
    assert Distance(Clock(ea, m + 1), Clock(eb, m + 1)) == D;
  }

  /** Where a burst of B hands over to one of A without a band, being late by D
      once each is enough to overlap by D. */
  lemma HandoverUnsafe(st: seq<Phase>, m: nat, D: real)
    requires m + 1 < |st| && D > 0.0 && Bursts(st, false, m) && Bursts(st, true, m + 1)
    requires forall i :: 0 <= i < |st| ==> !(Bursts(st, true, i) && Bursts(st, false, i))
    ensures var e := Planned(st);
      var ea, eb := Late(e, m + 1, D), Late(e, m, D);
      && DriftTo(ea, eb, |st|) == D
      && PairSum(Spans(st, ea, true, |st|), Spans(st, eb, false, |st|)) == D
  {
    hide Spans, PairSum, Shared, Clock, Late, Planned, Bursts, DriftTo;
    var e := Planned(st);
    var ea, eb := Late(e, m + 1, D), Late(e, m, D);
    LateDrift(e, m, D);
    var xs, ys := Spans(st, ea, true, |st|), Spans(st, eb, false, |st|);
    var i, k := |Spans(st, ea, true, m + 1)|, |Spans(st, eb, false, m)|;
    StageSpan(st, ea, true, |st|, m + 1);
    StageSpan(st, eb, false, |st|, m);
    LateStages(e, m, D, m + 1, m);
    forall u, v | 0 <= u < |xs| && 0 <= v < |ys| && (u != i || v != k)
      ensures Shared(xs[u], ys[v]) == 0.0
    {
      var x := SpanStage(st, ea, true, |st|, u);
      var y := SpanStage(st, eb, false, |st|, v);
      LateStages(e, m, D, x, y);
    }
    OneShared(xs, ys, i, k);
  }

  /** The stages of a longer schedule start with those of a shorter. */
  lemma {:induction false} StagesGrow(p: Params, window: real, b: nat)
    requires b >= 2 && p.overlap <= 0.0
    ensures StageMap(Build(p, 2), window) <= StageMap(Build(p, b), window)
  {
    hide StageMap, Build, Burst;
    if b > 2 {
      StagesGrow(p, window, b - 1);
      BuildStep(p, b - 1);
      assert Build(p, b) == Build(p, b - 1) + [Burst(p, b - 1)];
      StageMapAppend(Build(p, b - 1), Burst(p, b - 1), window);
    }
  }

  lemma CutRates(ph: Phase, prev: Option<Phase>, window: real)
    ensures var c := Cut(ph, prev, window);
      0 < |c| <= 2 && forall i :: 0 <= i < |c| ==> c[i].ra == ph.ra && c[i].rb == ph.rb
  {
  }

  /** Without bands the first burst, of B, is followed at once by one of A. */
  lemma FirstHandover(p: Params, window: real, b: nat) returns (m: nat)
    requires b >= 2 && p.overlap <= 0.0
    ensures var st := StageMap(Build(p, b), window);
      m + 1 < |st| && st[m].ra == p.low && st[m].rb == p.highB && st[m + 1].ra == p.highA && st[m + 1].rb == p.low
  {
    hide StageMap, Build, Cut;
    StagesGrow(p, window, b);
    BuildStep(p, 0);
    BuildStep(p, 1);
    var s0, b0, b1 := Build(p, 0), Burst(p, 0), Burst(p, 1);
    assert Build(p, 1) == s0 + [b0] && Build(p, 2) == s0 + [b0] + [b1];
    StageMapAppend(s0, b0, window);
    StageMapAppend(s0 + [b0], b1, window);
    CutRates(b0, Last(s0), window);
    CutRates(b1, Last(s0 + [b0]), window);
    var u, c0, c1 := StageMap(s0, window), Cut(b0, Last(s0), window), Cut(b1, Last(s0 + [b0]), window);
    var st := StageMap(Build(p, 2), window);
    assert st == u + c0 + c1;
    m := |u| + |c0| - 1;
    assert st[m] == c0[|c0| - 1] && st[m + 1] == c1[0];
    assert b0.ra == p.low && b0.rb == p.highB && b1.ra == p.highA && b1.rb == p.low;
  }

  /** And no larger drift is safe: on every schedule without bands, for every D
      above 0, a run in which one stage of each model takes D seconds longer than
      planned and all else is on time drifts by D and has both bursting for D. */
  lemma NoBandsNoSafety(p: Params, window: real, b: nat, D: real)
    requires p.overlap <= 0.0 && p.low < p.highA && p.low < p.highB && b >= 2 && D > 0.0
    ensures var st := StageMap(Build(p, b), window);
      var e := Planned(st);
      exists m :: 0 <= m < |st| - 1 &&
        var ea, eb := Late(e, m + 1, D), Late(e, m, D);
        && DriftTo(ea, eb, |st|) == D
        && PairSum(Spans(st, ea, true, |st|), Spans(st, eb, false, |st|)) == D
  {
    var st := StageMap(Build(p, b), window);
    BuildAlternates(p, b);
    StagesAlternate(p, Build(p, b), window);
    var m := FirstHandover(p, window, b);
    hide StageMap, Build, Planned, Late, DriftTo, PairSum, Spans;
    AlternatingBursts(p, st, m);
    HandoverUnsafe(st, m, D);
    var e := Planned(st);
    var ea, eb := Late(e, m + 1, D), Late(e, m, D);
    assert DriftTo(ea, eb, |st|) == D;
  }

  lemma AlternatingBursts(p: Params, st: seq<Phase>, m: nat)
    requires Alternating(p, st) && p.low < p.highA && p.low < p.highB && m + 1 < |st|
    requires st[m].ra == p.low && st[m].rb == p.highB && st[m + 1].ra == p.highA && st[m + 1].rb == p.low
    ensures Bursts(st, false, m) && Bursts(st, true, m + 1)
    ensures forall i :: 0 <= i < |st| ==> !(Bursts(st, true, i) && Bursts(st, false, i))
  {
    hide MaxRate, MinRate;
    assert Rate(st[m], true) == p.low && Rate(st[m], false) == p.highB;
    assert Rate(st[m + 1], true) == p.highA && Rate(st[m + 1], false) == p.low;
    assert MaxRate(st, true, |st|) == p.highA && MaxRate(st, false, |st|) == p.highB;
  }
}

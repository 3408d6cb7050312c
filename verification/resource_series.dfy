/** Accelerator-seconds of a run: a sampled series cut to the run's window and
    integrated, against the step function that holds each sample until the next. */
module ResourceSeries {
  import opened Options
  import opened Partitions

  datatype Row = Row(t: real, v: real)

  // The code.

  function Scan(series: seq<Row>, i: nat, out: seq<Row>, prev: Option<Row>, end: real): (r: (seq<Row>, Option<Row>))
    requires i <= |series|
    decreases |series| - i
  {
    if i == |series| then (out, prev)
    else
      var row := series[i];
      if row.t < 0.0 then Scan(series, i + 1, out, Some(row), end)
      else if row.t > end then (out, prev)
      else
        Scan(series, i + 1, Begun(out, prev, row) + [row], Some(row), end)
  }

  /** What was kept before this row: the row before the window starts it at 0. */
  function Begun(out: seq<Row>, prev: Option<Row>, row: Row): seq<Row> {
    if out == [] && prev.Some? && row.t > 0.0 then [Row(0.0, prev.value.v)] else out
  }

  /** The series inside [0, end], with the boundaries held exactly. */
  function Clip(series: seq<Row>, tEnd: Option<real>): seq<Row> {
    if series == [] || tEnd.None? then series
    else
      var end := tEnd.value;
      var (out, prev) := Scan(series, 0, [], None, end);
      if out != [] && out[|out| - 1].t < end && prev.Some? then out + [Row(end, prev.value.v)]
      else if out == [] && prev.Some? then [Row(0.0, prev.value.v), Row(end, prev.value.v)]
      else out
  }

  method ClipLoop(series: seq<Row>, tEnd: Option<real>) returns (out: seq<Row>)
    ensures out == Clip(series, tEnd)
  {
    if series == [] || tEnd.None? {
      return series;
    }
    var end := tEnd.value;
    out := [];
    var prev: Option<Row> := None;
    var i := 0;
    while i < |series|
      invariant 0 <= i <= |series|
      invariant Scan(series, i, out, prev, end) == Scan(series, 0, [], None, end)
    {
      var row := series[i];
      if row.t < 0.0 {
        prev := Some(row);
      } else if row.t > end {
        break;
      } else {
        if out == [] && prev.Some? && row.t > 0.0 {
          out := [Row(0.0, prev.value.v)];
        }
        out := out + [row];
        prev := Some(row);
      }
      i := i + 1;
    }
    assert (out, prev) == Scan(series, 0, [], None, end);
    if out != [] && out[|out| - 1].t < end && prev.Some? {
      out := out + [Row(end, prev.value.v)];
    } else if out == [] && prev.Some? {
      out := [Row(0.0, prev.value.v), Row(end, prev.value.v)];
    }
  }

  /** The value-seconds of the first n + 1 rows. */
  function Area(series: seq<Row>, n: nat): real
    requires n < |series|
  {
    if n == 0 then 0.0
    else
      var dt := series[n].t - series[n - 1].t;
      Area(series, n - 1) + if dt <= 0.0 then 0.0 else series[n - 1].v * dt
  }

  /** The seconds spanned by holes longer than the limit. */
  function Gapped(series: seq<Row>, limit: real, n: nat): real
    requires n < |series|
  {
    if n == 0 then 0.0
    else
      var dt := series[n].t - series[n - 1].t;
      Gapped(series, limit, n - 1) + if dt > 0.0 && dt > limit then dt else 0.0
  }

  function Integrate(series: seq<Row>): Option<real> {
    if |series| < 2 then None else Some(Area(series, |series| - 1))
  }

  method IntegrateLoop(series: seq<Row>, limit: Option<real>) returns (total: Option<real>, gapped: real)
    ensures total == Integrate(series)
    ensures gapped == if |series| < 2 || limit.None? || limit.value == 0.0 then 0.0 else Gapped(series, limit.value, |series| - 1)
  {
    if |series| < 2 {
      return None, 0.0;
    }
    var sum := 0.0;
    gapped := 0.0;
    var limited := limit.Some? && limit.value != 0.0;
    for i := 0 to |series| - 1
      invariant sum == Area(series, i)
      invariant gapped == if limited then Gapped(series, limit.value, i) else 0.0
    {
      var dt := series[i + 1].t - series[i].t;
      if dt > 0.0 {
        if limited && dt > limit.value {
          gapped := gapped + dt;
        }
        sum := sum + series[i].v * dt;
      }
    }
    total := Some(sum);
  }

  // The meaning.

  ghost predicate InOrder(series: seq<Row>) {
    forall i, j :: 0 <= i < j < |series| ==> series[i].t <= series[j].t
  }

  /** The step function: the last sample at or before t, 0 before the first. */
  function Held(series: seq<Row>, t: real): real {
    if series == [] then 0.0
    else
      var n := |series| - 1;
      if series[n].t <= t then series[n].v else Held(series[..n], t)
  }

  ghost function Samples(series: seq<Row>, ps: seq<real>): (vs: seq<real>)
    requires |ps| > 0
    ensures |vs| == |ps| - 1 && forall i :: 0 <= i < |vs| ==> vs[i] == Held(series, ps[i])
  {
    seq(|ps| - 1, i requires 0 <= i < |ps| - 1 => Held(series, ps[i]))
  }

  /** A partition of [0, end] that no sample inside the window falls between. */
  ghost predicate FineEnough(series: seq<Row>, end: real, ps: seq<real>) {
    && |ps| > 0 && Sorted(ps) && ps[0] == 0.0 && ps[|ps| - 1] == end
    && forall i :: 0 <= i < |series| && 0.0 <= series[i].t <= end ==> series[i].t in ps
  }

  // Integrating a series that ends with the partition.

  lemma {:induction false} AreaIsIntegral(c: seq<Row>, ps: seq<real>, n: nat)
    requires InOrder(c) && n < |c| && Sorted(ps) && |ps| > 0
    requires forall i :: 0 <= i < |c| ==> c[i].t in ps
    ensures Weighted(SamplesUpTo(c, ps, n), ps) == Area(c, n)
  {
    hide Weighted, Steps, Inside, Plus, Combines, Area, Sorted, InOrder;
    if n == 0 {
      StepsNone(c, ps);
      WeightedZero(SamplesUpTo(c, ps, 0), ps);
    } else {
      AreaIsIntegral(c, ps, n - 1);
      var s, e := c[n - 1].t, c[n].t;
      assert s in ps && e in ps;
      AreaStep(c, n);
      IntervalLength(s, e, ps);
      StepsCombine(c, ps, n);
      WeightedAdd(SamplesUpTo(c, ps, n - 1), Indicator(s, e, ps), SamplesUpTo(c, ps, n), c[n - 1].v, ps);
    }
  }

  lemma StepsNone(c: seq<Row>, ps: seq<real>)
    requires c != [] && |ps| > 0
    ensures (forall i :: 0 <= i < |ps| - 1 ==> SamplesUpTo(c, ps, 0)[i] == 0.0) && Area(c, 0) == 0.0
  {
  }

  lemma StepsCombine(c: seq<Row>, ps: seq<real>, n: nat)
    requires 0 < n < |c| && |ps| > 0
    ensures Combines(SamplesUpTo(c, ps, n - 1), Indicator(c[n - 1].t, c[n].t, ps), SamplesUpTo(c, ps, n), c[n - 1].v)
  {
    hide Inside, Plus;
    forall i | 0 <= i < |ps| - 1
      ensures Steps(c, n, ps[i]) == Plus(Steps(c, n - 1, ps[i]), c[n - 1].v, Inside(c[n - 1].t, c[n].t, ps[i]))
    {
    }
  }

  lemma AreaStep(c: seq<Row>, n: nat)
    requires InOrder(c) && 0 < n < |c|
    ensures Area(c, n) == Plus(Area(c, n - 1), c[n - 1].v, c[n].t - c[n - 1].t) && c[n - 1].t <= c[n].t
  {
    if c[n].t == c[n - 1].t {
      assert c[n - 1].v * 0.0 == 0.0;
    }
  }

  /** The first n steps of the series, each on its own interval. */
  function Steps(c: seq<Row>, n: nat, t: real): real
    requires n < |c|
  {
    if n == 0 then 0.0 else Plus(Steps(c, n - 1, t), c[n - 1].v, Inside(c[n - 1].t, c[n].t, t))
  }

  ghost function SamplesUpTo(c: seq<Row>, ps: seq<real>, n: nat): (vs: seq<real>)
    requires n < |c| && |ps| > 0
    ensures |vs| == |ps| - 1 && forall i :: 0 <= i < |vs| ==> vs[i] == Steps(c, n, ps[i])
  {
    seq(|ps| - 1, i requires 0 <= i < |ps| - 1 => Steps(c, n, ps[i]))
  }

  /** Before the last row, the steps are the held value. */
  lemma {:induction false} StepsAreHeld(c: seq<Row>, n: nat, t: real)
    requires InOrder(c) && n < |c|
    ensures Steps(c, n, t) == if t < c[n].t then Held(c[..n], t) else 0.0
  {
    if n > 0 {
      StepsAreHeld(c, n - 1, t);
      assert c[..n][..n - 1] == c[..n - 1];
    }
  }

  // Holes.

  /** The seconds between samples at most the limit apart. */
  function Sampled(series: seq<Row>, limit: real, n: nat): real
    requires n < |series|
  {
    if n == 0 then 0.0
    else
      var dt := series[n].t - series[n - 1].t;
      Sampled(series, limit, n - 1) + if dt <= limit then dt else 0.0
  }

  /** The holes are what is missing from full coverage: with the seconds sampled
      closely enough they make up the whole span of the series. */
  lemma {:induction false} HolesAreTheRest(series: seq<Row>, limit: real, n: nat)
    requires InOrder(series) && n < |series|
    ensures Gapped(series, limit, n) + Sampled(series, limit, n) == series[n].t - series[0].t
  {
    if n > 0 {
      HolesAreTheRest(series, limit, n - 1);
    }
  }

  // What clipping keeps.

  /** The rows before index n lie before t, the others not. */
  ghost predicate SplitsAt(series: seq<Row>, t: real, strict: bool, n: nat) {
    && n <= |series|
    && (forall i :: 0 <= i < n ==> if strict then series[i].t < t else series[i].t <= t)
    && (forall i :: n <= i < |series| ==> if strict then series[i].t >= t else series[i].t > t)
  }

  lemma {:induction false} SplitExists(series: seq<Row>, t: real, strict: bool) returns (n: nat)
    requires InOrder(series)
    ensures SplitsAt(series, t, strict, n)
  {
    n := 0;
    if series != [] {
      var k := |series| - 1;
      if (if strict then series[k].t < t else series[k].t <= t) {
        n := |series|;
      } else {
        n := SplitExists(series[..k], t, strict);
      }
    }
  }

  /** What the scan has collected after i rows: the rows from the first at or
      after 0, opened at 0 by the row before it unless one stands at 0. */
  ghost function Collected(series: seq<Row>, j: nat, i: nat): seq<Row>
    requires i <= |series|
  {
    if i <= j then [] else Lead(series, j) + series[j..i]
  }

  /** The row that starts the window when the first sample in it comes later. */
  ghost function Lead(series: seq<Row>, j: nat): seq<Row>
    requires j < |series|
  {
    if j > 0 && series[j].t > 0.0 then [Row(0.0, series[j - 1].v)] else []
  }

  lemma CollectedStep(series: seq<Row>, j: nat, i: nat)
    requires i < |series| && j <= |series|
    ensures i < j ==> Collected(series, j, i) == Collected(series, j, i + 1) == []
    ensures i > j ==> Collected(series, j, i) != [] && Collected(series, j, i + 1) == Collected(series, j, i) + [series[i]]
    ensures i == j ==>
      && Collected(series, j, i) == []
      && Collected(series, j, i + 1) == Lead(series, j) + [series[j]]
  {
    hide Lead;
    if i == j {
      assert series[j..j + 1] == [series[j]];
    } else if i > j {
      var lead, mid := Lead(series, j), series[j..i];
      assert |mid| > 0 && series[j..i + 1] == mid + [series[i]];
      assert lead + (mid + [series[i]]) == (lead + mid) + [series[i]];
    }
  }

  ghost function Before(series: seq<Row>, i: nat): Option<Row>
    requires i <= |series|
  {
    if i == 0 then None else Some(series[i - 1])
  }

  lemma ScanStep(series: seq<Row>, i: nat, end: real, j: nat, m: nat)
    requires SplitsAt(series, 0.0, true, j) && SplitsAt(series, end, false, m) && i < m
    ensures Scan(series, i, Collected(series, j, i), Before(series, i), end)
         == Scan(series, i + 1, Collected(series, j, i + 1), Before(series, i + 1), end)
  {
    assert !(series[i].t > end) && (series[i].t < 0.0 <==> i < j);
    CollectedBegun(series, j, i);
    hide Collected, Begun, SplitsAt;
  }

  lemma CollectedBegun(series: seq<Row>, j: nat, i: nat)
    requires i < |series| && j <= |series|
    ensures var out := Collected(series, j, i);
      Collected(series, j, i + 1) == if i < j then out else Begun(out, Before(series, i), series[i]) + [series[i]]
  {
    CollectedStep(series, j, i);
    hide Collected;
  }

  lemma {:induction false} ScanCollects(series: seq<Row>, i: nat, end: real, j: nat, m: nat)
    requires InOrder(series) && SplitsAt(series, 0.0, true, j) && SplitsAt(series, end, false, m) && end >= 0.0
    requires i <= m
    ensures Scan(series, i, Collected(series, j, i), Before(series, i), end)
         == (Collected(series, j, m), Before(series, m))
    decreases m - i
  {
    hide Collected, Scan, Before;
    if i < m {
      ScanStep(series, i, end, j, m);
      ScanCollects(series, i + 1, end, j, m);
    } else {
      ScanEnds(series, end, m, Collected(series, j, m), Before(series, m));
    }
  }

  lemma ScanEnds(series: seq<Row>, end: real, m: nat, out: seq<Row>, prev: Option<Row>)
    requires SplitsAt(series, end, false, m) && end >= 0.0
    ensures Scan(series, m, out, prev, end) == (out, prev)
  {
  }

  /** Reading the step function in a suffix that starts at or before t. */
  lemma {:induction false} HeldSuffix(a: seq<Row>, b: seq<Row>, t: real)
    requires b != [] && b[0].t <= t
    ensures Held(a + b, t) == Held(b, t)
  {
    var n := |a + b| - 1;
    assert (a + b)[n] == b[|b| - 1];
    assert (a + b)[..n] == a + b[..|b| - 1];
    if b[|b| - 1].t > t {
      HeldSuffix(a, b[..|b| - 1], t);
    }
  }

  /** Rows after t do not matter. */
  lemma {:induction false} HeldPrefix(a: seq<Row>, b: seq<Row>, t: real)
    requires forall i :: 0 <= i < |b| ==> b[i].t > t
    ensures Held(a + b, t) == Held(a, t)
  {
    if b == [] {
      assert a + b == a;
    } else {
      var n := |b| - 1;
      assert (a + b)[..|a| + n] == a + b[..n];
      HeldPrefix(a, b[..n], t);
    }
  }

  lemma HeldLast(a: seq<Row>, t: real)
    requires a != [] && a[|a| - 1].t <= t
    ensures Held(a, t) == a[|a| - 1].v
  {
  }

  /** Inside the window the clipped rows hold what the series holds. */
  lemma CollectedHeld(series: seq<Row>, end: real, j: nat, m: nat, t: real)
    requires InOrder(series) && SplitsAt(series, 0.0, true, j) && SplitsAt(series, end, false, m)
    requires 0.0 <= t < end && j < m
    ensures Held(Collected(series, j, m), t) == Held(series, t)
  {
    hide Held;
    var mid, before := series[j..m], series[..j];
    assert series == before + mid + series[m..];
    HeldPrefix(before + mid, series[m..], t);
    var lead := if j > 0 && series[j].t > 0.0 then [Row(0.0, series[j - 1].v)] else [];
    assert Collected(series, j, m) == lead + mid;
    if t < mid[0].t {
      HeldPrefix(before, mid, t);
      HeldPrefix(lead, mid, t);
      if j > 0 {
        HeldLast(before, t);
        HeldLast(lead, t);
      }
    } else {
      HeldSuffix(before, mid, t);
      HeldSuffix(lead, mid, t);
    }
  }

  /** The clipped series, from where the window starts and ends. */
  lemma ClipIs(series: seq<Row>, end: real, j: nat, m: nat)
    requires InOrder(series) && SplitsAt(series, 0.0, true, j) && SplitsAt(series, end, false, m) && end > 0.0
    ensures var c, out := Clip(series, Some(end)), Collected(series, j, m);
      if m == 0 then c == []
      else if m <= j then c == [Row(0.0, series[m - 1].v), Row(end, series[m - 1].v)]
      else out != [] && (c == out + [Row(end, series[m - 1].v)] || (c == out && out[|out| - 1].t >= end))
  {
    assert Collected(series, j, 0) == [];
    hide Scan, Collected, InOrder;
    ScanCollects(series, 0, end, j, m);
    CollectedOrder(series, end, j, m);
    assert Before(series, 0) == None;
    hide SplitsAt;
  }

  /** Clipping changes no value held inside the window. */
  lemma ClipHeld(series: seq<Row>, end: real, t: real)
    requires InOrder(series) && 0.0 <= t < end
    requires |Clip(series, Some(end))| >= 2
    ensures Held(Clip(series, Some(end)), t) == Held(series, t)
  {
    hide Held, Clip, Collected;
    var j := SplitExists(series, 0.0, true);
    var m := SplitExists(series, end, false);
    ClipIs(series, end, j, m);
    var c := Clip(series, Some(end));
    if j < m {
      CollectedHeld(series, end, j, m, t);
      HeldPrefix(Collected(series, j, m), [Row(end, series[m - 1].v)], t);
    } else {
      OutsideHeld(series, end, m, t);
    }
  }

  /** Every sample before the window: the last of them is held throughout. */
  lemma OutsideHeld(series: seq<Row>, end: real, m: nat, t: real)
    requires 0.0 <= t < end && SplitsAt(series, end, false, m) && m > 0
    requires forall i :: 0 <= i < m ==> series[i].t < 0.0
    ensures Held([Row(0.0, series[m - 1].v), Row(end, series[m - 1].v)], t) == Held(series, t)
  {
    hide Held;
    var v := series[m - 1].v;
    HeldPrefix([Row(0.0, v)], [Row(end, v)], t);
    HeldLast([Row(0.0, v)], t);
    assert [Row(0.0, v)] + [Row(end, v)] == [Row(0.0, v), Row(end, v)];
    assert series == series[..m] + series[m..];
    HeldPrefix(series[..m], series[m..], t);
    HeldLast(series[..m], t);
  }

  lemma ClipShape(series: seq<Row>, end: real, ps: seq<real>)
    requires InOrder(series) && end > 0.0 && FineEnough(series, end, ps)
    ensures var c := Clip(series, Some(end));
      && InOrder(c) && (forall i :: 0 <= i < |c| ==> c[i].t in ps)
      && (|c| >= 2 ==> c[|c| - 1].t == end)
      && ((exists i :: 0 <= i < |series| && series[i].t < end) ==> |c| >= 2)
  {
    hide Clip, Collected;
    var j := SplitExists(series, 0.0, true);
    var m := SplitExists(series, end, false);
    ClipIs(series, end, j, m);
    assert 0.0 in ps && end in ps by { assert ps[0] == 0.0 && ps[|ps| - 1] == end; }
    assert m == 0 ==> forall i :: 0 <= i < |series| ==> series[i].t > end;
    if j < m {
      CollectedShape(series, end, ps, j, m);
      Extended(Collected(series, j, m), end, ps, series[m - 1].v);
      if series[m - 1].t >= end && exists i :: 0 <= i < |series| && series[i].t < end {
        CollectedMany(series, end, j, m);
      }
    }
  }

  lemma CollectedMany(series: seq<Row>, end: real, j: nat, m: nat)
    requires SplitsAt(series, 0.0, true, j) && SplitsAt(series, end, false, m) && end > 0.0 && j < m
    requires series[m - 1].t >= end && exists i :: 0 <= i < |series| && series[i].t < end
    ensures |Collected(series, j, m)| >= 2
  {
    assert |series[j..m]| == m - j;
    if m == j + 1 {
      var i :| 0 <= i < |series| && series[i].t < end;
      assert i < j && series[j].t > 0.0;
    }
  }

  lemma Extended(out: seq<Row>, end: real, ps: seq<real>, v: real)
    requires InOrder(out) && out != [] && out[|out| - 1].t <= end && end in ps
    requires forall i :: 0 <= i < |out| ==> out[i].t in ps
    ensures var c := out + [Row(end, v)];
      InOrder(c) && (forall i :: 0 <= i < |c| ==> c[i].t in ps) && c[|c| - 1].t == end
  {
  }

  lemma CollectedShape(series: seq<Row>, end: real, ps: seq<real>, j: nat, m: nat)
    requires InOrder(series) && SplitsAt(series, 0.0, true, j) && SplitsAt(series, end, false, m)
    requires end > 0.0 && FineEnough(series, end, ps) && 0.0 in ps
    ensures var out := Collected(series, j, m);
      && InOrder(out) && (forall i :: 0 <= i < |out| ==> out[i].t in ps)
      && (out != [] ==> out[|out| - 1] == series[m - 1])
      && (out == [] <==> m <= j)
  {
    hide Collected, InOrder, SplitsAt, FineEnough;
    CollectedOrder(series, end, j, m);
    CollectedIn(series, end, ps, j, m);
  }

  lemma CollectedOrder(series: seq<Row>, end: real, j: nat, m: nat)
    requires InOrder(series) && SplitsAt(series, 0.0, true, j) && SplitsAt(series, end, false, m)
    ensures var out := Collected(series, j, m);
      InOrder(out) && (out != [] ==> out[|out| - 1] == series[m - 1]) && (out == [] <==> m <= j)
  {
    if j < m {
      MidOrder(series, end, j, m);
      assert m <= |series| && |series[j..m]| == m - j;
      hide InOrder, SplitsAt;
      LeadOrder(Lead(series, j), series[j..m]);
    }
  }

  lemma CollectedIn(series: seq<Row>, end: real, ps: seq<real>, j: nat, m: nat)
    requires SplitsAt(series, 0.0, true, j) && SplitsAt(series, end, false, m) && FineEnough(series, end, ps) && 0.0 in ps
    ensures var out := Collected(series, j, m);
      forall i :: 0 <= i < |out| ==> out[i].t in ps
  {
    if j < m {
      MidIn(series, end, ps, j, m);
      hide SplitsAt, FineEnough;
      LeadIn(Lead(series, j), series[j..m], ps);
    }
  }

  lemma MidOrder(series: seq<Row>, end: real, j: nat, m: nat)
    requires InOrder(series) && SplitsAt(series, 0.0, true, j) && SplitsAt(series, end, false, m) && j < m
    ensures var mid := series[j..m];
      InOrder(mid) && (forall i :: 0 <= i < |mid| ==> 0.0 <= mid[i].t) && mid[|mid| - 1] == series[m - 1]
  {
    var mid := series[j..m];
    assert forall i :: 0 <= i < |mid| ==> mid[i] == series[j + i];
  }

  lemma MidIn(series: seq<Row>, end: real, ps: seq<real>, j: nat, m: nat)
    requires SplitsAt(series, 0.0, true, j) && SplitsAt(series, end, false, m) && j < m && FineEnough(series, end, ps)
    ensures forall i :: 0 <= i < m - j ==> series[j..m][i].t in ps
  {
    forall i | 0 <= i < m - j
      ensures series[j..m][i].t in ps
    {
      assert series[j..m][i] == series[j + i];
    }
  }

  lemma LeadOrder(lead: seq<Row>, mid: seq<Row>)
    requires |lead| <= 1 && (lead != [] ==> lead[0].t == 0.0) && mid != []
    requires InOrder(mid) && forall i :: 0 <= i < |mid| ==> 0.0 <= mid[i].t
    ensures var out := lead + mid; InOrder(out) && out[|out| - 1] == mid[|mid| - 1]
  {
    var out, n := lead + mid, |lead|;
    forall i, j | 0 <= i < j < |out|
      ensures out[i].t <= out[j].t
    {
      assert out[j] == mid[j - n];
      if i < n {
        assert out[i] == lead[0];
      } else {
        assert out[i] == mid[i - n];
      }
    }
  }

  lemma LeadIn(lead: seq<Row>, mid: seq<Row>, ps: seq<real>)
    requires |lead| <= 1 && (lead != [] ==> lead[0].t == 0.0) && 0.0 in ps
    requires forall i :: 0 <= i < |mid| ==> mid[i].t in ps
    ensures forall i :: 0 <= i < |lead + mid| ==> (lead + mid)[i].t in ps
  {
    forall i | 0 <= i < |lead + mid|
      ensures (lead + mid)[i].t in ps
    {
      if i < |lead| {
        assert (lead + mid)[i] == lead[0];
      } else {
        assert (lead + mid)[i] == mid[i - |lead|];
      }
    }
  }

  /** Clipping and integrating gives exactly the integral, over [0, end], of the
      step function that holds each sample until the next. It has an answer
      whenever some sample lies before the end, also when every sample lies
      before 0. */
  lemma ClippedIntegral(series: seq<Row>, end: real, ps: seq<real>)
    requires InOrder(series) && end > 0.0 && FineEnough(series, end, ps)
    ensures var r := Integrate(Clip(series, Some(end)));
      && (r.Some? ==> r.value == Weighted(Samples(series, ps), ps))
      && ((exists i :: 0 <= i < |series| && series[i].t < end) ==> r.Some?)
  {
    hide Clip;
    var c := Clip(series, Some(end));
    ClipShape(series, end, ps);
    if |c| >= 2 {
      var n := |c| - 1;
      AreaIsIntegral(c, ps, n);
      forall i | 0 <= i < |ps| - 1
        ensures Samples(series, ps)[i] == SamplesUpTo(c, ps, n)[i] || ps[i + 1] == ps[i]
      {
        CellAgrees(series, end, ps, c, i);
      }
      SameWeight(Samples(series, ps), SamplesUpTo(c, ps, n), ps);
    }
  }

  lemma CellAgrees(series: seq<Row>, end: real, ps: seq<real>, c: seq<Row>, i: nat)
    requires InOrder(series) && FineEnough(series, end, ps) && i < |ps| - 1
    requires c == Clip(series, Some(end)) && InOrder(c) && |c| >= 2 && c[|c| - 1].t == end
    ensures Held(series, ps[i]) == Steps(c, |c| - 1, ps[i]) || ps[i + 1] == ps[i]
  {
    hide Clip, Held, Steps;
    var n := |c| - 1;
    if ps[i] < end {
      ClipHeld(series, end, ps[i]);
      StepsAreHeld(c, n, ps[i]);
      HeldPrefix(c[..n], [c[n]], ps[i]);
      assert c == c[..n] + [c[n]];
    }
  }

  lemma {:induction false} SameWeight(us: seq<real>, vs: seq<real>, ps: seq<real>)
    requires |us| == |vs| && |ps| == |us| + 1
    requires forall i :: 0 <= i < |us| ==> us[i] == vs[i] || ps[i + 1] == ps[i]
    ensures Weighted(us, ps) == Weighted(vs, ps)
  {
    if us != [] {
      var n := |us| - 1;
      SameWeight(us[..n], vs[..n], ps[..n + 1]);
    }
  }
}

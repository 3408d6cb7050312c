/** The anti-phase schedule of a two-model run, and the stages it is cut into. */
module Schedules {
  import opened Options

  /** A time box with the request rate of each model. */
  datatype Phase = Phase(start: real, end: real, ra: real, rb: real)

  /** The square wave: burst length, the rates, the lead-in and the both-low band. */
  datatype Params = Params(phase: real, low: real, highA: real, highB: real, leadIn: real, overlap: real)

  function Rate(ph: Phase, a: bool): real {
    if a then ph.ra else ph.rb
  }

  // Building the schedule, burst by burst: B bursts first, then A, in turn.

  function LeadTime(p: Params): real {
    if p.leadIn > 0.0 then p.leadIn else 0.0
  }

  function BandTime(p: Params): real {
    if p.overlap > 0.0 then p.overlap else 0.0
  }

  function EndTime(p: Params, b: nat): real {
    if b == 0 then LeadTime(p) else EndTime(p, b - 1) + (if b > 1 then BandTime(p) else 0.0) + p.phase
  }

  function BurstStart(p: Params, b: nat): real {
    EndTime(p, b) + if b > 0 then BandTime(p) else 0.0
  }

  predicate BurstOf(a: bool, b: nat) {
    a <==> b % 2 == 1
  }

  function Burst(p: Params, b: nat): Phase {
    var start := BurstStart(p, b);
    if BurstOf(true, b) then Phase(start, start + p.phase, p.highA, p.low)
    else Phase(start, start + p.phase, p.low, p.highB)
  }

  function Band(p: Params, b: nat): seq<Phase> {
    if b > 0 && p.overlap > 0.0 then [Phase(EndTime(p, b), EndTime(p, b) + p.overlap, p.low, p.low)] else []
  }

  /** The schedule after b bursts. */
  function Build(p: Params, b: nat): seq<Phase> {
    if b == 0 then (if p.leadIn > 0.0 then [Phase(0.0, p.leadIn, p.low, p.low)] else [])
    else Build(p, b - 1) + Band(p, b - 1) + [Burst(p, b - 1)]
  }

  /** The nested loops of the source. */
  method BuildLoop(p: Params, cycles: nat) returns (phases: seq<Phase>)
    ensures phases == Build(p, 2 * cycles)
  {
    hide Build, EndTime;
    BuildZero(p);
    phases := [];
    var t := 0.0;
    if p.leadIn > 0.0 {
      phases := [Phase(t, t + p.leadIn, p.low, p.low)];
      t := t + p.leadIn;
    }
    for cycle := 0 to cycles
      invariant phases == Build(p, 2 * cycle) && t == EndTime(p, 2 * cycle)
    {
      for half := 0 to 2
        invariant phases == Build(p, 2 * cycle + half) && t == EndTime(p, 2 * cycle + half)
      {
        var first := half == 0;
        ghost var b := 2 * cycle + half;
        BuildEmpty(p, b);
        BuildStep(p, b);
        if phases != [] && p.overlap > 0.0 {
          if !(cycle == 0 && first && p.leadIn > 0.0) {
            phases := phases + [Phase(t, t + p.overlap, p.low, p.low)];
            t := t + p.overlap;
          }
        }
        assert phases == Build(p, b) + Band(p, b) && t == BurstStart(p, b);
        assert b % 2 == half;
        phases := phases + [if first then Phase(t, t + p.phase, p.low, p.highB) else Phase(t, t + p.phase, p.highA, p.low)];
        t := t + p.phase;
      }
    }
  }

  lemma BuildZero(p: Params)
    ensures Build(p, 0) == if p.leadIn > 0.0 then [Phase(0.0, p.leadIn, p.low, p.low)] else []
    ensures EndTime(p, 0) == LeadTime(p)
  {
  }

  lemma BuildStep(p: Params, b: nat)
    ensures Build(p, b + 1) == Build(p, b) + Band(p, b) + [Burst(p, b)]
    ensures EndTime(p, b + 1) == BurstStart(p, b) + p.phase
  {
  }

  lemma BuildEmpty(p: Params, b: nat)
    ensures Build(p, b) == [] <==> b == 0 && p.leadIn <= 0.0
  {
  }

  // Cutting it into stages.

  function Cut(ph: Phase, prev: Option<Phase>, window: real): seq<Phase> {
    if prev.Some? && (ph.ra > prev.value.ra || ph.rb > prev.value.rb) && ph.end - ph.start > window > 0.0 then
      [Phase(ph.start, ph.start + window, ph.ra, ph.rb), Phase(ph.start + window, ph.end, ph.ra, ph.rb)]
    else [ph]
  }

  function Last(s: seq<Phase>): Option<Phase> {
    if s == [] then None else Some(s[|s| - 1])
  }

  function StageMap(s: seq<Phase>, window: real): seq<Phase> {
    if s == [] then []
    else
      var n := |s| - 1;
      StageMap(s[..n], window) + Cut(s[n], Last(s[..n]), window)
  }

  method StageMapLoop(s: seq<Phase>, window: real) returns (stages: seq<Phase>)
    ensures stages == StageMap(s, window)
  {
    stages := [];
    var prev: Option<Phase> := None;
    for i := 0 to |s|
      invariant stages == StageMap(s[..i], window) && prev == Last(s[..i])
    {
      var ph := s[i];
      assert s[..i + 1][..i] == s[..i];
      var rises := prev.Some? && (ph.ra > prev.value.ra || ph.rb > prev.value.rb);
      if rises && ph.end - ph.start > window > 0.0 {
        stages := stages + [Phase(ph.start, ph.start + window, ph.ra, ph.rb),
                            Phase(ph.start + window, ph.end, ph.ra, ph.rb)];
      } else {
        stages := stages + [ph];
      }
      prev := Some(ph);
    }
    assert s[..|s|] == s;
  }

  lemma StageMapAppend(s: seq<Phase>, ph: Phase, window: real)
    ensures StageMap(s + [ph], window) == StageMap(s, window) + Cut(ph, Last(s), window)
  {
    assert (s + [ph])[..|s|] == s;
  }

  // The load at every instant.

  function RateAt(s: seq<Phase>, t: real): Option<(real, real)> {
    if s == [] then None
    else
      var ph := s[|s| - 1];
      if ph.start <= t < ph.end then Some((ph.ra, ph.rb)) else RateAt(s[..|s| - 1], t)
  }

  lemma {:induction false} RateAtAppend(s: seq<Phase>, u: seq<Phase>, t: real)
    ensures RateAt(s + u, t) == if RateAt(u, t).Some? then RateAt(u, t) else RateAt(s, t)
  {
    if u == [] {
      assert s + u == s;
    } else {
      var n := |u| - 1;
      assert (s + u)[..|s| + n] == s + u[..n];
      RateAtAppend(s, u[..n], t);
    }
  }

  lemma CutSameLoad(ph: Phase, prev: Option<Phase>, window: real, t: real)
    ensures RateAt(Cut(ph, prev, window), t) == RateAt([ph], t)
  {
    var c := Cut(ph, prev, window);
    if |c| == 2 {
      assert c[..1] == [c[0]] && [c[0]][..0] == [];
      assert RateAt([c[0]], t) == if c[0].start <= t < c[0].end then Some((c[0].ra, c[0].rb)) else None;
    }
    assert [ph][..0] == [];
  }

  /** Cutting changes no load: at every instant the stages run the rates of the
      schedule, whatever the schedule. */
  lemma {:induction false} StagesSameLoad(s: seq<Phase>, window: real, t: real)
    ensures RateAt(StageMap(s, window), t) == RateAt(s, t)
  {
    if s != [] {
      var n := |s| - 1;
      StagesSameLoad(s[..n], window, t);
      CutSameLoad(s[n], Last(s[..n]), window, t);
      RateAtAppend(StageMap(s[..n], window), Cut(s[n], Last(s[..n]), window), t);
      RateAtAppend(s[..n], [s[n]], t);
      assert s == s[..n] + [s[n]];
    }
  }

  /** Back to back, from one instant to another. */
  ghost predicate Tiles(s: seq<Phase>, from: real, to: real) {
    if s == [] then from == to
    else
      var ph := s[|s| - 1];
      ph.start <= ph.end && ph.end == to && Tiles(s[..|s| - 1], from, ph.start)
  }

  lemma {:induction false} TilesAppend(s: seq<Phase>, u: seq<Phase>, from: real, mid: real, to: real)
    requires Tiles(s, from, mid) && Tiles(u, mid, to)
    ensures Tiles(s + u, from, to)
  {
    if u == [] {
      assert s + u == s;
    } else {
      var n := |u| - 1;
      assert (s + u)[..|s| + n] == s + u[..n];
      TilesAppend(s, u[..n], from, mid, u[n].start);
    }
  }

  lemma TilesOne(ph: Phase)
    requires ph.start <= ph.end
    ensures Tiles([ph], ph.start, ph.end)
  {
    assert [ph][..0] == [];
  }

  lemma CutTiles(ph: Phase, prev: Option<Phase>, window: real)
    requires ph.start <= ph.end
    ensures Tiles(Cut(ph, prev, window), ph.start, ph.end)
  {
    var c := Cut(ph, prev, window);
    TilesOne(c[0]);
    if |c| == 2 {
      TilesOne(c[1]);
      TilesAppend([c[0]], [c[1]], ph.start, c[0].end, ph.end);
      assert c == [c[0]] + [c[1]];
    }
  }

  lemma {:induction false} StagesTile(s: seq<Phase>, window: real, from: real, to: real)
    requires Tiles(s, from, to)
    ensures Tiles(StageMap(s, window), from, to)
  {
    if s != [] {
      var n := |s| - 1;
      StagesTile(s[..n], window, from, s[n].start);
      CutTiles(s[n], Last(s[..n]), window);
      TilesAppend(StageMap(s[..n], window), Cut(s[n], Last(s[..n]), window), from, s[n].start, to);
    }
  }

  /** A tiling leaves no instant without a rate. */
  lemma {:induction false} TilesCover(s: seq<Phase>, from: real, to: real, t: real)
    requires Tiles(s, from, to)
    ensures RateAt(s, t).Some? <==> from <= t < to
    ensures from <= to
  {
    if s != [] {
      TilesCover(s[..|s| - 1], from, s[|s| - 1].start, t);
    }
  }

  lemma {:induction false} BuildTiles(p: Params, b: nat)
    requires p.phase >= 0.0
    ensures Tiles(Build(p, b), 0.0, EndTime(p, b))
  {
    if b == 0 {
      if p.leadIn > 0.0 {
        TilesOne(Phase(0.0, p.leadIn, p.low, p.low));
      }
    } else {
      BuildTiles(p, b - 1);
      var band := Band(p, b - 1);
      if band != [] {
        TilesOne(band[0]);
        assert band == [band[0]];
      }
      TilesAppend(Build(p, b - 1), band, 0.0, EndTime(p, b - 1), BurstStart(p, b - 1));
      TilesOne(Burst(p, b - 1));
      TilesAppend(Build(p, b - 1) + band, [Burst(p, b - 1)], 0.0, BurstStart(p, b - 1), EndTime(p, b));
    }
  }

  lemma {:induction false} EndTimeTotal(p: Params, b: nat)
    requires b > 0
    ensures EndTime(p, b) == LeadTime(p) + b as real * p.phase + (b - 1) as real * BandTime(p)
  {
    if b > 1 {
      EndTimeTotal(p, b - 1);
      assert (b - 1) as real * p.phase + p.phase == b as real * p.phase;
      assert (b - 2) as real * BandTime(p) + BandTime(p) == (b - 1) as real * BandTime(p);
    }
  }

  lemma {:induction false} BuildNeverBothHigh(p: Params, b: nat, i: nat)
    requires i < |Build(p, b)|
    ensures var ph := Build(p, b)[i]; ph.ra == p.low || ph.rb == p.low
  {
    if b > 0 && i < |Build(p, b - 1)| {
      BuildNeverBothHigh(p, b - 1, i);
    }
  }

  lemma {:induction false} RateAtIs(s: seq<Phase>, t: real)
    requires RateAt(s, t).Some?
    ensures exists i :: 0 <= i < |s| && RateAt(s, t).value == (s[i].ra, s[i].rb)
  {
    var n := |s| - 1;
    if s[n].start <= t < s[n].end {
      assert RateAt(s, t).value == (s[n].ra, s[n].rb);
    } else {
      RateAtIs(s[..n], t);
    }
  }

  /** The stages of a generated schedule tile the run from 0 to its total, lead-in
      plus every burst plus a band between any two; carry the schedule's rates at
      every instant; and never put both models above the low rate. */
  lemma ScheduleSound(p: Params, cycles: nat, window: real, t: real)
    requires p.phase >= 0.0 && cycles > 0
    ensures var stages := StageMap(Build(p, 2 * cycles), window);
      var total := LeadTime(p) + (2 * cycles) as real * p.phase + (2 * cycles - 1) as real * BandTime(p);
      && Tiles(stages, 0.0, total)
      && RateAt(stages, t) == RateAt(Build(p, 2 * cycles), t)
      && (RateAt(stages, t).Some? <==> 0.0 <= t < total)
      && (RateAt(stages, t).Some? ==> RateAt(stages, t).value.0 == p.low || RateAt(stages, t).value.1 == p.low)
  {
    hide RateAt, Tiles, StageMap, Build;
    var b := 2 * cycles;
    var s := Build(p, b);
    BuildTiles(p, b);
    EndTimeTotal(p, b);
    var total := LeadTime(p) + (2 * cycles) as real * p.phase + (2 * cycles - 1) as real * BandTime(p);
    assert EndTime(p, b) == total;
    StagesTile(s, window, 0.0, EndTime(p, b));
    StagesSameLoad(s, window, t);
    TilesCover(s, 0.0, EndTime(p, b), t);
    if RateAt(s, t).Some? {
      RateAtIs(s, t);
      var i :| 0 <= i < |s| && RateAt(s, t).value == (s[i].ra, s[i].rb);
      BuildNeverBothHigh(p, b, i);
    }
  }

  // Rises.

  /** The indices of the stages where the model's rate went up. */
  function RiseStages(st: seq<Phase>, a: bool): (ix: seq<nat>)
    ensures forall j :: 0 <= j < |ix| ==> ix[j] < |st|
  {
    if st == [] then []
    else
      var n := |st| - 1;
      RiseStages(st[..n], a) + if n > 0 && Rate(st[n], a) > Rate(st[n - 1], a) then [n] else []
  }

  method RiseStagesLoop(st: seq<Phase>, a: bool) returns (ix: seq<nat>)
    ensures ix == RiseStages(st, a)
  {
    ix := [];
    var prev: Option<real> := None;
    for i := 0 to |st|
      invariant ix == RiseStages(st[..i], a)
      invariant prev == if i == 0 then None else Some(Rate(st[i - 1], a))
    {
      assert st[..i + 1][..i] == st[..i];
      var rate := Rate(st[i], a);
      if prev.Some? && rate > prev.value {
        ix := ix + [i];
      }
      prev := Some(rate);
    }
    assert st[..|st|] == st;
  }

  function Windows(st: seq<Phase>, ix: seq<nat>): (ws: seq<(real, real)>)
    requires forall j :: 0 <= j < |ix| ==> ix[j] < |st|
    ensures |ws| == |ix| && forall j :: 0 <= j < |ix| ==> ws[j] == (st[ix[j]].start, st[ix[j]].end)
  {
    seq(|ix|, j requires 0 <= j < |ix| => (st[ix[j]].start, st[ix[j]].end))
  }

  /** The openings of a model's bursts among the first b, a burst that opens the
      run excepted: the rise window, or the whole burst when that is shorter. */
  function Openings(p: Params, window: real, a: bool, b: nat): seq<(real, real)> {
    if b == 0 then []
    else
      var start := BurstStart(p, b - 1);
      Openings(p, window, a, b - 1)
      + if BurstOf(a, b - 1) && (b > 1 || p.leadIn > 0.0)
        then [(start, start + if p.phase > window > 0.0 then window else p.phase)] else []
  }

  function Rises(st: seq<Phase>, a: bool): seq<(real, real)> {
    Windows(st, RiseStages(st, a))
  }

  lemma RisesAppend(st: seq<Phase>, ph: Phase, a: bool)
    ensures Rises(st + [ph], a)
         == Rises(st, a) + if st != [] && Rate(ph, a) > Rate(st[|st| - 1], a) then [(ph.start, ph.end)] else []
  {
    assert (st + [ph])[..|st|] == st;
  }

  lemma StagesLast(s: seq<Phase>, window: real)
    ensures s == [] <==> StageMap(s, window) == []
    ensures s != [] ==> var st := StageMap(s, window);
      st[|st| - 1].ra == s[|s| - 1].ra && st[|st| - 1].rb == s[|s| - 1].rb
  {
  }

  /** What one more phase adds to the rises. */
  lemma RisesStep(s: seq<Phase>, ph: Phase, window: real, a: bool)
    ensures Rises(StageMap(s + [ph], window), a)
         == Rises(StageMap(s, window), a)
            + if s != [] && Rate(ph, a) > Rate(s[|s| - 1], a)
              then [(ph.start, if ph.end - ph.start > window > 0.0 then ph.start + window else ph.end)] else []
  {
    hide Rises, StageMap;
    var st, c := StageMap(s, window), Cut(ph, Last(s), window);
    StageMapAppend(s, ph, window);
    StagesLast(s, window);
    RisesAppend(st, c[0], a);
    if |c| == 2 {
      RisesAppend(st + [c[0]], c[1], a);
      assert st + c == st + [c[0]] + [c[1]];
    } else {
      assert st + c == st + [c[0]];
    }
  }

  /** The rise stages of a model are exactly the openings of its bursts. */
  lemma {:induction false} RisesAreOpenings(p: Params, window: real, a: bool, b: nat)
    requires p.low < p.highA && p.low < p.highB
    ensures Rises(StageMap(Build(p, b), window), a) == Openings(p, window, a, b)
  {
    hide Rises, StageMap, Build;
    if b == 0 {
      NoRises(p, window, a);
    } else {
      RisesAreOpenings(p, window, a, b - 1);
      BurstRises(p, window, a, b - 1);
      BuildStep(p, b - 1);
    }
  }

  lemma NoRises(p: Params, window: real, a: bool)
    ensures Rises(StageMap(Build(p, 0), window), a) == []
  {
    var s := Build(p, 0);
    assert StageMap([], window) == [];
    if s != [] {
      RisesStep([], s[0], window, a);
      assert s == [] + [s[0]];
    }
  }

  /** One more burst adds its opening to its own model's rises, and nothing else. */
  lemma BurstRises(p: Params, window: real, a: bool, b: nat)
    requires p.low < p.highA && p.low < p.highB
    ensures Rises(StageMap(Build(p, b) + Band(p, b) + [Burst(p, b)], window), a)
         == Rises(StageMap(Build(p, b), window), a)
            + if BurstOf(a, b) && (b > 0 || p.leadIn > 0.0)
              then [(BurstStart(p, b), BurstStart(p, b) + if p.phase > window > 0.0 then window else p.phase)] else []
  {
    hide Rises, StageMap, Build, EndTime, BurstOf;
    var s, band := Build(p, b), Band(p, b);
    var quiet := s + band;
    QuietRises(p, window, a, b);
    RisesStep(quiet, Burst(p, b), window, a);
    QuietEnds(p, a, b);
  }

  lemma QuietRises(p: Params, window: real, a: bool, b: nat)
    requires p.low < p.highA && p.low < p.highB
    ensures Rises(StageMap(Build(p, b) + Band(p, b), window), a) == Rises(StageMap(Build(p, b), window), a)
  {
    hide Rises, StageMap, EndTime;
    var s, band := Build(p, b), Band(p, b);
    BuildLast(p, b);
    if band == [] {
      assert s + band == s;
    } else {
      RisesStep(s, band[0], window, a);
      assert s + band == s + [band[0]];
    }
  }

  /** Before a burst the model it belongs to is low, and the other not below. */
  lemma QuietEnds(p: Params, a: bool, b: nat)
    requires p.low < p.highA && p.low < p.highB
    ensures var q := Build(p, b) + Band(p, b);
      && (q == [] <==> b == 0 && p.leadIn <= 0.0)
      && (q != [] ==> (Rate(Burst(p, b), a) > Rate(q[|q| - 1], a) <==> BurstOf(a, b)))
  {
    BuildEmpty(p, b);
    BuildLast(p, b);
    hide EndTime;
    var q := Build(p, b) + Band(p, b);
    if b == 0 && q != [] {
      assert q == [Phase(0.0, p.leadIn, p.low, p.low)];
    } else if b > 0 && Band(p, b) == [] {
      assert q == Build(p, b);
    }
  }

  /** The schedule ends in its last burst, which had the other model low. */
  lemma BuildLast(p: Params, b: nat)
    ensures b > 0 ==> Build(p, b) != [] && Build(p, b)[|Build(p, b)| - 1] == Burst(p, b - 1)
  {
  }

  // Which phases are cut.

  /** A burst as it is run: whole when it opens the run or is no longer than the
      rise window, else its first window seconds and the rest. */
  function BurstStages(p: Params, window: real, b: nat): seq<Phase> {
    var ph := Burst(p, b);
    if (b > 0 || p.leadIn > 0.0) && p.phase > window > 0.0 then
      [ph.(end := ph.start + window), ph.(start := ph.start + window)]
    else [ph]
  }

  /** Lead-in and bands whole, and every burst as it is run. */
  function Stages(p: Params, window: real, b: nat): seq<Phase> {
    if b == 0 then (if p.leadIn > 0.0 then [Phase(0.0, p.leadIn, p.low, p.low)] else [])
    else Stages(p, window, b - 1) + Band(p, b - 1) + BurstStages(p, window, b - 1)
  }

  lemma BurstCut(p: Params, window: real, b: nat)
    requires p.low < p.highA && p.low < p.highB
    ensures Cut(Burst(p, b), Last(Build(p, b) + Band(p, b)), window) == BurstStages(p, window, b)
  {
    hide Build, EndTime;
    QuietEnds(p, true, b);
    QuietEnds(p, false, b);
  }

  lemma BandWhole(p: Params, window: real, b: nat)
    requires p.low <= p.highA && p.low <= p.highB
    ensures StageMap(Build(p, b) + Band(p, b), window) == StageMap(Build(p, b), window) + Band(p, b)
  {
    BuildLast(p, b);
    hide Build, StageMap, EndTime;
    var s, band := Build(p, b), Band(p, b);
    if band == [] {
      assert s + band == s && StageMap(s, window) + band == StageMap(s, window);
    } else {
      StageMapAppend(s, band[0], window);
      assert band == [band[0]];
    }
  }

  /** The stages of a generated schedule: the lead-in and every band whole, and every
      burst that does not open the run cut at the rise window if it is longer. */
  lemma {:induction false} StagesAre(p: Params, window: real, b: nat)
    requires p.low < p.highA && p.low < p.highB
    ensures StageMap(Build(p, b), window) == Stages(p, window, b)
  {
    hide StageMap, Build, Burst, Band, Cut;
    if b == 0 {
      OnlyLeadIn(p, window);
      BuildZero(p);
    } else {
      StagesAre(p, window, b - 1);
      BuildStep(p, b - 1);
      var quiet := Build(p, b - 1) + Band(p, b - 1);
      BandWhole(p, window, b - 1);
      StageMapAppend(quiet, Burst(p, b - 1), window);
      BurstCut(p, window, b - 1);
    }
  }

  lemma OnlyLeadIn(p: Params, window: real)
    ensures StageMap(Build(p, 0), window) == Build(p, 0)
  {
    BuildZero(p);
    hide Build;
    var none: seq<Phase> := [];
    assert StageMap(none, window) == none;
    if p.leadIn > 0.0 {
      hide StageMap;
      var ph := Phase(0.0, p.leadIn, p.low, p.low);
      StageMapAppend(none, ph, window);
      assert none + [ph] == [ph];
    }
  }
}

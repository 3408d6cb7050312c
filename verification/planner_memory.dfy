/** What a run remembers and adds up, said of the demand itself: the samples it
    keeps, the need it delivers to the planner, and the shortfall it counts. */
module PlannerMemory {
  import opened Options
  import opened PlannerTypes
  import opened Planner
  import opened PlannerSafety
  import opened PlannerCauses
  import opened PlannerProgress
  import IT = IntegerTargets

  /** What role r needs at cycle j: its demand over the scale-up threshold. */
  ghost function Need(cfg: Config, r: nat, j: int): real {
    cfg.demand(CYCLE * j, r) / K
  }

  /** The samples of cycles a to b - 1. */
  ghost function History(cfg: Config, r: nat, a: int, b: int): (xs: seq<Sample>)
    requires a <= b
    ensures |xs| == b - a && forall i :: 0 <= i < b - a ==> xs[i] == Sample(CYCLE * (a + i), Need(cfg, r, a + i))
  {
    seq(b - a, i requires 0 <= i < b - a => Sample(CYCLE * (a + i), Need(cfg, r, a + i)))
  }

  /** The oldest cycle whose sample cycle k still has. */
  ghost function Oldest(cfg: Config, k: nat): (a: nat)
    ensures a <= k
  {
    var span := Horizon(cfg.rules) / CYCLE;
    if k <= span then 0 else k - span
  }

  lemma HistoryStep(cfg: Config, r: nat, a: int, b: int)
    requires a < b
    ensures History(cfg, r, a, b) == [Sample(CYCLE * a, Need(cfg, r, a))] + History(cfg, r, a + 1, b)
    ensures History(cfg, r, a, b) == History(cfg, r, a, b - 1) + [Sample(CYCLE * (b - 1), Need(cfg, r, b - 1))]
  {
  }

  /** Dropping what is older than the horizon leaves the samples of the last cycles. */
  lemma {:induction false} FreshIs(cfg: Config, r: nat, a: int, b: int, t: int, horizon: int, c: int)
    requires a <= c <= b && forall j :: a <= j < b ==> (t - CYCLE * j <= horizon <==> c <= j)
    ensures Fresh(History(cfg, r, a, b), t, horizon) == History(cfg, r, c, b)
    decreases b - a
  {
    if a < b {
      HistoryStep(cfg, r, a, b);
      var x, rest := Sample(CYCLE * a, Need(cfg, r, a)), History(cfg, r, a + 1, b);
      assert ([x] + rest)[1..] == rest;
      if a < c {
        FreshIs(cfg, r, a + 1, b, t, horizon, c);
      } else {
        FreshIs(cfg, r, a + 1, b, t, horizon, a + 1);
      }
    }
  }

  /** The values whose age lies between two bounds are those of the cycles between. */
  lemma {:induction false} ValuesAre(cfg: Config, r: nat, a: int, b: int, t: int, lo: int, hi: int, c: int, d: int)
    requires a <= c <= d <= b && forall j :: a <= j < b ==> (lo <= t - CYCLE * j <= hi <==> c <= j < d)
    ensures Values(History(cfg, r, a, b), t, lo, hi) == Needs(cfg, r, c, d)
    decreases b - a
  {
    hide Values, History, Need;
    if a == b {
      NothingAtAll(cfg, r, a, t, lo, hi);
    } else {
      HistoryStep(cfg, r, a, b);
      ValuesStep(Sample(CYCLE * a, Need(cfg, r, a)), History(cfg, r, a + 1, b), t, lo, hi);
      if a < c {
        ValuesAre(cfg, r, a + 1, b, t, lo, hi, c, d);
      } else if a < d {
        ValuesAre(cfg, r, a + 1, b, t, lo, hi, a + 1, d);
        assert Needs(cfg, r, c, d) == [Need(cfg, r, a)] + Needs(cfg, r, a + 1, d);
      } else {
        ValuesAre(cfg, r, a + 1, b, t, lo, hi, a + 1, a + 1);
      }
    }
  }

  lemma NothingAtAll(cfg: Config, r: nat, a: int, t: int, lo: int, hi: int)
    ensures Values(History(cfg, r, a, a), t, lo, hi) == []
  {
  }

  lemma ValuesStep(x: Sample, rest: seq<Sample>, t: int, lo: int, hi: int)
    ensures Values([x] + rest, t, lo, hi)
         == if lo <= t - x.at <= hi then [x.value] + Values(rest, t, lo, hi) else Values(rest, t, lo, hi)
  {
    assert ([x] + rest)[1..] == rest;
  }

  ghost function Needs(cfg: Config, r: nat, a: int, b: int): (vs: seq<real>)
    requires a <= b
    ensures |vs| == b - a && forall i :: 0 <= i < b - a ==> vs[i] == Need(cfg, r, a + i)
  {
    seq(b - a, i requires 0 <= i < b - a => Need(cfg, r, a + i))
  }

  // What is kept.

  lemma KeptCycles(cfg: Config, k: nat, a: nat)
    requires a == (if k == 0 then 0 else Oldest(cfg, k - 1))
    ensures a <= Oldest(cfg, k)
    ensures forall j :: a <= j < k ==> (CYCLE * k - CYCLE * j <= Horizon(cfg.rules) <==> Oldest(cfg, k) <= j)
  {
    forall j | a <= j < k
      ensures CYCLE * k - CYCLE * j <= Horizon(cfg.rules) <==> Oldest(cfg, k) <= j
    {
      WithinSpan(k - j, Horizon(cfg.rules));
    }
  }

  lemma ObserveHistory(cfg: Config, sig: Signals, k: nat, r: nat, a: nat)
    requires SignalsFit(|cfg.roles|, sig) && r < |cfg.roles| && a == (if k == 0 then 0 else Oldest(cfg, k - 1))
    requires sig.seen[r] == History(cfg, r, a, k)
    ensures Observe(cfg, sig, CYCLE * k, Instant(cfg, CYCLE * k)).seen[r] == History(cfg, r, Oldest(cfg, k), k + 1)
  {
    hide Horizon, Oldest, Fresh, History;
    var c := Oldest(cfg, k);
    KeptCycles(cfg, k, a);
    FreshIs(cfg, r, a, k, CYCLE * k, Horizon(cfg.rules), c);
    HistoryStep(cfg, r, c, k + 1);
  }

  lemma WithinSpan(n: int, h: int)
    requires h >= 0
    ensures CYCLE * n <= h <==> n <= h / CYCLE
  {
  }

  /** A cycle changes what is remembered only by observing. */
  lemma CycleKeepsSeen(cfg: Config, s: State)
    requires ValidRoles(cfg.roles) && StateFits(cfg, s)
    ensures Cycle(cfg, s).sig.seen == Arrive(cfg, s).sig.seen
  {
    hide Arrive, CancelAll, Confirm, Admit, PlanOf;
    if cfg.rules.Some? {
      var rules, a := cfg.rules.value, Arrive(cfg, s);
      var plan := PlanOf(cfg, rules, a);
      var f := CancelAll(cfg.roles, rules, plan, a.fleet, a.fleet.inflight);
      AdmitKeeps(cfg.roles, rules, plan, f, a.sig.(actCnt := Confirm(cfg.roles, rules, plan, Base(rules, f), a.sig.actCnt)));
    }
  }

  lemma RunClock(cfg: Config, k: nat)
    requires ValidRoles(cfg.roles)
    ensures Run(cfg, k).fleet.t == CYCLE * k
  {
    hide Good, Punctual, Cycle;
    RunGood(cfg, 0, k);
  }

  /** In every run the deciding state of cycle k has the samples of every cycle that
      is not older than the horizon, up to and including its own, and no other. */
  lemma {:induction false} RunRemembers(cfg: Config, k: nat, r: nat)
    requires ValidRoles(cfg.roles) && r < |cfg.roles|
    ensures Deciding(cfg, k).sig.seen[r] == History(cfg, r, Oldest(cfg, k), k + 1)
  {
    hide Cycle, Observe, Oldest, History, CountTo, Land, Fill;
    var s := Run(cfg, k);
    RunClock(cfg, k);
    ArriveClock(cfg, s);
    if k == 0 {
      NothingSeen(cfg, r);
    } else {
      var before := Run(cfg, k - 1);
      RunRemembers(cfg, k - 1, r);
      CycleKeepsSeen(cfg, before);
      assert s == Cycle(cfg, before);
    }
    ObserveHistory(cfg, s.sig, k, r, if k == 0 then 0 else Oldest(cfg, k - 1));
  }

  lemma ArriveClock(cfg: Config, s: State)
    requires StateFits(cfg, s)
    ensures Arrive(cfg, s).fleet.t == s.fleet.t
    ensures Arrive(cfg, s).sig == Observe(cfg, s.sig, s.fleet.t, Instant(cfg, s.fleet.t))
  {
    ArriveKeeps(cfg, s);
    hide Observe, Land, Fill, CountTo, Instant;
  }

  lemma NothingSeen(cfg: Config, r: nat)
    requires ValidRoles(cfg.roles) && r < |cfg.roles|
    ensures Run(cfg, 0).sig.seen[r] == History(cfg, r, 0, 0)
  {
  }

  // What is delivered.

  ghost function Summed(cfg: Config, r: nat, a: int, b: int): real
    requires a <= b
    decreases b - a
  {
    if a == b then 0.0 else Need(cfg, r, a) + Summed(cfg, r, a + 1, b)
  }

  /** The mean need of the cycles a to b - 1. */
  ghost function Mean(cfg: Config, r: nat, a: int, b: int): real
    requires a < b
  {
    Summed(cfg, r, a, b) / (b - a) as real
  }

  lemma {:induction false} TotalIs(cfg: Config, r: nat, a: int, b: int)
    requires a <= b
    ensures Total(Needs(cfg, r, a, b)) == Summed(cfg, r, a, b)
    decreases b - a
  {
    if a < b {
      TotalIs(cfg, r, a + 1, b);
      assert Needs(cfg, r, a, b)[1..] == Needs(cfg, r, a + 1, b);
    }
  }

  /** Cycle k, or the first one if it comes before. */
  function NotBefore(k: int): (j: nat)
    ensures j == if k < 0 then 0 else k
  {
    if k < 0 then 0 else k
  }

  lemma MeanIs(cfg: Config, r: nat, k: nat, lo: nat, hi: nat, c: nat, d: nat)
    requires Oldest(cfg, k) <= c <= d <= k + 1
    requires forall j :: Oldest(cfg, k) <= j <= k ==> (lo <= CYCLE * k - CYCLE * j <= hi <==> c <= j < d)
    ensures MeanOr(Values(History(cfg, r, Oldest(cfg, k), k + 1), CYCLE * k, lo, hi), Need(cfg, r, k))
         == if c == d then Need(cfg, r, k) else Mean(cfg, r, c, d)
  {
    hide Oldest, Values, Total, Summed;
    ValuesAre(cfg, r, Oldest(cfg, k), k + 1, CYCLE * k, lo, hi, c, d);
    TotalIs(cfg, r, c, d);
  }

  lemma OldEnough(cfg: Config, k: nat)
    ensures Oldest(cfg, k) <= NotBefore(k - HOLD / CYCLE)
    ensures cfg.rules.Some? ==> Oldest(cfg, k) <= NotBefore(k - cfg.rules.value.swingW / CYCLE)
  {
  }

  /** The need delivered in cycle k is the mean of the demand of the cycles LAG to
      2 LAG ago, three of them once the run is that old, and the demand of the moment
      before there are any. For a damped role it is the mean over the swing window. */
  lemma NeedDelivered(cfg: Config, rules: Rules, k: nat, r: nat)
    requires ValidRoles(cfg.roles) && cfg.rules == Some(rules) && r < |cfg.roles|
    ensures var s := Deciding(cfg, k);
      NeedSeen(cfg, rules, s)[r]
      == if rules.swing.SwingMean? && CYCLE * k < s.sig.dampedUntil[r] then
           Mean(cfg, r, NotBefore(k - rules.swingW / CYCLE), k + 1)
         else if k < 2 then Need(cfg, r, k)
         else Mean(cfg, r, NotBefore(k - 4), k - 1)
  {
    hide Mean, Oldest, Values, MeanOr, Arrive, Run, IT.Integer, PeakOr;
    RunClock(cfg, k);
    ArriveClock(cfg, Run(cfg, k));
    RunRemembers(cfg, k, r);
    OldEnough(cfg, k);
    var a := NotBefore(k - rules.swingW / CYCLE);
    forall j | Oldest(cfg, k) <= j <= k
      ensures 0 <= CYCLE * k - CYCLE * j <= rules.swingW <==> a <= j < k + 1
    {
      WithinSpan(k - j, rules.swingW);
    }
    MeanIs(cfg, r, k, 0, rules.swingW, a, k + 1);
    MeanIs(cfg, r, k, LAG, 2 * LAG, NotBefore(k - 4), NotBefore(k - 1));
  }

  /** The three cycles, named. */
  lemma ThreeCycles(cfg: Config, r: nat, k: nat)
    requires k >= 4
    ensures Mean(cfg, r, k - 4, k - 1) == (Need(cfg, r, k - 4) + Need(cfg, r, k - 3) + Need(cfg, r, k - 2)) / 3.0
  {
    assert Summed(cfg, r, k - 1, k - 1) == 0.0;
    assert Summed(cfg, r, k - 2, k - 1) == Need(cfg, r, k - 2);
    assert Summed(cfg, r, k - 3, k - 1) == Need(cfg, r, k - 3) + Need(cfg, r, k - 2);
  }

  /** p is the largest need of the cycles a to k. */
  ghost predicate IsPeak(cfg: Config, r: nat, a: nat, k: nat, p: real) {
    && (exists j: nat :: a <= j <= k && p == Need(cfg, r, j))
    && forall j: nat :: a <= j <= k ==> Need(cfg, r, j) <= p
  }

  lemma {:induction false} PeakIsMax(vs: seq<real>, default: real)
    requires vs != []
    ensures PeakOr(vs, default) in vs && forall v :: v in vs ==> v <= PeakOr(vs, default)
  {
    if |vs| > 1 {
      PeakIsMax(vs[1..], vs[0]);
    }
    assert forall v :: v in vs ==> v == vs[0] || v in vs[1..];
  }

  lemma PeakSeen(cfg: Config, k: nat, r: nat)
    requires ValidRoles(cfg.roles) && r < |cfg.roles|
    ensures IsPeak(cfg, r, NotBefore(k - HOLD / CYCLE), k,
                   PeakOr(Values(Deciding(cfg, k).sig.seen[r], CYCLE * k, 0, HOLD), Need(cfg, r, k)))
  {
    hide Oldest, Values, Deciding, PeakOr, IsPeak;
    RunRemembers(cfg, k, r);
    OldEnough(cfg, k);
    var a := NotBefore(k - HOLD / CYCLE);
    ValuesAre(cfg, r, Oldest(cfg, k), k + 1, CYCLE * k, 0, HOLD, a, k + 1);
    PeakOfNeeds(cfg, r, a, k);
  }

  lemma PeakOfNeeds(cfg: Config, r: nat, a: nat, k: nat)
    requires a <= k
    ensures IsPeak(cfg, r, a, k, PeakOr(Needs(cfg, r, a, k + 1), Need(cfg, r, k)))
  {
    hide PeakOr, Need;
    var vs := Needs(cfg, r, a, k + 1);
    var p := PeakOr(vs, Need(cfg, r, k));
    PeakIsMax(vs, Need(cfg, r, k));
    var i :| 0 <= i < |vs| && vs[i] == p;
    var at: nat := a + i;
    assert p == Need(cfg, r, at);
    forall j: nat | a <= j <= k
      ensures Need(cfg, r, j) <= p
    {
      assert vs[j - a] in vs;
    }
  }

  /** What a role may give away follows its largest need over the last HOLD seconds
      with the slow-giving rule, and its integer target without. */
  lemma GiveTarget(cfg: Config, rules: Rules, k: nat) returns (peak: seq<real>)
    requires ValidRoles(cfg.roles) && cfg.rules == Some(rules)
    ensures |peak| == |cfg.roles|
    ensures forall r: nat :: r < |cfg.roles| ==> IsPeak(cfg, r, NotBefore(k - HOLD / CYCLE), k, peak[r])
    ensures var s := Deciding(cfg, k);
      PlanOf(cfg, rules, s).give
      == IT.Integer(cfg.roles, if rules.slowGiving then peak else NeedSeen(cfg, rules, s), cfg.B)
  {
    hide Arrive, Run, IT.Integer, PeakOr, Values, NeedOf, IsPeak;
    RunClock(cfg, k);
    ArriveClock(cfg, Run(cfg, k));
    var s, n := Deciding(cfg, k), |cfg.roles|;
    peak := seq(n, r requires 0 <= r < n => PeakOr(Values(s.sig.seen[r], CYCLE * k, 0, HOLD), Need(cfg, r, k)));
    forall r: nat | r < n
      ensures IsPeak(cfg, r, NotBefore(k - HOLD / CYCLE), k, peak[r])
    {
      PeakSeen(cfg, k, r);
    }
    var inst := Instant(cfg, CYCLE * k);
    assert peak == seq(n, r requires 0 <= r < n => PeakOr(Values(s.sig.seen[r], CYCLE * k, 0, HOLD), inst[r]));
  }

  // What is added up.

  /** How much of a need is not served. */
  function Gap(need: real, serving: int): real {
    if need > serving as real then need - serving as real else 0.0
  }

  /** The same four sums over the first n roles in cycle j: the unserved need and the
      need, plain and weighted. */
  ghost function Short(cfg: Config, j: nat, n: nat): (c: Totals)
    requires ValidRoles(cfg.roles) && n <= |cfg.roles|
  {
    if n == 0 then Totals(0.0, 0.0, 0.0, 0.0)
    else
      var c, r := Short(cfg, j, n - 1), n - 1;
      var need, w := Need(cfg, r, j), cfg.roles[r].w;
      Tally(c, w, Gap(need, Deciding(cfg, j).fleet.serving[r]), need)
  }

  ghost function Tally(c: Totals, w: real, gap: real, need: real): Totals {
    Totals(c.short + gap, c.total + need, c.wshort + w * gap, c.wtotal + w * need)
  }

  lemma CountedIsTally(s: Totals, c: Totals, w: real, gap: real, need: real)
    ensures Counted(Add4(s, c), w, gap, need) == Add4(s, Tally(c, w, gap, need))
  {
  }

  ghost function Add4(a: Totals, b: Totals): Totals {
    Totals(a.short + b.short, a.total + b.total, a.wshort + b.wshort, a.wtotal + b.wtotal)
  }

  ghost function ShortUpTo(cfg: Config, k: nat): Totals
    requires ValidRoles(cfg.roles)
  {
    if k == 0 then Totals(0.0, 0.0, 0.0, 0.0) else Add4(ShortUpTo(cfg, k - 1), Short(cfg, k - 1, |cfg.roles|))
  }

  lemma {:induction false} CountIs(cfg: Config, j: nat, s: Totals, n: nat)
    requires ValidRoles(cfg.roles) && n <= |cfg.roles|
    ensures CountTo(cfg.roles, Instant(cfg, CYCLE * j), Deciding(cfg, j).fleet.serving, s, n) == Add4(s, Short(cfg, j, n))
  {
    hide Deciding, Shortfall, Gap, Counted, Tally, Add4, Instant, Need;
    if n == 0 {
      AddNothing(s);
    } else {
      InstantIs(cfg, j, n - 1);
      var need, serving := Need(cfg, n - 1, j), Deciding(cfg, j).fleet.serving[n - 1];
      CountIs(cfg, j, s, n - 1);
      ShortfallIsGap(need, serving);
      CountedIsTally(s, Short(cfg, j, n - 1), cfg.roles[n - 1].w, Gap(need, serving), need);
    }
  }

  lemma AddNothing(s: Totals)
    ensures Add4(s, Totals(0.0, 0.0, 0.0, 0.0)) == s
  {
  }

  lemma InstantIs(cfg: Config, j: nat, r: nat)
    requires r < |cfg.roles|
    ensures Instant(cfg, CYCLE * j)[r] == Need(cfg, r, j)
  {
  }

  lemma ShortfallIsGap(need: real, serving: int)
    ensures Shortfall(need, serving) == Gap(need, serving)
  {
  }

  /** The figures a run reports are the need that was not served and the need, summed
      over every role and every cycle, plain and weighted. */
  lemma {:induction false} RunCounts(cfg: Config, k: nat)
    requires ValidRoles(cfg.roles)
    ensures Run(cfg, k).sums == ShortUpTo(cfg, k)
  {
    hide Cycle, Arrive, Short, CountTo, Add4, Instant;
    if k == 0 {
      NothingCounted(cfg);
    } else {
      var s := Run(cfg, k - 1);
      RunCounts(cfg, k - 1);
      RunClock(cfg, k - 1);
      CycleSums(cfg, s);
      assert Run(cfg, k) == Cycle(cfg, s);
      CountIs(cfg, k - 1, s.sums, |cfg.roles|);
    }
  }

  lemma NothingCounted(cfg: Config)
    requires ValidRoles(cfg.roles)
    ensures Run(cfg, 0).sums == Totals(0.0, 0.0, 0.0, 0.0)
  {
  }

  lemma CycleSums(cfg: Config, s: State)
    requires ValidRoles(cfg.roles) && StateFits(cfg, s)
    ensures Cycle(cfg, s).sums
         == CountTo(cfg.roles, Instant(cfg, s.fleet.t), Arrive(cfg, s).fleet.serving, s.sums, |cfg.roles|)
  {
    ArriveKeeps(cfg, s);
    hide Land, Fill, CountTo, Instant, PlanOf, CancelAll, Admit, Observe;
  }
}

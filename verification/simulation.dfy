/** The simulator as the loops it is made of, each proved to compute the phase
    it implements, and the report of a whole run. */
module Simulation {
  import opened Options
  import opened PlannerTypes
  import opened Planner
  import opened PlannerSafety
  import opened PlannerMemory

  method LandLoop(n: nat, f0: Fleet) returns (f: Fleet)
    requires Fits(n, f0)
    ensures Fits(n, f) && f == Land(n, f0)
  {
    f := f0;
    var due := Due(f0.inflight, f0.t);
    for i := 0 to |due|
      invariant Fits(n, f) && forall x :: x in due ==> ValidTransfer(n, x)
      invariant forall x :: x in due[i..] ==> x in due
      invariant LandAll(n, f, due[i..]) == Land(n, f0)
    {
      assert due[i..][0] == due[i] && due[i..][1..] == due[i + 1..];
      f := LandOne(n, f, due[i]);
    }
  }

  method FillLoop(n: nat, f0: Fleet) returns (f: Fleet)
    requires Fits(n, f0)
    ensures Fits(n, f) && f == Fill(n, f0)
  {
    f := f0;
    var full := Full(f0.filling, f0.t);
    for i := 0 to |full|
      invariant Fits(n, f) && forall x :: x in full ==> x.rc < n
      invariant forall x :: x in full[i..] ==> x in full
      invariant FillAll(n, f, full[i..]) == Fill(n, f0)
    {
      assert full[i..][0] == full[i] && full[i..][1..] == full[i + 1..];
      f := FillOne(n, f, full[i]);
    }
  }

  method CancelLoop(roles: seq<Role>, rules: Rules, plan: Plan, f0: Fleet) returns (f: Fleet)
    requires ValidRoles(roles) && PlanFits(|roles|, plan) && Fits(|roles|, f0)
    ensures Fits(|roles|, f) && f == CancelAll(roles, rules, plan, f0, f0.inflight)
  {
    f := f0;
    var todo := f0.inflight;
    for i := 0 to |todo|
      invariant Fits(|roles|, f)
      invariant forall x :: x in todo[i..] ==> x in todo
      invariant CancelAll(roles, rules, plan, f, todo[i..]) == CancelAll(roles, rules, plan, f0, todo)
    {
      assert todo[i..][0] == todo[i] && todo[i..][1..] == todo[i + 1..];
      if ShouldCancel(roles, rules, plan, f, todo[i]) {
        f := CancelOne(|roles|, rules, f, todo[i]);
      }
    }
  }

  /** Committed accounting, one transfer at a time. */
  method CommittedLoop(held: seq<int>, xs: seq<Transfer>) returns (c: seq<int>)
    requires forall x :: x in xs ==> ValidTransfer(|held|, x)
    ensures c == Committed(held, xs)
  {
    c := held;
    for i := 0 to |xs|
      invariant |c| == |held|
      invariant forall r :: 0 <= r < |held| ==> c[r] == held[r] - Gifts(xs[..i], r) + Receipts(xs[..i], r)
    {
      var x := xs[i];
      assert x in xs && xs[..i + 1] == xs[..i] + [x];
      forall r | 0 <= r < |held|
        ensures Gifts(xs[..i + 1], r) == Gifts(xs[..i], r) + (if x.dn == r then x.g else 0)
        ensures Receipts(xs[..i + 1], r) == Receipts(xs[..i], r) + (if x.rc == r then x.g else 0)
      {
        FlowAppend(xs[..i], x, r);
      }
      c := Add(Add(c, x.dn, -x.g), x.rc, x.g);
    }
    assert xs[..|xs|] == xs;
  }

  method AdmitRowLoop(roles: seq<Role>, rules: Rules, plan: Plan, p0: Pass, rc: nat, donors: seq<nat>)
    returns (p: Pass)
    requires ValidRoles(roles) && PlanFits(|roles|, plan) && PassFits(|roles|, p0) && rc < |roles|
    requires forall d :: d in donors ==> d < |roles| && d != rc
    ensures PassFits(|roles|, p) && p == AdmitRow(roles, rules, plan, p0, rc, donors)
  {
    p := p0;
    for j := 0 to |donors|
      invariant PassFits(|roles|, p)
      invariant forall d :: d in donors[j..] ==> d in donors
      invariant AdmitRow(roles, rules, plan, p, rc, donors[j..]) == AdmitRow(roles, rules, plan, p0, rc, donors)
    {
      assert donors[j..][0] == donors[j] && donors[j..][1..] == donors[j + 1..] && donors[j] in donors;
      if Admissible(roles, rules, plan, p, rc, donors[j]) {
        p := Start(roles, rules, p, rc, donors[j]);
      }
    }
  }

  method AdmitLoop(roles: seq<Role>, rules: Rules, plan: Plan, p0: Pass, recv: seq<nat>, donors: seq<nat>)
    returns (p: Pass)
    requires ValidRoles(roles) && PlanFits(|roles|, plan) && PassFits(|roles|, p0)
    requires forall d :: d in donors ==> d < |roles| && d !in recv
    requires forall r :: r in recv ==> r < |roles|
    ensures PassFits(|roles|, p) && p == AdmitAll(roles, rules, plan, p0, recv, donors)
  {
    p := p0;
    for i := 0 to |recv|
      invariant PassFits(|roles|, p)
      invariant forall r :: r in recv[i..] ==> r in recv
      invariant AdmitAll(roles, rules, plan, p, recv[i..], donors) == AdmitAll(roles, rules, plan, p0, recv, donors)
    {
      assert recv[i..][0] == recv[i] && recv[i..][1..] == recv[i + 1..] && recv[i] in recv;
      p := AdmitRowLoop(roles, rules, plan, p, recv[i], donors);
    }
  }

  /** Landing i is undone: within RELEASE after it another landing brings its donor
      a replica, or takes one from its receiver. */
  ghost predicate Reversed(ls: seq<Landing>, i: int) {
    && 0 <= i < |ls|
    && exists j :: 0 <= j < |ls| && ls[i].time < ls[j].time <= ls[i].time + RELEASE
                   && (ls[j].tr.rc == ls[i].tr.dn || ls[j].tr.dn == ls[i].tr.rc)
  }

  lemma {:induction false} WastedIs(ls: seq<Landing>, n: nat)
    requires n <= |ls|
    ensures Wasted(ls, n) == |set i | 0 <= i < n && Reversed(ls, i)|
  {
    hide Reversed, Undone;
    if n == 0 {
      assert (set i | 0 <= i < n && Reversed(ls, i)) == {};
    } else {
      WastedIs(ls, n - 1);
      UndoneIs(ls, n - 1);
      OneMore(ls, n - 1);
    }
  }

  lemma OneMore(ls: seq<Landing>, n: nat)
    ensures |set i | 0 <= i < n + 1 && Reversed(ls, i)|
         == |set i | 0 <= i < n && Reversed(ls, i)| + if Reversed(ls, n) then 1 else 0
  {
    hide Reversed;
    var before, now := set i | 0 <= i < n && Reversed(ls, i), set i | 0 <= i < n + 1 && Reversed(ls, i);
    if Reversed(ls, n) {
      assert now == before + {n};
    } else {
      assert now == before;
    }
  }

  lemma UndoneIs(ls: seq<Landing>, i: nat)
    requires i < |ls|
    ensures Undone(ls, i) <==> Reversed(ls, i)
  {
    if Reversed(ls, i) {
      var j :| 0 <= j < |ls| && ls[i].time < ls[j].time <= ls[i].time + RELEASE
               && (ls[j].tr.rc == ls[i].tr.dn || ls[j].tr.dn == ls[i].tr.rc);
      assert 0 < ls[j].time - ls[i].time <= RELEASE;
    }
  }

  method WastedLoop(ls: seq<Landing>) returns (wasted: nat)
    ensures wasted == Wasted(ls, |ls|) == |set i | 0 <= i < |ls| && Reversed(ls, i)|
  {
    wasted := 0;
    for i := 0 to |ls|
      invariant wasted == Wasted(ls, i)
    {
      if Undone(ls, i) {
        wasted := wasted + 1;
      }
    }
    WastedIs(ls, |ls|);
  }

  method DecideLoop(cfg: Config, rules: Rules, s: State) returns (s': State)
    requires ValidRoles(cfg.roles) && StateFits(cfg, s)
    ensures s' == Decide(cfg, rules, s)
  {
    var roles, n := cfg.roles, |cfg.roles|;
    var plan := PlanOf(cfg, rules, s);
    var f := CancelLoop(roles, rules, plan, s.fleet);
    var base := f.held;
    if rules.committed {
      base := CommittedLoop(f.held, f.inflight);
    }
    var sig := s.sig.(actCnt := Confirm(roles, rules, plan, base, s.sig.actCnt));
    var p := Opening(roles, rules, f, sig);
    if Acts(f, sig.actCnt) {
      p := AdmitLoop(roles, rules, plan, p, RecvList(roles, plan, base), DonorList(roles, plan, base));
    }
    s' := State(p.fleet, p.sig, s.sums);
  }

  datatype Report = Report(landed: nat, cancels: nat, wasted: nat, short: real, wshort: real)

  /** The report of a finished run; none when the run asked for nothing, where
      the shares of need are undefined. */
  function ReportOf(s: State): Option<Report> {
    if s.sums.total == 0.0 || s.sums.wtotal == 0.0 then None
    else Some(Report(|s.fleet.landed|, |s.fleet.cancelled|, Wasted(s.fleet.landed, |s.fleet.landed|),
                     s.sums.short / s.sums.total, s.sums.wshort / s.sums.wtotal))
  }

  /** What the report of a run of k cycles says: how many transfers landed, were
      cancelled and were undone, and which share of the need, plain and weighted, was
      not served; nothing when there was no need. */
  ghost predicate Tells(cfg: Config, k: nat, report: Option<Report>)
    requires ValidRoles(cfg.roles)
  {
    var f, c := Run(cfg, k).fleet, ShortUpTo(cfg, k);
    && (report.None? <==> c.total == 0.0 || c.wtotal == 0.0)
    && (report.Some? ==>
          && report.value.landed == |f.landed| && report.value.cancels == |f.cancelled|
          && report.value.wasted == |set i | 0 <= i < |f.landed| && Reversed(f.landed, i)|
          && report.value.short * c.total == c.short && report.value.wshort * c.wtotal == c.wshort)
  }

  lemma ReportTells(cfg: Config, k: nat)
    requires ValidRoles(cfg.roles)
    ensures Tells(cfg, k, ReportOf(Run(cfg, k)))
  {
    hide Run, ShortUpTo, Reversed, Wasted;
    RunCounts(cfg, k);
    var s := Run(cfg, k);
    WastedIs(s.fleet.landed, |s.fleet.landed|);
    if s.sums.total != 0.0 && s.sums.wtotal != 0.0 {
      ShareUndo(s.sums.short, s.sums.total);
      ShareUndo(s.sums.wshort, s.sums.wtotal);
    }
  }

  lemma ShareUndo(a: real, b: real)
    requires b != 0.0
    ensures a / b * b == a
  {
  }

  /** The simulator. With the hold rule its report never shows a wasted
      transfer; in the floor case, under demand that is never negative, the
      reported shortfalls are shares of need between 0 and 1. */
  method Simulate(cfg: Config) returns (report: Option<Report>)
    requires ValidRoles(cfg.roles)
    ensures report == ReportOf(Run(cfg, T_END / CYCLE))
    ensures Tells(cfg, T_END / CYCLE, report)
    ensures report.Some? && Holds(cfg) ==> report.value.wasted == 0
    ensures report.Some? && (exists g :: FloorCase(cfg, g)) && (forall t: int, r: nat :: cfg.demand(t, r) >= 0.0) ==>
              0.0 <= report.value.short <= 1.0 && 0.0 <= report.value.wshort <= 1.0
  {
    hide Cycle, FloorCase, Holds, Wasted, Tells, Reversed;
    var s := Initial(cfg.roles);
    ghost var k := 0;
    while s.fleet.t < T_END
      invariant k <= T_END / CYCLE && StateFits(cfg, s) && s == Run(cfg, k) && s.fleet.t == CYCLE * k
      decreases T_END - s.fleet.t
    {
      s := CycleLoop(cfg, s);
      k := k + 1;
      RunClock(cfg, k);
    }
    report := None;
    if s.sums.total != 0.0 && s.sums.wtotal != 0.0 {
      var wasted := WastedLoop(s.fleet.landed);
      report := Some(Report(|s.fleet.landed|, |s.fleet.cancelled|, wasted,
                            s.sums.short / s.sums.total, s.sums.wshort / s.sums.wtotal));
    }
    ReportTheorem(cfg, k);
    ReportTells(cfg, k);
  }

  method CycleLoop(cfg: Config, s: State) returns (s': State)
    requires ValidRoles(cfg.roles) && StateFits(cfg, s)
    ensures s' == Cycle(cfg, s) && StateFits(cfg, s')
  {
    var n := |cfg.roles|;
    var f := LandLoop(n, s.fleet);
    f := FillLoop(n, f);
    var inst := Instant(cfg, f.t);
    var a := State(f, Observe(cfg, s.sig, f.t, inst), CountTo(cfg.roles, inst, f.serving, s.sums, n));
    if cfg.rules.Some? {
      a := DecideLoop(cfg, cfg.rules.value, a);
    }
    s' := Tick(a);
  }

  lemma ReportTheorem(cfg: Config, k: nat)
    requires ValidRoles(cfg.roles)
    ensures var report := ReportOf(Run(cfg, k));
      && (report.Some? && Holds(cfg) ==> report.value.wasted == 0)
      && (report.Some? && (exists g :: FloorCase(cfg, g)) && (forall t: int, r: nat :: cfg.demand(t, r) >= 0.0) ==>
            0.0 <= report.value.short <= 1.0 && 0.0 <= report.value.wshort <= 1.0)
  {
    hide Run, Wasted;
    if Holds(cfg) {
      RunNeverReverses(cfg, k);
    }
    if (exists g :: FloorCase(cfg, g)) && forall t: int, r: nat :: cfg.demand(t, r) >= 0.0 {
      var g :| FloorCase(cfg, g);
      RunShortfallBounded(cfg, g, k);
      var c := Run(cfg, k).sums;
      if c.total != 0.0 && c.wtotal != 0.0 {
        ShareBound(c.short, c.total);
        ShareBound(c.wshort, c.wtotal);
      }
    }
  }

  lemma ShareBound(a: real, b: real)
    requires 0.0 <= a <= b && b > 0.0
    ensures 0.0 <= a / b <= 1.0
  {
    var q := a / b;
    assert q * b == a;
  }
}

/** Progress of the planner at a fixed need: every admitted transfer raises the
    committed allocation in the leximin order, so allocations never repeat and
    only finitely many transfers can start. */
module PlannerProgress {
  import opened Options
  import opened PlannerTypes
  import opened Tables
  import opened Planner
  import opened PlannerSafety
  import opened Leximin

  /** The sorted vector of z values of an allocation. */
  function SortedZ(roles: seq<Role>, need: seq<real>, G: seq<int>): (s: seq<Level>)
    requires ValidRoles(roles) && |need| == |G| == |roles|
    ensures |s| == |roles|
  {
    SortLevels(Keys(roles, need, G))
  }

  function Moved(G: seq<int>, rc: nat, dn: nat, g: int): (H: seq<int>)
    requires rc < |G| && dn < |G|
    ensures |H| == |G|
  {
    Add(Add(G, dn, -g), rc, g)
  }

  /** An admitted transfer strictly improves the sorted z vector. */
  lemma ImprovesLex(roles: seq<Role>, need: seq<real>, work: seq<int>, rc: nat, dn: nat, g: int)
    requires ValidRoles(roles) && |need| == |work| == |roles| && rc < |roles| && dn < |roles| && rc != dn
    requires Improves(roles, need, work, rc, dn, g)
    ensures LexLess(SortedZ(roles, need, work), SortedZ(roles, need, Moved(work, rc, dn, g)))
  {
    var s, u := Keys(roles, need, work), Keys(roles, need, Moved(work, rc, dn, g));
    assert u == s[dn := u[dn]][rc := u[rc]];
    PairRaisesLex(s, dn, rc, u[dn], u[rc]);
  }

  // Paths of allocations.

  ghost predicate Holdings(roles: seq<Role>, lo: int, total: int, G: seq<int>) {
    |G| == |roles| && Sum(G) == total && forall r :: 0 <= r < |roles| ==> G[r] >= lo
  }

  /** A sequence of allocations of the same GPUs, each better than the one before. */
  ghost predicate Rising(roles: seq<Role>, need: seq<real>, lo: int, total: int, path: seq<seq<int>>) {
    && ValidRoles(roles) && |need| == |roles| && |path| > 0
    && (forall i :: 0 <= i < |path| ==> Holdings(roles, lo, total, path[i]))
    && forall i :: 0 <= i < |path| - 1 ==> LexLess(SortedZ(roles, need, path[i]), SortedZ(roles, need, path[i + 1]))
  }

  function Join(a: seq<seq<int>>, b: seq<seq<int>>): seq<seq<int>>
    requires |b| > 0
  {
    a + b[1..]
  }

  lemma JoinRising(roles: seq<Role>, need: seq<real>, lo: int, total: int, a: seq<seq<int>>, b: seq<seq<int>>)
    requires Rising(roles, need, lo, total, a) && Rising(roles, need, lo, total, b) && a[|a| - 1] == b[0]
    ensures Rising(roles, need, lo, total, Join(a, b))
    ensures Join(a, b)[0] == a[0] && Join(a, b)[|a| + |b| - 2] == b[|b| - 1]
  {
    var c := Join(a, b);
    forall i | 0 <= i < |c| - 1
      ensures LexLess(SortedZ(roles, need, c[i]), SortedZ(roles, need, c[i + 1]))
    {
      if i >= |a| - 1 {
        assert c[i] == b[i - |a| + 1] && c[i + 1] == b[i - |a| + 2];
      }
    }
  }

  lemma {:induction false} RisingOrder(roles: seq<Role>, need: seq<real>, lo: int, total: int,
                                       path: seq<seq<int>>, i: nat, j: nat)
    requires Rising(roles, need, lo, total, path) && i < j < |path|
    ensures LexLess(SortedZ(roles, need, path[i]), SortedZ(roles, need, path[j]))
  {
    if i + 1 < j {
      RisingOrder(roles, need, lo, total, path, i, j - 1);
      LexTransitive(SortedZ(roles, need, path[i]), SortedZ(roles, need, path[j - 1]), SortedZ(roles, need, path[j]));
    }
  }

  // A bound on the length of a path.

  ghost function Vectors(n: nat, lo: int, hi: int): set<seq<int>> {
    if n == 0 then {[]}
    else set v, x | v in Vectors(n - 1, lo, hi) && lo <= x <= hi :: v + [x]
  }

  lemma {:induction false} InVectors(G: seq<int>, lo: int, hi: int)
    requires forall r :: 0 <= r < |G| ==> lo <= G[r] <= hi
    ensures G in Vectors(|G|, lo, hi)
  {
    if G != [] {
      var n := |G| - 1;
      InVectors(G[..n], lo, hi);
      assert G == G[..n] + [G[n]];
    }
  }

  lemma {:induction false} SumAbove(G: seq<int>, lo: int, r: nat)
    requires r < |G| && forall i :: 0 <= i < |G| ==> G[i] >= lo
    ensures G[r] + lo * (|G| - 1) <= Sum(G)
  {
    var n := |G| - 1;
    if r < n {
      SumAbove(G[..n], lo, r);
      assert lo * (n - 1) + lo == lo * n;
    } else {
      SumAllAbove(G[..n], lo);
    }
  }

  lemma {:induction false} SumAllAbove(G: seq<int>, lo: int)
    requires forall i :: 0 <= i < |G| ==> G[i] >= lo
    ensures lo * |G| <= Sum(G)
  {
    if G != [] {
      var n := |G| - 1;
      SumAllAbove(G[..n], lo);
      assert lo * n + lo == lo * (n + 1);
    }
  }

  /** The allocations of `total` GPUs with every role at or above lo. */
  ghost function Space(roles: seq<Role>, lo: int, total: int): set<seq<int>> {
    Vectors(|roles|, lo, total - lo * (|roles| - 1))
  }

  lemma InSpace(roles: seq<Role>, lo: int, total: int, G: seq<int>)
    requires Holdings(roles, lo, total, G)
    ensures G in Space(roles, lo, total)
  {
    forall r | 0 <= r < |G|
      ensures lo <= G[r] <= total - lo * (|roles| - 1)
    {
      SumAbove(G, lo, r);
    }
    InVectors(G, lo, total - lo * (|roles| - 1));
  }

  lemma {:induction false} DistinctSize(path: seq<seq<int>>, S: set<seq<int>>)
    requires forall i, j :: 0 <= i < j < |path| ==> path[i] != path[j]
    requires forall i :: 0 <= i < |path| ==> path[i] in S
    ensures |path| <= |S|
  {
    if path != [] {
      var n := |path| - 1;
      DistinctSize(path[..n], S - {path[n]});
    }
  }

  /** A rising path repeats no allocation, so it is no longer than the space. */
  lemma RisingBounded(roles: seq<Role>, need: seq<real>, lo: int, total: int, path: seq<seq<int>>)
    requires Rising(roles, need, lo, total, path)
    ensures forall i, j :: 0 <= i < j < |path| ==> path[i] != path[j]
    ensures |path| <= |Space(roles, lo, total)|
  {
    forall i, j | 0 <= i < j < |path|
      ensures path[i] != path[j]
    {
      RisingOrder(roles, need, lo, total, path, i, j);
      LexIrreflexive(SortedZ(roles, need, path[i]));
    }
    forall i | 0 <= i < |path|
      ensures path[i] in Space(roles, lo, total)
    {
      InSpace(roles, lo, total, path[i]);
    }
    DistinctSize(path, Space(roles, lo, total));
  }

  // The path one cycle takes.

  /** lo is below the start and below what the donor check lets a role fall to. */
  ghost predicate LowEnough(roles: seq<Role>, lo: int) {
    forall r :: 0 <= r < |roles| ==> lo <= -roles[r].g && lo <= roles[r].init
  }

  lemma DonorOkAbove(G: int, tgt: real, N: real, g: int)
    requires g > 0 && tgt >= 0.0 && DonorOk(G, tgt, N, g)
    ensures G >= -g
  {
  }

  /** What one admission pass adds to the committed path. */
  ghost predicate Steps(roles: seq<Role>, need: seq<real>, lo: int, total: int, p: Pass, p': Pass, path: seq<seq<int>>) {
    && Rising(roles, need, lo, total, path)
    && path[0] == p.work && path[|path| - 1] == p'.work
    && |path| == |p'.fleet.started| - |p.fleet.started| + 1
    && p'.fleet.cancelled == p.fleet.cancelled && p'.sig.seen == p.sig.seen
    && (p.work == CommittedOf(p.fleet) ==> p'.work == CommittedOf(p'.fleet))
  }

  lemma MovedHoldings(roles: seq<Role>, lo: int, total: int, G: seq<int>, rc: nat, dn: nat, g: int)
    requires rc < |roles| && dn < |roles| && rc != dn && g > 0
    requires Holdings(roles, lo, total, G) && G[dn] - g >= lo
    ensures Holdings(roles, lo, total, Moved(G, rc, dn, g))
  {
    SumUpdate(G, dn, G[dn] - g);
    SumUpdate(Add(G, dn, -g), rc, Add(G, dn, -g)[rc] + g);
  }

  lemma TryPairSteps(roles: seq<Role>, rules: Rules, plan: Plan, lo: int, total: int, p: Pass, rc: nat, dn: nat)
    returns (path: seq<seq<int>>)
    requires ValidRoles(roles) && PlanAboveFloors(roles, plan) && PassFits(|roles|, p) && LowEnough(roles, lo)
    requires rc < |roles| && dn < |roles| && rc != dn && Holdings(roles, lo, total, p.work)
    ensures Steps(roles, plan.need, lo, total, p, TryPair(roles, rules, plan, p, rc, dn), path)
  {
    hide Improves, DonorOk, LexLess, SortedZ, Committed;
    path := [p.work];
    if Admissible(roles, rules, plan, p, rc, dn) {
      var g := roles[rc].g;
      ImprovesLex(roles, plan.need, p.work, rc, dn, g);
      DonorOkAbove(p.work[dn] - g, plan.cont[dn], plan.need[dn], roles[dn].g);
      MovedHoldings(roles, lo, total, p.work, rc, dn, g);
      if p.work == CommittedOf(p.fleet) {
        StartCommits(roles, rules, p, rc, dn);
      }
      path := [p.work, Moved(p.work, rc, dn, g)];
    }
  }

  lemma JoinSteps(roles: seq<Role>, need: seq<real>, lo: int, total: int, p: Pass, q: Pass, r: Pass,
                  a: seq<seq<int>>, b: seq<seq<int>>)
    requires Steps(roles, need, lo, total, p, q, a) && Steps(roles, need, lo, total, q, r, b)
    ensures Steps(roles, need, lo, total, p, r, Join(a, b))
  {
    JoinRising(roles, need, lo, total, a, b);
  }

  lemma {:induction false} AdmitRowSteps(roles: seq<Role>, rules: Rules, plan: Plan, lo: int, total: int,
                                         p: Pass, rc: nat, donors: seq<nat>)
    returns (path: seq<seq<int>>)
    requires ValidRoles(roles) && PlanAboveFloors(roles, plan) && PassFits(|roles|, p) && LowEnough(roles, lo)
    requires rc < |roles| && Holdings(roles, lo, total, p.work)
    requires forall d :: d in donors ==> d < |roles| && d != rc
    ensures Steps(roles, plan.need, lo, total, p, AdmitRow(roles, rules, plan, p, rc, donors), path)
    decreases |donors|
  {
    path := [p.work];
    if donors != [] {
      assert donors[0] in donors && forall d :: d in donors[1..] ==> d in donors;
      var q := TryPair(roles, rules, plan, p, rc, donors[0]);
      var a := TryPairSteps(roles, rules, plan, lo, total, p, rc, donors[0]);
      var b := AdmitRowSteps(roles, rules, plan, lo, total, q, rc, donors[1..]);
      JoinSteps(roles, plan.need, lo, total, p, q, AdmitRow(roles, rules, plan, p, rc, donors), a, b);
      path := Join(a, b);
    }
  }

  lemma {:induction false} AdmitAllSteps(roles: seq<Role>, rules: Rules, plan: Plan, lo: int, total: int,
                                         p: Pass, recv: seq<nat>, donors: seq<nat>)
    returns (path: seq<seq<int>>)
    requires ValidRoles(roles) && PlanAboveFloors(roles, plan) && PassFits(|roles|, p) && LowEnough(roles, lo)
    requires Holdings(roles, lo, total, p.work)
    requires forall d :: d in donors ==> d < |roles| && d !in recv
    requires forall r :: r in recv ==> r < |roles|
    ensures Steps(roles, plan.need, lo, total, p, AdmitAll(roles, rules, plan, p, recv, donors), path)
    decreases |recv|
  {
    path := [p.work];
    if recv != [] {
      assert recv[0] in recv && forall r :: r in recv[1..] ==> r in recv;
      var q := AdmitRow(roles, rules, plan, p, recv[0], donors);
      var a := AdmitRowSteps(roles, rules, plan, lo, total, p, recv[0], donors);
      var b := AdmitAllSteps(roles, rules, plan, lo, total, q, recv[1..], donors);
      JoinSteps(roles, plan.need, lo, total, p, q, AdmitAll(roles, rules, plan, p, recv, donors), a, b);
      path := Join(a, b);
    }
  }

  // Landing does not change the committed allocation.

  function CommittedOf(f: Fleet): seq<int> {
    Committed(f.held, f.inflight)
  }

  lemma LandCommitted(n: nat, f: Fleet, x: Transfer)
    requires Fits(n, f) && ValidTransfer(n, x) && x in f.inflight
    ensures CommittedOf(LandOne(n, f, x)) == CommittedOf(f)
  {
    var f' := LandOne(n, f, x);
    forall r | 0 <= r < n
      ensures CommittedOf(f')[r] == CommittedOf(f)[r]
    {
      FlowRemove(f.inflight, x, r);
    }
  }

  lemma {:induction false} LandAllCommitted(n: nat, f: Fleet, due: seq<Transfer>)
    requires Fits(n, f) && multiset(due) <= multiset(f.inflight)
    requires forall x :: x in due ==> ValidTransfer(n, x)
    ensures var f' := LandAll(n, f, due);
      CommittedOf(f') == CommittedOf(f) && f'.cancelled == f.cancelled && f'.started == f.started
    decreases |due|
  {
    if due != [] {
      assert due == [due[0]] + due[1..];
      assert due[0] in multiset(due);
      LandCommitted(n, f, due[0]);
      LandAllCommitted(n, LandOne(n, f, due[0]), due[1..]);
    }
  }

  lemma {:induction false} FillAllCommitted(n: nat, f: Fleet, full: seq<Filling>)
    requires Fits(n, f) && forall x :: x in full ==> x.rc < n
    ensures var f' := FillAll(n, f, full);
      CommittedOf(f') == CommittedOf(f) && f'.cancelled == f.cancelled && f'.started == f.started
    decreases |full|
  {
    if full != [] {
      FillAllCommitted(n, FillOne(n, f, full[0]), full[1..]);
    }
  }

  lemma ArriveCommitted(cfg: Config, s: State)
    requires StateFits(cfg, s)
    ensures var f := Arrive(cfg, s).fleet;
      CommittedOf(f) == CommittedOf(s.fleet) && f.cancelled == s.fleet.cancelled && f.started == s.fleet.started
  {
    var n, f := |cfg.roles|, s.fleet;
    forall x ensures multiset(Due(f.inflight, f.t))[x] <= multiset(f.inflight)[x] {
      DueCovers(f.inflight, f.t, x);
    }
    LandAllCommitted(n, f, Due(f.inflight, f.t));
    var l := Land(n, f);
    FillAllCommitted(n, l, Full(l.filling, l.t));
  }

  /** Cancels only add up; a cycle that adds none changes nothing. */
  lemma {:induction false} CancelAllCounts(roles: seq<Role>, rules: Rules, plan: Plan, f: Fleet, todo: seq<Transfer>)
    requires ValidRoles(roles) && PlanFits(|roles|, plan) && Fits(|roles|, f)
    requires forall x :: x in todo ==> ValidTransfer(|roles|, x)
    ensures var f' := CancelAll(roles, rules, plan, f, todo);
      |f'.cancelled| >= |f.cancelled| && (|f'.cancelled| == |f.cancelled| ==> f' == f)
    decreases |todo|
  {
    if todo != [] {
      var f1 := if ShouldCancel(roles, rules, plan, f, todo[0]) then CancelOne(|roles|, rules, f, todo[0]) else f;
      CancelAllCounts(roles, rules, plan, f1, todo[1..]);
    }
  }

  // Constant demand is delivered as constant need.

  ghost predicate Steady(cfg: Config) {
    forall t, r: nat :: cfg.demand(t, r) == cfg.demand(0, r)
  }

  ghost predicate SeenSteady(cfg: Config, sig: Signals) {
    && SignalsFit(|cfg.roles|, sig)
    && forall r, i :: 0 <= r < |cfg.roles| && 0 <= i < |sig.seen[r]| ==> sig.seen[r][i].value == Instant(cfg, 0)[r]
  }

  lemma {:induction false} FreshSteady(xs: seq<Sample>, t: int, horizon: int, v: real)
    requires forall i :: 0 <= i < |xs| ==> xs[i].value == v
    ensures forall i :: 0 <= i < |Fresh(xs, t, horizon)| ==> Fresh(xs, t, horizon)[i].value == v
  {
    if xs != [] {
      FreshSteady(xs[1..], t, horizon, v);
    }
  }

  lemma MeanSteady(xs: seq<Sample>, t: int, lo: int, hi: int, v: real)
    requires forall i :: 0 <= i < |xs| ==> xs[i].value == v
    ensures MeanOr(Values(xs, t, lo, hi), v) == v
  {
    var vs := Values(xs, t, lo, hi);
    ValuesSteady(xs, t, lo, hi, v);
    TotalSteady(vs, v);
    if vs != [] {
      DivideUndo(v, |vs| as real);
    }
  }

  lemma {:induction false} ValuesSteady(xs: seq<Sample>, t: int, lo: int, hi: int, v: real)
    requires forall i :: 0 <= i < |xs| ==> xs[i].value == v
    ensures forall i :: 0 <= i < |Values(xs, t, lo, hi)| ==> Values(xs, t, lo, hi)[i] == v
  {
    if xs != [] {
      ValuesSteady(xs[1..], t, lo, hi, v);
    }
  }

  lemma {:induction false} TotalSteady(vs: seq<real>, v: real)
    requires forall i :: 0 <= i < |vs| ==> vs[i] == v
    ensures Total(vs) == |vs| as real * v
  {
    if vs != [] {
      TotalSteady(vs[1..], v);
    }
  }

  lemma SteadyNeed(cfg: Config, rules: Rules, s: State)
    requires ValidRoles(cfg.roles) && Steady(cfg) && StateFits(cfg, s) && SeenSteady(cfg, s.sig)
    ensures PlanOf(cfg, rules, s).need == Instant(cfg, 0)
  {
    var need, inst := PlanOf(cfg, rules, s).need, Instant(cfg, 0);
    assert Instant(cfg, s.fleet.t) == inst;
    forall r | 0 <= r < |cfg.roles|
      ensures need[r] == inst[r]
    {
      MeanSteady(s.sig.seen[r], s.fleet.t, 0, rules.swingW, inst[r]);
      MeanSteady(s.sig.seen[r], s.fleet.t, LAG, 2 * LAG, inst[r]);
    }
  }

  lemma ObserveSteady(cfg: Config, sig: Signals, t: int)
    requires Steady(cfg) && SeenSteady(cfg, sig)
    ensures SeenSteady(cfg, Observe(cfg, sig, t, Instant(cfg, t)))
  {
    var inst := Instant(cfg, 0);
    assert Instant(cfg, t) == inst;
    forall r | 0 <= r < |cfg.roles|
      ensures forall i :: 0 <= i < |Fresh(sig.seen[r], t, Horizon(cfg.rules))| ==>
                Fresh(sig.seen[r], t, Horizon(cfg.rules))[i].value == inst[r]
    {
      FreshSteady(sig.seen[r], t, Horizon(cfg.rules), inst[r]);
    }
  }

  // Whole runs.

  /** One step of a run, seen as a path of committed allocations. */
  ghost predicate CyclePath(cfg: Config, lo: int, total: int, s: State, s': State, path: seq<seq<int>>)
    requires ValidRoles(cfg.roles)
  {
    && Rising(cfg.roles, Instant(cfg, 0), lo, total, path)
    && path[0] == CommittedOf(s.fleet) && path[|path| - 1] == CommittedOf(s'.fleet)
    && |path| == |s'.fleet.started| - |s.fleet.started| + 1
  }

  lemma SinglePath(roles: seq<Role>, need: seq<real>, lo: int, total: int, G: seq<int>)
    requires ValidRoles(roles) && |need| == |roles| && Holdings(roles, lo, total, G)
    ensures Rising(roles, need, lo, total, [G])
  {
  }

  lemma DecideSteps(cfg: Config, rules: Rules, lo: int, total: int, s: State) returns (path: seq<seq<int>>)
    requires ValidRoles(cfg.roles) && StateFits(cfg, s) && rules.committed && LowEnough(cfg.roles, lo)
    requires Steady(cfg) && SeenSteady(cfg, s.sig)
    ensures var s' := Decide(cfg, rules, s);
      && SeenSteady(cfg, s'.sig)
      && |s'.fleet.cancelled| >= |s.fleet.cancelled|
      && (Holdings(cfg.roles, lo, total, CommittedOf(s.fleet)) && |s'.fleet.cancelled| == |s.fleet.cancelled|
          ==> CyclePath(cfg, lo, total, s, s', path))
  {
    hide Confirm, RecvList, DonorList, Committed, SortedZ, LexLess, PlanOf, Rising, Holdings, Instant, CancelAll, AdmitAll;
    var roles, plan := cfg.roles, PlanOf(cfg, rules, s);
    SteadyNeed(cfg, rules, s);
    PlanFloors(cfg, rules, s);
    CancelAllCounts(roles, rules, plan, s.fleet, s.fleet.inflight);
    var f := CancelAll(roles, rules, plan, s.fleet, s.fleet.inflight);
    var base := Base(rules, f);
    var sig := s.sig.(actCnt := Confirm(roles, rules, plan, base, s.sig.actCnt));
    var p := Opening(roles, rules, f, sig);
    AdmitKeeps(roles, rules, plan, f, sig);
    path := [p.work];
    if Holdings(roles, lo, total, CommittedOf(f)) {
      SinglePath(roles, plan.need, lo, total, p.work);
    }
    if Holdings(roles, lo, total, CommittedOf(f)) && Acts(f, sig.actCnt) {
      path := AdmitAllSteps(roles, rules, plan, lo, total, p, RecvList(roles, plan, base), DonorList(roles, plan, base));
    }
  }

  lemma AdmitKeeps(roles: seq<Role>, rules: Rules, plan: Plan, f: Fleet, sig: Signals)
    requires ValidRoles(roles) && PlanFits(|roles|, plan) && Fits(|roles|, f) && SignalsFit(|roles|, sig)
    ensures var p := Admit(roles, rules, plan, f, sig); p.fleet.cancelled == f.cancelled && p.sig.seen == sig.seen
  {
    if Acts(f, sig.actCnt) {
      var base := Base(rules, f);
      AdmitAllKeeps(roles, rules, plan, Opening(roles, rules, f, sig),
                    RecvList(roles, plan, base), DonorList(roles, plan, base));
    }
  }

  lemma {:induction false} AdmitRowKeeps(roles: seq<Role>, rules: Rules, plan: Plan, p: Pass, rc: nat, donors: seq<nat>)
    requires ValidRoles(roles) && PlanFits(|roles|, plan) && PassFits(|roles|, p) && rc < |roles|
    requires forall d :: d in donors ==> d < |roles| && d != rc
    ensures var p' := AdmitRow(roles, rules, plan, p, rc, donors);
      p'.fleet.cancelled == p.fleet.cancelled && p'.sig.seen == p.sig.seen
    decreases |donors|
  {
    if donors != [] {
      assert donors[0] in donors && forall d :: d in donors[1..] ==> d in donors;
      AdmitRowKeeps(roles, rules, plan, TryPair(roles, rules, plan, p, rc, donors[0]), rc, donors[1..]);
    }
  }

  lemma {:induction false} AdmitAllKeeps(roles: seq<Role>, rules: Rules, plan: Plan, p: Pass, recv: seq<nat>, donors: seq<nat>)
    requires ValidRoles(roles) && PlanFits(|roles|, plan) && PassFits(|roles|, p)
    requires forall d :: d in donors ==> d < |roles| && d !in recv
    requires forall r :: r in recv ==> r < |roles|
    ensures var p' := AdmitAll(roles, rules, plan, p, recv, donors);
      p'.fleet.cancelled == p.fleet.cancelled && p'.sig.seen == p.sig.seen
    decreases |recv|
  {
    if recv != [] {
      assert recv[0] in recv && forall r :: r in recv[1..] ==> r in recv;
      AdmitRowKeeps(roles, rules, plan, p, recv[0], donors);
      AdmitAllKeeps(roles, rules, plan, AdmitRow(roles, rules, plan, p, recv[0], donors), recv[1..], donors);
    }
  }

  lemma CycleSteps(cfg: Config, rules: Rules, lo: int, total: int, s: State) returns (path: seq<seq<int>>)
    requires ValidRoles(cfg.roles) && StateFits(cfg, s) && cfg.rules == Some(rules)
    requires rules.committed && LowEnough(cfg.roles, lo) && Steady(cfg) && SeenSteady(cfg, s.sig)
    ensures var s' := Cycle(cfg, s);
      && SeenSteady(cfg, s'.sig)
      && |s'.fleet.cancelled| >= |s.fleet.cancelled|
      && (Holdings(cfg.roles, lo, total, CommittedOf(s.fleet)) && |s'.fleet.cancelled| == |s.fleet.cancelled|
          ==> CyclePath(cfg, lo, total, s, s', path))
  {
    ArriveCommitted(cfg, s);
    assert SeenSteady(cfg, Arrive(cfg, s).sig) by {
      ObserveSteady(cfg, s.sig, Fill(|cfg.roles|, Land(|cfg.roles|, s.fleet)).t);
    }
    hide Arrive, Decide, SeenSteady, Committed, LexLess, SortedZ;
    path := DecideSteps(cfg, rules, lo, total, Arrive(cfg, s));
  }

  lemma InitialSteady(cfg: Config)
    ensures SeenSteady(cfg, Initial(cfg.roles).sig)
  {
  }

  lemma {:induction false} RunSeenSteady(cfg: Config, rules: Rules, lo: int, k: nat)
    requires ValidRoles(cfg.roles) && cfg.rules == Some(rules) && rules.committed
    requires LowEnough(cfg.roles, lo) && Steady(cfg)
    ensures SeenSteady(cfg, Run(cfg, k).sig)
  {
    hide Cycle, SeenSteady, LexLess, SortedZ, Committed, Instant, Initial, Rising;
    if k == 0 {
      InitialSteady(cfg);
    } else {
      var s := Run(cfg, k - 1);
      RunSeenSteady(cfg, rules, lo, k - 1);
      var path := CycleSteps(cfg, rules, lo, 0, s);
      assert Run(cfg, k) == Cycle(cfg, s);
    }
  }

  /** Between any two cycles of a run under constant demand, without cancels in
      between, the committed allocation climbs a rising path with one step for
      every transfer started. */
  lemma {:induction false} RunPath(cfg: Config, rules: Rules, lo: int, total: int, i: nat, k: nat)
    returns (path: seq<seq<int>>)
    requires ValidRoles(cfg.roles) && cfg.rules == Some(rules) && rules.committed
    requires LowEnough(cfg.roles, lo) && Steady(cfg) && i <= k
    ensures |Run(cfg, k).fleet.cancelled| >= |Run(cfg, i).fleet.cancelled|
    ensures Holdings(cfg.roles, lo, total, CommittedOf(Run(cfg, i).fleet))
         && |Run(cfg, k).fleet.cancelled| == |Run(cfg, i).fleet.cancelled|
         ==> CyclePath(cfg, lo, total, Run(cfg, i), Run(cfg, k), path)
  {
    hide Cycle, SeenSteady, LexLess, SortedZ, Committed;
    path := [CommittedOf(Run(cfg, i).fleet)];
    if i < k {
      var s := Run(cfg, k - 1);
      RunSeenSteady(cfg, rules, lo, k - 1);
      var a := RunPath(cfg, rules, lo, total, i, k - 1);
      var b := CycleSteps(cfg, rules, lo, total, s);
      assert Run(cfg, k) == Cycle(cfg, s);
      if Holdings(cfg.roles, lo, total, CommittedOf(Run(cfg, i).fleet))
         && |Run(cfg, k).fleet.cancelled| == |Run(cfg, i).fleet.cancelled| {
        assert a[|a| - 1] == CommittedOf(s.fleet);
        assert Holdings(cfg.roles, lo, total, a[|a| - 1]);
        JoinRising(cfg.roles, Instant(cfg, 0), lo, total, a, b);
        path := Join(a, b);
      }
    }
  }

  /** Under constant demand with committed accounting, as long as nothing was
      cancelled, fewer transfers start than there are allocations: a bound that
      does not depend on how long the run is. */
  lemma SteadyRunSettles(cfg: Config, rules: Rules, lo: int, k: nat)
    requires ValidRoles(cfg.roles) && cfg.rules == Some(rules) && rules.committed
    requires LowEnough(cfg.roles, lo) && Steady(cfg)
    requires Run(cfg, k).fleet.cancelled == []
    ensures |Run(cfg, k).fleet.started| < |Space(cfg.roles, lo, TotalInit(cfg.roles))|
  {
    var total := TotalInit(cfg.roles);
    StartHoldings(cfg, lo);
    var path := RunPath(cfg, rules, lo, total, 0, k);
    RisingBounded(cfg.roles, Instant(cfg, 0), lo, total, path);
  }

  /** And a committed allocation never comes back: once a transfer has started,
      the sorted z vector is strictly larger for good. */
  lemma SteadyRunNeverRepeats(cfg: Config, rules: Rules, lo: int, i: nat, k: nat)
    requires ValidRoles(cfg.roles) && cfg.rules == Some(rules) && rules.committed
    requires LowEnough(cfg.roles, lo) && Steady(cfg) && i <= k
    requires Run(cfg, k).fleet.cancelled == []
    ensures var a, b := Run(cfg, i).fleet, Run(cfg, k).fleet;
      if |a.started| == |b.started| then CommittedOf(a) == CommittedOf(b)
      else LexLess(SortedZ(cfg.roles, Instant(cfg, 0), CommittedOf(a)), SortedZ(cfg.roles, Instant(cfg, 0), CommittedOf(b)))
           && CommittedOf(a) != CommittedOf(b)
  {
    hide Cycle, LexLess, SortedZ, Committed;
    var total := TotalInit(cfg.roles);
    var up := RunPath(cfg, rules, lo, total, 0, i);
    var path := RunPath(cfg, rules, lo, total, i, k);
    StartHoldings(cfg, lo);
    assert Holdings(cfg.roles, lo, total, up[|up| - 1]);
    if |path| > 1 {
      RisingOrder(cfg.roles, Instant(cfg, 0), lo, total, path, 0, |path| - 1);
      LexIrreflexive(SortedZ(cfg.roles, Instant(cfg, 0), path[0]));
    }
  }

  lemma StartHoldings(cfg: Config, lo: int)
    requires ValidRoles(cfg.roles) && LowEnough(cfg.roles, lo)
    ensures Holdings(cfg.roles, lo, TotalInit(cfg.roles), CommittedOf(Run(cfg, 0).fleet))
  {
    var f := Run(cfg, 0).fleet;
    assert CommittedOf(f) == f.held;
  }
}

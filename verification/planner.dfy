/** One decision cycle of the planner, phase by phase, as functions of the state.
    Roles are the indices of `roles`; a dictionary keyed by role is a table. */
module Planner {
  import opened Options
  import opened PlannerTypes
  import IT = IntegerTargets
  import CT = ContinuousTargets

  /** `demand(t, r)` is what role r is asked at time t: any function at all.
      Without rules the planner stands still. */
  datatype Config = Config(roles: seq<Role>, demand: (int, nat) -> real, B: int, rules: Option<Rules>)

  /** `id` numbers the transfers in the order they start. */
  datatype Transfer = Transfer(id: nat, start: int, dn: nat, rc: nat, g: int)
  datatype Filling = Filling(serve: int, rc: nat, g: int)
  datatype Landing = Landing(time: int, tr: Transfer)

  /** Who holds and serves what. `started` and `cancelled` keep the history the
      source only counts. */
  datatype Fleet = Fleet(t: int, held: seq<int>, serving: seq<int>,
                         inflight: seq<Transfer>, filling: seq<Filling>,
                         lastGave: seq<int>, lastGot: seq<int>,
                         landed: seq<Landing>, cancelled: seq<Transfer>, started: seq<Transfer>)

  datatype Sample = Sample(at: int, value: real)
  datatype Turn = Turn(at: int, gave: bool)

  /** What the planner remembers of the demand and of its own directions. */
  datatype Signals = Signals(actCnt: seq<nat>, seen: seq<seq<Sample>>,
                             dirs: seq<seq<Turn>>, dampedUntil: seq<int>)

  datatype Totals = Totals(short: real, total: real, wshort: real, wtotal: real)

  datatype State = State(fleet: Fleet, sig: Signals, sums: Totals)

  ghost predicate ValidTransfer(n: nat, x: Transfer) {
    x.dn < n && x.rc < n && x.dn != x.rc && x.g > 0
  }

  ghost predicate Fits(n: nat, f: Fleet) {
    && |f.held| == |f.serving| == |f.lastGave| == |f.lastGot| == n
    && (forall x :: x in f.inflight ==> ValidTransfer(n, x))
    && (forall x :: x in f.filling ==> x.rc < n)
  }

  ghost predicate SignalsFit(n: nat, s: Signals) {
    |s.actCnt| == |s.seen| == |s.dirs| == |s.dampedUntil| == n
  }

  function Add(table: seq<int>, r: nat, d: int): seq<int>
    requires r < |table|
  {
    table[r := table[r] + d]
  }

  /** The list without the first occurrence of x. */
  function Remove<T(==)>(xs: seq<T>, x: T): (ys: seq<T>)
    ensures multiset(ys) == multiset(xs) - multiset{x}
    ensures forall y :: y in ys ==> y in xs
  {
    if xs == [] then []
    else
      assert xs == [xs[0]] + xs[1..];
      if xs[0] == x then xs[1..] else [xs[0]] + Remove(xs[1..], x)
  }

  // Landing and filling.

  function Due(xs: seq<Transfer>, t: int): (due: seq<Transfer>)
    ensures forall x :: x in due <==> x in xs && x.start + RELEASE <= t
  {
    if xs == [] then []
    else (if xs[0].start + RELEASE <= t then [xs[0]] else []) + Due(xs[1..], t)
  }

  function LandOne(n: nat, f: Fleet, x: Transfer): (f': Fleet)
    requires Fits(n, f) && ValidTransfer(n, x)
    ensures Fits(n, f')
  {
    f.(held := Add(Add(f.held, x.dn, -x.g), x.rc, x.g),
       serving := Add(f.serving, x.dn, -x.g),
       filling := f.filling + [Filling(f.t + FILL, x.rc, x.g)],
       landed := f.landed + [Landing(f.t, x)],
       inflight := Remove(f.inflight, x))
  }

  function LandAll(n: nat, f: Fleet, due: seq<Transfer>): (f': Fleet)
    requires Fits(n, f) && forall x :: x in due ==> ValidTransfer(n, x)
    ensures Fits(n, f')
    decreases |due|
  {
    if due == [] then f else LandAll(n, LandOne(n, f, due[0]), due[1..])
  }

  function Land(n: nat, f: Fleet): (f': Fleet)
    requires Fits(n, f)
    ensures Fits(n, f')
  {
    LandAll(n, f, Due(f.inflight, f.t))
  }

  function Full(xs: seq<Filling>, t: int): (full: seq<Filling>)
    ensures forall x :: x in full <==> x in xs && x.serve <= t
  {
    if xs == [] then [] else (if xs[0].serve <= t then [xs[0]] else []) + Full(xs[1..], t)
  }

  function FillOne(n: nat, f: Fleet, x: Filling): (f': Fleet)
    requires Fits(n, f) && x.rc < n
    ensures Fits(n, f')
  {
    f.(serving := Add(f.serving, x.rc, x.g), filling := Remove(f.filling, x))
  }

  function FillAll(n: nat, f: Fleet, full: seq<Filling>): (f': Fleet)
    requires Fits(n, f) && forall x :: x in full ==> x.rc < n
    ensures Fits(n, f')
    decreases |full|
  {
    if full == [] then f else FillAll(n, FillOne(n, f, full[0]), full[1..])
  }

  function Fill(n: nat, f: Fleet): (f': Fleet)
    requires Fits(n, f)
    ensures Fits(n, f')
  {
    FillAll(n, f, Full(f.filling, f.t))
  }

  // Observing demand.

  function Instant(cfg: Config, t: int): (inst: seq<real>)
    ensures |inst| == |cfg.roles|
  {
    seq(|cfg.roles|, (r: nat) => cfg.demand(t, r) / K)
  }

  function Shortfall(inst: real, serving: int): real {
    Max(0.0, inst - serving as real)
  }

  function Counted(c: Totals, w: real, miss: real, inst: real): Totals {
    Totals(c.short + miss, c.total + inst, c.wshort + w * miss, c.wtotal + w * inst)
  }

  /** The totals after role n - 1 has been counted. */
  function CountTo(roles: seq<Role>, inst: seq<real>, serving: seq<int>, s: Totals, n: nat): Totals
    requires |inst| == |serving| == |roles| && n <= |roles|
  {
    if n == 0 then s
    else
      var c := CountTo(roles, inst, serving, s, n - 1);
      Counted(c, roles[n - 1].w, Shortfall(inst[n - 1], serving[n - 1]), inst[n - 1])
  }

  function Fresh(xs: seq<Sample>, t: int, horizon: int): seq<Sample> {
    if xs == [] then []
    else (if t - xs[0].at <= horizon then [xs[0]] else []) + Fresh(xs[1..], t, horizon)
  }

  function Horizon(rules: Option<Rules>): int {
    var w := if rules.Some? then rules.value.swingW else SWING_W;
    if w >= HOLD then w else HOLD
  }

  function Observe(cfg: Config, sig: Signals, t: int, inst: seq<real>): (s: Signals)
    requires SignalsFit(|cfg.roles|, sig) && |inst| == |cfg.roles|
    ensures SignalsFit(|cfg.roles|, s)
  {
    sig.(seen := seq(|cfg.roles|, r requires 0 <= r < |cfg.roles| =>
                       Fresh(sig.seen[r], t, Horizon(cfg.rules)) + [Sample(t, inst[r])]))
  }

  // Targets.

  function Values(xs: seq<Sample>, t: int, lo: int, hi: int): seq<real> {
    if xs == [] then []
    else (if lo <= t - xs[0].at <= hi then [xs[0].value] else []) + Values(xs[1..], t, lo, hi)
  }

  function Total(vs: seq<real>): real {
    if vs == [] then 0.0 else vs[0] + Total(vs[1..])
  }

  function MeanOr(vs: seq<real>, default: real): real {
    if vs == [] then default else Total(vs) / |vs| as real
  }

  function PeakOr(vs: seq<real>, default: real): real {
    if vs == [] then default else Max(vs[0], PeakOr(vs[1..], vs[0]))
  }

  /** The need delivered to the planner: LAG old, averaged over LAG; a damped
      role's mean over the swing window. */
  function NeedOf(rules: Rules, sig: Signals, t: int, inst: seq<real>, r: nat): real
    requires r < |sig.seen| == |sig.dampedUntil| == |inst|
  {
    if rules.swing.SwingMean? && t < sig.dampedUntil[r] then MeanOr(Values(sig.seen[r], t, 0, rules.swingW), inst[r])
    else MeanOr(Values(sig.seen[r], t, LAG, 2 * LAG), inst[r])
  }

  datatype Plan = Plan(need: seq<real>, cont: seq<real>, integ: seq<int>, give: seq<int>)

  ghost predicate PlanFits(n: nat, plan: Plan) {
    |plan.need| == |plan.cont| == |plan.integ| == |plan.give| == n
  }

  function MakePlan(cfg: Config, rules: Rules, sig: Signals, t: int, inst: seq<real>): (plan: Plan)
    requires ValidRoles(cfg.roles) && SignalsFit(|cfg.roles|, sig) && |inst| == |cfg.roles|
    ensures PlanFits(|cfg.roles|, plan)
  {
    var n := |cfg.roles|;
    var need := seq(n, r requires 0 <= r < n => NeedOf(rules, sig, t, inst, r));
    var integ := IT.Integer(cfg.roles, need, cfg.B);
    var peak := seq(n, r requires 0 <= r < n => PeakOr(Values(sig.seen[r], t, 0, HOLD), inst[r]));
    Plan(need, CT.Continuous(cfg.roles, need, cfg.B as real), integ,
         if rules.slowGiving then IT.Integer(cfg.roles, peak, cfg.B) else integ)
  }

  // Committed accounting.

  function Gifts(xs: seq<Transfer>, r: nat): int {
    if xs == [] then 0 else (if xs[0].dn == r then xs[0].g else 0) + Gifts(xs[1..], r)
  }

  function Receipts(xs: seq<Transfer>, r: nat): int {
    if xs == [] then 0 else (if xs[0].rc == r then xs[0].g else 0) + Receipts(xs[1..], r)
  }

  /** Held, minus in-flight gifts, plus in-flight receipts. */
  function Committed(held: seq<int>, xs: seq<Transfer>): (c: seq<int>)
    ensures |c| == |held|
    ensures forall r :: 0 <= r < |held| ==> c[r] == held[r] - Gifts(xs, r) + Receipts(xs, r)
  {
    seq(|held|, r requires 0 <= r < |held| => held[r] - Gifts(xs, r) + Receipts(xs, r))
  }

  function Base(rules: Rules, f: Fleet): (b: seq<int>)
    ensures |b| == |f.held|
  {
    if rules.committed then Committed(f.held, f.inflight) else f.held
  }

  // Cancelling.

  predicate ShouldCancel(roles: seq<Role>, rules: Rules, plan: Plan, f: Fleet, x: Transfer)
    requires ValidRoles(roles) && PlanFits(|roles|, plan) && Fits(|roles|, f) && ValidTransfer(|roles|, x)
  {
    var others := Committed(f.held, Remove(f.inflight, x));
    var dn, rc := x.dn, x.rc;
    var after := others[dn] - x.g;
    && f.t - x.start <= WINDOW
    && if rules.hysteresis then
         || (after as real) < plan.cont[dn] - 2.0 * Tol(plan.cont[dn], roles[dn].g)
         || others[rc] as real > plan.cont[rc] + Tol(plan.cont[rc], roles[rc].g)
       else
         || ((after as real) < plan.cont[dn] && !InBand(after, plan.cont[dn], plan.need[dn], roles[dn].g))
         || others[rc] as real >= plan.cont[rc]
         || InBand(others[rc], plan.cont[rc], plan.need[rc], roles[rc].g)
  }

  function CancelOne(n: nat, rules: Rules, f: Fleet, x: Transfer): (f': Fleet)
    requires Fits(n, f) && ValidTransfer(n, x)
    ensures Fits(n, f')
  {
    f.(inflight := Remove(f.inflight, x), cancelled := f.cancelled + [x],
       lastGave := if rules.hold then f.lastGave[x.dn := f.t] else f.lastGave,
       lastGot := if rules.hold then f.lastGot[x.rc := f.t] else f.lastGot)
  }

  function CancelAll(roles: seq<Role>, rules: Rules, plan: Plan, f: Fleet, todo: seq<Transfer>): (f': Fleet)
    requires ValidRoles(roles) && PlanFits(|roles|, plan) && Fits(|roles|, f)
    requires forall x :: x in todo ==> ValidTransfer(|roles|, x)
    ensures Fits(|roles|, f')
    decreases |todo|
  {
    if todo == [] then f
    else
      var f1 := if ShouldCancel(roles, rules, plan, f, todo[0]) then CancelOne(|roles|, rules, f, todo[0]) else f;
      CancelAll(roles, rules, plan, f1, todo[1..])
  }

  // Triggering.

  predicate Triggers(roles: seq<Role>, rules: Rules, plan: Plan, base: seq<int>, r: nat)
    requires |base| == |roles| && PlanFits(|roles|, plan) && r < |roles|
  {
    && !InBand(base[r], plan.cont[r], plan.need[r], roles[r].g)
    && (rules.headroom.AnyMiss? || (base[r] as real) < plan.need[r]
        || (rules.headroom.MissAbove?
            && Abs(base[r] as real - plan.cont[r])
               > Max(rules.headroom.fraction * plan.cont[r], 0.5 * roles[r].g as real)))
    && (rules.actionable ==> base[r] != plan.integ[r])
  }

  function Confirm(roles: seq<Role>, rules: Rules, plan: Plan, base: seq<int>, cnt: seq<nat>): (c: seq<nat>)
    requires |base| == |cnt| == |roles| && PlanFits(|roles|, plan)
    ensures |c| == |roles|
  {
    seq(|roles|, r requires 0 <= r < |roles| => if Triggers(roles, rules, plan, base, r) then cnt[r] + 1 else 0)
  }

  // Admitting transfers.

  lemma HeadAndTail(rs: seq<nat>)
    requires rs != []
    ensures rs[0] in rs && forall x :: x in rs <==> x == rs[0] || x in rs[1..]
    ensures multiset(rs) == multiset{rs[0]} + multiset(rs[1..])
  {
    assert rs == [rs[0]] + rs[1..];
  }

  /** Stable sort of role indices by z, ascending or descending. */
  function Insert(key: seq<Level>, desc: bool, r: nat, rs: seq<nat>): (out: seq<nat>)
    requires r < |key| && forall x :: x in rs ==> x < |key|
    ensures multiset(out) == multiset{r} + multiset(rs)
    ensures forall x :: x in out ==> x < |key| && (x == r || x in rs)
  {
    if rs == [] then [r]
    else
      HeadAndTail(rs);
      var first := if desc then AtMost(key[rs[0]], key[r]) else AtMost(key[r], key[rs[0]]);
      if first then [r] + rs else [rs[0]] + Insert(key, desc, r, rs[1..])
  }

  function SortRoles(key: seq<Level>, desc: bool, rs: seq<nat>): (out: seq<nat>)
    requires forall x :: x in rs ==> x < |key|
    ensures multiset(out) == multiset(rs)
    ensures forall x :: x in out ==> x < |key| && x in rs
  {
    if rs == [] then []
    else
      HeadAndTail(rs);
      Insert(key, desc, rs[0], SortRoles(key, desc, rs[1..]))
  }

  function Receivers(plan: Plan, base: seq<int>, n: nat): (rs: seq<nat>)
    requires n <= |base| && PlanFits(|base|, plan)
    ensures forall r :: r in rs ==> r < n && base[r] < plan.integ[r]
  {
    if n == 0 then []
    else Receivers(plan, base, n - 1) + if base[n - 1] < plan.integ[n - 1] then [n - 1] else []
  }

  function Donors(roles: seq<Role>, plan: Plan, base: seq<int>, n: nat): (rs: seq<nat>)
    requires n <= |base| == |roles| && PlanFits(|base|, plan)
    ensures forall r :: r in rs ==> r < n && base[r] > plan.integ[r] && base[r] > roles[r].floor
  {
    if n == 0 then []
    else
      var r := n - 1;
      Donors(roles, plan, base, r)
      + if base[r] > plan.integ[r] && base[r] > plan.give[r] && base[r] > roles[r].floor then [r] else []
  }

  function Keys(roles: seq<Role>, need: seq<real>, base: seq<int>): (key: seq<Level>)
    requires ValidRoles(roles) && |need| == |base| == |roles|
    ensures |key| == |roles|
    ensures forall r :: 0 <= r < |roles| ==> key[r] == IT.ZOf(roles, need, base, r)
  {
    seq(|roles|, r requires 0 <= r < |roles| => IT.ZOf(roles, need, base, r))
  }

  /** What the nested loop over receivers and donors updates. */
  datatype Pass = Pass(fleet: Fleet, sig: Signals, work: seq<int>, moved: seq<nat>)

  ghost predicate PassFits(n: nat, p: Pass) {
    Fits(n, p.fleet) && SignalsFit(n, p.sig) && |p.work| == |p.moved| == n
  }

  /** The smaller of the two z values rises. */
  predicate Improves(roles: seq<Role>, need: seq<real>, work: seq<int>, rc: nat, dn: nat, g: int)
    requires ValidRoles(roles) && |need| == |work| == |roles| && rc < |roles| && dn < |roles|
  {
    var before := LeastOf(IT.ZOf(roles, need, work, dn), IT.ZOf(roles, need, work, rc));
    var after := LeastOf(Z((work[dn] - g) as real, need[dn], roles[dn].w),
                         Z((work[rc] + g) as real, need[rc], roles[rc].w));
    Below(before, after)
  }

  predicate DonorOk(G: int, tgt: real, N: real, g: int) {
    G as real >= tgt || InBand(G, tgt, N, g)
  }

  predicate Admissible(roles: seq<Role>, rules: Rules, plan: Plan, p: Pass, rc: nat, dn: nat)
    requires ValidRoles(roles) && PlanFits(|roles|, plan) && PassFits(|roles|, p)
    requires rc < |roles| && dn < |roles|
  {
    var f, g := p.fleet, roles[rc].g;
    && |f.inflight| < 2 && p.moved[rc] < 2 && p.moved[dn] < 2
    && roles[dn].g >= g
    && (rules.hold ==> f.t - f.lastGave[rc] >= HOLD && f.t - f.lastGot[dn] >= HOLD)
    && (rules.swing.SwingFreeze? ==> f.t >= p.sig.dampedUntil[rc] && f.t >= p.sig.dampedUntil[dn])
    && (rules.actionable ==> p.sig.actCnt[rc] >= CONFIRM || p.sig.actCnt[dn] >= CONFIRM)
    && Improves(roles, plan.need, p.work, rc, dn, g)
    && DonorOk(p.work[dn] - g, plan.cont[dn], plan.need[dn], roles[dn].g)
  }

  function Recent(ds: seq<Turn>, t: int, w: nat): seq<Turn> {
    if ds == [] then [] else (if t - ds[0].at <= w then [ds[0]] else []) + Recent(ds[1..], t, w)
  }

  function Flips(ds: seq<Turn>): nat {
    if |ds| < 2 then 0 else (if ds[0].gave != ds[1].gave then 1 else 0) + Flips(ds[1..])
  }

  /** Swing detection: two direction changes within the window damp a role. */
  function Damp(rules: Rules, sig: Signals, t: int, r: nat, gave: bool): (s: Signals)
    requires r < |sig.dirs| == |sig.dampedUntil|
    ensures s.actCnt == sig.actCnt && s.seen == sig.seen
    ensures |s.dirs| == |sig.dirs| && |s.dampedUntil| == |sig.dampedUntil|
  {
    if rules.swing.SwingOff? then sig
    else
      var ds := Recent(sig.dirs[r], t, rules.swingW) + [Turn(t, gave)];
      sig.(dirs := sig.dirs[r := ds],
           dampedUntil := if Flips(ds) >= 2 then sig.dampedUntil[r := t + rules.swingW] else sig.dampedUntil)
  }

  function StartFleet(n: nat, f: Fleet, rc: nat, dn: nat, g: int): (f': Fleet)
    requires Fits(n, f) && rc < n && dn < n && rc != dn && g > 0
    ensures Fits(n, f')
  {
    var x := Transfer(|f.started|, f.t, dn, rc, g);
    f.(inflight := f.inflight + [x], started := f.started + [x],
       lastGave := f.lastGave[dn := f.t], lastGot := f.lastGot[rc := f.t])
  }

  function Start(roles: seq<Role>, rules: Rules, p: Pass, rc: nat, dn: nat): (p': Pass)
    requires ValidRoles(roles) && PassFits(|roles|, p) && rc < |roles| && dn < |roles| && rc != dn
    ensures PassFits(|roles|, p')
  {
    var g, t := roles[rc].g, p.fleet.t;
    Pass(StartFleet(|roles|, p.fleet, rc, dn, g),
         Damp(rules, Damp(rules, p.sig, t, dn, true), t, rc, false),
         Add(Add(p.work, dn, -g), rc, g),
         p.moved[dn := p.moved[dn] + 1][rc := p.moved[rc] + 1])
  }

  function TryPair(roles: seq<Role>, rules: Rules, plan: Plan, p: Pass, rc: nat, dn: nat): (p': Pass)
    requires ValidRoles(roles) && PlanFits(|roles|, plan) && PassFits(|roles|, p)
    requires rc < |roles| && dn < |roles| && rc != dn
    ensures PassFits(|roles|, p')
  {
    if Admissible(roles, rules, plan, p, rc, dn) then Start(roles, rules, p, rc, dn) else p
  }

  function AdmitRow(roles: seq<Role>, rules: Rules, plan: Plan, p: Pass, rc: nat, donors: seq<nat>): (p': Pass)
    requires ValidRoles(roles) && PlanFits(|roles|, plan) && PassFits(|roles|, p) && rc < |roles|
    requires forall d :: d in donors ==> d < |roles| && d != rc
    ensures PassFits(|roles|, p')
    decreases |donors|
  {
    if donors == [] then p
    else
      assert donors[0] in donors && forall d :: d in donors[1..] ==> d in donors;
      AdmitRow(roles, rules, plan, TryPair(roles, rules, plan, p, rc, donors[0]), rc, donors[1..])
  }

  function AdmitAll(roles: seq<Role>, rules: Rules, plan: Plan, p: Pass, recv: seq<nat>, donors: seq<nat>): (p': Pass)
    requires ValidRoles(roles) && PlanFits(|roles|, plan) && PassFits(|roles|, p)
    requires forall d :: d in donors ==> d < |roles| && d !in recv
    requires forall r :: r in recv ==> r < |roles|
    ensures PassFits(|roles|, p')
    decreases |recv|
  {
    if recv == [] then p
    else
      assert recv[0] in recv && forall r :: r in recv[1..] ==> r in recv;
      AdmitAll(roles, rules, plan, AdmitRow(roles, rules, plan, p, recv[0], donors), recv[1..], donors)
  }

  predicate Acts(f: Fleet, cnt: seq<nat>) {
    (exists r :: 0 <= r < |cnt| && cnt[r] >= CONFIRM) && |f.inflight| < 2
  }

  /** The pass a cycle opens with, and its receivers and donors in order. */
  function Opening(roles: seq<Role>, rules: Rules, f: Fleet, sig: Signals): (p: Pass)
    requires Fits(|roles|, f) && SignalsFit(|roles|, sig)
    ensures PassFits(|roles|, p)
  {
    Pass(f, sig, Base(rules, f), seq(|roles|, r => 0))
  }

  function RecvList(roles: seq<Role>, plan: Plan, base: seq<int>): (rs: seq<nat>)
    requires ValidRoles(roles) && PlanFits(|roles|, plan) && |base| == |roles|
    ensures forall r :: r in rs ==> r < |roles| && base[r] < plan.integ[r]
  {
    SortRoles(Keys(roles, plan.need, base), false, Receivers(plan, base, |base|))
  }

  function DonorList(roles: seq<Role>, plan: Plan, base: seq<int>): (rs: seq<nat>)
    requires ValidRoles(roles) && PlanFits(|roles|, plan) && |base| == |roles|
    ensures forall r :: r in rs ==> r < |roles| && base[r] > plan.integ[r] && base[r] > roles[r].floor
  {
    SortRoles(Keys(roles, plan.need, base), true, Donors(roles, plan, base, |base|))
  }

  function Admit(roles: seq<Role>, rules: Rules, plan: Plan, f: Fleet, sig: Signals): (p: Pass)
    requires ValidRoles(roles) && PlanFits(|roles|, plan) && Fits(|roles|, f) && SignalsFit(|roles|, sig)
    ensures PassFits(|roles|, p)
  {
    var base := Base(rules, f);
    if !Acts(f, sig.actCnt) then Opening(roles, rules, f, sig)
    else AdmitAll(roles, rules, plan, Opening(roles, rules, f, sig),
                  RecvList(roles, plan, base), DonorList(roles, plan, base))
  }

  // The cycle.

  ghost predicate StateFits(cfg: Config, s: State) {
    Fits(|cfg.roles|, s.fleet) && SignalsFit(|cfg.roles|, s.sig)
  }

  /** Everything a cycle does before it decides. */
  function Arrive(cfg: Config, s: State): (s': State)
    requires StateFits(cfg, s)
    ensures StateFits(cfg, s')
  {
    var n := |cfg.roles|;
    var f := Fill(n, Land(n, s.fleet));
    var inst := Instant(cfg, f.t);
    State(f, Observe(cfg, s.sig, f.t, inst), CountTo(cfg.roles, inst, f.serving, s.sums, n))
  }

  function PlanOf(cfg: Config, rules: Rules, s: State): (plan: Plan)
    requires ValidRoles(cfg.roles) && StateFits(cfg, s)
    ensures PlanFits(|cfg.roles|, plan)
  {
    MakePlan(cfg, rules, s.sig, s.fleet.t, Instant(cfg, s.fleet.t))
  }

  function Decide(cfg: Config, rules: Rules, s: State): (s': State)
    requires ValidRoles(cfg.roles) && StateFits(cfg, s)
    ensures StateFits(cfg, s')
  {
    var plan := PlanOf(cfg, rules, s);
    var f := CancelAll(cfg.roles, rules, plan, s.fleet, s.fleet.inflight);
    var sig := s.sig.(actCnt := Confirm(cfg.roles, rules, plan, Base(rules, f), s.sig.actCnt));
    var p := Admit(cfg.roles, rules, plan, f, sig);
    State(p.fleet, p.sig, s.sums)
  }

  function Tick(s: State): State {
    s.(fleet := s.fleet.(t := s.fleet.t + CYCLE))
  }

  function Cycle(cfg: Config, s: State): (s': State)
    requires ValidRoles(cfg.roles) && StateFits(cfg, s)
    ensures StateFits(cfg, s')
  {
    var a := Arrive(cfg, s);
    Tick(if cfg.rules.None? then a else Decide(cfg, cfg.rules.value, a))
  }

  function Initial(roles: seq<Role>): (s: State)
    ensures Fits(|roles|, s.fleet) && SignalsFit(|roles|, s.sig)
  {
    var n := |roles|;
    var init := seq(n, r requires 0 <= r < n => roles[r].init);
    State(Fleet(0, init, init, [], [], seq(n, r => NEVER), seq(n, r => NEVER), [], [], []),
          Signals(seq(n, r => 0), seq(n, r => []), seq(n, r => []), seq(n, r => NEVER)),
          Totals(0.0, 0.0, 0.0, 0.0))
  }

  /** The state after k cycles, for any k: no run is too long. */
  function Run(cfg: Config, k: nat): (s: State)
    requires ValidRoles(cfg.roles)
    ensures StateFits(cfg, s)
  {
    if k == 0 then Initial(cfg.roles) else Cycle(cfg, Run(cfg, k - 1))
  }

  // The report.

  /** Within RELEASE after landing i the donor receives, or the receiver gives. */
  predicate Undone(ls: seq<Landing>, i: nat)
    requires i < |ls|
  {
    exists j :: 0 <= j < |ls| && 0 < ls[j].time - ls[i].time <= RELEASE
                && (ls[j].tr.rc == ls[i].tr.dn || ls[j].tr.dn == ls[i].tr.rc)
  }

  /** How many of the first n landings were wasted. */
  function Wasted(ls: seq<Landing>, n: nat): nat
    requires n <= |ls|
  {
    if n == 0 then 0 else Wasted(ls, n - 1) + if Undone(ls, n - 1) then 1 else 0
  }
}

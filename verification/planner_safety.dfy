/** What every run of the planner keeps, for every demand function: conservation
    of GPUs and of transfers, the reversal hold, and the floors. */
module PlannerSafety {
  import opened Options
  import opened PlannerTypes
  import opened Tables
  import opened Planner
  import CT = ContinuousTargets

  // Sums over lists.

  function FillSum(xs: seq<Filling>, r: nat): int {
    if xs == [] then 0 else (if xs[0].rc == r then xs[0].g else 0) + FillSum(xs[1..], r)
  }

  lemma {:induction false} FillSumAppend(xs: seq<Filling>, x: Filling, r: nat)
    ensures FillSum(xs + [x], r) == FillSum(xs, r) + (if x.rc == r then x.g else 0)
  {
    if xs != [] {
      assert (xs + [x])[1..] == xs[1..] + [x];
      FillSumAppend(xs[1..], x, r);
    } else {
      assert [x][1..] == [];
    }
  }

  lemma {:induction false} FillSumRemove(xs: seq<Filling>, x: Filling, r: nat)
    requires x in xs
    ensures FillSum(Remove(xs, x), r) == FillSum(xs, r) - (if x.rc == r then x.g else 0)
  {
    if xs[0] != x {
      FillSumRemove(xs[1..], x, r);
      assert ([xs[0]] + Remove(xs[1..], x))[1..] == Remove(xs[1..], x);
    }
  }

  lemma {:induction false} FillSumNone(xs: seq<Filling>, r: nat)
    requires forall x :: x in xs ==> x.rc != r
    ensures FillSum(xs, r) == 0
  {
    if xs != [] {
      assert xs[0] in xs;
      FillSumNone(xs[1..], r);
    }
  }

  lemma {:induction false} FlowAppend(xs: seq<Transfer>, x: Transfer, r: nat)
    ensures Gifts(xs + [x], r) == Gifts(xs, r) + (if x.dn == r then x.g else 0)
    ensures Receipts(xs + [x], r) == Receipts(xs, r) + (if x.rc == r then x.g else 0)
  {
    if xs != [] {
      assert (xs + [x])[1..] == xs[1..] + [x];
      FlowAppend(xs[1..], x, r);
    } else {
      assert [x][1..] == [];
    }
  }

  lemma {:induction false} FlowRemove(xs: seq<Transfer>, x: Transfer, r: nat)
    requires x in xs
    ensures Gifts(Remove(xs, x), r) == Gifts(xs, r) - (if x.dn == r then x.g else 0)
    ensures Receipts(Remove(xs, x), r) == Receipts(xs, r) - (if x.rc == r then x.g else 0)
  {
    if xs[0] != x {
      FlowRemove(xs[1..], x, r);
      assert ([xs[0]] + Remove(xs[1..], x))[1..] == Remove(xs[1..], x);
    }
  }

  lemma {:induction false} NoReceipts(xs: seq<Transfer>, r: nat)
    requires forall x :: x in xs ==> x.rc != r
    ensures Receipts(xs, r) == 0
  {
    if xs != [] {
      assert xs[0] in xs;
      NoReceipts(xs[1..], r);
    }
  }

  lemma {:induction false} GiftsNonNegative(n: nat, xs: seq<Transfer>, r: nat)
    requires forall x :: x in xs ==> ValidTransfer(n, x)
    ensures Gifts(xs, r) >= 0
  {
    if xs != [] {
      assert xs[0] in xs;
      GiftsNonNegative(n, xs[1..], r);
    }
  }

  function Transfers(ls: seq<Landing>): (xs: seq<Transfer>)
    ensures |xs| == |ls| && forall i :: 0 <= i < |ls| ==> xs[i] == ls[i].tr
  {
    seq(|ls|, i requires 0 <= i < |ls| => ls[i].tr)
  }

  // The invariants.

  /** GPUs are neither made nor lost, and what a role holds it serves or fills. */
  ghost predicate Conserved(n: nat, total: int, f: Fleet) {
    && Fits(n, f)
    && Sum(f.held) == total
    && forall r :: 0 <= r < n ==> f.held[r] == f.serving[r] + FillSum(f.filling, r)
  }

  /** Every started transfer is in flight, landed or cancelled, exactly one of them. */
  ghost predicate Accounted(f: Fleet) {
    && multiset(f.started) == multiset(f.inflight) + multiset(Transfers(f.landed)) + multiset(f.cancelled)
    && (forall i :: 0 <= i < |f.started| ==> f.started[i].id == i)
    && |f.inflight| <= 2
  }

  ghost predicate FilledBy(x: Filling, y: Transfer) {
    x.rc == y.rc && x.g == y.g && x.serve == y.start + RELEASE + FILL
  }

  /** Clock facts: everything happens on the cycle grid, a landing exactly
      RELEASE after its start, and the timers are never behind a start. */
  ghost predicate OnTime(n: nat, f: Fleet) {
    && Fits(n, f)
    && f.t % CYCLE == 0
    && (forall x :: x in f.started ==>
          && ValidTransfer(n, x) && x.start % CYCLE == 0 && x.start <= f.t
          && f.lastGave[x.dn] >= x.start && f.lastGot[x.rc] >= x.start)
    && (forall l :: l in f.landed ==> l.time == l.tr.start + RELEASE && l.time <= f.t && l.tr in f.started)
    && (forall x :: x in f.filling ==> exists y :: y in f.started && FilledBy(x, y))
    && (forall x :: x in f.inflight ==> x in f.started)
  }

  /** Nothing in flight and nothing filling is overdue. */
  ghost predicate Punctual(f: Fleet) {
    && (forall x :: x in f.inflight ==> f.t <= x.start + RELEASE)
    && (forall x :: x in f.filling ==> f.t <= x.serve)
  }

  /** Everything due has landed, everything full serves. */
  ghost predicate Arrived(f: Fleet) {
    && (forall x :: x in f.inflight ==> f.t < x.start + RELEASE)
    && (forall x :: x in f.filling ==> f.t < x.serve)
  }

  ghost predicate Apart(x: Transfer, y: Transfer) {
    x.start - y.start >= HOLD || y.start - x.start >= HOLD
  }

  /** Opposite transfers of one role start at least HOLD apart. */
  ghost predicate Spaced(f: Fleet) {
    forall x, y :: x in f.started && y in f.started && x.dn == y.rc ==> Apart(x, y)
  }

  /** No floor is broken, not even when every gift in flight has landed. */
  ghost predicate AboveFloors(roles: seq<Role>, g: int, f: Fleet) {
    && Fits(|roles|, f)
    && (forall r :: 0 <= r < |roles| ==>
          Whole(f.held[r], g) && f.serving[r] - Gifts(f.inflight, r) >= roles[r].floor)
    && (forall x :: x in f.inflight ==> x.g == g)
  }

  ghost predicate Holds(cfg: Config) {
    cfg.rules.None? || cfg.rules.value.hold
  }

  /** Equal replica sizes, floors of no or one replica, whole initial holdings
      at or above the floors, and the hold and committed rules on. */
  ghost predicate FloorCase(cfg: Config, g: int) {
    && Holds(cfg) && (cfg.rules.None? || cfg.rules.value.committed)
    && ValidRoles(cfg.roles) && EqualSizes(cfg.roles, g)
    && forall r :: 0 <= r < |cfg.roles| ==>
         && (cfg.roles[r].floor == 0 || cfg.roles[r].floor == g)
         && cfg.roles[r].init >= cfg.roles[r].floor && Whole(cfg.roles[r].init, g)
  }

  ghost predicate Good(cfg: Config, total: int, g: int, f: Fleet) {
    var n := |cfg.roles|;
    && Conserved(n, total, f) && Accounted(f) && OnTime(n, f)
    && (Holds(cfg) ==> Spaced(f))
    && (FloorCase(cfg, g) ==> AboveFloors(cfg.roles, g, f))
  }

  // One landing.

  lemma LandConserves(n: nat, total: int, f: Fleet, x: Transfer)
    requires Conserved(n, total, f) && ValidTransfer(n, x)
    ensures Conserved(n, total, LandOne(n, f, x))
  {
    hide Sum;
    var f' := LandOne(n, f, x);
    SumUpdate(f.held, x.dn, f.held[x.dn] - x.g);
    var h := Add(f.held, x.dn, -x.g);
    SumUpdate(h, x.rc, h[x.rc] + x.g);
    forall r | 0 <= r < n
      ensures f'.held[r] == f'.serving[r] + FillSum(f'.filling, r)
    {
      FillSumAppend(f.filling, Filling(f.t + FILL, x.rc, x.g), r);
    }
  }

  lemma LandAccounts(n: nat, f: Fleet, x: Transfer)
    requires Fits(n, f) && Accounted(f) && ValidTransfer(n, x) && x in f.inflight
    ensures Accounted(LandOne(n, f, x))
  {
    var f' := LandOne(n, f, x);
    assert Transfers(f'.landed) == Transfers(f.landed) + [x];
    assert |multiset(f'.inflight)| == |multiset(f.inflight)| - 1;
  }

  lemma LandOnTime(n: nat, f: Fleet, x: Transfer)
    requires OnTime(n, f) && x in f.inflight && f.t == x.start + RELEASE
    ensures OnTime(n, LandOne(n, f, x))
  {
    var f' := LandOne(n, f, x);
    forall y | y in f'.filling
      ensures exists z :: z in f'.started && FilledBy(y, z)
    {
      if y !in f.filling {
        assert FilledBy(y, x);
      }
    }
  }

  lemma LandKeepsFloors(roles: seq<Role>, g: int, f: Fleet, x: Transfer)
    requires AboveFloors(roles, g, f) && ValidTransfer(|roles|, x) && x in f.inflight
    ensures AboveFloors(roles, g, LandOne(|roles|, f, x))
  {
    var f' := LandOne(|roles|, f, x);
    forall r | 0 <= r < |roles|
      ensures Whole(f'.held[r], g) && f'.serving[r] - Gifts(f'.inflight, r) >= roles[r].floor
    {
      FlowRemove(f.inflight, x, r);
      WholeStep(f.held[r], g);
    }
  }

  lemma LandGood(cfg: Config, total: int, g: int, f: Fleet, x: Transfer)
    requires Good(cfg, total, g, f) && x in f.inflight && f.t == x.start + RELEASE
    ensures Good(cfg, total, g, LandOne(|cfg.roles|, f, x))
  {
    var n := |cfg.roles|;
    LandConserves(n, total, f, x);
    LandAccounts(n, f, x);
    LandOnTime(n, f, x);
    if FloorCase(cfg, g) {
      LandKeepsFloors(cfg.roles, g, f, x);
    }
  }

  /** The due list holds exactly the overdue part of the list in flight. */
  ghost predicate Covers(due: seq<Transfer>, f: Fleet) {
    forall x :: multiset(due)[x] == if x.start + RELEASE <= f.t then multiset(f.inflight)[x] else 0
  }

  lemma {:induction false} DueCovers(xs: seq<Transfer>, t: int, x: Transfer)
    ensures multiset(Due(xs, t))[x] == if x.start + RELEASE <= t then multiset(xs)[x] else 0
  {
    if xs != [] {
      assert xs == [xs[0]] + xs[1..];
      DueCovers(xs[1..], t, x);
    }
  }

  lemma {:induction false} LandAllGood(cfg: Config, total: int, g: int, f: Fleet, due: seq<Transfer>)
    requires Good(cfg, total, g, f) && Covers(due, f)
    requires forall x :: x in f.inflight ==> f.t <= x.start + RELEASE
    requires forall x :: x in due ==> ValidTransfer(|cfg.roles|, x)
    ensures var f' := LandAll(|cfg.roles|, f, due);
      && Good(cfg, total, g, f') && f'.t == f.t && f'.started == f.started
      && forall x :: x in f'.inflight ==> f.t < x.start + RELEASE
    decreases |due|
  {
    if due != [] {
      var x := due[0];
      assert due == [x] + due[1..];
      assert x in multiset(due);
      LandGood(cfg, total, g, f, x);
      LandAllGood(cfg, total, g, LandOne(|cfg.roles|, f, x), due[1..]);
    } else {
      forall x | x in f.inflight
        ensures f.t < x.start + RELEASE
      {
        assert multiset(due)[x] == 0 && x in multiset(f.inflight);
      }
    }
  }

  // One filling.

  lemma FillConserves(n: nat, total: int, f: Fleet, x: Filling)
    requires Conserved(n, total, f) && x in f.filling && x.rc < n
    ensures Conserved(n, total, FillOne(n, f, x))
  {
    hide Remove, FillSum, Sum;
    var f' := FillOne(n, f, x);
    forall r | 0 <= r < n
      ensures f'.held[r] == f'.serving[r] + FillSum(f'.filling, r)
    {
      FillSumRemove(f.filling, x, r);
    }
  }

  lemma FillOnTime(n: nat, f: Fleet, x: Filling)
    requires OnTime(n, f) && x in f.filling && x.rc < n
    ensures OnTime(n, FillOne(n, f, x))
  {
    hide Remove, FilledBy, ValidTransfer;
  }

  lemma FillKeepsFloors(roles: seq<Role>, g: int, f: Fleet, x: Filling)
    requires OnTime(|roles|, f) && AboveFloors(roles, g, f) && x in f.filling && x.rc < |roles|
    ensures AboveFloors(roles, g, FillOne(|roles|, f, x))
  {
    hide Remove, Gifts, Whole;
    var y :| y in f.started && FilledBy(x, y);
  }

  lemma FillGood(cfg: Config, total: int, g: int, f: Fleet, x: Filling)
    requires Good(cfg, total, g, f) && x in f.filling
    ensures Good(cfg, total, g, FillOne(|cfg.roles|, f, x))
  {
    hide FloorCase, AboveFloors, FillSum, Remove, Whole;
    var n := |cfg.roles|;
    FillConserves(n, total, f, x);
    FillOnTime(n, f, x);
    if FloorCase(cfg, g) {
      FillKeepsFloors(cfg.roles, g, f, x);
    }
  }

  ghost predicate CoversFull(full: seq<Filling>, f: Fleet) {
    forall x :: multiset(full)[x] == if x.serve <= f.t then multiset(f.filling)[x] else 0
  }

  lemma {:induction false} FullCovers(xs: seq<Filling>, t: int, x: Filling)
    ensures multiset(Full(xs, t))[x] == if x.serve <= t then multiset(xs)[x] else 0
  {
    if xs != [] {
      assert xs == [xs[0]] + xs[1..];
      FullCovers(xs[1..], t, x);
    }
  }

  lemma {:induction false} FillAllGood(cfg: Config, total: int, g: int, f: Fleet, full: seq<Filling>)
    requires Good(cfg, total, g, f) && CoversFull(full, f)
    requires forall x :: x in full ==> x.rc < |cfg.roles|
    ensures var f' := FillAll(|cfg.roles|, f, full);
      && Good(cfg, total, g, f') && f'.t == f.t && f'.inflight == f.inflight && f'.started == f.started
      && forall x :: x in f'.filling ==> f.t < x.serve
    decreases |full|
  {
    assert Fits(|cfg.roles|, f);
    hide Good, CoversFull;
    if full != [] {
      FullStep(|cfg.roles|, f, full);
      FillGood(cfg, total, g, f, full[0]);
      FillAllGood(cfg, total, g, FillOne(|cfg.roles|, f, full[0]), full[1..]);
    } else {
      FullDone(f);
    }
  }

  lemma FullStep(n: nat, f: Fleet, full: seq<Filling>)
    requires Fits(n, f) && CoversFull(full, f) && full != [] && full[0].rc < n
    ensures full[0] in f.filling
    ensures CoversFull(full[1..], FillOne(n, f, full[0]))
  {
    var x, rest := full[0], full[1..];
    assert full == [x] + rest;
    assert x in multiset(full);
    hide Remove, Fits;
    assert multiset(full) == multiset{x} + multiset(rest);
  }

  lemma FullDone(f: Fleet)
    requires CoversFull([], f)
    ensures forall x :: x in f.filling ==> f.t < x.serve
  {
    forall x | x in f.filling
      ensures f.t < x.serve
    {
      var none: seq<Filling> := [];
      assert multiset(none)[x] == 0 && x in multiset(f.filling);
    }
  }

  // One cancel.

  lemma CancelAccounts(n: nat, rules: Rules, f: Fleet, x: Transfer)
    requires Fits(n, f) && Accounted(f) && ValidTransfer(n, x) && x in f.inflight
    ensures Accounted(CancelOne(n, rules, f, x))
  {
    var f' := CancelOne(n, rules, f, x);
    assert |multiset(f'.inflight)| == |multiset(f.inflight)| - 1;
  }

  lemma CancelOnTime(n: nat, rules: Rules, f: Fleet, x: Transfer)
    requires OnTime(n, f) && ValidTransfer(n, x)
    ensures OnTime(n, CancelOne(n, rules, f, x))
  {
    var f' := CancelOne(n, rules, f, x);
    forall y | y in f'.filling
      ensures exists z :: z in f'.started && FilledBy(y, z)
    {
      var z :| z in f.started && FilledBy(y, z);
    }
  }

  lemma CancelKeepsFloors(roles: seq<Role>, rules: Rules, g: int, f: Fleet, x: Transfer)
    requires AboveFloors(roles, g, f) && ValidTransfer(|roles|, x) && x in f.inflight
    ensures AboveFloors(roles, g, CancelOne(|roles|, rules, f, x))
  {
    var f' := CancelOne(|roles|, rules, f, x);
    forall r | 0 <= r < |roles|
      ensures f'.serving[r] - Gifts(f'.inflight, r) >= roles[r].floor
    {
      FlowRemove(f.inflight, x, r);
    }
  }

  lemma CancelGood(cfg: Config, rules: Rules, total: int, g: int, f: Fleet, x: Transfer)
    requires Good(cfg, total, g, f) && x in f.inflight
    ensures Good(cfg, total, g, CancelOne(|cfg.roles|, rules, f, x))
  {
    hide Accounted, OnTime, AboveFloors, FloorCase;
    CancelAccounts(|cfg.roles|, rules, f, x);
    CancelOnTime(|cfg.roles|, rules, f, x);
    if FloorCase(cfg, g) {
      CancelKeepsFloors(cfg.roles, rules, g, f, x);
    }
  }

  lemma {:induction false} CancelAllGood(cfg: Config, rules: Rules, plan: Plan, total: int, g: int,
                                         f: Fleet, todo: seq<Transfer>)
    requires ValidRoles(cfg.roles) && PlanFits(|cfg.roles|, plan)
    requires Good(cfg, total, g, f) && Arrived(f) && multiset(todo) <= multiset(f.inflight)
    requires forall x :: x in todo ==> ValidTransfer(|cfg.roles|, x)
    ensures var f' := CancelAll(cfg.roles, rules, plan, f, todo);
      Good(cfg, total, g, f') && Arrived(f') && f'.t == f.t && f'.started == f.started
    decreases |todo|
  {
    if todo != [] {
      var x := todo[0];
      TodoStep(|cfg.roles|, rules, f, todo);
      hide Good, Arrived, ShouldCancel, CancelOne, Remove;
      if ShouldCancel(cfg.roles, rules, plan, f, x) {
        CancelGood(cfg, rules, total, g, f, x);
        CancelAllGood(cfg, rules, plan, total, g, CancelOne(|cfg.roles|, rules, f, x), todo[1..]);
      } else {
        CancelAllGood(cfg, rules, plan, total, g, f, todo[1..]);
      }
    }
  }

  /** What is left to judge is still in flight, whether the first was cancelled or not. */
  lemma TodoStep(n: nat, rules: Rules, f: Fleet, todo: seq<Transfer>)
    requires Fits(n, f) && Arrived(f) && todo != [] && multiset(todo) <= multiset(f.inflight)
    requires ValidTransfer(n, todo[0])
    ensures todo[0] in f.inflight && multiset(todo[1..]) <= multiset(f.inflight)
    ensures var f' := CancelOne(n, rules, f, todo[0]);
      Arrived(f') && multiset(todo[1..]) <= multiset(f'.inflight) && f'.t == f.t && f'.started == f.started
  {
    hide Remove, Fits;
    var x, rest := todo[0], todo[1..];
    assert todo == [x] + rest;
    assert multiset(todo) == multiset{x} + multiset(rest);
    assert x in multiset(f.inflight);
  }

  // One start.

  lemma StartAccounts(n: nat, f: Fleet, rc: nat, dn: nat, size: int)
    requires Fits(n, f) && Accounted(f) && |f.inflight| < 2
    requires rc < n && dn < n && rc != dn && size > 0
    ensures Accounted(StartFleet(n, f, rc, dn, size))
  {
  }

  lemma StartOnTime(n: nat, f: Fleet, rc: nat, dn: nat, size: int)
    requires OnTime(n, f) && rc < n && dn < n && rc != dn && size > 0
    ensures OnTime(n, StartFleet(n, f, rc, dn, size))
  {
    var f' := StartFleet(n, f, rc, dn, size);
    forall y | y in f'.filling
      ensures exists z :: z in f'.started && FilledBy(y, z)
    {
      var z :| z in f.started && FilledBy(y, z);
      assert z in f'.started;
    }
  }

  /** The hold check is exactly what keeps a new transfer away from every
      opposite one before it. */
  lemma StartSpaced(n: nat, f: Fleet, rc: nat, dn: nat, size: int)
    requires OnTime(n, f) && Spaced(f) && rc < n && dn < n && rc != dn && size > 0
    requires f.t - f.lastGave[rc] >= HOLD && f.t - f.lastGot[dn] >= HOLD
    ensures Spaced(StartFleet(n, f, rc, dn, size))
  {
  }

  lemma StartKeepsFloors(roles: seq<Role>, g: int, f: Fleet, rc: nat, dn: nat)
    requires AboveFloors(roles, g, f) && rc < |roles| && dn < |roles| && rc != dn && g > 0
    requires f.serving[dn] - Gifts(f.inflight, dn) - g >= roles[dn].floor
    ensures AboveFloors(roles, g, StartFleet(|roles|, f, rc, dn, g))
  {
    var f' := StartFleet(|roles|, f, rc, dn, g);
    forall r | 0 <= r < |roles|
      ensures f'.serving[r] - Gifts(f'.inflight, r) >= roles[r].floor
    {
      FlowAppend(f.inflight, Transfer(|f.started|, f.t, dn, rc, g), r);
    }
  }

  lemma StartGood(cfg: Config, total: int, g: int, f: Fleet, rc: nat, dn: nat, size: int)
    requires Good(cfg, total, g, f) && Arrived(f) && |f.inflight| < 2
    requires rc < |cfg.roles| && dn < |cfg.roles| && rc != dn && size > 0
    requires Holds(cfg) ==> f.t - f.lastGave[rc] >= HOLD && f.t - f.lastGot[dn] >= HOLD
    requires FloorCase(cfg, g) ==> size == g && f.serving[dn] - Gifts(f.inflight, dn) - g >= cfg.roles[dn].floor
    ensures var f' := StartFleet(|cfg.roles|, f, rc, dn, size);
      Good(cfg, total, g, f') && Arrived(f')
  {
    hide Accounted, OnTime, AboveFloors, FloorCase, Spaced;
    var n := |cfg.roles|;
    StartAccounts(n, f, rc, dn, size);
    StartOnTime(n, f, rc, dn, size);
    if Holds(cfg) {
      StartSpaced(n, f, rc, dn, size);
    }
    if FloorCase(cfg, g) {
      StartKeepsFloors(cfg.roles, g, f, rc, dn);
    }
  }

  /** A role whose receipt timer has run out for HOLD has nothing on its way:
      the hold outlasts release and fill together. */
  lemma NothingOnItsWay(n: nat, f: Fleet, dn: nat)
    requires OnTime(n, f) && Arrived(f) && dn < n && f.t - f.lastGot[dn] >= HOLD
    ensures Receipts(f.inflight, dn) == 0 && FillSum(f.filling, dn) == 0
  {
    forall x | x in f.filling
      ensures x.rc != dn
    {
      var y :| y in f.started && FilledBy(x, y);
    }
    NoReceipts(f.inflight, dn);
    FillSumNone(f.filling, dn);
  }

  /** A gift that would take a role of at most one floor replica below its floor
      is refused by the donor check, whatever the need and the target. */
  lemma FloorRefusesGift(G: int, floor: int, g: int, tgt: real, N: real)
    requires g > 0 && (floor == 0 || floor == g) && tgt >= floor as real
    requires Whole(G, g) && G >= floor && G - g < floor
    ensures !DonorOk(G - g, tgt, N, g)
  {
    if floor == g {
      WholeStep(0, g) by { WholeZero(g); }
      if G > g {
        WholeGap(g, G, g);
      }
    } else if G > 0 {
      WholeGap(0, G, g) by { WholeZero(g); }
    }
    assert G == floor;
  }

  /** What holds between two pairs of the admission loop. */
  ghost predicate PassGood(cfg: Config, rules: Rules, total: int, g: int, now: int, p: Pass) {
    && p.fleet.t == now
    && PassFits(|cfg.roles|, p) && Good(cfg, total, g, p.fleet) && Arrived(p.fleet)
    && (rules.committed ==> p.work == Committed(p.fleet.held, p.fleet.inflight))
  }

  ghost predicate PlanAboveFloors(roles: seq<Role>, plan: Plan) {
    PlanFits(|roles|, plan) && forall r :: 0 <= r < |roles| ==> plan.cont[r] >= roles[r].floor as real
  }

  lemma GiftKeepsFloor(cfg: Config, rules: Rules, plan: Plan, total: int, g: int, now: int, p: Pass, rc: nat, dn: nat)
    requires ValidRoles(cfg.roles) && cfg.rules == Some(rules) && FloorCase(cfg, g)
    requires PlanAboveFloors(cfg.roles, plan) && PassGood(cfg, rules, total, g, now, p)
    requires rc < |cfg.roles| && dn < |cfg.roles| && Admissible(cfg.roles, rules, plan, p, rc, dn)
    ensures p.fleet.serving[dn] - Gifts(p.fleet.inflight, dn) - g >= cfg.roles[dn].floor
  {
    var f := p.fleet;
    NothingOnItsWay(|cfg.roles|, f, dn);
    assert p.work[dn] == f.serving[dn] - Gifts(f.inflight, dn);
    WholeGifts(f.inflight, g, dn);
    WholeDifference(f.held[dn], Gifts(f.inflight, dn), g);
    if p.work[dn] - g < cfg.roles[dn].floor {
      FloorRefusesGift(p.work[dn], cfg.roles[dn].floor, g, plan.cont[dn], plan.need[dn]);
    }
  }

  lemma {:induction false} WholeGifts(xs: seq<Transfer>, g: int, r: nat)
    requires forall x :: x in xs ==> x.g == g
    ensures Whole(Gifts(xs, r), g)
  {
    WholeZero(g);
    if xs != [] {
      assert xs[0] in xs;
      WholeGifts(xs[1..], g, r);
      WholeStep(Gifts(xs[1..], r), g);
    }
  }

  lemma WholeDifference(a: int, b: int, g: int)
    requires Whole(a, g) && Whole(b, g)
    ensures Whole(a - b, g)
  {
    var p, q :| a == Times(p, g) && b == Times(q, g);
    assert a - b == Times(p - q, g);
  }

  lemma TryPairGood(cfg: Config, rules: Rules, plan: Plan, total: int, g: int, now: int, p: Pass, rc: nat, dn: nat)
    requires ValidRoles(cfg.roles) && cfg.rules == Some(rules)
    requires PlanAboveFloors(cfg.roles, plan) && PassGood(cfg, rules, total, g, now, p)
    requires rc < |cfg.roles| && dn < |cfg.roles| && rc != dn
    ensures PassGood(cfg, rules, total, g, now, TryPair(cfg.roles, rules, plan, p, rc, dn))
  {
    if Admissible(cfg.roles, rules, plan, p, rc, dn) {
      if FloorCase(cfg, g) {
        GiftKeepsFloor(cfg, rules, plan, total, g, now, p, rc, dn);
      }
      hide Good, Arrived, Improves, DonorOk;
      StartGood(cfg, total, g, p.fleet, rc, dn, cfg.roles[rc].g);
      if rules.committed {
        StartCommits(cfg.roles, rules, p, rc, dn);
      }
    }
  }

  /** The working copy follows the committed accounting move by move. */
  lemma StartCommits(roles: seq<Role>, rules: Rules, p: Pass, rc: nat, dn: nat)
    requires ValidRoles(roles) && PassFits(|roles|, p) && rc < |roles| && dn < |roles| && rc != dn
    requires p.work == Committed(p.fleet.held, p.fleet.inflight)
    ensures var p' := Start(roles, rules, p, rc, dn);
      p'.work == Committed(p'.fleet.held, p'.fleet.inflight)
  {
    var p' := Start(roles, rules, p, rc, dn);
    var x := Transfer(|p.fleet.started|, p.fleet.t, dn, rc, roles[rc].g);
    forall r | 0 <= r < |roles|
      ensures p'.work[r] == Committed(p'.fleet.held, p'.fleet.inflight)[r]
    {
      FlowAppend(p.fleet.inflight, x, r);
    }
  }

  lemma {:induction false} AdmitRowGood(cfg: Config, rules: Rules, plan: Plan, total: int, g: int, now: int,
                                        p: Pass, rc: nat, donors: seq<nat>)
    requires ValidRoles(cfg.roles) && cfg.rules == Some(rules) && rc < |cfg.roles|
    requires PlanAboveFloors(cfg.roles, plan) && PassGood(cfg, rules, total, g, now, p)
    requires forall d :: d in donors ==> d < |cfg.roles| && d != rc
    ensures PassGood(cfg, rules, total, g, now, AdmitRow(cfg.roles, rules, plan, p, rc, donors))
    decreases |donors|
  {
    if donors != [] {
      assert donors[0] in donors && forall d :: d in donors[1..] ==> d in donors;
      TryPairGood(cfg, rules, plan, total, g, now, p, rc, donors[0]);
      AdmitRowGood(cfg, rules, plan, total, g, now, TryPair(cfg.roles, rules, plan, p, rc, donors[0]), rc, donors[1..]);
    }
  }

  lemma {:induction false} AdmitAllGood(cfg: Config, rules: Rules, plan: Plan, total: int, g: int, now: int,
                                        p: Pass, recv: seq<nat>, donors: seq<nat>)
    requires ValidRoles(cfg.roles) && cfg.rules == Some(rules)
    requires PlanAboveFloors(cfg.roles, plan) && PassGood(cfg, rules, total, g, now, p)
    requires forall d :: d in donors ==> d < |cfg.roles| && d !in recv
    requires forall r :: r in recv ==> r < |cfg.roles|
    ensures PassGood(cfg, rules, total, g, now, AdmitAll(cfg.roles, rules, plan, p, recv, donors))
    decreases |recv|
  {
    if recv != [] {
      assert recv[0] in recv && forall r :: r in recv[1..] ==> r in recv;
      AdmitRowGood(cfg, rules, plan, total, g, now, p, recv[0], donors);
      AdmitAllGood(cfg, rules, plan, total, g, now,
                   AdmitRow(cfg.roles, rules, plan, p, recv[0], donors), recv[1..], donors);
    }
  }

  // One cycle, and every run.

  lemma ArriveGood(cfg: Config, total: int, g: int, s: State)
    requires StateFits(cfg, s) && Good(cfg, total, g, s.fleet) && Punctual(s.fleet)
    ensures var f := Arrive(cfg, s).fleet; Good(cfg, total, g, f) && Arrived(f) && f.t == s.fleet.t
  {
    var n, f := |cfg.roles|, s.fleet;
    forall x ensures multiset(Due(f.inflight, f.t))[x] == if x.start + RELEASE <= f.t then multiset(f.inflight)[x] else 0 {
      DueCovers(f.inflight, f.t, x);
    }
    LandAllGood(cfg, total, g, f, Due(f.inflight, f.t));
    var l := Land(n, f);
    forall x ensures multiset(Full(l.filling, l.t))[x] == if x.serve <= l.t then multiset(l.filling)[x] else 0 {
      FullCovers(l.filling, l.t, x);
    }
    FillAllGood(cfg, total, g, l, Full(l.filling, l.t));
  }

  lemma PlanFloors(cfg: Config, rules: Rules, s: State)
    requires ValidRoles(cfg.roles) && StateFits(cfg, s)
    ensures PlanAboveFloors(cfg.roles, PlanOf(cfg, rules, s))
  {
    var plan := PlanOf(cfg, rules, s);
    forall r | 0 <= r < |cfg.roles|
      ensures plan.cont[r] >= cfg.roles[r].floor as real
    {
      CT.ContinuousFloors(cfg.roles, plan.need, cfg.B as real, r);
    }
  }

  lemma DecideGood(cfg: Config, rules: Rules, total: int, g: int, s: State)
    requires ValidRoles(cfg.roles) && StateFits(cfg, s) && cfg.rules == Some(rules)
    requires Good(cfg, total, g, s.fleet) && Arrived(s.fleet)
    ensures var f := Decide(cfg, rules, s).fleet; Good(cfg, total, g, f) && Arrived(f) && f.t == s.fleet.t
  {
    var plan, now := PlanOf(cfg, rules, s), s.fleet.t;
    PlanFloors(cfg, rules, s);
    CancelAllGood(cfg, rules, plan, total, g, s.fleet, s.fleet.inflight);
    var f := CancelAll(cfg.roles, rules, plan, s.fleet, s.fleet.inflight);
    var base := Base(rules, f);
    var sig := s.sig.(actCnt := Confirm(cfg.roles, rules, plan, base, s.sig.actCnt));
    var p := Opening(cfg.roles, rules, f, sig);
    assert PassGood(cfg, rules, total, g, now, p);
    if Acts(f, sig.actCnt) {
      AdmitAllGood(cfg, rules, plan, total, g, now, p,
                   RecvList(cfg.roles, plan, base), DonorList(cfg.roles, plan, base));
    }
  }

  /** The clock moves on: what has not landed yet is not overdue next cycle. */
  lemma TickGood(cfg: Config, total: int, g: int, s: State)
    requires Good(cfg, total, g, s.fleet) && Arrived(s.fleet)
    ensures Good(cfg, total, g, Tick(s).fleet) && Punctual(Tick(s).fleet)
  {
    hide FloorCase, AboveFloors, Whole, Gifts, FillSum;
    TickPunctual(|cfg.roles|, s);
    TickOnTime(|cfg.roles|, s);
    hide OnTime, Punctual, Arrived;
    if FloorCase(cfg, g) {
      TickKeepsFloors(cfg.roles, g, s);
    }
  }

  lemma TickPunctual(n: nat, s: State)
    requires OnTime(n, s.fleet) && Arrived(s.fleet)
    ensures Punctual(Tick(s).fleet)
  {
    var f := Tick(s).fleet;
    forall x | x in f.inflight
      ensures f.t <= x.start + RELEASE
    {
      GridStep(s.fleet.t, x.start + RELEASE);
    }
    forall x | x in f.filling
      ensures f.t <= x.serve
    {
      var y :| y in s.fleet.started && FilledBy(x, y);
      GridStep(s.fleet.t, x.serve);
    }
  }

  lemma TickOnTime(n: nat, s: State)
    requires OnTime(n, s.fleet)
    ensures OnTime(n, Tick(s).fleet)
  {
    hide FilledBy, ValidTransfer;
  }

  lemma TickKeepsFloors(roles: seq<Role>, g: int, s: State)
    requires AboveFloors(roles, g, s.fleet)
    ensures AboveFloors(roles, g, Tick(s).fleet)
  {
    hide Whole, Gifts;
  }

  lemma GridStep(a: int, b: int)
    requires a % CYCLE == 0 && b % CYCLE == 0 && a < b
    ensures a + CYCLE <= b
  {
  }

  function TotalInit(roles: seq<Role>): int {
    Sum(Initial(roles).fleet.held)
  }

  lemma InitialGood(cfg: Config, g: int)
    requires ValidRoles(cfg.roles)
    ensures var f := Initial(cfg.roles).fleet; Good(cfg, TotalInit(cfg.roles), g, f) && Punctual(f)
  {
    assert Transfers(Initial(cfg.roles).fleet.landed) == [];
  }

  lemma CycleGood(cfg: Config, total: int, g: int, s: State)
    requires ValidRoles(cfg.roles) && StateFits(cfg, s)
    requires Good(cfg, total, g, s.fleet) && Punctual(s.fleet)
    ensures var f := Cycle(cfg, s).fleet;
      Good(cfg, total, g, f) && Punctual(f) && f.t == s.fleet.t + CYCLE
  {
    hide Good, Punctual, Arrived, Decide, Arrive;
    ArriveGood(cfg, total, g, s);
    var a := Arrive(cfg, s);
    if cfg.rules.Some? {
      DecideGood(cfg, cfg.rules.value, total, g, a);
      TickGood(cfg, total, g, Decide(cfg, cfg.rules.value, a));
    } else {
      TickGood(cfg, total, g, a);
    }
  }

  /** Every reachable state is good, whatever the demand and the rules. */
  lemma {:induction false} RunGood(cfg: Config, g: int, k: nat)
    requires ValidRoles(cfg.roles)
    ensures var f := Run(cfg, k).fleet;
      && Good(cfg, TotalInit(cfg.roles), g, f) && Punctual(f) && f.t == CYCLE * k
  {
    hide Good, Punctual, Cycle;
    if k == 0 {
      InitialGood(cfg, g);
    } else {
      RunGood(cfg, g, k - 1);
      CycleGood(cfg, TotalInit(cfg.roles), g, Run(cfg, k - 1));
    }
  }

  // The theorems.

  /** Counting each started transfer once: in flight, landed or cancelled. */
  ghost function Fates(f: Fleet, x: Transfer): nat {
    multiset(f.inflight)[x] + multiset(Transfers(f.landed))[x] + multiset(f.cancelled)[x]
  }

  /** In every run, whatever the rules and the demand: total held GPUs never
      change, a role holds what it serves plus what it fills, at most two
      transfers are in flight, and each transfer ever started has exactly one
      fate, which no transfer that was not started has. */
  lemma RunConserves(cfg: Config, k: nat)
    requires ValidRoles(cfg.roles)
    ensures var f := Run(cfg, k).fleet;
      && Sum(f.held) == TotalInit(cfg.roles)
      && (forall r :: 0 <= r < |cfg.roles| ==> f.held[r] == f.serving[r] + FillSum(f.filling, r))
      && |f.inflight| <= 2
      && |f.started| == |f.inflight| + |f.landed| + |f.cancelled|
      && forall x :: Fates(f, x) == if x in f.started then 1 else 0
  {
    RunGood(cfg, 0, k);
    var f := Run(cfg, k).fleet;
    calc {
      |f.started|;
      |multiset(f.started)|;
      |multiset(f.inflight) + multiset(Transfers(f.landed)) + multiset(f.cancelled)|;
      |f.inflight| + |f.landed| + |f.cancelled|;
    }
    forall x ensures Fates(f, x) == if x in f.started then 1 else 0 {
      OneFate(f, x);
    }
  }

  lemma OneFate(f: Fleet, x: Transfer)
    requires Accounted(f)
    ensures Fates(f, x) == if x in f.started then 1 else 0
  {
    assert Fates(f, x) == multiset(f.started)[x];
    NumberedOnce(f.started, x);
  }

  lemma {:induction false} NumberedOnce(xs: seq<Transfer>, x: Transfer)
    requires forall i :: 0 <= i < |xs| ==> xs[i].id == i
    ensures multiset(xs)[x] == if x in xs then 1 else 0
  {
    if xs != [] {
      var n := |xs| - 1;
      assert xs == xs[..n] + [xs[n]];
      NumberedOnce(xs[..n], x);
    }
  }

  /** With the hold rule, for every demand function: opposite transfers of one
      role start at least HOLD apart, no landed transfer is ever wasted, and no
      role has a gift in flight while a receipt is in flight or filling. */
  lemma RunNeverReverses(cfg: Config, k: nat)
    requires ValidRoles(cfg.roles) && Holds(cfg)
    ensures var f := Run(cfg, k).fleet;
      && (forall x, y :: x in f.started && y in f.started && x.dn == y.rc ==> Apart(x, y))
      && Wasted(f.landed, |f.landed|) == 0
      && (forall x, y :: x in f.inflight && y in f.inflight ==> x.dn != y.rc)
      && (forall x, y :: x in f.inflight && y in f.filling ==> x.dn != y.rc)
  {
    hide Run, Cycle;
    RunGood(cfg, 0, k);
    var f := Run(cfg, k).fleet;
    SpacedNotWasted(|cfg.roles|, f, |f.landed|);
    SpacedUnsettled(|cfg.roles|, f);
  }

  /** HOLD outlasts RELEASE plus FILL, so spaced transfers settle one at a time. */
  lemma SpacedUnsettled(n: nat, f: Fleet)
    requires OnTime(n, f) && Spaced(f) && Punctual(f)
    ensures forall x, y :: x in f.inflight && y in f.inflight ==> x.dn != y.rc
    ensures forall x, y :: x in f.inflight && y in f.filling ==> x.dn != y.rc
  {
    forall x, y | x in f.inflight && y in f.filling
      ensures x.dn != y.rc
    {
      var z :| z in f.started && FilledBy(y, z);
    }
  }

  lemma {:induction false} SpacedNotWasted(n: nat, f: Fleet, k: nat)
    requires OnTime(n, f) && Spaced(f) && k <= |f.landed|
    ensures Wasted(f.landed, k) == 0
  {
    if k > 0 {
      SpacedNotWasted(n, f, k - 1);
      var l := f.landed[k - 1];
      assert l in f.landed;
      forall j | 0 <= j < |f.landed| && 0 < f.landed[j].time - l.time <= RELEASE
        ensures f.landed[j].tr.rc != l.tr.dn && f.landed[j].tr.dn != l.tr.rc
      {
        assert f.landed[j] in f.landed;
      }
    }
  }

  ghost predicate KeepsFloor(f: Fleet, r: nat, floor: int) {
    && r < |f.held| == |f.serving|
    && f.held[r] - Gifts(f.inflight, r) >= floor
    && f.serving[r] >= floor
    && f.serving[r] - Gifts(f.inflight, r) >= floor
  }

  /** With hold and committed accounting, equal replica sizes and floors of at
      most one replica: between cycles and at every decision, no role serves below
      its floor, nor would it if every gift in flight landed now. */
  lemma RunKeepsFloors(cfg: Config, g: int, k: nat, r: nat)
    requires FloorCase(cfg, g) && r < |cfg.roles|
    ensures KeepsFloor(Run(cfg, k).fleet, r, cfg.roles[r].floor)
    ensures KeepsFloor(Arrive(cfg, Run(cfg, k)).fleet, r, cfg.roles[r].floor)
  {
    hide Run, Arrive, Punctual, Arrived, KeepsFloor, Good;
    var total := TotalInit(cfg.roles);
    RunGood(cfg, g, k);
    ArriveGood(cfg, total, g, Run(cfg, k));
    GoodKeepsFloor(cfg, total, g, Run(cfg, k).fleet, r);
    GoodKeepsFloor(cfg, total, g, Arrive(cfg, Run(cfg, k)).fleet, r);
  }

  lemma GoodKeepsFloor(cfg: Config, total: int, g: int, f: Fleet, r: nat)
    requires FloorCase(cfg, g) && r < |cfg.roles| && Good(cfg, total, g, f)
    ensures KeepsFloor(f, r, cfg.roles[r].floor)
  {
    GiftsNonNegative(|cfg.roles|, f.inflight, r);
    FillSumNonNegative(|cfg.roles|, f, f.filling, r);
  }

  lemma {:induction false} FillSumNonNegative(n: nat, f: Fleet, xs: seq<Filling>, r: nat)
    requires OnTime(n, f) && forall x :: x in xs ==> x in f.filling
    ensures FillSum(xs, r) >= 0
  {
    if xs != [] {
      assert xs[0] in xs && forall x :: x in xs[1..] ==> x in xs;
      var y :| y in f.started && FilledBy(xs[0], y);
      FillSumNonNegative(n, f, xs[1..], r);
    }
  }

  lemma {:induction false} CountBound(roles: seq<Role>, inst: seq<real>, serving: seq<int>, s: Totals, n: nat)
    requires ValidRoles(roles) && |inst| == |serving| == |roles| && n <= |roles|
    requires forall r :: 0 <= r < |roles| ==> inst[r] >= 0.0 && serving[r] >= 0
    requires 0.0 <= s.short <= s.total && 0.0 <= s.wshort <= s.wtotal
    ensures var c := CountTo(roles, inst, serving, s, n);
      0.0 <= c.short <= c.total && 0.0 <= c.wshort <= c.wtotal
  {
    if n > 0 {
      CountBound(roles, inst, serving, s, n - 1);
      hide Shortfall, Counted;
      ShortfallBound(inst[n - 1], serving[n - 1]);
      CountedBound(CountTo(roles, inst, serving, s, n - 1), roles[n - 1].w, Shortfall(inst[n - 1], serving[n - 1]), inst[n - 1]);
    }
  }

  lemma ShortfallBound(inst: real, serving: int)
    requires inst >= 0.0 && serving >= 0
    ensures 0.0 <= Shortfall(inst, serving) <= inst
  {
  }

  lemma CountedBound(c: Totals, w: real, miss: real, inst: real)
    requires 0.0 <= c.short <= c.total && 0.0 <= c.wshort <= c.wtotal && w > 0.0 && 0.0 <= miss <= inst
    ensures var d := Counted(c, w, miss, inst);
      0.0 <= d.short <= d.total && 0.0 <= d.wshort <= d.wtotal
  {
    ScaleMonotone(0.0, miss, w);
    ScaleMonotone(miss, inst, w);
  }

  /** The shortfall a run accumulates never exceeds the need it was asked for. */
  lemma {:induction false} RunShortfallBounded(cfg: Config, g: int, k: nat)
    requires FloorCase(cfg, g)
    requires forall t: int, r: nat :: cfg.demand(t, r) >= 0.0
    ensures var c := Run(cfg, k).sums;
      0.0 <= c.short <= c.total && 0.0 <= c.wshort <= c.wtotal
  {
    hide Good, Punctual, Cycle, Arrive, EqualSizes, Whole;
    if k > 0 {
      var s := Run(cfg, k - 1);
      RunShortfallBounded(cfg, g, k - 1);
      RunGood(cfg, g, k - 1);
      ArriveShortfall(cfg, g, s);
      CycleCounts(cfg, s);
      assert Run(cfg, k) == Cycle(cfg, s);
    }
  }

  lemma CycleCounts(cfg: Config, s: State)
    requires ValidRoles(cfg.roles) && StateFits(cfg, s)
    ensures Cycle(cfg, s).sums == Arrive(cfg, s).sums
  {
    hide Arrive, Admit, CancelAll, Confirm, PlanOf;
  }

  lemma ArriveShortfall(cfg: Config, g: int, s: State)
    requires FloorCase(cfg, g) && StateFits(cfg, s)
    requires Good(cfg, TotalInit(cfg.roles), g, s.fleet) && Punctual(s.fleet)
    requires forall t: int, r: nat :: cfg.demand(t, r) >= 0.0
    requires 0.0 <= s.sums.short <= s.sums.total && 0.0 <= s.sums.wshort <= s.sums.wtotal
    ensures var c := Arrive(cfg, s).sums;
      0.0 <= c.short <= c.total && 0.0 <= c.wshort <= c.wtotal
  {
    ArriveGood(cfg, TotalInit(cfg.roles), g, s);
    var f := Arrive(cfg, s).fleet;
    forall r | 0 <= r < |cfg.roles|
      ensures f.serving[r] >= 0 && Instant(cfg, f.t)[r] >= 0.0
    {
      GiftsNonNegative(|cfg.roles|, f.inflight, r);
    }
    CountBound(cfg.roles, Instant(cfg, f.t), f.serving, s.sums, |cfg.roles|);
  }
}

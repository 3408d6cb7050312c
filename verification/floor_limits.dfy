/** Why the floor theorem asks for floors of at most one replica: with more, the
    idle clause of the band lets a second gift of the same cycle through. */
module FloorLimits {
  import opened Options
  import opened PlannerTypes
  import opened Tables
  import opened Planner
  import opened PlannerSafety
  import opened PlannerProgress
  import IT = IntegerTargets
  import CT = ContinuousTargets

  /** No need and no target let a role of that floor fall to G. */
  ghost predicate Refuses(G: int, floor: int, g: int) {
    forall tgt, N :: tgt >= floor as real ==> !DonorOk(G, tgt, N, g)
  }

  /** The donor check protects a role that stands at a floor of whole replicas,
      for every need and every target, if and only if that floor is at most one
      replica. */
  lemma DonorCheckProtectsFloor(floor: int, g: int)
    requires g > 0 && floor >= 0 && Whole(floor, g)
    ensures Refuses(floor - g, floor, g) <==> floor <= g
  {
    if floor <= g {
      if 0 < floor < g {
        WholeGap(0, floor, g) by { WholeZero(g); }
      }
      var G := floor - g;
      forall tgt, N | tgt >= floor as real
        ensures !DonorOk(G, tgt, N, g)
      {
        FloorRefusesGift(floor, floor, g, tgt, N);
      }
    } else {
      assert DonorOk(floor - g, floor as real, 0.0, g);
    }
  }

  // A run in which a larger floor is broken, for every replica size g and every
  // floor above it.

  /** An idle role one replica above its floor, and two short ones. */
  function Roles(g: int, floor: int): (roles: seq<Role>)
    ensures |roles| == 3 && (0 < g < floor ==> ValidRoles(roles) && EqualSizes(roles, g))
  {
    [Role("D", 1.0, g, floor, floor + g), Role("R", 1.0, g, g, g), Role("S", 1.0, g, g, g)]
  }

  function All(): Rules {
    Rules(true, true, true, true, false, AnyMiss, SwingMean, SWING_W)
  }

  function Example(g: int, floor: int): Config {
    Config(Roles(g, floor), (t: int, r: nat) => if r == 0 then 0.0 else 8.0 * g as real, floor + 4 * g, Some(All()))
  }

  function Needs(g: int): (need: seq<real>)
    ensures |need| == 3
  {
    [0.0, 10.0 * g as real, 10.0 * g as real]
  }

  function Targets(g: int, floor: int): (G: seq<int>)
    ensures |G| == 3
  {
    [floor, 2 * g, 2 * g]
  }

  function ThePlan(g: int, floor: int): Plan {
    Plan(Needs(g), [floor as real, 2.0 * g as real, 2.0 * g as real], Targets(g, floor), Targets(g, floor))
  }

  /** What the roles hold before anything moves. */
  function Held(g: int, floor: int): (G: seq<int>)
    ensures |G| == 3
  {
    [floor + g, g, g]
  }

  lemma ExampleNeed(g: int, floor: int)
    ensures Instant(Example(g, floor), 0) == Needs(g)
  {
  }

  lemma Cancels(a: real, b: real, x: real)
    requires x > 0.0 && b > 0.0
    ensures (a * x) / (b * x) == a / b
  {
    var p, q := (a * x) / (b * x), a / b;
    assert b * x > 0.0;
    assert p * (b * x) == a * x && q * b == a;
    assert (p - q) * (b * x) == 0.0 by {
      assert q * (b * x) == (q * b) * x;
    }
  }

  /** Headroom of a short role that holds k replicas. */
  lemma ShortZ(g: int, k: int)
    requires g > 0 && 0 <= k < 10
    ensures Z((k * g) as real, 10.0 * g as real, 1.0) == Finite(k as real / 10.0 - 1.0)
  {
    Cancels(k as real, 10.0, g as real);
    assert (k * g) as real == k as real * g as real;
    assert 10.0 * g as real > 0.0;
  }

  lemma ExampleContinuous(g: int, floor: int)
    requires 0 < g < floor
    ensures CT.Continuous(Roles(g, floor), Needs(g), (floor + 4 * g) as real) == ThePlan(g, floor).cont
  {
    var roles, need, x := Roles(g, floor), Needs(g), g as real;
    assert CT.Claims(roles, need, 1) == floor as real;
    assert CT.Claims(roles, need, 2) == floor as real + 10.0 * x;
    assert CT.Claims(roles, need, 3) == floor as real + 20.0 * x;
    assert CT.CutWeight(roles, need, 1) == 0.0;
    assert CT.CutWeight(roles, need, 2) == 10.0 * x;
    assert CT.CutWeight(roles, need, 3) == 20.0 * x;
    assert CT.Free(roles, need, 1) && CT.Free(roles, need, 2);
    hide CT.Claims, CT.CutWeight, CT.SpareWeight;
    Cancels(16.0, 20.0, x);
    assert CT.Spare(roles, need, (floor + 4 * g) as real) == -(16.0 * x);
    assert CT.Waterline(roles, need, (floor + 4 * g) as real) == -0.8;
    assert CT.Level(roles, need, -0.8, 1) == 2.0 * x && CT.Level(roles, need, -0.8, 2) == 2.0 * x;
  }

  lemma FloorSum(g: int, floor: int)
    ensures IT.Floors(Roles(g, floor)) == [floor, g, g] && Sum([floor, g, g]) == floor + 2 * g
  {
    var F := [floor, g, g];
    assert F[..2] == [floor, g] && [floor, g][..1] == [floor] && [floor][..0] == [];
    assert Sum([floor]) == floor && Sum([floor, g]) == floor + g;
  }

  /** The idle role asks for nothing; of the short ones the shorter is picked, and
      R before S at a tie. */
  lemma ExamplePick(g: int, floor: int, a: int, b: int, left: int)
    requires 0 < g < floor && 0 <= a < 10 && 0 <= b < 10
    ensures var G := [floor, a * g, b * g];
      IT.Pick(Roles(g, floor), Needs(g), G, left, 3) == if left < g then -1 else if a <= b then 1 else 2
  {
    var roles, need, G := Roles(g, floor), Needs(g), [floor, a * g, b * g];
    ShortZ(g, a);
    ShortZ(g, b);
    assert IT.ZOf(roles, need, G, 1) == Finite(a as real / 10.0 - 1.0);
    assert IT.ZOf(roles, need, G, 2) == Finite(b as real / 10.0 - 1.0);
    assert IT.KeyBefore(roles, need, G, 2, 1) <==> b < a;
    assert !IT.Candidate(roles, need, left, 0);
    assert IT.Candidate(roles, need, left, 1) <==> g <= left;
    assert IT.Candidate(roles, need, left, 2) <==> g <= left;
    hide IT.KeyBefore, IT.ZOf, IT.Candidate;
    assert IT.Pick(roles, need, G, left, 1) == -1;
    assert IT.Pick(roles, need, G, left, 2) == if left < g then -1 else 1;
  }

  lemma ExampleInteger(g: int, floor: int)
    requires 0 < g < floor
    ensures IT.Integer(Roles(g, floor), Needs(g), floor + 4 * g) == Targets(g, floor)
  {
    hide IT.Pick, IT.Floors;
    FloorSum(g, floor);
    ExamplePick(g, floor, 1, 1, 2 * g);
    ExamplePick(g, floor, 2, 1, g);
    ExamplePick(g, floor, 2, 2, 0);
    var roles, need := Roles(g, floor), Needs(g);
    var F, G, H := [floor, g, g], [floor, 2 * g, g], [floor, 2 * g, 2 * g];
    assert [floor, 1 * g, 1 * g] == F && [floor, 2 * g, 1 * g] == G;
    assert F[1 := F[1] + g] == G && G[2 := G[2] + g] == H;
    assert IT.Greedy(roles, need, H, 0) == H;
    assert IT.Greedy(roles, need, G, g) == H;
  }

  lemma ExamplePlan(g: int, floor: int, s: State)
    requires 0 < g < floor && StateFits(Example(g, floor), s) && SeenSteady(Example(g, floor), s.sig)
    ensures PlanOf(Example(g, floor), All(), s) == ThePlan(g, floor)
  {
    hide IT.Integer, CT.Continuous;
    SteadyNeed(Example(g, floor), All(), s);
    ExampleNeed(g, floor);
    ExampleContinuous(g, floor);
    ExampleInteger(g, floor);
  }

  /** The fleet before anything has moved. */
  ghost predicate Untouched(g: int, floor: int, s: State) {
    && StateFits(Example(g, floor), s) && SeenSteady(Example(g, floor), s.sig)
    && s.fleet.held == s.fleet.serving == Held(g, floor)
    && s.fleet.inflight == [] && s.fleet.filling == [] && s.fleet.started == []
    && s.fleet.lastGave == s.fleet.lastGot == [NEVER, NEVER, NEVER]
    && s.fleet.t >= 0
  }

  lemma ArriveUntouched(g: int, floor: int, s: State)
    requires Untouched(g, floor, s)
    ensures var a := Arrive(Example(g, floor), s);
      Untouched(g, floor, a) && a.sig.actCnt == s.sig.actCnt && a.fleet.t == s.fleet.t
  {
    assert Land(3, s.fleet) == s.fleet;
    assert Fill(3, s.fleet) == s.fleet;
    ObserveSteady(Example(g, floor), s.sig, s.fleet.t);
  }

  /** An idle role is in band wherever it holds something; a short one with half
      its target is not. */
  lemma ExampleBand(g: int, floor: int, G: int)
    requires 0 < g < floor && G > 0
    ensures InBand(G, floor as real, 0.0, g)
    ensures !InBand(g, 2.0 * g as real, 10.0 * g as real, g)
  {
    assert 0.0 * K == 0.0;
    assert 0.0 / G as real == 0.0 && 0.0 / floor as real == 0.0;
    var x := g as real;
    DivideUndo(8.0, x);
    assert 10.0 * x * K == 8.0 * x;
    assert 10.0 * x * K / x == 8.0;
  }

  lemma ExampleConfirm(g: int, floor: int, cnt: seq<nat>)
    requires 0 < g < floor && |cnt| == 3
    ensures Confirm(Roles(g, floor), All(), ThePlan(g, floor), Held(g, floor), cnt) == [0, cnt[1] + 1, cnt[2] + 1]
  {
    hide InBand;
    ExampleBand(g, floor, floor + g);
  }

  lemma UntouchedBase(g: int, floor: int, f: Fleet)
    requires f.held == Held(g, floor) && f.inflight == []
    ensures Base(All(), f) == Held(g, floor)
  {
  }

  lemma CancelNothing(g: int, floor: int, f: Fleet)
    requires 0 < g < floor && Fits(3, f) && f.inflight == []
    ensures CancelAll(Roles(g, floor), All(), ThePlan(g, floor), f, f.inflight) == f
  {
  }

  lemma SeenOnly(g: int, floor: int, a: Signals, b: Signals)
    requires SeenSteady(Example(g, floor), a) && SignalsFit(3, b) && a.seen == b.seen
    ensures SeenSteady(Example(g, floor), b)
  {
  }

  lemma FirstDecision(g: int, floor: int, s: State)
    requires 0 < g < floor && Untouched(g, floor, s) && s.sig.actCnt == [0, 0, 0]
    ensures var s' := Decide(Example(g, floor), All(), s);
      Untouched(g, floor, s') && s'.sig.actCnt == [0, 1, 1] && s'.fleet.t == s.fleet.t
  {
    hide PlanOf, Confirm, CancelAll, Base, SeenSteady, Instant, RecvList, DonorList, AdmitAll, Steady, ThePlan;
    ExamplePlan(g, floor, s);
    ExampleConfirm(g, floor, s.sig.actCnt);
    UntouchedBase(g, floor, s.fleet);
    CancelNothing(g, floor, s.fleet);
    assert !Acts(s.fleet, [0, 1, 1]);
    SeenOnly(g, floor, s.sig, s.sig.(actCnt := [0, 1, 1]));
  }

  lemma ExampleLists(g: int, floor: int)
    requires 0 < g < floor
    ensures RecvList(Roles(g, floor), ThePlan(g, floor), Held(g, floor)) == [1, 2]
    ensures DonorList(Roles(g, floor), ThePlan(g, floor), Held(g, floor)) == [0]
  {
    var roles, base, plan := Roles(g, floor), Held(g, floor), ThePlan(g, floor);
    var key := Keys(roles, plan.need, base);
    assert key[1] == key[2];
    hide Keys, Z, IT.ZOf, SortRoles;
    assert Receivers(plan, base, 1) == [];
    assert Receivers(plan, base, 2) == [1];
    assert Receivers(plan, base, 3) == [1, 2];
    assert Donors(roles, plan, base, 1) == [0];
    assert Donors(roles, plan, base, 2) == [0];
    assert Donors(roles, plan, base, 3) == [0];
    SortedPair(key);
    SortedOne(key);
  }

  lemma SortedPair(key: seq<Level>)
    requires |key| == 3 && key[1] == key[2]
    ensures SortRoles(key, false, [1, 2]) == [1, 2]
  {
    var both: seq<nat>, one: seq<nat> := [1, 2], [2];
    assert both[1..] == one && one[1..] == [];
    assert SortRoles(key, false, []) == [];
    assert Insert(key, false, 2, []) == one;
    assert SortRoles(key, false, one) == one;
    assert AtMost(key[1], key[2]);
    assert Insert(key, false, 1, one) == [1] + one;
  }

  lemma SortedOne(key: seq<Level>)
    requires |key| == 3
    ensures SortRoles(key, true, [0]) == [0]
  {
    assert [0][1..] == [];
  }

  /** The second gift: the donor stands at its floor, and the idle clause passes it. */
  lemma SecondDecision(g: int, floor: int, s: State)
    requires 0 < g < floor && Untouched(g, floor, s) && s.sig.actCnt == [0, 1, 1]
    ensures var f := Decide(Example(g, floor), All(), s).fleet;
      f.held == Held(g, floor) && Gifts(f.inflight, 0) == 2 * g
  {
    hide PlanOf, Confirm, CancelAll, Base, SeenSteady, Instant, RecvList, DonorList, AdmitAll, ThePlan;
    ExamplePlan(g, floor, s);
    ExampleConfirm(g, floor, s.sig.actCnt);
    UntouchedBase(g, floor, s.fleet);
    CancelNothing(g, floor, s.fleet);
    ExampleLists(g, floor);
    var sig := s.sig.(actCnt := [0, 2, 2]);
    assert sig.actCnt[1] >= CONFIRM && Acts(s.fleet, sig.actCnt);
    var p := Opening(Roles(g, floor), All(), s.fleet, sig);
    assert p.moved == [0, 0, 0];
    TwoGifts(g, floor, p);
  }

  /** A pass that has not started anything. */
  ghost predicate Opened(g: int, floor: int, p: Pass) {
    && PassFits(3, p) && p.fleet.inflight == [] && p.work == Held(g, floor) && p.moved == [0, 0, 0]
    && p.fleet.lastGave == p.fleet.lastGot == [NEVER, NEVER, NEVER] && p.fleet.t >= 0
    && p.sig.actCnt == [0, 2, 2]
  }

  lemma TwoGifts(g: int, floor: int, p: Pass)
    requires 0 < g < floor && Opened(g, floor, p)
    ensures var f := AdmitAll(Roles(g, floor), All(), ThePlan(g, floor), p, [1, 2], [0]).fleet;
      f.held == p.fleet.held && Gifts(f.inflight, 0) == 2 * g
  {
    hide TryPair, Gifts;
    var roles, plan := Roles(g, floor), ThePlan(g, floor);
    var q := TryPair(roles, All(), plan, p, 1, 0);
    FirstGift(g, floor, p);
    SecondGift(g, floor, q);
    assert [1, 2][1..] == [2] && [2][1..] == [] && [0][1..] == [];
    assert AdmitRow(roles, All(), plan, p, 1, [0]) == q;
    assert AdmitRow(roles, All(), plan, q, 2, [0]) == TryPair(roles, All(), plan, q, 2, 0);
    assert AdmitAll(roles, All(), plan, q, [2], [0]) == TryPair(roles, All(), plan, q, 2, 0);
  }

  /** A replica from the idle role raises the smaller of the two z values. */
  lemma ExampleImproves(g: int, floor: int, work: seq<int>, rc: nat)
    requires 0 < g < floor && |work| == 3 && (rc == 1 || rc == 2) && work[rc] == g
    ensures Improves(Roles(g, floor), Needs(g), work, rc, 0, g)
  {
    ShortZ(g, 1);
    ShortZ(g, 2);
  }

  lemma FirstGift(g: int, floor: int, p: Pass)
    requires 0 < g < floor && Opened(g, floor, p)
    ensures var q := TryPair(Roles(g, floor), All(), ThePlan(g, floor), p, 1, 0);
      && q.work == [floor, 2 * g, g] && q.moved == [1, 1, 0] && q.sig.actCnt == p.sig.actCnt
      && q.fleet.t == p.fleet.t && q.fleet.held == p.fleet.held && |q.fleet.inflight| == 1
      && q.fleet.inflight[0].dn == 0 && q.fleet.inflight[0].g == g
      && q.fleet.lastGave[2] == NEVER && q.fleet.lastGot[0] == NEVER
  {
    hide Improves, InBand;
    ExampleImproves(g, floor, p.work, 1);
    assert DonorOk(p.work[0] - g, floor as real, 0.0, g);
    assert Admissible(Roles(g, floor), All(), ThePlan(g, floor), p, 1, 0);
  }

  lemma SecondGift(g: int, floor: int, q: Pass)
    requires 0 < g < floor
    requires PassFits(3, q) && q.work == [floor, 2 * g, g] && q.moved == [1, 1, 0] && q.sig.actCnt == [0, 2, 2]
    requires |q.fleet.inflight| == 1 && q.fleet.inflight[0].dn == 0 && q.fleet.inflight[0].g == g
    requires q.fleet.lastGave[2] == NEVER && q.fleet.lastGot[0] == NEVER && q.fleet.t >= 0
    ensures var r := TryPair(Roles(g, floor), All(), ThePlan(g, floor), q, 2, 0);
      r.fleet.held == q.fleet.held && Gifts(r.fleet.inflight, 0) == 2 * g
  {
    hide Improves, InBand;
    ExampleImproves(g, floor, q.work, 2);
    ExampleBand(g, floor, floor - g);
    assert Admissible(Roles(g, floor), All(), ThePlan(g, floor), q, 2, 0);
    FlowAppend(q.fleet.inflight, Transfer(|q.fleet.started|, q.fleet.t, 0, 2, g), 0);
    assert q.fleet.inflight[1..] == [];
  }

  /** Every floor of more than one replica can be broken, with every shipped rule
      on: after two cycles of this run the donor has promised away what its floor
      needs. */
  lemma LargerFloorBreaks(g: int, floor: int)
    requires 0 < g < floor
    ensures var f := Run(Example(g, floor), 2).fleet;
      f.held[0] - Gifts(f.inflight, 0) == floor - g && !KeepsFloor(f, 0, floor)
  {
    hide Arrive, Decide, SeenSteady;
    var cfg := Example(g, floor);
    var s0 := Run(cfg, 0);
    InitialSteady(cfg);
    assert Untouched(g, floor, s0) && s0.sig.actCnt == [0, 0, 0];
    ArriveUntouched(g, floor, s0);
    FirstDecision(g, floor, Arrive(cfg, s0));
    var s1 := Run(cfg, 1);
    assert s1 == Cycle(cfg, s0);
    assert Untouched(g, floor, s1) && s1.sig.actCnt == [0, 1, 1];
    ArriveUntouched(g, floor, s1);
    SecondDecision(g, floor, Arrive(cfg, s1));
    assert Run(cfg, 2) == Cycle(cfg, s1);
  }

  /** Replicas of size g, hold and committed accounting, whole holdings at or
      above the floors, and no floor but 0, one replica and the one in question. */
  ghost predicate FloorRun(cfg: Config, g: int, floor: int) {
    && Holds(cfg) && (cfg.rules.None? || cfg.rules.value.committed)
    && ValidRoles(cfg.roles) && EqualSizes(cfg.roles, g)
    && forall r :: 0 <= r < |cfg.roles| ==>
         && cfg.roles[r].floor in {0, g, floor}
         && cfg.roles[r].init >= cfg.roles[r].floor && Whole(cfg.roles[r].init, g)
  }

  ghost predicate RunsKeep(g: int, floor: int) {
    forall cfg, k: nat, r :: FloorRun(cfg, g, floor) && 0 <= r < |cfg.roles| ==>
      KeepsFloor(Run(cfg, k).fleet, r, cfg.roles[r].floor)
  }

  /** The whole statement: a floor of whole replicas is kept by every run, under
      any demand and budget, if and only if it is at most one replica. */
  lemma FloorKeptExactly(g: int, floor: int)
    requires g > 0 && floor >= 0 && Whole(floor, g)
    ensures RunsKeep(g, floor) <==> floor <= g
  {
    hide Run, KeepsFloor;
    if floor <= g {
      if 0 < floor < g {
        WholeGap(0, floor, g) by { WholeZero(g); }
      }
      forall cfg, k: nat, r | FloorRun(cfg, g, floor) && 0 <= r < |cfg.roles|
        ensures KeepsFloor(Run(cfg, k).fleet, r, cfg.roles[r].floor)
      {
        RunKeepsFloors(cfg, g, k, r);
      }
    } else {
      LargerFloorBreaks(g, floor);
      ExampleFits(g, floor);
      var cfg := Example(g, floor);
      assert !KeepsFloor(Run(cfg, 2).fleet, 0, cfg.roles[0].floor);
    }
  }

  lemma ExampleFits(g: int, floor: int)
    requires 0 < g < floor && Whole(floor, g)
    ensures FloorRun(Example(g, floor), g, floor)
  {
    WholeStep(floor, g);
    WholeZero(g);
    WholeStep(0, g);
    assert forall r :: 0 <= r < 3 ==> Whole(Roles(g, floor)[r].init, g);
  }

  /** An instance in numbers: one-GPU replicas and a floor of two. */
  lemma TwoReplicaFloorBreaks()
    ensures var f := Run(Example(1, 2), 2).fleet;
      f.held[0] - Gifts(f.inflight, 0) == 1 < Roles(1, 2)[0].floor
  {
    hide Run;
    LargerFloorBreaks(1, 2);
  }
}

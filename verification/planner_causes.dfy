/** Why a transfer starts: in every run each one involves a role that has been
    actionable for two cycles in a row, and the neediest roles are served first. */
module PlannerCauses {
  import opened Options
  import opened PlannerTypes
  import opened Planner
  import IT = IntegerTargets
  import CT = ContinuousTargets

  // The order in which pairs are tried.

  ghost predicate NotAfter(key: seq<Level>, desc: bool, a: nat, b: nat)
    requires a < |key| && b < |key|
  {
    if desc then AtMost(key[b], key[a]) else AtMost(key[a], key[b])
  }

  ghost predicate Ordered(key: seq<Level>, desc: bool, rs: seq<nat>) {
    && (forall i :: 0 <= i < |rs| ==> rs[i] < |key|)
    && forall i, j :: 0 <= i < j < |rs| ==> NotAfter(key, desc, rs[i], rs[j])
  }

  lemma OrderedCons(key: seq<Level>, desc: bool, r: nat, rs: seq<nat>)
    requires r < |key| && Ordered(key, desc, rs) && forall j :: 0 <= j < |rs| ==> rs[j] < |key| && NotAfter(key, desc, r, rs[j])
    ensures Ordered(key, desc, [r] + rs)
  {
  }

  lemma {:induction false} InsertOrdered(key: seq<Level>, desc: bool, r: nat, rs: seq<nat>)
    requires r < |key| && (forall x :: x in rs ==> x < |key|) && Ordered(key, desc, rs)
    ensures Ordered(key, desc, Insert(key, desc, r, rs))
  {
    hide Insert, NotAfter, Ordered;
    if rs == [] {
      InsertOnly(key, desc, r);
    } else {
      InsertStep(key, desc, r, rs);
      OrderedTail(key, desc, rs);
      if NotAfter(key, desc, r, rs[0]) {
        FirstOfAll(key, desc, r, rs);
        OrderedCons(key, desc, r, rs);
      } else {
        InsertOrdered(key, desc, r, rs[1..]);
        AfterFirst(key, desc, r, rs);
        OrderedCons(key, desc, rs[0], Insert(key, desc, r, rs[1..]));
      }
    }
  }

  lemma InsertOnly(key: seq<Level>, desc: bool, r: nat)
    requires r < |key|
    ensures Ordered(key, desc, Insert(key, desc, r, []))
  {
  }

  lemma OrderedTail(key: seq<Level>, desc: bool, rs: seq<nat>)
    requires rs != [] && Ordered(key, desc, rs)
    ensures Ordered(key, desc, rs[1..])
  {
    hide NotAfter;
  }

  lemma FirstOfAll(key: seq<Level>, desc: bool, r: nat, rs: seq<nat>)
    requires rs != [] && Ordered(key, desc, rs) && r < |key| && NotAfter(key, desc, r, rs[0])
    ensures forall j :: 0 <= j < |rs| ==> rs[j] < |key| && NotAfter(key, desc, r, rs[j])
  {
    forall j | 0 <= j < |rs|
      ensures NotAfter(key, desc, r, rs[j])
    {
      assert j > 0 ==> NotAfter(key, desc, rs[0], rs[j]);
    }
  }

  lemma AfterFirst(key: seq<Level>, desc: bool, r: nat, rs: seq<nat>)
    requires rs != [] && Ordered(key, desc, rs) && r < |key| && !NotAfter(key, desc, r, rs[0])
    requires forall x :: x in rs[1..] ==> x < |key|
    ensures var tail := Insert(key, desc, r, rs[1..]);
      forall j :: 0 <= j < |tail| ==> tail[j] < |key| && NotAfter(key, desc, rs[0], tail[j])
  {
    hide Insert;
    var tail := Insert(key, desc, r, rs[1..]);
    forall j | 0 <= j < |tail|
      ensures tail[j] < |key| && NotAfter(key, desc, rs[0], tail[j])
    {
      InsertMember(key, desc, r, rs[1..], tail[j]);
      if tail[j] != r {
        var i :| 0 <= i < |rs[1..]| && rs[1..][i] == tail[j];
        assert NotAfter(key, desc, rs[0], rs[i + 1]);
      }
    }
  }

  lemma InsertStep(key: seq<Level>, desc: bool, r: nat, rs: seq<nat>)
    requires rs != [] && r < |key| && forall x :: x in rs ==> x < |key|
    ensures rs[0] < |key| && forall x :: x in rs[1..] ==> x < |key|
    ensures Insert(key, desc, r, rs)
         == if NotAfter(key, desc, r, rs[0]) then [r] + rs else [rs[0]] + Insert(key, desc, r, rs[1..])
  {
    assert rs[0] in rs && forall x :: x in rs[1..] ==> x in rs;
  }

  lemma InsertMember(key: seq<Level>, desc: bool, r: nat, rs: seq<nat>, x: nat)
    requires r < |key| && (forall y :: y in rs ==> y < |key|) && x in Insert(key, desc, r, rs)
    ensures x == r || x in rs
  {
    hide Insert;
  }

  lemma {:induction false} SortOrdered(key: seq<Level>, desc: bool, rs: seq<nat>)
    requires forall x :: x in rs ==> x < |key|
    ensures Ordered(key, desc, SortRoles(key, desc, rs))
  {
    if rs != [] {
      assert rs[0] in rs && forall x :: x in rs[1..] ==> x in rs;
      SortOrdered(key, desc, rs[1..]);
      InsertOrdered(key, desc, rs[0], SortRoles(key, desc, rs[1..]));
    }
  }

  /** Receivers are exactly the roles below their integer target, lowest z first;
      donors only roles above theirs and above their floor, highest z first. */
  lemma PairsInOrder(roles: seq<Role>, plan: Plan, base: seq<int>)
    requires ValidRoles(roles) && PlanFits(|roles|, plan) && |base| == |roles|
    ensures var key := Keys(roles, plan.need, base);
      && Ordered(key, false, RecvList(roles, plan, base)) && Ordered(key, true, DonorList(roles, plan, base))
      && forall r: nat :: r < |roles| ==>
           && (r in RecvList(roles, plan, base) <==> base[r] < plan.integ[r])
           && (r in DonorList(roles, plan, base) <==>
                 base[r] > plan.integ[r] && base[r] > plan.give[r] && base[r] > roles[r].floor)
  {
    var key := Keys(roles, plan.need, base);
    var rs, ds := Receivers(plan, base, |base|), Donors(roles, plan, base, |base|);
    SortOrdered(key, false, rs);
    SortOrdered(key, true, ds);
    forall r: nat | r < |roles|
      ensures r in RecvList(roles, plan, base) <==> base[r] < plan.integ[r]
      ensures r in DonorList(roles, plan, base) <==>
              base[r] > plan.integ[r] && base[r] > plan.give[r] && base[r] > roles[r].floor
    {
      SelectsAll(roles, plan, base, |base|, r);
      assert r in SortRoles(key, false, rs) <==> r in multiset(rs);
      assert r in SortRoles(key, true, ds) <==> r in multiset(ds);
    }
  }

  lemma {:induction false} SelectsAll(roles: seq<Role>, plan: Plan, base: seq<int>, n: nat, r: nat)
    requires PlanFits(|roles|, plan) && n <= |base| == |roles| && r < |roles|
    ensures r in Receivers(plan, base, n) <==> r < n && base[r] < plan.integ[r]
    ensures r in Donors(roles, plan, base, n) <==>
            r < n && base[r] > plan.integ[r] && base[r] > plan.give[r] && base[r] > roles[r].floor
  {
    if n > 0 {
      SelectsAll(roles, plan, base, n - 1, r);
    }
  }

  // What an admission pass starts.

  /** Why x may start in a pass that opened with p: one of its roles counts as
      confirmed, neither is frozen, and it moves a whole replica of the receiver from
      a listed donor whose replicas are no smaller to a listed receiver. */
  ghost predicate Licensed(roles: seq<Role>, rules: Rules, p: Pass, recv: seq<nat>, donors: seq<nat>, x: Transfer)
    requires PassFits(|roles|, p)
  {
    && x.rc < |roles| && x.dn < |roles| && x.start == p.fleet.t
    && x.rc in recv && x.dn in donors
    && x.g == roles[x.rc].g <= roles[x.dn].g
    && (rules.actionable ==> p.sig.actCnt[x.rc] >= CONFIRM || p.sig.actCnt[x.dn] >= CONFIRM)
    && (rules.swing.SwingFreeze? ==> p.sig.dampedUntil[x.rc] <= x.start && p.sig.dampedUntil[x.dn] <= x.start)
    && (rules.hold ==> Rested(p.fleet, x))
  }

  /** The receiver has not given and the donor has not got for HOLD. */
  ghost predicate Rested(f: Fleet, x: Transfer) {
    && x.rc < |f.lastGave| && x.dn < |f.lastGot|
    && f.t - f.lastGave[x.rc] >= HOLD && f.t - f.lastGot[x.dn] >= HOLD
  }

  /** Everything started since p is licensed, and what licenses it has not changed:
      no role that was frozen is free again. */
  ghost predicate Caused(roles: seq<Role>, rules: Rules, recv: seq<nat>, donors: seq<nat>, p: Pass, p': Pass)
    requires PassFits(|roles|, p)
  {
    && PassFits(|roles|, p')
    && p'.sig.actCnt == p.sig.actCnt && p'.fleet.t == p.fleet.t
    && p.fleet.started <= p'.fleet.started
    && (rules.swing.SwingFreeze? ==>
          forall r :: 0 <= r < |roles| && p'.sig.dampedUntil[r] <= p.fleet.t ==> p.sig.dampedUntil[r] <= p.fleet.t)
    && (forall r :: 0 <= r < |roles| && p'.fleet.t - p'.fleet.lastGave[r] >= HOLD ==> p.fleet.t - p.fleet.lastGave[r] >= HOLD)
    && (forall r :: 0 <= r < |roles| && p'.fleet.t - p'.fleet.lastGot[r] >= HOLD ==> p.fleet.t - p.fleet.lastGot[r] >= HOLD)
    && forall i :: |p.fleet.started| <= i < |p'.fleet.started| ==> Licensed(roles, rules, p, recv, donors, p'.fleet.started[i])
  }

  lemma CausedJoin(roles: seq<Role>, rules: Rules, recv: seq<nat>, donors: seq<nat>, p: Pass, q: Pass, r: Pass)
    requires PassFits(|roles|, p) && Caused(roles, rules, recv, donors, p, q) && Caused(roles, rules, recv, donors, q, r)
    ensures Caused(roles, rules, recv, donors, p, r)
  {
    forall i | |p.fleet.started| <= i < |r.fleet.started|
      ensures Licensed(roles, rules, p, recv, donors, r.fleet.started[i])
    {
      if i < |q.fleet.started| {
        assert r.fleet.started[i] == q.fleet.started[i];
      }
    }
  }

  lemma PairCaused(roles: seq<Role>, rules: Rules, plan: Plan, recv: seq<nat>, donors: seq<nat>, p: Pass, rc: nat, dn: nat)
    requires ValidRoles(roles) && PlanFits(|roles|, plan) && PassFits(|roles|, p)
    requires rc < |roles| && dn < |roles| && rc != dn && rc in recv && dn in donors
    ensures Caused(roles, rules, recv, donors, p, TryPair(roles, rules, plan, p, rc, dn))
  {
    hide Improves, DonorOk, Recent, Flips;
  }

  lemma {:induction false} RowCaused(roles: seq<Role>, rules: Rules, plan: Plan, recv: seq<nat>, all: seq<nat>,
                                     p: Pass, rc: nat, donors: seq<nat>)
    requires ValidRoles(roles) && PlanFits(|roles|, plan) && PassFits(|roles|, p) && rc < |roles| && rc in recv
    requires forall d :: d in donors ==> d < |roles| && d != rc && d in all
    ensures Caused(roles, rules, recv, all, p, AdmitRow(roles, rules, plan, p, rc, donors))
    decreases |donors|
  {
    if donors != [] {
      hide Caused, TryPair;
      assert donors[0] in donors && forall d :: d in donors[1..] ==> d in donors;
      var q := TryPair(roles, rules, plan, p, rc, donors[0]);
      PairCaused(roles, rules, plan, recv, all, p, rc, donors[0]);
      RowCaused(roles, rules, plan, recv, all, q, rc, donors[1..]);
      CausedJoin(roles, rules, recv, all, p, q, AdmitRow(roles, rules, plan, p, rc, donors));
    }
  }

  lemma {:induction false} AllCaused(roles: seq<Role>, rules: Rules, plan: Plan, listed: seq<nat>, all: seq<nat>,
                                     p: Pass, recv: seq<nat>, donors: seq<nat>)
    requires ValidRoles(roles) && PlanFits(|roles|, plan) && PassFits(|roles|, p)
    requires forall d :: d in donors ==> d < |roles| && d !in recv && d in all
    requires forall r :: r in recv ==> r < |roles| && r in listed
    ensures Caused(roles, rules, listed, all, p, AdmitAll(roles, rules, plan, p, recv, donors))
    decreases |recv|
  {
    if recv != [] {
      hide Caused, AdmitRow;
      assert recv[0] in recv && forall r :: r in recv[1..] ==> r in recv;
      var q := AdmitRow(roles, rules, plan, p, recv[0], donors);
      RowCaused(roles, rules, plan, listed, all, p, recv[0], donors);
      AllCaused(roles, rules, plan, listed, all, q, recv[1..], donors);
      CausedJoin(roles, rules, listed, all, p, q, AdmitAll(roles, rules, plan, p, recv, donors));
    }
  }

  // Over a run.

  /** The state in which cycle k decides. */
  ghost function Deciding(cfg: Config, k: nat): (s: State)
    requires ValidRoles(cfg.roles)
    ensures StateFits(cfg, s)
  {
    Arrive(cfg, Run(cfg, k))
  }

  /** The fleet once this cycle's cancels are done. */
  ghost function Judged(cfg: Config, rules: Rules, s: State): (f: Fleet)
    requires ValidRoles(cfg.roles) && StateFits(cfg, s)
    ensures Fits(|cfg.roles|, f)
  {
    CancelAll(cfg.roles, rules, PlanOf(cfg, rules, s), s.fleet, s.fleet.inflight)
  }

  /** What role r counts as holding when the cycle decides: what it holds, and with
      committed accounting less its gifts and plus its receipts in flight. */
  ghost function Counts(cfg: Config, rules: Rules, s: State, r: nat): int
    requires ValidRoles(cfg.roles) && StateFits(cfg, s) && r < |cfg.roles|
  {
    var f := Judged(cfg, rules, s);
    if rules.committed then f.held[r] - Gifts(f.inflight, r) + Receipts(f.inflight, r) else f.held[r]
  }

  ghost function NeedSeen(cfg: Config, rules: Rules, s: State): (need: seq<real>)
    requires ValidRoles(cfg.roles) && StateFits(cfg, s)
    ensures |need| == |cfg.roles|
  {
    PlanOf(cfg, rules, s).need
  }

  ghost function IntegerTarget(cfg: Config, rules: Rules, s: State, r: nat): int
    requires ValidRoles(cfg.roles) && StateFits(cfg, s) && r < |cfg.roles|
  {
    IT.Integer(cfg.roles, NeedSeen(cfg, rules, s), cfg.B)[r]
  }

  ghost function ContinuousTarget(cfg: Config, rules: Rules, s: State, r: nat): real
    requires ValidRoles(cfg.roles) && StateFits(cfg, s) && r < |cfg.roles|
  {
    CT.Continuous(cfg.roles, NeedSeen(cfg, rules, s), cfg.B as real)[r]
  }

  /** Role r is out of band, by enough where it is not short, and off its integer
      target where the rule asks for it. */
  ghost predicate Actionable(cfg: Config, rules: Rules, s: State, r: nat)
    requires ValidRoles(cfg.roles) && StateFits(cfg, s) && r < |cfg.roles|
  {
    var held, cont := Counts(cfg, rules, s, r), ContinuousTarget(cfg, rules, s, r);
    && !InBand(held, cont, NeedSeen(cfg, rules, s)[r], cfg.roles[r].g)
    && (rules.actionable ==> held != IntegerTarget(cfg, rules, s, r))
    && ((held as real) < NeedSeen(cfg, rules, s)[r] || FarEnough(rules.headroom, held as real - cont, cont, cfg.roles[r].g))
  }

  /** How far off a role that is not short has to be. */
  predicate FarEnough(headroom: Headroom, miss: real, cont: real, g: int) {
    match headroom
    case AnyMiss => true
    case NoMiss => false
    case MissAbove(h) => Abs(miss) > h * cont && Abs(miss) > 0.5 * g as real
  }

  lemma TriggersWhen(cfg: Config, rules: Rules, s: State, r: nat)
    requires ValidRoles(cfg.roles) && StateFits(cfg, s) && r < |cfg.roles|
    ensures Triggers(cfg.roles, rules, PlanOf(cfg, rules, s), Base(rules, Judged(cfg, rules, s)), r)
       <==> Actionable(cfg, rules, s, r)
  {
    hide InBand, PlanOf, Judged, Triggers, FarEnough, IT.Integer, CT.Continuous;
    var plan, f := PlanOf(cfg, rules, s), Judged(cfg, rules, s);
    PlanTargets(cfg, rules, s);
    assert Base(rules, f)[r] == Counts(cfg, rules, s, r);
    hide Base, Counts;
    TriggersAt(cfg.roles, rules, plan, Base(rules, f), r);
  }

  lemma TriggersAt(roles: seq<Role>, rules: Rules, plan: Plan, base: seq<int>, r: nat)
    requires |base| == |roles| && PlanFits(|roles|, plan) && r < |roles|
    ensures Triggers(roles, rules, plan, base, r) <==>
            && !InBand(base[r], plan.cont[r], plan.need[r], roles[r].g)
            && (rules.actionable ==> base[r] != plan.integ[r])
            && ((base[r] as real) < plan.need[r]
                || FarEnough(rules.headroom, base[r] as real - plan.cont[r], plan.cont[r], roles[r].g))
  {
    hide InBand, Abs, Max;
    if rules.headroom.MissAbove? {
      AboveBoth(Abs(base[r] as real - plan.cont[r]), rules.headroom.fraction * plan.cont[r], 0.5 * roles[r].g as real);
    }
  }

  lemma AboveBoth(miss: real, a: real, b: real)
    ensures miss > Max(a, b) <==> miss > a && miss > b
  {
  }

  lemma PlanTargets(cfg: Config, rules: Rules, s: State)
    requires ValidRoles(cfg.roles) && StateFits(cfg, s)
    ensures var plan := PlanOf(cfg, rules, s);
      plan.integ == IT.Integer(cfg.roles, plan.need, cfg.B) && plan.cont == CT.Continuous(cfg.roles, plan.need, cfg.B as real)
  {
    hide IT.Integer, CT.Continuous, NeedOf, PeakOr;
  }

  /** How many cycles in a row, up to and including cycle k, role r was actionable. */
  ghost function Streak(cfg: Config, rules: Rules, r: nat, k: nat): nat
    requires ValidRoles(cfg.roles) && r < |cfg.roles|
  {
    if !Actionable(cfg, rules, Deciding(cfg, k), r) then 0
    else if k == 0 then 1 else Streak(cfg, rules, r, k - 1) + 1
  }

  /** Above what role r may give away: the most it was asked for over HOLD, with the
      slow-giving rule. */
  ghost predicate MayGive(cfg: Config, rules: Rules, s: State, r: nat)
    requires ValidRoles(cfg.roles) && StateFits(cfg, s) && r < |cfg.roles|
  {
    var held := Counts(cfg, rules, s, r);
    held > IntegerTarget(cfg, rules, s, r) && held > PlanOf(cfg, rules, s).give[r] && held > cfg.roles[r].floor
  }

  /** Why x starts in the cycle that decides in s. */
  ghost predicate HasCause(cfg: Config, rules: Rules, s: State, cnt: seq<nat>, x: Transfer)
    requires ValidRoles(cfg.roles) && StateFits(cfg, s) && |cnt| == |cfg.roles|
  {
    && x.rc < |cfg.roles| && x.dn < |cfg.roles| && x.start == s.fleet.t
    && Counts(cfg, rules, s, x.rc) < IntegerTarget(cfg, rules, s, x.rc) && MayGive(cfg, rules, s, x.dn)
    && x.g == cfg.roles[x.rc].g <= cfg.roles[x.dn].g
    && (rules.actionable ==> cnt[x.rc] >= CONFIRM || cnt[x.dn] >= CONFIRM)
    && (rules.swing.SwingFreeze? ==> s.sig.dampedUntil[x.rc] <= x.start && s.sig.dampedUntil[x.dn] <= x.start)
    && (rules.hold ==> Rested(Judged(cfg, rules, s), x))
  }

  /** What one decision counts. */
  lemma DecideCounts(cfg: Config, rules: Rules, s: State)
    requires ValidRoles(cfg.roles) && StateFits(cfg, s)
    ensures var s' := Decide(cfg, rules, s);
      forall r :: 0 <= r < |cfg.roles| ==> s'.sig.actCnt[r] == if Actionable(cfg, rules, s, r) then s.sig.actCnt[r] + 1 else 0
  {
    hide PlanOf, Triggers, Base, AdmitAll, RecvList, DonorList, CancelAll, Actionable, Caused;
    var roles, plan, f := cfg.roles, PlanOf(cfg, rules, s), Judged(cfg, rules, s);
    var base := Base(rules, f);
    var sig := s.sig.(actCnt := Confirm(roles, rules, plan, base, s.sig.actCnt));
    forall r | 0 <= r < |roles|
      ensures sig.actCnt[r] == if Actionable(cfg, rules, s, r) then s.sig.actCnt[r] + 1 else 0
    {
      TriggersWhen(cfg, rules, s, r);
    }
    CountStays(roles, rules, plan, f, sig);
  }

  lemma CountStays(roles: seq<Role>, rules: Rules, plan: Plan, f: Fleet, sig: Signals)
    requires ValidRoles(roles) && PlanFits(|roles|, plan) && Fits(|roles|, f) && SignalsFit(|roles|, sig)
    ensures Admit(roles, rules, plan, f, sig).sig.actCnt == sig.actCnt
  {
    hide AdmitAll, RecvList, DonorList, Acts;
    if Acts(f, sig.actCnt) {
      var base := Base(rules, f);
      var recv, donors := RecvList(roles, plan, base), DonorList(roles, plan, base);
      AllCaused(roles, rules, plan, recv, donors, Opening(roles, rules, f, sig), recv, donors);
    }
  }

  /** What one decision starts. */
  lemma DecideCaused(cfg: Config, rules: Rules, s: State)
    requires ValidRoles(cfg.roles) && StateFits(cfg, s)
    ensures var s' := Decide(cfg, rules, s);
      && s.fleet.started <= s'.fleet.started
      && forall i :: |s.fleet.started| <= i < |s'.fleet.started| ==>
           HasCause(cfg, rules, s, s'.sig.actCnt, s'.fleet.started[i])
  {
    hide PlanOf, Triggers, AdmitAll, RecvList, DonorList, CancelAll, Confirm, Acts;
    var roles, plan, f := cfg.roles, PlanOf(cfg, rules, s), Judged(cfg, rules, s);
    CancelKeepsStarted(roles, rules, plan, s.fleet, s.fleet.inflight);
    var base := Base(rules, f);
    var sig := s.sig.(actCnt := Confirm(roles, rules, plan, base, s.sig.actCnt));
    if Acts(f, sig.actCnt) {
      var recv, donors := RecvList(roles, plan, base), DonorList(roles, plan, base);
      var p := Opening(roles, rules, f, sig);
      AllCaused(roles, rules, plan, recv, donors, p, recv, donors);
      var q := AdmitAll(roles, rules, plan, p, recv, donors);
      forall i | |f.started| <= i < |q.fleet.started|
        ensures HasCause(cfg, rules, s, sig.actCnt, q.fleet.started[i])
      {
        ListedHaveCause(cfg, rules, s, sig, q.fleet.started[i]);
      }
    }
  }

  lemma ListedHaveCause(cfg: Config, rules: Rules, s: State, sig: Signals, x: Transfer)
    requires ValidRoles(cfg.roles) && StateFits(cfg, s) && SignalsFit(|cfg.roles|, sig)
    requires sig.dampedUntil == s.sig.dampedUntil && Judged(cfg, rules, s).t == s.fleet.t
    requires var plan, base := PlanOf(cfg, rules, s), Base(rules, Judged(cfg, rules, s));
      Licensed(cfg.roles, rules, Opening(cfg.roles, rules, Judged(cfg, rules, s), sig),
               RecvList(cfg.roles, plan, base), DonorList(cfg.roles, plan, base), x)
    ensures HasCause(cfg, rules, s, sig.actCnt, x)
  {
    hide CancelAll, IT.Integer, CT.Continuous, RecvList, DonorList, NeedOf, PeakOr;
    var plan, base := PlanOf(cfg, rules, s), Base(rules, Judged(cfg, rules, s));
    PairsInOrder(cfg.roles, plan, base);
    hide Ordered;
  }

  lemma {:induction false} CancelKeepsStarted(roles: seq<Role>, rules: Rules, plan: Plan, f: Fleet, todo: seq<Transfer>)
    requires ValidRoles(roles) && PlanFits(|roles|, plan) && Fits(|roles|, f)
    requires forall x :: x in todo ==> ValidTransfer(|roles|, x)
    ensures var f' := CancelAll(roles, rules, plan, f, todo); f'.started == f.started && f'.t == f.t
    decreases |todo|
  {
    if todo != [] {
      var f1 := if ShouldCancel(roles, rules, plan, f, todo[0]) then CancelOne(|roles|, rules, f, todo[0]) else f;
      CancelKeepsStarted(roles, rules, plan, f1, todo[1..]);
    }
  }

  lemma ArriveKeeps(cfg: Config, s: State)
    requires StateFits(cfg, s)
    ensures var a := Arrive(cfg, s);
      a.fleet.started == s.fleet.started && a.sig.actCnt == s.sig.actCnt && a.fleet.t == s.fleet.t
  {
    var n := |cfg.roles|;
    LandKeeps(n, s.fleet, Due(s.fleet.inflight, s.fleet.t));
    var l := Land(n, s.fleet);
    FillKeeps(n, l, Full(l.filling, l.t));
  }

  lemma {:induction false} LandKeeps(n: nat, f: Fleet, due: seq<Transfer>)
    requires Fits(n, f) && forall x :: x in due ==> ValidTransfer(n, x)
    ensures LandAll(n, f, due).started == f.started && LandAll(n, f, due).t == f.t
    decreases |due|
  {
    if due != [] {
      LandKeeps(n, LandOne(n, f, due[0]), due[1..]);
    }
  }

  lemma {:induction false} FillKeeps(n: nat, f: Fleet, full: seq<Filling>)
    requires Fits(n, f) && forall x :: x in full ==> x.rc < n
    ensures FillAll(n, f, full).started == f.started && FillAll(n, f, full).t == f.t
    decreases |full|
  {
    if full != [] {
      FillKeeps(n, FillOne(n, f, full[0]), full[1..]);
    }
  }

  /** The counter a run carries is the streak. */
  lemma {:induction false} CounterIsStreak(cfg: Config, rules: Rules, r: nat, k: nat)
    requires ValidRoles(cfg.roles) && cfg.rules == Some(rules) && r < |cfg.roles|
    ensures Run(cfg, k + 1).sig.actCnt[r] == Streak(cfg, rules, r, k)
  {
    hide Arrive, Decide, Actionable;
    var s := Run(cfg, k);
    assert Run(cfg, k + 1) == Cycle(cfg, s);
    ArriveKeeps(cfg, s);
    DecideCounts(cfg, rules, Arrive(cfg, s));
    if k > 0 {
      CounterIsStreak(cfg, rules, r, k - 1);
    } else {
      assert Run(cfg, 0).sig.actCnt[r] == 0;
    }
  }

  /** In every run and for every demand, a transfer that starts in cycle k takes one
      replica from a role above its integer target, above what it may give and above
      its floor to one below its integer target; and with the actionable rule one of
      the two was out of band and off its integer target in cycle k and in the cycle
      before. One role's deviation never licenses a move between two others. */
  lemma EveryTransferHasCause(cfg: Config, rules: Rules, k: nat, i: nat)
    requires ValidRoles(cfg.roles) && cfg.rules == Some(rules)
    requires |Run(cfg, k).fleet.started| <= i < |Run(cfg, k + 1).fleet.started|
    ensures var x, s := Run(cfg, k + 1).fleet.started[i], Deciding(cfg, k);
      && x.start == Run(cfg, k).fleet.t && x.rc < |cfg.roles| && x.dn < |cfg.roles|
      && x.g == cfg.roles[x.rc].g <= cfg.roles[x.dn].g
      && Counts(cfg, rules, s, x.rc) < IntegerTarget(cfg, rules, s, x.rc)
      && MayGive(cfg, rules, s, x.dn)
      && (rules.swing.SwingFreeze? ==> s.sig.dampedUntil[x.rc] <= x.start && s.sig.dampedUntil[x.dn] <= x.start)
      && (rules.hold ==> Rested(Judged(cfg, rules, s), x))
      && (rules.actionable ==> k > 0 && (OffTwice(cfg, rules, k, x.rc) || OffTwice(cfg, rules, k, x.dn)))
  {
    hide Arrive, Decide, Actionable, MayGive, Counts, IntegerTarget, OffTarget;
    var s := Run(cfg, k);
    assert Run(cfg, k + 1) == Cycle(cfg, s);
    ArriveKeeps(cfg, s);
    DecideCaused(cfg, rules, Arrive(cfg, s));
    var x := Run(cfg, k + 1).fleet.started[i];
    if rules.actionable {
      CounterIsStreak(cfg, rules, x.rc, k);
      CounterIsStreak(cfg, rules, x.dn, k);
      var r := if Run(cfg, k + 1).sig.actCnt[x.rc] >= CONFIRM then x.rc else x.dn;
      assert Streak(cfg, rules, r, k) >= 2;
      ActionableIsOff(cfg, rules, Deciding(cfg, k), r);
      ActionableIsOff(cfg, rules, Deciding(cfg, k - 1), r);
    }
  }

  /** Out of band against the continuous target, and off the integer target. */
  ghost predicate OffTarget(cfg: Config, rules: Rules, s: State, r: nat)
    requires ValidRoles(cfg.roles) && StateFits(cfg, s) && r < |cfg.roles|
  {
    && !InBand(Counts(cfg, rules, s, r), ContinuousTarget(cfg, rules, s, r), NeedSeen(cfg, rules, s)[r], cfg.roles[r].g)
    && Counts(cfg, rules, s, r) != IntegerTarget(cfg, rules, s, r)
  }

  ghost predicate OffTwice(cfg: Config, rules: Rules, k: nat, r: nat)
    requires ValidRoles(cfg.roles) && r < |cfg.roles| && k > 0
  {
    OffTarget(cfg, rules, Deciding(cfg, k), r) && OffTarget(cfg, rules, Deciding(cfg, k - 1), r)
  }

  lemma ActionableIsOff(cfg: Config, rules: Rules, s: State, r: nat)
    requires ValidRoles(cfg.roles) && StateFits(cfg, s) && r < |cfg.roles|
    requires Actionable(cfg, rules, s, r) && rules.actionable
    ensures OffTarget(cfg, rules, s, r)
  {
    hide InBand, Counts, IntegerTarget, ContinuousTarget, NeedSeen;
  }

  // When a cycle starts something.

  lemma PairStarts(roles: seq<Role>, rules: Rules, plan: Plan, p: Pass, rc: nat, dn: nat)
    requires ValidRoles(roles) && PlanFits(|roles|, plan) && PassFits(|roles|, p)
    requires rc < |roles| && dn < |roles| && rc != dn
    ensures var q := TryPair(roles, rules, plan, p, rc, dn);
      if Admissible(roles, rules, plan, p, rc, dn) then |q.fleet.started| > |p.fleet.started| else q == p
  {
    hide Admissible, Damp;
  }

  lemma {:induction false} RowStarts(roles: seq<Role>, rules: Rules, plan: Plan, p: Pass, rc: nat, donors: seq<nat>)
    requires ValidRoles(roles) && PlanFits(|roles|, plan) && PassFits(|roles|, p) && rc < |roles|
    requires forall d :: d in donors ==> d < |roles| && d != rc
    ensures var q := AdmitRow(roles, rules, plan, p, rc, donors);
      && |q.fleet.started| >= |p.fleet.started|
      && (|q.fleet.started| > |p.fleet.started| <==> exists d :: d in donors && Admissible(roles, rules, plan, p, rc, d))
      && (|q.fleet.started| == |p.fleet.started| ==> q == p)
    decreases |donors|
  {
    hide Admissible, TryPair;
    if donors != [] {
      assert donors[0] in donors && forall d :: d in donors <==> d == donors[0] || d in donors[1..];
      PairStarts(roles, rules, plan, p, rc, donors[0]);
      RowStarts(roles, rules, plan, TryPair(roles, rules, plan, p, rc, donors[0]), rc, donors[1..]);
    }
  }

  /** A pass starts something exactly when some pair is admissible as it opens. */
  lemma {:induction false} PassStarts(roles: seq<Role>, rules: Rules, plan: Plan, p: Pass, recv: seq<nat>, donors: seq<nat>)
    requires ValidRoles(roles) && PlanFits(|roles|, plan) && PassFits(|roles|, p)
    requires forall d :: d in donors ==> d < |roles| && d !in recv
    requires forall r :: r in recv ==> r < |roles|
    ensures var q := AdmitAll(roles, rules, plan, p, recv, donors);
      && |q.fleet.started| >= |p.fleet.started|
      && (|q.fleet.started| > |p.fleet.started| <==>
          exists r, d :: r in recv && d in donors && Admissible(roles, rules, plan, p, r, d))
    decreases |recv|
  {
    hide Admissible, AdmitRow;
    if recv != [] {
      assert recv[0] in recv && forall r :: r in recv <==> r == recv[0] || r in recv[1..];
      RowStarts(roles, rules, plan, p, recv[0], donors);
      PassStarts(roles, rules, plan, AdmitRow(roles, rules, plan, p, recv[0], donors), recv[1..], donors);
    }
  }

  /** Moving g from dn to rc raises the smaller of their two z values. */
  ghost predicate RaisesMin(dn: Role, heldD: int, needD: real, rc: Role, heldR: int, needR: real, g: int)
    requires dn.w > 0.0 && rc.w > 0.0
  {
    var d, r := Z(heldD as real, needD, dn.w), Z(heldR as real, needR, rc.w);
    var d', r' := Z((heldD - g) as real, needD, dn.w), Z((heldR + g) as real, needR, rc.w);
    (Below(d, d') && Below(d, r')) || (Below(r, d') && Below(r, r'))
  }

  /** Everything that lets a transfer from dn to rc start in the cycle that decides in
      s with the counters cnt. */
  ghost predicate MayStart(cfg: Config, rules: Rules, s: State, cnt: seq<nat>, rc: nat, dn: nat)
    requires ValidRoles(cfg.roles) && StateFits(cfg, s) && |cnt| == |cfg.roles| && rc < |cfg.roles| && dn < |cfg.roles|
  {
    var f, need, g := Judged(cfg, rules, s), NeedSeen(cfg, rules, s), cfg.roles[rc].g;
    var heldR, heldD, cont := Counts(cfg, rules, s, rc), Counts(cfg, rules, s, dn), ContinuousTarget(cfg, rules, s, dn);
    && |f.inflight| < 2 && (exists r :: 0 <= r < |cnt| && cnt[r] >= CONFIRM)
    && heldR < IntegerTarget(cfg, rules, s, rc) && MayGive(cfg, rules, s, dn) && g <= cfg.roles[dn].g
    && (rules.actionable ==> cnt[rc] >= CONFIRM || cnt[dn] >= CONFIRM)
    && (rules.hold ==> s.fleet.t - f.lastGave[rc] >= HOLD && s.fleet.t - f.lastGot[dn] >= HOLD)
    && (rules.swing.SwingFreeze? ==> s.sig.dampedUntil[rc] <= s.fleet.t && s.sig.dampedUntil[dn] <= s.fleet.t)
    && RaisesMin(cfg.roles[dn], heldD, need[dn], cfg.roles[rc], heldR, need[rc], g)
    && ((heldD - g) as real >= cont || InBand(heldD - g, cont, need[dn], cfg.roles[dn].g))
  }

  ghost predicate SomePairMay(cfg: Config, rules: Rules, s: State, cnt: seq<nat>)
    requires ValidRoles(cfg.roles) && StateFits(cfg, s) && |cnt| == |cfg.roles|
  {
    exists rc: nat, dn: nat :: rc < |cfg.roles| && dn < |cfg.roles| && MayStart(cfg, rules, s, cnt, rc, dn)
  }

  lemma ImprovesIs(roles: seq<Role>, need: seq<real>, work: seq<int>, rc: nat, dn: nat, g: int)
    requires ValidRoles(roles) && |need| == |work| == |roles| && rc < |roles| && dn < |roles|
    ensures Improves(roles, need, work, rc, dn, g)
       <==> RaisesMin(roles[dn], work[dn], need[dn], roles[rc], work[rc], need[rc], g)
  {
    hide Z;
  }

  /** The opening pass of a cycle. */
  ghost function OpeningOf(cfg: Config, rules: Rules, s: State): (p: Pass)
    requires ValidRoles(cfg.roles) && StateFits(cfg, s)
    ensures PassFits(|cfg.roles|, p)
  {
    var f := Judged(cfg, rules, s);
    Opening(cfg.roles, rules, f, s.sig.(actCnt := Confirm(cfg.roles, rules, PlanOf(cfg, rules, s), Base(rules, f), s.sig.actCnt)))
  }

  lemma AdmissibleIs(cfg: Config, rules: Rules, s: State, rc: nat, dn: nat)
    requires ValidRoles(cfg.roles) && StateFits(cfg, s) && rc < |cfg.roles| && dn < |cfg.roles|
    ensures var p, plan := OpeningOf(cfg, rules, s), PlanOf(cfg, rules, s);
      && Acts(p.fleet, p.sig.actCnt) && rc in RecvList(cfg.roles, plan, Base(rules, p.fleet))
      && dn in DonorList(cfg.roles, plan, Base(rules, p.fleet)) && Admissible(cfg.roles, rules, plan, p, rc, dn)
      <==> MayStart(cfg, rules, s, p.sig.actCnt, rc, dn)
  {
    hide PlanOf, Judged, Confirm, RecvList, DonorList, InBand, IT.Integer, CT.Continuous, Improves, RaisesMin, Counts, MayGive, Base;
    var p, plan := OpeningOf(cfg, rules, s), PlanOf(cfg, rules, s);
    OpeningIs(cfg, rules, s);
    PlanTargets(cfg, rules, s);
    ListedWhen(cfg, rules, s, rc);
    ListedWhen(cfg, rules, s, dn);
    ImprovesIs(cfg.roles, plan.need, p.work, rc, dn, cfg.roles[rc].g);
    hide OpeningOf;
  }

  lemma OpeningIs(cfg: Config, rules: Rules, s: State)
    requires ValidRoles(cfg.roles) && StateFits(cfg, s)
    ensures var p := OpeningOf(cfg, rules, s);
      && p.fleet == Judged(cfg, rules, s) && p.fleet.t == s.fleet.t && p.sig.dampedUntil == s.sig.dampedUntil
      && forall r :: 0 <= r < |cfg.roles| ==> p.work[r] == Counts(cfg, rules, s, r) && p.moved[r] == 0
  {
    hide PlanOf, CancelAll, Confirm;
    CancelKeepsStarted(cfg.roles, rules, PlanOf(cfg, rules, s), s.fleet, s.fleet.inflight);
  }

  lemma ListedWhen(cfg: Config, rules: Rules, s: State, r: nat)
    requires ValidRoles(cfg.roles) && StateFits(cfg, s) && r < |cfg.roles|
    ensures var plan, base := PlanOf(cfg, rules, s), Base(rules, Judged(cfg, rules, s));
      && (r in RecvList(cfg.roles, plan, base) <==> Counts(cfg, rules, s, r) < IntegerTarget(cfg, rules, s, r))
      && (r in DonorList(cfg.roles, plan, base) <==> MayGive(cfg, rules, s, r))
  {
    hide PlanOf, Judged, RecvList, DonorList, IT.Integer, CT.Continuous, Ordered;
    PlanTargets(cfg, rules, s);
    PairsInOrder(cfg.roles, PlanOf(cfg, rules, s), Base(rules, Judged(cfg, rules, s)));
  }

  lemma DecideStarts(cfg: Config, rules: Rules, s: State)
    requires ValidRoles(cfg.roles) && StateFits(cfg, s)
    ensures var s' := Decide(cfg, rules, s);
      |s'.fleet.started| > |s.fleet.started| <==> SomePairMay(cfg, rules, s, s'.sig.actCnt)
  {
    hide PlanOf, CancelAll, Confirm, RecvList, DonorList, AdmitAll, Acts, Admissible, MayStart;
    var roles, plan, p := cfg.roles, PlanOf(cfg, rules, s), OpeningOf(cfg, rules, s);
    CancelKeepsStarted(roles, rules, plan, s.fleet, s.fleet.inflight);
    CountStays(roles, rules, plan, p.fleet, p.sig);
    var base := Base(rules, p.fleet);
    var recv, donors := RecvList(roles, plan, base), DonorList(roles, plan, base);
    PassStarts(roles, rules, plan, p, recv, donors);
    forall rc: nat, dn: nat | rc < |roles| && dn < |roles|
      ensures Acts(p.fleet, p.sig.actCnt) && rc in recv && dn in donors && Admissible(roles, rules, plan, p, rc, dn)
         <==> MayStart(cfg, rules, s, p.sig.actCnt, rc, dn)
    {
      AdmissibleIs(cfg, rules, s, rc, dn);
    }
  }

  /** In every run, cycle k starts a transfer exactly when some pair may start: fewer
      than two in flight, some role confirmed, a receiver below its integer target and
      a donor above its own, above what it may give and above its floor, with replicas
      no smaller, one of the two confirmed, neither on hold or frozen, the smaller of
      their z values rising, and the donor left at its target or in band. */
  lemma CycleStartsExactly(cfg: Config, rules: Rules, k: nat)
    requires ValidRoles(cfg.roles) && cfg.rules == Some(rules)
    ensures |Run(cfg, k + 1).fleet.started| > |Run(cfg, k).fleet.started| <==>
            SomePairMay(cfg, rules, Deciding(cfg, k), Run(cfg, k + 1).sig.actCnt)
  {
    hide Arrive, Decide, SomePairMay;
    var s := Run(cfg, k);
    assert Run(cfg, k + 1) == Cycle(cfg, s);
    ArriveKeeps(cfg, s);
    DecideStarts(cfg, rules, Arrive(cfg, s));
  }

  // The two limits of a pass.

  /** How many of the transfers role r takes part in. */
  ghost function Parts(xs: seq<Transfer>, r: nat): (n: nat)
    ensures n <= |xs|
  {
    if xs == [] then 0
    else
      var n := |xs| - 1;
      Parts(xs[..n], r) + if xs[n].dn == r || xs[n].rc == r then 1 else 0
  }

  /** A pass that opened with m transfers started: the per-role counters count the
      transfers started since, and all of those are in flight. */
  ghost predicate Tallied(n: nat, m: nat, p: Pass) {
    && PassFits(n, p) && m <= |p.fleet.started| && |p.fleet.started| - m <= |p.fleet.inflight|
    && forall r: nat :: r < n ==> p.moved[r] == Parts(p.fleet.started[m..], r)
  }

  lemma StartTallied(roles: seq<Role>, rules: Rules, m: nat, p: Pass, rc: nat, dn: nat)
    requires ValidRoles(roles) && rc < |roles| && dn < |roles| && rc != dn && Tallied(|roles|, m, p)
    ensures Tallied(|roles|, m, Start(roles, rules, p, rc, dn))
  {
    hide Damp, Parts, Fits, SignalsFit;
    var q := Start(roles, rules, p, rc, dn);
    var since, x := p.fleet.started[m..], Transfer(|p.fleet.started|, p.fleet.t, dn, rc, roles[rc].g);
    assert q.fleet.started == p.fleet.started + [x];
    assert q.fleet.started[m..] == since + [x];
    forall r: nat | r < |roles|
      ensures q.moved[r] == Parts(since + [x], r)
    {
      PartsAppend(since, x, r);
    }
  }

  lemma PartsAppend(xs: seq<Transfer>, x: Transfer, r: nat)
    ensures Parts(xs + [x], r) == Parts(xs, r) + if x.dn == r || x.rc == r then 1 else 0
  {
    assert (xs + [x])[..|xs|] == xs;
  }

  lemma {:induction false} RowTallied(roles: seq<Role>, rules: Rules, plan: Plan, m: nat, p: Pass, rc: nat, donors: seq<nat>)
    requires ValidRoles(roles) && PlanFits(|roles|, plan) && PassFits(|roles|, p) && rc < |roles| && Tallied(|roles|, m, p)
    requires forall d :: d in donors ==> d < |roles| && d != rc
    ensures Tallied(|roles|, m, AdmitRow(roles, rules, plan, p, rc, donors))
    decreases |donors|
  {
    hide Tallied, Admissible, Start;
    if donors != [] {
      assert donors[0] in donors && forall d :: d in donors[1..] ==> d in donors;
      StartTallied(roles, rules, m, p, rc, donors[0]);
      RowTallied(roles, rules, plan, m, TryPair(roles, rules, plan, p, rc, donors[0]), rc, donors[1..]);
    }
  }

  lemma {:induction false} PassTallied(roles: seq<Role>, rules: Rules, plan: Plan, m: nat, p: Pass, recv: seq<nat>, donors: seq<nat>)
    requires ValidRoles(roles) && PlanFits(|roles|, plan) && PassFits(|roles|, p) && Tallied(|roles|, m, p)
    requires forall d :: d in donors ==> d < |roles| && d !in recv
    requires forall r :: r in recv ==> r < |roles|
    ensures Tallied(|roles|, m, AdmitAll(roles, rules, plan, p, recv, donors))
    decreases |recv|
  {
    hide Tallied, AdmitRow;
    if recv != [] {
      assert recv[0] in recv && forall r :: r in recv[1..] ==> r in recv;
      RowTallied(roles, rules, plan, m, p, recv[0], donors);
      PassTallied(roles, rules, plan, m, AdmitRow(roles, rules, plan, p, recv[0], donors), recv[1..], donors);
    }
  }

  /** At every point of a cycle's pass the per-role counters are the transfers of the
      role started in the pass, so the limit of two a role never binds: whenever fewer
      than two are in flight, no role has taken part in two. */
  lemma RoleLimitNeverBinds(cfg: Config, rules: Rules, s: State, recv: seq<nat>, donors: seq<nat>, r: nat)
    requires ValidRoles(cfg.roles) && StateFits(cfg, s) && r < |cfg.roles|
    requires forall d :: d in donors ==> d < |cfg.roles| && d !in recv
    requires forall c :: c in recv ==> c < |cfg.roles|
    ensures var p := OpeningOf(cfg, rules, s);
      var q := AdmitAll(cfg.roles, rules, PlanOf(cfg, rules, s), p, recv, donors);
      && p.fleet.started <= q.fleet.started && q.moved[r] == Parts(q.fleet.started[|p.fleet.started|..], r)
      && (|q.fleet.inflight| < 2 ==> q.moved[r] < 2)
  {
    hide PlanOf, Judged, AdmitAll, Confirm, Base;
    var roles, plan, p := cfg.roles, PlanOf(cfg, rules, s), OpeningOf(cfg, rules, s);
    var m := |p.fleet.started|;
    OpeningIs(cfg, rules, s);
    assert p.fleet.started[m..] == [];
    PassTallied(roles, rules, plan, m, p, recv, donors);
    AllCaused(roles, rules, plan, recv, donors, p, recv, donors);
    hide Licensed;
  }
}

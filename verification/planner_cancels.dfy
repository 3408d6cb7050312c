/** Which transfers a cycle cancels, and why: every transfer in flight is judged once,
    against what is still in flight at that moment. */
module PlannerCancels {
  import opened Options
  import opened PlannerTypes
  import opened Planner
  import opened PlannerSafety
  import opened PlannerCauses
  import opened PlannerProgress

  /** What role r would hold if everything in xs landed. */
  ghost function WouldHold(held: seq<int>, xs: seq<Transfer>, r: nat): int
    requires r < |held|
  {
    held[r] - Gifts(xs, r) + Receipts(xs, r)
  }

  /** The transfer x is not worth finishing: it is young enough to stop, and either
      its donor would end too far below its target, or its receiver is well enough off
      without it. */
  ghost predicate Pointless(roles: seq<Role>, rules: Rules, plan: Plan, t: int, held: seq<int>, xs: seq<Transfer>, x: Transfer)
    requires PlanFits(|roles|, plan) && |held| == |roles| && ValidTransfer(|roles|, x)
  {
    var donor, receiver := WouldHold(held, xs, x.dn), WouldHold(held, xs, x.rc) - x.g;
    && t <= x.start + WINDOW
    && if rules.hysteresis then
         || plan.cont[x.dn] - donor as real > Largest(0.3 * plan.cont[x.dn], roles[x.dn].g as real)
         || receiver as real - plan.cont[x.rc] > Largest(0.15 * plan.cont[x.rc], 0.5 * roles[x.rc].g as real)
       else
         || (plan.cont[x.dn] > donor as real && !InBand(donor, plan.cont[x.dn], plan.need[x.dn], roles[x.dn].g))
         || plan.cont[x.rc] <= receiver as real
         || InBand(receiver, plan.cont[x.rc], plan.need[x.rc], roles[x.rc].g)
  }

  function Largest(a: real, b: real): real {
    if a < b then b else a
  }

  /** The judgement of the source is this one. */
  lemma JudgedPointless(roles: seq<Role>, rules: Rules, plan: Plan, f: Fleet, x: Transfer)
    requires ValidRoles(roles) && PlanFits(|roles|, plan) && Fits(|roles|, f) && ValidTransfer(|roles|, x) && x in f.inflight
    ensures ShouldCancel(roles, rules, plan, f, x) <==> Pointless(roles, rules, plan, f.t, f.held, f.inflight, x)
  {
    hide InBand, Remove, Max;
    FlowRemove(f.inflight, x, x.dn);
    FlowRemove(f.inflight, x, x.rc);
    hide Gifts, Receipts;
    TolIs(plan.cont[x.dn], roles[x.dn].g);
    TolIs(plan.cont[x.rc], roles[x.rc].g);
    hide Tol, Largest;
  }

  /** The tolerance, and twice it, spelled out. */
  lemma TolIs(tgt: real, g: int)
    ensures Tol(tgt, g) == Largest(0.15 * tgt, 0.5 * g as real) && 2.0 * Tol(tgt, g) == Largest(0.3 * tgt, g as real)
  {
  }

  /** The transfers a round of verdicts keeps, and those it cancels. */
  ghost function Kept(xs: seq<Transfer>, cancel: seq<bool>): seq<Transfer>
    requires |cancel| == |xs|
  {
    if xs == [] then []
    else
      var n := |xs| - 1;
      Kept(xs[..n], cancel[..n]) + if cancel[n] then [] else [xs[n]]
  }

  ghost function Dropped(xs: seq<Transfer>, cancel: seq<bool>): seq<Transfer>
    requires |cancel| == |xs|
  {
    if xs == [] then []
    else
      var n := |xs| - 1;
      Dropped(xs[..n], cancel[..n]) + if cancel[n] then [xs[n]] else []
  }

  lemma {:induction false} FlowSame(xs: seq<Transfer>, ys: seq<Transfer>, r: nat)
    requires multiset(xs) == multiset(ys)
    ensures Gifts(xs, r) == Gifts(ys, r) && Receipts(xs, r) == Receipts(ys, r)
  {
    if xs != [] {
      var x := xs[0];
      assert xs == [x] + xs[1..];
      assert x in multiset(ys);
      FlowRemove(ys, x, r);
      FlowSame(xs[1..], Remove(ys, x), r);
    } else {
      assert |multiset(ys)| == 0;
    }
  }

  /** The verdict on transfer i: what was kept of those before it, it and those after
      it are in flight. */
  ghost predicate Fair(roles: seq<Role>, rules: Rules, plan: Plan, f: Fleet, xs: seq<Transfer>, cancel: seq<bool>, i: nat)
    requires PlanFits(|roles|, plan) && Fits(|roles|, f) && i < |xs| == |cancel| && ValidTransfer(|roles|, xs[i])
  {
    cancel[i] <==> Pointless(roles, rules, plan, f.t, f.held, Kept(xs[..i], cancel[..i]) + xs[i..], xs[i])
  }

  /** After i verdicts. */
  ghost predicate Midway(n: nat, f0: Fleet, f: Fleet, cancel: seq<bool>) {
    var i := |cancel|;
    && Fits(n, f0) && Fits(n, f) && i <= |f0.inflight| && f.held == f0.held && f.t == f0.t
    && Shuffled(f.inflight, Kept(f0.inflight[..i], cancel) + f0.inflight[i..])
    && f.cancelled == f0.cancelled + Dropped(f0.inflight[..i], cancel)
  }

  ghost predicate Shuffled(xs: seq<Transfer>, ys: seq<Transfer>) {
    multiset(xs) == multiset(ys)
  }

  /** The fleet after the verdict on x. */
  ghost function Ruled(roles: seq<Role>, rules: Rules, f: Fleet, x: Transfer, verdict: bool): (f1: Fleet)
    requires Fits(|roles|, f) && ValidTransfer(|roles|, x)
    ensures Fits(|roles|, f1)
  {
    if verdict then CancelOne(|roles|, rules, f, x) else f
  }

  lemma MidwayNext(roles: seq<Role>, rules: Rules, f0: Fleet, f: Fleet, cancel: seq<bool>, verdict: bool)
    requires Midway(|roles|, f0, f, cancel) && |cancel| < |f0.inflight|
    ensures Midway(|roles|, f0, Ruled(roles, rules, f, f0.inflight[|cancel|], verdict), cancel + [verdict])
  {
    hide Kept, Dropped, Remove, Fits, Shuffled;
    var i, x := |cancel|, f0.inflight[|cancel|];
    assert Fits(|roles|, f) && ValidTransfer(|roles|, x) by { InflightValid(|roles|, f0, i); }
    var f1 := Ruled(roles, rules, f, x, verdict);
    Facing(f0.inflight, i, f.inflight, Kept(f0.inflight[..i], cancel));
    RoundStep(f0, f, x, i, cancel, verdict, f1.inflight);
    CancelsJoin(f0.cancelled, Dropped(f0.inflight[..i], cancel), x, verdict);
  }

  lemma InflightValid(n: nat, f: Fleet, i: nat)
    requires Fits(n, f) && i < |f.inflight|
    ensures ValidTransfer(n, f.inflight[i])
  {
  }

  lemma CancelsJoin(a: seq<Transfer>, b: seq<Transfer>, x: Transfer, verdict: bool)
    ensures a + (b + if verdict then [x] else []) == if verdict then (a + b) + [x] else a + b
  {
    if verdict {
      assert a + (b + [x]) == (a + b) + [x];
    } else {
      assert b + [] == b;
    }
  }

  lemma VerdictIs(roles: seq<Role>, rules: Rules, plan: Plan, f0: Fleet, f: Fleet, cancel: seq<bool>)
    requires ValidRoles(roles) && PlanFits(|roles|, plan) && Midway(|roles|, f0, f, cancel) && |cancel| < |f0.inflight|
    ensures var i, x := |cancel|, f0.inflight[|cancel|];
      ShouldCancel(roles, rules, plan, f, x)
      <==> Pointless(roles, rules, plan, f0.t, f0.held, Kept(f0.inflight[..i], cancel) + f0.inflight[i..], x)
  {
    hide ShouldCancel, Pointless, Kept, Dropped;
    var i, x := |cancel|, f0.inflight[|cancel|];
    Facing(f0.inflight, i, f.inflight, Kept(f0.inflight[..i], cancel));
    JudgedPointless(roles, rules, plan, f, x);
    PointlessSame(roles, rules, plan, f.t, f.held, f.inflight, Kept(f0.inflight[..i], cancel) + f0.inflight[i..], x);
  }

  lemma RulesFirst(roles: seq<Role>, rules: Rules, plan: Plan, f: Fleet, xs: seq<Transfer>, i: nat)
    requires ValidRoles(roles) && PlanFits(|roles|, plan) && Fits(|roles|, f)
    requires i < |xs| && forall x :: x in xs ==> ValidTransfer(|roles|, x)
    ensures xs[i] in xs && forall x :: x in xs[i + 1..] ==> x in xs
    ensures var verdict := ShouldCancel(roles, rules, plan, f, xs[i]);
      CancelAll(roles, rules, plan, f, xs[i..])
      == CancelAll(roles, rules, plan, Ruled(roles, rules, f, xs[i], verdict), xs[i + 1..])
  {
    hide ShouldCancel, CancelOne, ValidTransfer;
    assert xs[i..][0] == xs[i] && xs[i..][1..] == xs[i + 1..];
  }

  /** One round of verdicts, from transfer i on. */
  lemma {:induction false} RoundFrom(roles: seq<Role>, rules: Rules, plan: Plan, f0: Fleet, f: Fleet, cancel: seq<bool>)
    returns (all: seq<bool>)
    requires ValidRoles(roles) && PlanFits(|roles|, plan)
    requires Fits(|roles|, f0) && Fits(|roles|, f) && |cancel| <= |f0.inflight| && Midway(|roles|, f0, f, cancel)
    ensures |all| == |f0.inflight| && all[..|cancel|] == cancel
    ensures forall j :: |cancel| <= j < |all| ==> Fair(roles, rules, plan, f0, f0.inflight, all, j)
    ensures Midway(|roles|, f0, CancelAll(roles, rules, plan, f, f0.inflight[|cancel|..]), all)
    decreases |f0.inflight| - |cancel|
  {
    hide ShouldCancel, Pointless, Kept, Dropped, Midway, CancelAll, Ruled, ValidTransfer;
    var i := |cancel|;
    if i == |f0.inflight| {
      all := cancel;
      NothingToRule(roles, rules, plan, f, f0.inflight[i..]);
      assert all[..i] == cancel;
    } else {
      var x := f0.inflight[i];
      var verdict := ShouldCancel(roles, rules, plan, f, x);
      MidwayNext(roles, rules, f0, f, cancel, verdict);
      VerdictIs(roles, rules, plan, f0, f, cancel);
      RulesFirst(roles, rules, plan, f, f0.inflight, i);
      all := RoundFrom(roles, rules, plan, f0, Ruled(roles, rules, f, x, verdict), cancel + [verdict]);
      PrefixOf(all, i, cancel, verdict);
    }
  }

  lemma NothingToRule(roles: seq<Role>, rules: Rules, plan: Plan, f: Fleet, none: seq<Transfer>)
    requires ValidRoles(roles) && PlanFits(|roles|, plan) && Fits(|roles|, f) && none == []
    ensures CancelAll(roles, rules, plan, f, none) == f
  {
  }

  lemma Facing(xs: seq<Transfer>, i: nat, inflight: seq<Transfer>, kept: seq<Transfer>)
    requires i < |xs| && Shuffled(inflight, kept + xs[i..])
    ensures xs[i] in inflight && xs[i..] != [] && xs[i..][0] == xs[i] && xs[i..][1..] == xs[i + 1..]
  {
    assert xs[i] in multiset(kept + xs[i..]) by { assert xs[i..][0] == xs[i]; }
  }

  lemma PrefixOf(all: seq<bool>, i: nat, cancel: seq<bool>, verdict: bool)
    requires i < |all| && i == |cancel| && all[..i + 1] == cancel + [verdict]
    ensures all[..i] == cancel && all[i] == verdict
  {
    assert all[..i] == all[..i + 1][..i];
    assert all[i] == all[..i + 1][i];
  }

  lemma RoundStep(f0: Fleet, f: Fleet, x: Transfer, i: nat, cancel: seq<bool>, verdict: bool, inflight: seq<Transfer>)
    requires i == |cancel| < |f0.inflight| && x == f0.inflight[i] && x in f.inflight
    requires Shuffled(f.inflight, Kept(f0.inflight[..i], cancel) + f0.inflight[i..])
    requires inflight == if verdict then Remove(f.inflight, x) else f.inflight
    ensures var xs, c := f0.inflight, cancel + [verdict];
      && Shuffled(inflight, Kept(xs[..i + 1], c) + xs[i + 1..])
      && Dropped(xs[..i + 1], c) == Dropped(xs[..i], cancel) + if verdict then [x] else []
  {
    hide Kept, Dropped, Remove, Shuffled;
    VerdictAdds(f0.inflight, i, cancel, verdict);
    var rest, kept := f0.inflight[i + 1..], Kept(f0.inflight[..i], cancel);
    assert f0.inflight[i..] == [x] + rest;
    NextUp(kept, x, rest, f.inflight, verdict);
  }

  lemma NextUp(kept: seq<Transfer>, x: Transfer, rest: seq<Transfer>, before: seq<Transfer>, verdict: bool)
    requires Shuffled(before, kept + ([x] + rest))
    ensures Shuffled(if verdict then Remove(before, x) else before, kept + (if verdict then [] else [x]) + rest)
  {
    hide Remove;
    if verdict {
      OneLess(kept, x, rest, before);
    } else {
      assert kept + ([x] + rest) == (kept + [x]) + rest;
    }
  }

  lemma OneLess(kept: seq<Transfer>, x: Transfer, rest: seq<Transfer>, before: seq<Transfer>)
    requires multiset(before) == multiset(kept + ([x] + rest))
    ensures multiset(Remove(before, x)) == multiset(kept + [] + rest)
  {
    hide Remove;
    assert kept + [] == kept;
    assert multiset(kept + ([x] + rest)) == multiset(kept) + (multiset{x} + multiset(rest));
    assert multiset(kept + rest) == multiset(kept) + multiset(rest);
  }

  lemma VerdictAdds(xs: seq<Transfer>, i: nat, cancel: seq<bool>, verdict: bool)
    requires i == |cancel| < |xs|
    ensures Kept(xs[..i + 1], cancel + [verdict]) == Kept(xs[..i], cancel) + if verdict then [] else [xs[i]]
    ensures Dropped(xs[..i + 1], cancel + [verdict]) == Dropped(xs[..i], cancel) + if verdict then [xs[i]] else []
  {
    assert xs[..i + 1][..i] == xs[..i] && (cancel + [verdict])[..i] == cancel;
  }

  lemma PointlessSame(roles: seq<Role>, rules: Rules, plan: Plan, t: int, held: seq<int>, xs: seq<Transfer>, ys: seq<Transfer>, x: Transfer)
    requires PlanFits(|roles|, plan) && |held| == |roles| && ValidTransfer(|roles|, x) && multiset(xs) == multiset(ys)
    ensures Pointless(roles, rules, plan, t, held, xs, x) <==> Pointless(roles, rules, plan, t, held, ys, x)
  {
    hide InBand;
    FlowSame(xs, ys, x.dn);
    FlowSame(xs, ys, x.rc);
  }

  /** What a cycle's cancels do, exactly: every transfer in flight gets one verdict, in
      the order they started; those found pointless are cancelled and the others stay
      in flight. */
  lemma CancelRound(roles: seq<Role>, rules: Rules, plan: Plan, f: Fleet) returns (cancel: seq<bool>)
    requires ValidRoles(roles) && PlanFits(|roles|, plan) && Fits(|roles|, f)
    ensures |cancel| == |f.inflight|
    ensures forall j :: 0 <= j < |cancel| ==> Fair(roles, rules, plan, f, f.inflight, cancel, j)
    ensures var f' := CancelAll(roles, rules, plan, f, f.inflight);
      && multiset(f'.inflight) == multiset(Kept(f.inflight, cancel)) && f'.held == f.held
      && f'.cancelled == f.cancelled + Dropped(f.inflight, cancel)
  {
    var xs := f.inflight;
    assert xs[..0] == [] && xs[0..] == xs && [] + xs == xs;
    assert f.cancelled + [] == f.cancelled;
    cancel := RoundFrom(roles, rules, plan, f, f, []);
    hide CancelAll;
    assert xs[..|cancel|] == xs && xs[|cancel|..] == [] && Kept(xs, cancel) + [] == Kept(xs, cancel);
  }

  lemma {:induction false} DroppedHas(xs: seq<Transfer>, cancel: seq<bool>, k: nat) returns (i: nat)
    requires |cancel| == |xs| && k < |Dropped(xs, cancel)|
    ensures i < |xs| && cancel[i] && xs[i] == Dropped(xs, cancel)[k]
  {
    var n := |xs| - 1;
    if k < |Dropped(xs[..n], cancel[..n])| {
      i := DroppedHas(xs[..n], cancel[..n], k);
    } else {
      i := n;
    }
  }

  /** In every run, a transfer cancelled in cycle k was in flight when the cycle
      decided, had started at most WINDOW ago, and was pointless by the plan of that
      cycle against some of the others in flight. */
  lemma EveryCancelHasCause(cfg: Config, rules: Rules, k: nat, i: nat)
    requires ValidRoles(cfg.roles) && cfg.rules == Some(rules)
    requires |Run(cfg, k).fleet.cancelled| <= i < |Run(cfg, k + 1).fleet.cancelled|
    ensures var s, x := Deciding(cfg, k), Run(cfg, k + 1).fleet.cancelled[i];
      && x in s.fleet.inflight && ValidTransfer(|cfg.roles|, x) && s.fleet.t <= x.start + WINDOW
      && exists xs :: multiset(xs) <= multiset(s.fleet.inflight) && x in xs
           && Pointless(cfg.roles, rules, PlanOf(cfg, rules, s), s.fleet.t, s.fleet.held, xs, x)
  {
    assert Run(cfg, k + 1) == Cycle(cfg, Run(cfg, k));
    CancelledOnlyHere(cfg, rules, k);
    hide Deciding, Run, Cycle, CancelAll, PlanOf;
    var s := Deciding(cfg, k);
    CancelCause(cfg.roles, rules, PlanOf(cfg, rules, s), s.fleet, i);
  }

  lemma CancelCause(roles: seq<Role>, rules: Rules, plan: Plan, f: Fleet, i: nat)
    requires ValidRoles(roles) && PlanFits(|roles|, plan) && Fits(|roles|, f)
    requires |f.cancelled| <= i < |CancelAll(roles, rules, plan, f, f.inflight).cancelled|
    ensures var x := CancelAll(roles, rules, plan, f, f.inflight).cancelled[i];
      && x in f.inflight && ValidTransfer(|roles|, x) && f.t <= x.start + WINDOW
      && exists xs :: multiset(xs) <= multiset(f.inflight) && x in xs && Pointless(roles, rules, plan, f.t, f.held, xs, x)
  {
    hide CancelAll, Kept, Dropped, Pointless;
    var cancel := CancelRound(roles, rules, plan, f);
    var j := DroppedHas(f.inflight, cancel, i - |f.cancelled|);
    var x := f.inflight[j];
    assert Fair(roles, rules, plan, f, f.inflight, cancel, j);
    var xs := Kept(f.inflight[..j], cancel[..j]) + f.inflight[j..];
    KeptFew(f.inflight, cancel, j);
    PointlessYoung(roles, rules, plan, f.t, f.held, xs, x);
  }

  lemma PointlessYoung(roles: seq<Role>, rules: Rules, plan: Plan, t: int, held: seq<int>, xs: seq<Transfer>, x: Transfer)
    requires PlanFits(|roles|, plan) && |held| == |roles| && ValidTransfer(|roles|, x)
    requires Pointless(roles, rules, plan, t, held, xs, x)
    ensures t <= x.start + WINDOW
  {
    hide InBand;
  }

  lemma {:induction false} KeptSome(xs: seq<Transfer>, cancel: seq<bool>)
    requires |cancel| == |xs|
    ensures multiset(Kept(xs, cancel)) <= multiset(xs)
  {
    if xs != [] {
      var n := |xs| - 1;
      KeptSome(xs[..n], cancel[..n]);
      assert xs == xs[..n] + [xs[n]];
    }
  }

  lemma KeptFew(xs: seq<Transfer>, cancel: seq<bool>, j: nat)
    requires |cancel| == |xs| && j < |xs|
    ensures var ys := Kept(xs[..j], cancel[..j]) + xs[j..];
      multiset(ys) <= multiset(xs) && xs[j] in ys
  {
    KeptSome(xs[..j], cancel[..j]);
    assert xs == xs[..j] + xs[j..];
    assert xs[j..][0] == xs[j];
  }

  /** Nothing else in a cycle cancels. */
  lemma CancelledOnlyHere(cfg: Config, rules: Rules, k: nat)
    requires ValidRoles(cfg.roles) && cfg.rules == Some(rules)
    ensures var s := Deciding(cfg, k);
      && s.fleet.cancelled == Run(cfg, k).fleet.cancelled
      && Cycle(cfg, Run(cfg, k)).fleet.cancelled
         == CancelAll(cfg.roles, rules, PlanOf(cfg, rules, s), s.fleet, s.fleet.inflight).cancelled
  {
    ArriveCommitted(cfg, Run(cfg, k));
    var s := Deciding(cfg, k);
    hide Arrive, Run, CancelAll, PlanOf, Admit, Confirm;
    var plan := PlanOf(cfg, rules, s);
    var f := CancelAll(cfg.roles, rules, plan, s.fleet, s.fleet.inflight);
    AdmitKeeps(cfg.roles, rules, plan, f, s.sig.(actCnt := Confirm(cfg.roles, rules, plan, Base(rules, f), s.sig.actCnt)));
  }

  // A cancel holds both roles.

  /** The two timers of a hold: since T role r has not given, or not got, for less. */
  ghost predicate GaveSince(f: Fleet, r: nat, T: int) {
    r < |f.lastGave| && f.lastGave[r] >= T && f.t >= T
  }

  ghost predicate GotSince(f: Fleet, r: nat, T: int) {
    r < |f.lastGot| && f.lastGot[r] >= T && f.t >= T
  }

  lemma {:induction false} CancelTimers(roles: seq<Role>, rules: Rules, plan: Plan, f: Fleet, todo: seq<Transfer>)
    requires ValidRoles(roles) && PlanFits(|roles|, plan) && Fits(|roles|, f)
    requires forall x :: x in todo ==> ValidTransfer(|roles|, x)
    ensures var f' := CancelAll(roles, rules, plan, f, todo);
      && (forall r, T :: GaveSince(f, r, T) ==> GaveSince(f', r, T))
      && (forall r, T :: GotSince(f, r, T) ==> GotSince(f', r, T))
      && f.cancelled <= f'.cancelled
      && (rules.hold ==> forall i :: |f.cancelled| <= i < |f'.cancelled| ==>
            GaveSince(f', f'.cancelled[i].dn, f.t) && GotSince(f', f'.cancelled[i].rc, f.t))
    decreases |todo|
  {
    hide ShouldCancel, GaveSince, GotSince, CancelOne;
    if todo != [] {
      var x := todo[0];
      var f1 := if ShouldCancel(roles, rules, plan, f, x) then CancelOne(|roles|, rules, f, x) else f;
      OneCancelTimers(|roles|, rules, f, x);
      CancelTimers(roles, rules, plan, f1, todo[1..]);
    }
  }

  lemma OneCancelTimers(n: nat, rules: Rules, f: Fleet, x: Transfer)
    requires Fits(n, f) && ValidTransfer(n, x)
    ensures var f' := CancelOne(n, rules, f, x);
      && (forall r, T :: GaveSince(f, r, T) ==> GaveSince(f', r, T))
      && (forall r, T :: GotSince(f, r, T) ==> GotSince(f', r, T))
      && f'.cancelled == f.cancelled + [x] && f'.t == f.t
      && (rules.hold ==> GaveSince(f', x.dn, f.t) && GotSince(f', x.rc, f.t))
  {
    hide Remove;
  }

  lemma StartTimers(roles: seq<Role>, rules: Rules, p: Pass, rc: nat, dn: nat)
    requires ValidRoles(roles) && PassFits(|roles|, p) && rc < |roles| && dn < |roles| && rc != dn
    ensures var q := Start(roles, rules, p, rc, dn);
      && (forall r, T :: GaveSince(p.fleet, r, T) ==> GaveSince(q.fleet, r, T))
      && (forall r, T :: GotSince(p.fleet, r, T) ==> GotSince(q.fleet, r, T))
  {
    hide Damp;
  }

  /** A pass only moves timers up to its own time. */
  ghost predicate LaterTimers(f: Fleet, f': Fleet) {
    && (forall r, T :: GaveSince(f, r, T) ==> GaveSince(f', r, T))
    && (forall r, T :: GotSince(f, r, T) ==> GotSince(f', r, T))
  }

  lemma {:induction false} RowTimers(roles: seq<Role>, rules: Rules, plan: Plan, p: Pass, rc: nat, donors: seq<nat>)
    requires ValidRoles(roles) && PlanFits(|roles|, plan) && PassFits(|roles|, p) && rc < |roles|
    requires forall d :: d in donors ==> d < |roles| && d != rc
    ensures LaterTimers(p.fleet, AdmitRow(roles, rules, plan, p, rc, donors).fleet)
    decreases |donors|
  {
    hide GaveSince, GotSince, Admissible, Start;
    if donors != [] {
      assert donors[0] in donors && forall d :: d in donors[1..] ==> d in donors;
      StartTimers(roles, rules, p, rc, donors[0]);
      RowTimers(roles, rules, plan, TryPair(roles, rules, plan, p, rc, donors[0]), rc, donors[1..]);
    }
  }

  lemma {:induction false} PassTimers(roles: seq<Role>, rules: Rules, plan: Plan, p: Pass, recv: seq<nat>, donors: seq<nat>)
    requires ValidRoles(roles) && PlanFits(|roles|, plan) && PassFits(|roles|, p)
    requires forall d :: d in donors ==> d < |roles| && d !in recv
    requires forall r :: r in recv ==> r < |roles|
    ensures LaterTimers(p.fleet, AdmitAll(roles, rules, plan, p, recv, donors).fleet)
    decreases |recv|
  {
    hide GaveSince, GotSince, AdmitRow;
    if recv != [] {
      assert recv[0] in recv && forall r :: r in recv[1..] ==> r in recv;
      RowTimers(roles, rules, plan, p, recv[0], donors);
      PassTimers(roles, rules, plan, AdmitRow(roles, rules, plan, p, recv[0], donors), recv[1..], donors);
    }
  }

  lemma DecideTimers(cfg: Config, rules: Rules, s: State)
    requires ValidRoles(cfg.roles) && StateFits(cfg, s)
    ensures LaterTimers(s.fleet, Judged(cfg, rules, s)) && LaterTimers(Judged(cfg, rules, s), Decide(cfg, rules, s).fleet)
  {
    hide PlanOf, CancelAll, Confirm, AdmitAll, RecvList, DonorList, Acts, GaveSince, GotSince;
    var roles, plan, f := cfg.roles, PlanOf(cfg, rules, s), Judged(cfg, rules, s);
    CancelTimers(roles, rules, plan, s.fleet, s.fleet.inflight);
    var base := Base(rules, f);
    var sig := s.sig.(actCnt := Confirm(roles, rules, plan, base, s.sig.actCnt));
    if Acts(f, sig.actCnt) {
      PassTimers(roles, rules, plan, Opening(roles, rules, f, sig), RecvList(roles, plan, base), DonorList(roles, plan, base));
    }
  }

  lemma ArriveTimers(cfg: Config, s: State)
    requires StateFits(cfg, s)
    ensures var f := Arrive(cfg, s).fleet; f.lastGave == s.fleet.lastGave && f.lastGot == s.fleet.lastGot && f.t == s.fleet.t
  {
    var n := |cfg.roles|;
    LandTimers(n, s.fleet, Due(s.fleet.inflight, s.fleet.t));
    var l := Land(n, s.fleet);
    FillTimers(n, l, Full(l.filling, l.t));
  }

  lemma {:induction false} LandTimers(n: nat, f: Fleet, due: seq<Transfer>)
    requires Fits(n, f) && forall x :: x in due ==> ValidTransfer(n, x)
    ensures var f' := LandAll(n, f, due); f'.lastGave == f.lastGave && f'.lastGot == f.lastGot && f'.t == f.t
    decreases |due|
  {
    if due != [] {
      LandTimers(n, LandOne(n, f, due[0]), due[1..]);
    }
  }

  lemma {:induction false} FillTimers(n: nat, f: Fleet, full: seq<Filling>)
    requires Fits(n, f) && forall x :: x in full ==> x.rc < n
    ensures var f' := FillAll(n, f, full); f'.lastGave == f.lastGave && f'.lastGot == f.lastGot && f'.t == f.t
    decreases |full|
  {
    if full != [] {
      FillTimers(n, FillOne(n, f, full[0]), full[1..]);
    }
  }

  lemma CycleTimers(cfg: Config, rules: Rules, s: State)
    requires ValidRoles(cfg.roles) && StateFits(cfg, s) && cfg.rules == Some(rules)
    ensures LaterTimers(s.fleet, Judged(cfg, rules, Arrive(cfg, s)))
    ensures LaterTimers(Judged(cfg, rules, Arrive(cfg, s)), Cycle(cfg, s).fleet)
  {
    hide Arrive, Decide, Judged;
    ArriveTimers(cfg, s);
    DecideTimers(cfg, rules, Arrive(cfg, s));
  }

  /** What the timers say in cycle j they say in every later one. */
  lemma {:induction false} TimersLast(cfg: Config, rules: Rules, j: nat, k: nat)
    requires ValidRoles(cfg.roles) && cfg.rules == Some(rules) && j <= k
    ensures LaterTimers(Judged(cfg, rules, Deciding(cfg, j)), Judged(cfg, rules, Deciding(cfg, k)))
    decreases k - j
  {
    hide Arrive, Cycle, Judged, GaveSince, GotSince;
    if j < k {
      TimersLast(cfg, rules, j, k - 1);
      CycleTimers(cfg, rules, Run(cfg, k - 1));
      CycleTimers(cfg, rules, Run(cfg, k));
      assert Run(cfg, k) == Cycle(cfg, Run(cfg, k - 1));
    }
  }

  /** With the hold rule a cancelled transfer holds both its roles like a finished one:
      if x is cancelled in cycle j and y starts in cycle k, not before, then y brings
      x's donor nothing and takes nothing from x's receiver before HOLD has passed. */
  lemma CancelHolds(cfg: Config, rules: Rules, j: nat, i: nat, k: nat, l: nat)
    requires ValidRoles(cfg.roles) && cfg.rules == Some(rules) && rules.hold && j <= k
    requires |Run(cfg, j).fleet.cancelled| <= i < |Run(cfg, j + 1).fleet.cancelled|
    requires |Run(cfg, k).fleet.started| <= l < |Run(cfg, k + 1).fleet.started|
    ensures var x, y := Run(cfg, j + 1).fleet.cancelled[i], Run(cfg, k + 1).fleet.started[l];
      x.dn == y.rc || x.rc == y.dn ==> Run(cfg, k).fleet.t - Run(cfg, j).fleet.t >= HOLD
  {
    hide Judged, Deciding, Run;
    CancelledTimers(cfg, rules, j, i);
    StartedRested(cfg, rules, k, l);
    TimersLast(cfg, rules, j, k);
  }

  lemma CancelledTimers(cfg: Config, rules: Rules, j: nat, i: nat)
    requires ValidRoles(cfg.roles) && cfg.rules == Some(rules) && rules.hold
    requires |Run(cfg, j).fleet.cancelled| <= i < |Run(cfg, j + 1).fleet.cancelled|
    ensures var x, f := Run(cfg, j + 1).fleet.cancelled[i], Judged(cfg, rules, Deciding(cfg, j));
      GaveSince(f, x.dn, Run(cfg, j).fleet.t) && GotSince(f, x.rc, Run(cfg, j).fleet.t)
  {
    assert Run(cfg, j + 1) == Cycle(cfg, Run(cfg, j));
    CancelledOnlyHere(cfg, rules, j);
    ArriveTimers(cfg, Run(cfg, j));
    hide Run, Cycle, Arrive, PlanOf, CancelAll, GaveSince, GotSince;
    var s := Deciding(cfg, j);
    CancelTimers(cfg.roles, rules, PlanOf(cfg, rules, s), s.fleet, s.fleet.inflight);
  }

  lemma StartedRested(cfg: Config, rules: Rules, k: nat, l: nat)
    requires ValidRoles(cfg.roles) && cfg.rules == Some(rules) && rules.hold
    requires |Run(cfg, k).fleet.started| <= l < |Run(cfg, k + 1).fleet.started|
    ensures var f := Judged(cfg, rules, Deciding(cfg, k));
      Rested(f, Run(cfg, k + 1).fleet.started[l]) && f.t == Run(cfg, k).fleet.t
  {
    EveryTransferHasCause(cfg, rules, k, l);
    ArriveTimers(cfg, Run(cfg, k));
    JudgedClock(cfg, rules, Deciding(cfg, k));
    hide Run, Judged, Arrive, MayGive, Counts, IntegerTarget, OffTwice;
  }

  lemma JudgedClock(cfg: Config, rules: Rules, s: State)
    requires ValidRoles(cfg.roles) && StateFits(cfg, s)
    ensures Judged(cfg, rules, s).t == s.fleet.t
  {
    hide PlanOf, CancelAll;
    CancelKeepsStarted(cfg.roles, rules, PlanOf(cfg, rules, s), s.fleet, s.fleet.inflight);
  }
}

/** When a role is damped: exactly while the swing window since the last of its
    transfers runs that followed two changes of direction within such a window. */
module PlannerSwing {
  import opened Options
  import opened PlannerTypes
  import opened Planner
  import opened PlannerCauses

  // The turns of a role, read off the transfers started.

  ghost predicate Involves(x: Transfer, r: nat) {
    x.dn == r || x.rc == r
  }

  ghost function TurnOf(x: Transfer, r: nat): seq<Turn> {
    if Involves(x, r) then [Turn(x.start, x.dn == r)] else []
  }

  ghost function TurnsOf(xs: seq<Transfer>, r: nat): seq<Turn> {
    if xs == [] then [] else TurnsOf(xs[..|xs| - 1], r) + TurnOf(xs[|xs| - 1], r)
  }

  /** Until when these transfers damp role r. */
  ghost function UntilOf(xs: seq<Transfer>, r: nat, w: nat): int {
    if xs == [] then NEVER
    else
      var n := |xs| - 1;
      if Involves(xs[n], r) && Flips(Recent(TurnsOf(xs, r), xs[n].start, w)) >= 2 then xs[n].start + w
      else UntilOf(xs[..n], r, w)
  }

  lemma {:induction false} RecentAppend(a: seq<Turn>, b: seq<Turn>, t: int, w: nat)
    ensures Recent(a + b, t, w) == Recent(a, t, w) + Recent(b, t, w)
  {
    if a == [] {
      assert a + b == b;
    } else {
      assert (a + b)[1..] == a[1..] + b;
      RecentAppend(a[1..], b, t, w);
    }
  }

  /** Forgetting now what would be forgotten later changes nothing later. */
  lemma {:induction false} RecentTwice(ds: seq<Turn>, t: int, t': int, w: nat)
    requires t <= t'
    ensures Recent(Recent(ds, t, w), t', w) == Recent(ds, t', w)
  {
    if ds != [] {
      var head, rest := (if t - ds[0].at <= w then [ds[0]] else []), Recent(ds[1..], t, w);
      RecentTwice(ds[1..], t, t', w);
      RecentAppend(head, rest, t', w);
      RecentOne(ds[0], t', w);
    }
  }

  lemma RecentOne(d: Turn, t: int, w: nat)
    ensures Recent([d], t, w) == if t - d.at <= w then [d] else []
  {
    assert [d][1..] == [];
  }

  lemma TurnsAppend(xs: seq<Transfer>, x: Transfer, r: nat)
    ensures TurnsOf(xs + [x], r) == TurnsOf(xs, r) + TurnOf(x, r)
  {
    assert (xs + [x])[..|xs|] == xs;
  }

  // What a run carries.

  /** What is remembered of role r says the same as the transfers, now and later. */
  ghost predicate Follows(w: nat, xs: seq<Transfer>, t: int, dirs: seq<Turn>, until: int, r: nat) {
    && until == UntilOf(xs, r, w)
    && forall t' :: t <= t' ==> Recent(dirs, t', w) == Recent(TurnsOf(xs, r), t', w)
  }

  ghost predicate AllFollow(n: nat, rules: Rules, xs: seq<Transfer>, t: int, sig: Signals) {
    && SignalsFit(n, sig)
    && forall r :: 0 <= r < n ==>
         if rules.swing.SwingOff? then sig.dampedUntil[r] == NEVER
         else Follows(rules.swingW, xs, t, sig.dirs[r], sig.dampedUntil[r], r)
  }

  lemma TurnFollows(w: nat, xs: seq<Transfer>, t: int, dirs: seq<Turn>, until: int, r: nat, x: Transfer)
    requires Follows(w, xs, t, dirs, until, r) && x.start == t && Involves(x, r)
    ensures var ds := Recent(dirs, t, w) + [Turn(t, x.dn == r)];
      Follows(w, xs + [x], t, ds, if Flips(ds) >= 2 then t + w else until, r)
  {
    hide Flips, Recent, TurnsOf;
    var d := Turn(t, x.dn == r);
    var ds, ys := Recent(dirs, t, w) + [d], xs + [x];
    TurnsAppend(xs, x, r);
    assert ys[..|xs|] == xs;
    forall t' | t <= t'
      ensures Recent(ds, t', w) == Recent(TurnsOf(ys, r), t', w)
    {
      RecentAppend(Recent(dirs, t, w), [d], t', w);
      RecentTwice(dirs, t, t', w);
      RecentAppend(TurnsOf(xs, r), [d], t', w);
    }
    RecentAppend(TurnsOf(xs, r), [d], t, w);
    RecentOne(d, t, w);
  }

  lemma OtherFollows(w: nat, xs: seq<Transfer>, t: int, dirs: seq<Turn>, until: int, r: nat, x: Transfer)
    requires Follows(w, xs, t, dirs, until, r) && !Involves(x, r)
    ensures Follows(w, xs + [x], t, dirs, until, r)
  {
    hide Flips, Recent, TurnsOf;
    TurnsAppend(xs, x, r);
    assert TurnsOf(xs, r) + [] == TurnsOf(xs, r);
    assert (xs + [x])[..|xs|] == xs;
  }

  lemma StartFollows(roles: seq<Role>, rules: Rules, p: Pass, rc: nat, dn: nat)
    requires ValidRoles(roles) && PassFits(|roles|, p) && rc < |roles| && dn < |roles| && rc != dn
    requires AllFollow(|roles|, rules, p.fleet.started, p.fleet.t, p.sig)
    ensures var q := Start(roles, rules, p, rc, dn);
      q.fleet.t == p.fleet.t && AllFollow(|roles|, rules, q.fleet.started, q.fleet.t, q.sig)
  {
    hide Follows, Flips, Recent;
    var q, w, t := Start(roles, rules, p, rc, dn), rules.swingW, p.fleet.t;
    var x := Transfer(|p.fleet.started|, t, dn, rc, roles[rc].g);
    if !rules.swing.SwingOff? {
      forall r | 0 <= r < |roles|
        ensures Follows(w, q.fleet.started, t, q.sig.dirs[r], q.sig.dampedUntil[r], r)
      {
        if Involves(x, r) {
          TurnFollows(w, p.fleet.started, t, p.sig.dirs[r], p.sig.dampedUntil[r], r, x);
        } else {
          OtherFollows(w, p.fleet.started, t, p.sig.dirs[r], p.sig.dampedUntil[r], r, x);
        }
      }
    }
  }

  lemma {:induction false} RowFollows(roles: seq<Role>, rules: Rules, plan: Plan, p: Pass, rc: nat, donors: seq<nat>)
    requires ValidRoles(roles) && PlanFits(|roles|, plan) && PassFits(|roles|, p) && rc < |roles|
    requires forall d :: d in donors ==> d < |roles| && d != rc
    requires AllFollow(|roles|, rules, p.fleet.started, p.fleet.t, p.sig)
    ensures var q := AdmitRow(roles, rules, plan, p, rc, donors);
      q.fleet.t == p.fleet.t && AllFollow(|roles|, rules, q.fleet.started, q.fleet.t, q.sig)
    decreases |donors|
  {
    hide AllFollow, Admissible, Start;
    if donors != [] {
      assert donors[0] in donors && forall d :: d in donors[1..] ==> d in donors;
      StartFollows(roles, rules, p, rc, donors[0]);
      RowFollows(roles, rules, plan, TryPair(roles, rules, plan, p, rc, donors[0]), rc, donors[1..]);
    }
  }

  lemma {:induction false} PassFollows(roles: seq<Role>, rules: Rules, plan: Plan, p: Pass, recv: seq<nat>, donors: seq<nat>)
    requires ValidRoles(roles) && PlanFits(|roles|, plan) && PassFits(|roles|, p)
    requires forall d :: d in donors ==> d < |roles| && d !in recv
    requires forall r :: r in recv ==> r < |roles|
    requires AllFollow(|roles|, rules, p.fleet.started, p.fleet.t, p.sig)
    ensures var q := AdmitAll(roles, rules, plan, p, recv, donors);
      q.fleet.t == p.fleet.t && AllFollow(|roles|, rules, q.fleet.started, q.fleet.t, q.sig)
    decreases |recv|
  {
    hide AllFollow, AdmitRow;
    if recv != [] {
      assert recv[0] in recv && forall r :: r in recv[1..] ==> r in recv;
      RowFollows(roles, rules, plan, p, recv[0], donors);
      PassFollows(roles, rules, plan, AdmitRow(roles, rules, plan, p, recv[0], donors), recv[1..], donors);
    }
  }

  lemma SameTurns(n: nat, rules: Rules, xs: seq<Transfer>, t: int, t': int, a: Signals, b: Signals)
    requires AllFollow(n, rules, xs, t, a) && t <= t' && SignalsFit(n, b) && a.dirs == b.dirs && a.dampedUntil == b.dampedUntil
    ensures AllFollow(n, rules, xs, t', b)
  {
    hide Recent, TurnsOf, UntilOf;
  }

  lemma DecideFollows(cfg: Config, rules: Rules, s: State)
    requires ValidRoles(cfg.roles) && StateFits(cfg, s)
    requires AllFollow(|cfg.roles|, rules, s.fleet.started, s.fleet.t, s.sig)
    ensures var s' := Decide(cfg, rules, s);
      s'.fleet.t == s.fleet.t && AllFollow(|cfg.roles|, rules, s'.fleet.started, s'.fleet.t, s'.sig)
  {
    hide AllFollow, PlanOf, CancelAll, Confirm, AdmitAll, RecvList, DonorList, Base, Acts;
    var roles, plan := cfg.roles, PlanOf(cfg, rules, s);
    var f := CancelAll(roles, rules, plan, s.fleet, s.fleet.inflight);
    CancelKeepsStarted(roles, rules, plan, s.fleet, s.fleet.inflight);
    var base := Base(rules, f);
    var sig := s.sig.(actCnt := Confirm(roles, rules, plan, base, s.sig.actCnt));
    SameTurns(|roles|, rules, f.started, f.t, f.t, s.sig, sig);
    if Acts(f, sig.actCnt) {
      PassFollows(roles, rules, plan, Opening(roles, rules, f, sig), RecvList(roles, plan, base), DonorList(roles, plan, base));
    }
  }

  lemma ArriveTurns(cfg: Config, s: State)
    requires StateFits(cfg, s)
    ensures var a := Arrive(cfg, s); a.sig.dirs == s.sig.dirs && a.sig.dampedUntil == s.sig.dampedUntil
  {
    hide Land, Fill, CountTo, Instant;
  }

  lemma NothingFollows(cfg: Config, rules: Rules)
    requires ValidRoles(cfg.roles)
    ensures AllFollow(|cfg.roles|, rules, [], 0, Run(cfg, 0).sig) && Run(cfg, 0).fleet.started == [] && Run(cfg, 0).fleet.t == 0
  {
  }

  lemma {:induction false} RunFollows(cfg: Config, rules: Rules, k: nat)
    requires ValidRoles(cfg.roles) && cfg.rules == Some(rules)
    ensures AllFollow(|cfg.roles|, rules, Run(cfg, k).fleet.started, Run(cfg, k).fleet.t, Run(cfg, k).sig)
  {
    hide AllFollow, Arrive, Decide;
    if k == 0 {
      NothingFollows(cfg, rules);
    } else {
      var n, s := |cfg.roles|, Run(cfg, k - 1);
      RunFollows(cfg, rules, k - 1);
      ArriveKeeps(cfg, s);
      ArriveTurns(cfg, s);
      var a := Arrive(cfg, s);
      SameTurns(n, rules, s.fleet.started, s.fleet.t, s.fleet.t, s.sig, a.sig);
      DecideFollows(cfg, rules, a);
      var d := Decide(cfg, rules, a);
      SameTurns(n, rules, d.fleet.started, d.fleet.t, d.fleet.t + CYCLE, d.sig, d.sig);
      assert Run(cfg, k) == Tick(d);
    }
  }

  // Two changes of direction.

  lemma {:induction false} FlipsOne(ds: seq<Turn>)
    ensures Flips(ds) >= 1 <==> exists i, j :: 0 <= i < j < |ds| && ds[i].gave != ds[j].gave
  {
    if |ds| >= 2 {
      var rest := ds[1..];
      FlipsOne(rest);
      assert forall i :: 0 <= i < |rest| ==> rest[i] == ds[i + 1];
      if i, j :| 0 <= i < j < |ds| && ds[i].gave != ds[j].gave {
        if ds[0].gave == ds[1].gave {
          var m := if i == 0 then 1 else i;
          assert rest[m - 1].gave != rest[j - 1].gave;
        }
      }
      if i, j :| 0 <= i < j < |rest| && rest[i].gave != rest[j].gave {
        assert ds[i + 1].gave != ds[j + 1].gave;
      }
    }
  }

  ghost predicate Alternate(ds: seq<Turn>, i: int, j: int, l: int) {
    0 <= i < j < l < |ds| && ds[i].gave != ds[j].gave && ds[j].gave != ds[l].gave
  }

  lemma {:induction false} FlipsTwo(ds: seq<Turn>)
    ensures Flips(ds) >= 2 <==> exists i, j, l :: Alternate(ds, i, j, l)
  {
    if |ds| >= 2 {
      var rest := ds[1..];
      FlipsTwo(rest);
      FlipsOne(rest);
      assert forall i :: 0 <= i < |rest| ==> rest[i] == ds[i + 1];
      if i, j, l :| Alternate(ds, i, j, l) {
        if i > 0 {
          assert Alternate(rest, i - 1, j - 1, l - 1);
        } else if ds[0].gave == ds[1].gave {
          assert Alternate(rest, 0, j - 1, l - 1);
        } else {
          assert rest[0].gave != rest[l - 1].gave;
        }
      }
      if Flips(ds) >= 2 {
        TwoFlipsAlternate(ds, rest);
      }
    }
  }

  lemma TwoFlipsAlternate(ds: seq<Turn>, rest: seq<Turn>)
    requires |ds| >= 2 && rest == ds[1..] && Flips(ds) >= 2
    requires Flips(rest) >= 2 ==> exists i, j, l :: Alternate(rest, i, j, l)
    requires Flips(rest) >= 1 ==> exists i, j :: 0 <= i < j < |rest| && rest[i].gave != rest[j].gave
    ensures exists i, j, l :: Alternate(ds, i, j, l)
  {
    if Flips(rest) >= 2 {
      var i, j, l :| Alternate(rest, i, j, l);
      assert Alternate(ds, i + 1, j + 1, l + 1);
    } else {
      var i, j :| 0 <= i < j < |rest| && rest[i].gave != rest[j].gave;
      var l := if ds[i + 1].gave == ds[0].gave then i + 1 else j + 1;
      assert Alternate(ds, 0, 1, l);
    }
  }

  /** Where the recent turns of role r come from. */
  ghost function Places(xs: seq<Transfer>, r: nat, t: int, w: nat): seq<nat> {
    if xs == [] then []
    else
      var n := |xs| - 1;
      Places(xs[..n], r, t, w) + if Involves(xs[n], r) && t - xs[n].start <= w then [n] else []
  }

  ghost predicate Locates(xs: seq<Transfer>, r: nat, t: int, w: nat, ps: seq<nat>, ds: seq<Turn>) {
    && |ps| == |ds|
    && (forall i :: 0 <= i < |ps| ==> ps[i] < |xs| && InWindow(xs, r, t, w, ps[i]) && ds[i].gave == (xs[ps[i]].dn == r))
    && (forall i, j :: 0 <= i < j < |ps| ==> ps[i] < ps[j])
    && forall a: nat :: a < |xs| && InWindow(xs, r, t, w, a) ==> a in ps
  }

  /** Transfer a involves role r and started at most w before t. */
  ghost predicate InWindow(xs: seq<Transfer>, r: nat, t: int, w: nat, a: int) {
    0 <= a < |xs| && Involves(xs[a], r) && t - xs[a].start <= w
  }

  lemma {:induction false} PlacesLocate(xs: seq<Transfer>, r: nat, t: int, w: nat)
    ensures Locates(xs, r, t, w, Places(xs, r, t, w), Recent(TurnsOf(xs, r), t, w))
  {
    hide InWindow, Locates;
    if xs == [] {
      NothingLocated(r, t, w);
    } else {
      var n := |xs| - 1;
      PlacesLocate(xs[..n], r, t, w);
      WindowGrows(xs, r, t, w);
      LocatesMore(xs, r, t, w, Places(xs[..n], r, t, w), Recent(TurnsOf(xs[..n], r), t, w));
      hide Recent, TurnsOf;
      RecentTurns(xs, r, t, w);
    }
  }

  lemma NothingLocated(r: nat, t: int, w: nat)
    ensures Locates([], r, t, w, Places([], r, t, w), Recent(TurnsOf([], r), t, w))
  {
  }

  lemma WindowGrows(xs: seq<Transfer>, r: nat, t: int, w: nat)
    requires xs != []
    ensures var n := |xs| - 1;
      forall a :: 0 <= a < n ==> (InWindow(xs, r, t, w, a) <==> InWindow(xs[..n], r, t, w, a))
  {
  }

  lemma RecentTurns(xs: seq<Transfer>, r: nat, t: int, w: nat)
    requires xs != []
    ensures var n := |xs| - 1;
      && Recent(TurnsOf(xs, r), t, w)
         == Recent(TurnsOf(xs[..n], r), t, w) + (if InWindow(xs, r, t, w, n) then [Turn(xs[n].start, xs[n].dn == r)] else [])
      && Places(xs, r, t, w) == Places(xs[..n], r, t, w) + if InWindow(xs, r, t, w, n) then [n] else []
  {
    var n := |xs| - 1;
    RecentAppend(TurnsOf(xs[..n], r), TurnOf(xs[n], r), t, w);
    if Involves(xs[n], r) {
      RecentOne(TurnOf(xs[n], r)[0], t, w);
    } else {
      assert Recent([], t, w) == [];
    }
  }

  lemma LocatesMore(xs: seq<Transfer>, r: nat, t: int, w: nat, ps: seq<nat>, ds: seq<Turn>)
    requires xs != [] && Locates(xs[..|xs| - 1], r, t, w, ps, ds)
    requires forall a :: 0 <= a < |xs| - 1 ==> (InWindow(xs, r, t, w, a) <==> InWindow(xs[..|xs| - 1], r, t, w, a))
    ensures var n := |xs| - 1;
      if InWindow(xs, r, t, w, n) then Locates(xs, r, t, w, ps + [n], ds + [Turn(xs[n].start, xs[n].dn == r)])
      else Locates(xs, r, t, w, ps + [], ds + [])
  {
    hide InWindow;
    var n := |xs| - 1;
    if InWindow(xs, r, t, w, n) {
      var qs, es := ps + [n], ds + [Turn(xs[n].start, xs[n].dn == r)];
      forall a: nat | a < |xs| && InWindow(xs, r, t, w, a)
        ensures a in qs
      {
        assert a < n ==> a in ps;
        assert qs[|ps|] == n;
      }
    } else {
      assert ps + [] == ps && ds + [] == ds;
    }
  }

  /** Among the transfers of the last w seconds role r changes direction twice. */
  ghost predicate TurnedTwice(xs: seq<Transfer>, r: nat, t: int, w: nat) {
    exists a, b, c :: 0 <= a < b < c < |xs|
      && InWindow(xs, r, t, w, a) && InWindow(xs, r, t, w, b) && InWindow(xs, r, t, w, c)
      && (xs[a].dn == r) != (xs[b].dn == r) && (xs[b].dn == r) != (xs[c].dn == r)
  }

  lemma FlipsMean(xs: seq<Transfer>, r: nat, t: int, w: nat)
    ensures Flips(Recent(TurnsOf(xs, r), t, w)) >= 2 <==> TurnedTwice(xs, r, t, w)
  {
    hide Flips, Recent, TurnsOf, Places, InWindow;
    var ds, ps := Recent(TurnsOf(xs, r), t, w), Places(xs, r, t, w);
    FlipsTwo(ds);
    PlacesLocate(xs, r, t, w);
    if i, j, l :| Alternate(ds, i, j, l) {
      var a, b, c := ps[i], ps[j], ps[l];
      assert InWindow(xs, r, t, w, a) && InWindow(xs, r, t, w, b) && InWindow(xs, r, t, w, c);
    }
    if TurnedTwice(xs, r, t, w) {
      TurnedAlternates(xs, r, t, w, ps, ds);
    }
  }

  lemma TurnedAlternates(xs: seq<Transfer>, r: nat, t: int, w: nat, ps: seq<nat>, ds: seq<Turn>)
    requires Locates(xs, r, t, w, ps, ds) && TurnedTwice(xs, r, t, w)
    ensures exists i, j, l :: Alternate(ds, i, j, l)
  {
    hide InWindow;
    var a, b, c :| 0 <= a < b < c < |xs|
      && InWindow(xs, r, t, w, a) && InWindow(xs, r, t, w, b) && InWindow(xs, r, t, w, c)
      && (xs[a].dn == r) != (xs[b].dn == r) && (xs[b].dn == r) != (xs[c].dn == r);
    var i := PlaceOf(xs, r, t, w, ps, ds, a);
    var j := PlaceOf(xs, r, t, w, ps, ds, b);
    var l := PlaceOf(xs, r, t, w, ps, ds, c);
    InOrderToo(xs, r, t, w, ps, ds, i, j);
    InOrderToo(xs, r, t, w, ps, ds, j, l);
    hide Locates;
    assert Alternate(ds, i, j, l);
  }

  lemma PlaceOf(xs: seq<Transfer>, r: nat, t: int, w: nat, ps: seq<nat>, ds: seq<Turn>, a: nat) returns (i: nat)
    requires Locates(xs, r, t, w, ps, ds) && a < |xs| && InWindow(xs, r, t, w, a)
    ensures i < |ps| == |ds| && ps[i] == a && ds[i].gave == (xs[a].dn == r)
  {
    hide InWindow;
    i :| 0 <= i < |ps| && ps[i] == a;
  }

  lemma InOrderToo(xs: seq<Transfer>, r: nat, t: int, w: nat, ps: seq<nat>, ds: seq<Turn>, i: nat, j: nat)
    requires Locates(xs, r, t, w, ps, ds) && i < |ps| && j < |ps| && ps[i] < ps[j]
    ensures i < j
  {
    hide InWindow;
  }

  // When a role is damped.

  ghost predicate InTime(xs: seq<Transfer>) {
    forall i, j :: 0 <= i < j < |xs| ==> xs[i].start <= xs[j].start
  }

  /** Transfer d of role r damps it beyond T. */
  ghost predicate Damps(xs: seq<Transfer>, r: nat, w: nat, d: int, T: int) {
    && 0 <= d < |xs| && Involves(xs[d], r) && xs[d].start + w > T
    && TurnedTwice(xs[..d + 1], r, xs[d].start, w)
  }

  lemma {:induction false} UntilExactly(xs: seq<Transfer>, r: nat, w: nat, T: int)
    requires InTime(xs) && T >= NEVER
    ensures UntilOf(xs, r, w) > T <==> exists d :: Damps(xs, r, w, d, T)
  {
    hide TurnedTwice, Flips, Recent, TurnsOf;
    if xs != [] {
      var n := |xs| - 1;
      UntilExactly(xs[..n], r, w, T);
      FlipsMean(xs, r, xs[n].start, w);
      assert xs[..n + 1] == xs;
      forall d | 0 <= d < n
        ensures Damps(xs[..n], r, w, d, T) <==> Damps(xs, r, w, d, T)
      {
        assert xs[..n][..d + 1] == xs[..d + 1];
      }
      if d :| Damps(xs, r, w, d, T) {
        assert d < n ==> Damps(xs[..n], r, w, d, T);
      }
      if d :| Damps(xs[..n], r, w, d, T) {
        assert Damps(xs, r, w, d, T);
      }
      if UntilOf(xs, r, w) > T && Involves(xs[n], r) && TurnedTwice(xs, r, xs[n].start, w) {
        assert Damps(xs, r, w, n, T);
      }
    }
  }

  lemma StartsLater(xs: seq<Transfer>, ys: seq<Transfer>, t: int)
    requires InTime(xs) && (forall i :: 0 <= i < |xs| ==> xs[i].start <= t) && xs <= ys
    requires forall i :: |xs| <= i < |ys| ==> ys[i].start == t
    ensures InTime(ys) && forall i :: 0 <= i < |ys| ==> ys[i].start <= t
  {
    assert forall i :: 0 <= i < |xs| ==> ys[i] == xs[i];
  }

  lemma {:induction false} RunInTime(cfg: Config, rules: Rules, k: nat)
    requires ValidRoles(cfg.roles) && cfg.rules == Some(rules)
    ensures InTime(Run(cfg, k).fleet.started)
    ensures forall i :: 0 <= i < |Run(cfg, k).fleet.started| ==> Run(cfg, k).fleet.started[i].start <= Run(cfg, k).fleet.t
  {
    hide Cycle, InTime, AllFollow;
    if k == 0 {
      NothingFollows(cfg, rules);
      NoneInTime();
    } else {
      var s := Run(cfg, k - 1);
      RunInTime(cfg, rules, k - 1);
      CycleStarts(cfg, rules, s);
      assert Run(cfg, k) == Cycle(cfg, s);
      StartsLater(s.fleet.started, Run(cfg, k).fleet.started, s.fleet.t);
    }
  }

  lemma NoneInTime()
    ensures InTime([])
  {
  }

  /** A cycle adds transfers that start in it, and lets the clock go on. */
  lemma CycleStarts(cfg: Config, rules: Rules, s: State)
    requires ValidRoles(cfg.roles) && StateFits(cfg, s) && cfg.rules == Some(rules)
    ensures var f := Cycle(cfg, s).fleet;
      && s.fleet.started <= f.started && f.t == s.fleet.t + CYCLE
      && forall i :: |s.fleet.started| <= i < |f.started| ==> f.started[i].start == s.fleet.t
  {
    hide Arrive, Decide, Counts, MayGive, IntegerTarget;
    ArriveKeeps(cfg, s);
    DecideCaused(cfg, rules, Arrive(cfg, s));
    DecideClock(cfg, rules, Arrive(cfg, s));
  }

  lemma DecideClock(cfg: Config, rules: Rules, s: State)
    requires ValidRoles(cfg.roles) && StateFits(cfg, s)
    ensures Decide(cfg, rules, s).fleet.t == s.fleet.t
  {
    hide PlanOf, CancelAll, Confirm, AdmitAll, RecvList, DonorList, Base, Acts, Caused;
    var roles, plan := cfg.roles, PlanOf(cfg, rules, s);
    var f := CancelAll(roles, rules, plan, s.fleet, s.fleet.inflight);
    CancelKeepsStarted(roles, rules, plan, s.fleet, s.fleet.inflight);
    var base := Base(rules, f);
    var sig := s.sig.(actCnt := Confirm(roles, rules, plan, base, s.sig.actCnt));
    if Acts(f, sig.actCnt) {
      var recv, donors := RecvList(roles, plan, base), DonorList(roles, plan, base);
      var p := Opening(roles, rules, f, sig);
      AllCaused(roles, rules, plan, recv, donors, p, recv, donors);
      SameClock(roles, rules, recv, donors, p, AdmitAll(roles, rules, plan, p, recv, donors));
    }
  }

  lemma SameClock(roles: seq<Role>, rules: Rules, recv: seq<nat>, donors: seq<nat>, p: Pass, q: Pass)
    requires PassFits(|roles|, p) && Caused(roles, rules, recv, donors, p, q)
    ensures q.fleet.t == p.fleet.t
  {
  }

  /** In every run with swing detection, and for every time T: role r is damped beyond
      T exactly when some transfer of it started less than the swing window before T
      had, with those of the window before it, changed the role's direction twice.
      Without swing detection no role is ever damped. */
  lemma DampedExactly(cfg: Config, rules: Rules, k: nat, r: nat, T: int)
    requires ValidRoles(cfg.roles) && cfg.rules == Some(rules) && r < |cfg.roles| && T >= NEVER
    ensures Run(cfg, k).sig.dampedUntil[r] > T <==>
            !rules.swing.SwingOff? && exists d :: Damps(Run(cfg, k).fleet.started, r, rules.swingW, d, T)
  {
    RunFollows(cfg, rules, k);
    RunInTime(cfg, rules, k);
    hide Run, TurnedTwice, UntilOf;
    UntilExactly(Run(cfg, k).fleet.started, r, rules.swingW, T);
  }
}

/** The merged bound is exact: it is the most GPUs of a name that any assignment
    of GPUs to products can use while respecting every allowlist. */
module AllowlistExact {
  import opened Options
  import opened AcceleratorNames
  import opened Allowlists

  // Assignments of GPUs to products.

  type Assignment = map<string, nat>

  /** GPUs are products, each under one (lower-case) spelling. */
  ghost predicate IsAssignment(x: Assignment) {
    forall p :: p in x ==> Lower(p) == p && !IsFamily(p)
  }

  ghost function NatSum(x: Assignment, ps: set<string>): nat
    requires ps <= x.Keys
  {
    if ps == {} then 0
    else
      var p :| p in ps;
      x[p] + NatSum(x, ps - {p})
  }

  ghost function Covered(x: Assignment, key: string): (ps: set<string>)
    ensures ps <= x.Keys
  {
    set p | p in x && Covers(key, p)
  }

  /** The GPUs a budget keyed `key` pays for. */
  ghost function Use(x: Assignment, key: string): nat {
    NatSum(x, Covered(x, key))
  }

  /** No key is overspent, and every product in use is listed: by its own name
      or by its family's. */
  ghost predicate Respects(a: Allowlist, x: Assignment) {
    && (forall k :: k in a && !a[k].unlimited ==> Use(x, k) <= a[k].free)
    && (forall p :: p in x && x[p] > 0 ==> exists k :: k in a && Covers(k, p))
  }

  ghost predicate Feasible(lists: seq<Allowlist>, x: Assignment) {
    IsAssignment(x) && forall i :: 0 <= i < |lists| ==> Respects(lists[i], x)
  }

  /** No finite bound is negative; the figure of an unlimited one is not looked at. */
  ghost predicate NonNegative(lists: seq<Allowlist>) {
    forall i, k :: 0 <= i < |lists| && k in lists[i] && !lists[i][k].unlimited ==> lists[i][k].free >= 0
  }

  lemma {:induction false} NatStep(x: Assignment, ps: set<string>, p: string)
    requires ps <= x.Keys && p in ps
    ensures NatSum(x, ps) == x[p] + NatSum(x, ps - {p})
    decreases |ps|
  {
    var q :| q in ps && NatSum(x, ps) == x[q] + NatSum(x, ps - {q});
    if q != p {
      NatStep(x, ps - {q}, p);
      NatStep(x, ps - {p}, q);
      assert ps - {q} - {p} == ps - {p} - {q};
    }
  }

  lemma {:induction false} NatSplit(x: Assignment, ps: set<string>, qs: set<string>)
    requires ps <= x.Keys
    ensures NatSum(x, ps) == NatSum(x, ps * qs) + NatSum(x, ps - qs)
    decreases |ps|
  {
    if ps != {} {
      var p :| p in ps;
      NatStep(x, ps, p);
      NatSplit(x, ps - {p}, qs);
      if p in qs {
        NatStep(x, ps * qs, p);
        assert (ps - {p}) * qs == ps * qs - {p} && (ps - {p}) - qs == ps - qs;
      } else {
        NatStep(x, ps - qs, p);
        assert (ps - {p}) * qs == ps * qs && (ps - {p}) - qs == ps - qs - {p};
      }
    }
  }

  lemma NatWithin(x: Assignment, ps: set<string>, qs: set<string>)
    requires ps <= qs <= x.Keys
    ensures NatSum(x, ps) <= NatSum(x, qs)
  {
    NatSplit(x, qs, ps);
    assert qs * ps == ps;
  }

  lemma {:induction false} NatZero(x: Assignment, ps: set<string>)
    requires ps <= x.Keys && forall p :: p in ps ==> x[p] == 0
    ensures NatSum(x, ps) == 0
    decreases |ps|
  {
    if ps != {} {
      var p :| p in ps;
      NatStep(x, ps, p);
      NatZero(x, ps - {p});
    }
  }

  ghost function UseTable(x: Assignment, keys: set<string>): (t: Table)
    ensures t.Keys == keys && forall k :: k in keys ==> t[k] == Capped(Use(x, k))
  {
    map k | k in keys :: Capped(Use(x, k))
  }

  /** If every product in use among ps is covered by one of the keys, the keys
      together pay at least for ps. */
  lemma {:induction false} KeysPay(x: Assignment, ps: set<string>, keys: set<string>)
    requires ps <= x.Keys
    requires forall p :: p in ps && x[p] > 0 ==> exists k :: k in keys && Covers(k, p)
    ensures Le(Capped(NatSum(x, ps)), SumOf(UseTable(x, keys), keys))
    decreases |keys|
  {
    if keys == {} {
      NatZero(x, ps);
    } else {
      var k :| k in keys;
      var rest, t := keys - {k}, UseTable(x, keys);
      NatSplit(x, ps, Covered(x, k));
      NatWithin(x, ps * Covered(x, k), Covered(x, k));
      KeysPay(x, ps - Covered(x, k), rest);
      SumStep(t, keys, k);
      SumSame(t, UseTable(x, rest), rest);
    }
  }

  /** A superset whose extra entries are at most 0 and whose other entries are no
      larger has no larger sum. */
  lemma {:induction false} SumLe(t: Table, u: Table, all: set<string>, some: set<string>)
    requires some <= all <= t.Keys && some <= u.Keys
    requires forall k :: k in some ==> Le(t[k], u[k])
    requires forall k :: k in all && k !in some ==> Le(t[k], Capped(0))
    ensures Le(SumOf(t, all), SumOf(u, some))
    decreases |all|
  {
    if all != {} {
      var k :| k in all;
      SumStep(t, all, k);
      SumLe(t, u, all - {k}, some - {k});
      if k in some {
        SumStep(u, some, k);
      } else {
        assert some - {k} == some;
      }
    }
  }

  // What one allowlist leaves a product and a family.

  /** A product's bound is the tightest of the keys that cover it, and 0 when
      none does. */
  lemma ProductCap(a: Allowlist, p: string, v: Cap)
    requires !IsFamily(p)
    ensures ClusterCap(a, p).Some?
    ensures (exists k :: k in a && Covers(k, p)) ==>
              (Le(v, ClusterCap(a, p).value) <==> forall k :: k in a && Covers(k, p) ==> Le(v, CapOf(a[k])))
    ensures !(exists k :: k in a && Covers(k, p)) ==> ClusterCap(a, p).value == Capped(0)
  {
    hide EqualFold, MinOf, SumOf;
    ProductNotUnknown(p);
    var t, own, families := Caps(a), Own(a.Keys, p), Families(a.Keys, p);
    assert Products(a.Keys, p) == {};
    MinIsBound(t, own, v);
    MinIsBound(t, families, v);
    LeMeet(v, MinOf(t, own), MinOf(t, families));
    assert forall k :: k in a && Covers(k, p) <==> k in own || k in families;
    if own == {} {
      assert forall k :: k in a && Covers(k, p) <==> k in families;
    }
  }

  lemma FamilyCapOwn(a: Allowlist, name: string, v: Cap)
    requires IsFamily(name) && Lists(a, name)
    ensures ClusterCap(a, name).Some?
    ensures Le(v, ClusterCap(a, name).value) <==> forall k :: k in a && EqualFold(k, name) ==> Le(v, CapOf(a[k]))
  {
    hide EqualFold, SumOf;
    var t, own := Caps(a), Own(a.Keys, name);
    assert Families(a.Keys, name) == {};
    var k :| k in a && EqualFold(k, name);
    assert k in own;
    MinIsBound(t, own, v);
  }

  lemma FamilyCapProducts(a: Allowlist, name: string)
    requires IsFamily(name) && name != UNKNOWN && !Lists(a, name)
    ensures ClusterCap(a, name) == Some(SumOf(Caps(a), Products(a.Keys, name)))
  {
    hide EqualFold;
    assert Own(a.Keys, name) == {};
    assert Families(a.Keys, name) == {};
  }

  /** A product that covers a used name cannot be under a key of another family. */
  lemma CoverOfProduct(k: string, p: string, name: string)
    requires IsProductOf(p, name)
    ensures Covers(k, p) <==> EqualFold(k, p) || EqualFold(k, name)
    ensures EqualFold(k, p) ==> IsProductOf(k, name)
  {
    OneFamily(p, name, k);
    if EqualFold(k, p) {
      ProductFold(k, p, name, name);
    }
  }

  // The bound is respected.

  lemma UseWithin(x: Assignment, key: string, name: string)
    requires Covers(key, name)
    ensures Use(x, name) <= Use(x, key)
  {
    forall p | p in Covered(x, name)
      ensures p in Covered(x, key)
    {
      CoversPreorder(key, name, p);
    }
    NatWithin(x, Covered(x, name), Covered(x, key));
  }

  lemma ProductWithin(a: Allowlist, x: Assignment, p: string)
    requires Respects(a, x) && !IsFamily(p)
    ensures ClusterCap(a, p).Some? && Le(Capped(Use(x, p)), ClusterCap(a, p).value)
  {
    hide Covers;
    ProductCap(a, p, Capped(Use(x, p)));
    if exists k :: k in a && Covers(k, p) {
      forall k | k in a && Covers(k, p)
        ensures Le(Capped(Use(x, p)), CapOf(a[k]))
      {
        UseWithin(x, k, p);
      }
    } else {
      forall q | q in Covered(x, p)
        ensures x[q] == 0
      {
        if x[q] > 0 {
          var k :| k in a && Covers(k, q);
          ProductSpelling(p, q);
          CoversFold(k, k, p, q);
        }
      }
      NatZero(x, Covered(x, p));
    }
  }

  /** A product covers only its own spellings. */
  lemma ProductSpelling(p: string, q: string)
    requires !IsFamily(p) && Covers(p, q)
    ensures EqualFold(p, q)
  {
  }

  lemma FamilyWithin(a: Allowlist, x: Assignment, name: string)
    requires Respects(a, x) && IsAssignment(x) && IsFamily(name) && name != UNKNOWN
    ensures ClusterCap(a, name).Some? && Le(Capped(Use(x, name)), ClusterCap(a, name).value)
  {
    hide ClusterCap, Use, IsProductOf, EqualFold, IsFamily, SumOf;
    if Lists(a, name) {
      FamilyCapOwn(a, name, Capped(Use(x, name)));
      forall k | k in a && EqualFold(k, name)
        ensures Le(Capped(Use(x, name)), CapOf(a[k]))
      {
        UseWithin(x, k, name) by { assert Covers(k, name); }
      }
    } else {
      FamilyCapProducts(a, name);
      ClosedFamilyPays(a, x, name, Products(a.Keys, name));
      var keys := Products(a.Keys, name);
      SumLe(UseTable(x, keys), Caps(a), keys, keys);
    }
  }

  /** Under an allowlist that does not list the family, every GPU of the family is
      one of the products it lists. */
  lemma ClosedFamilyPays(a: Allowlist, x: Assignment, name: string, keys: set<string>)
    requires Respects(a, x) && IsAssignment(x) && IsFamily(name) && !Lists(a, name)
    requires forall k :: k in a && IsProductOf(k, name) ==> k in keys || Lower(k) in keys
    ensures Le(Capped(Use(x, name)), SumOf(UseTable(x, keys), keys))
  {
    forall p | p in Covered(x, name) && x[p] > 0
      ensures exists k :: k in keys && Covers(k, p)
    {
      var k :| k in a && Covers(k, p);
      UsedProduct(x, name, p);
      CoverOfProduct(k, p, name);
      LowerTwice(k);
      CoversFold(k, Lower(k), p, p);
    }
    KeysPay(x, Covered(x, name), keys);
  }

  lemma UsedProduct(x: Assignment, name: string, p: string)
    requires IsAssignment(x) && p in Covered(x, name) && IsFamily(name)
    ensures IsProductOf(p, name)
  {
    if EqualFold(name, p) {
      FamilyFold(name, p);
    }
  }

  lemma {:induction false} TightestWithin(lists: seq<Allowlist>, x: Assignment, name: string)
    requires Feasible(lists, x) && lists != [] && name != UNKNOWN
    ensures TightestOf(lists, name).Some? && Le(Capped(Use(x, name)), TightestOf(lists, name).value)
  {
    hide ClusterCap;
    var n := |lists| - 1;
    if IsFamily(name) {
      FamilyWithin(lists[n], x, name);
    } else {
      ProductWithin(lists[n], x, name);
    }
    if n > 0 {
      assert Feasible(lists[..n], x);
      TightestWithin(lists[..n], x, name);
    }
  }

  lemma ListedHas(lists: seq<Allowlist>, name: string, i: nat, k: string)
    requires i < |lists| && k in lists[i] && IsProductOf(k, name)
    ensures Lower(k) in Listed(lists, name)
  {
    var n := |lists| - 1;
    if i == n {
      assert k in Products(lists[n].Keys, name);
    } else {
      ListedHas(lists[..n], name, i, k);
    }
  }

  lemma {:induction false} ListedIsProduct(lists: seq<Allowlist>, name: string, p: string)
    requires p in Listed(lists, name)
    ensures IsProductOf(p, name) && Lower(p) == p
  {
    var n := |lists| - 1;
    if p in Listed(lists[..n], name) {
      ListedIsProduct(lists[..n], name, p);
    } else {
      var k :| k in Products(lists[n].Keys, name) && p == Lower(k);
      LowerTwice(k);
      ProductFold(k, p, name, name);
    }
  }

  /** No feasible assignment uses more than the bound. */
  lemma BoundIsUpper(lists: seq<Allowlist>, name: string, x: Assignment)
    requires lists != [] && name != "" && name != UNKNOWN && name != UNRESOLVED && Feasible(lists, x)
    ensures ClusterBound(lists, name).Some? && Le(Capped(Use(x, name)), ClusterBound(lists, name).value)
  {
    hide TightestOf, Use;
    TightestWithin(lists, x, name);
    if ClosesFamily(lists, name) {
      var i :| 0 <= i < |lists| && !Lists(lists[i], name);
      var ps := Listed(lists, name);
      forall k | k in lists[i] && IsProductOf(k, name)
        ensures Lower(k) in ps
      {
        ListedHas(lists, name, i, k);
      }
      ClosedFamilyPays(lists[i], x, name, ps);
      var t := TightTable(lists, ps);
      forall p | p in ps
        ensures Le(UseTable(x, ps)[p], t[p])
      {
        ListedIsProduct(lists, name, p);
        ProductNotUnknown(p);
        TightestWithin(lists, x, p);
      }
      SumLe(UseTable(x, ps), t, ps, ps);
      LeMeet(Capped(Use(x, name)), TightestOf(lists, name).value, SumOf(t, ps));
    }
  }

  // The bound is reached.

  lemma {:induction false} TightestKnown(lists: seq<Allowlist>, name: string)
    requires lists != [] && name != UNKNOWN
    ensures TightestOf(lists, name).Some?
    ensures forall i :: 0 <= i < |lists| ==> ClusterCap(lists[i], name).Some?
  {
    forall i | 0 <= i < |lists|
      ensures ClusterCap(lists[i], name).Some?
    {
    }
    hide ClusterCap;
    if |lists| > 1 {
      TightestKnown(lists[..|lists| - 1], name);
    }
  }

  /** TightestOf is the greatest lower bound of what the allowlists leave. */
  lemma {:induction false} TightestIsBound(lists: seq<Allowlist>, name: string, v: Cap)
    requires lists != [] && name != UNKNOWN
    ensures TightestOf(lists, name).Some?
    ensures forall i :: 0 <= i < |lists| ==> ClusterCap(lists[i], name).Some?
    ensures Le(v, TightestOf(lists, name).value)
       <==> forall i :: 0 <= i < |lists| ==> Le(v, ClusterCap(lists[i], name).value)
  {
    hide ClusterCap, Le, Meet;
    TightestKnown(lists, name);
    var n := |lists| - 1;
    if n > 0 {
      TightestIsBound(lists[..n], name, v);
      LeMeet(v, TightestOf(lists[..n], name).value, ClusterCap(lists[n], name).value);
    } else {
      assert lists[..n] == [];
    }
    assert forall i :: 0 <= i < |lists| ==> i == n || lists[i] == lists[..n][i];
  }

  function Give(target: nat, cap: Cap): int {
    if Le(Capped(target), cap) then target else cap.n
  }

  lemma GiveLeaves(target: nat, cap: Cap, sum: Cap)
    requires Le(Capped(target), Plus(cap, sum)) && Le(Capped(0), cap) && Le(Capped(0), sum)
    ensures var give := Give(target, cap);
      0 <= give <= target && Le(Capped(give), cap) && Le(Capped(target - give), sum)
  {
  }

  /** GPUs handed out over ps, within each cap, adding up to the target. */
  lemma {:induction false} Distribute(t: Table, ps: set<string>, target: nat) returns (x: Assignment)
    requires ps <= t.Keys && Le(Capped(target), SumOf(t, ps))
    requires forall p :: p in ps ==> Le(Capped(0), t[p])
    ensures x.Keys == ps && NatSum(x, ps) == target
    ensures forall p :: p in ps ==> Le(Capped(x[p]), t[p])
    decreases |ps|
  {
    hide Le, Plus, SumOf, NatSum, Give;
    if ps == {} {
      NothingToGive(t, target);
      x := map[];
    } else {
      var p :| p in ps;
      var rest := ps - {p};
      SumStep(t, ps, p);
      SumNonNegative(t, rest);
      GiveLeaves(target, t[p], SumOf(t, rest));
      var give := Give(target, t[p]);
      var y := Distribute(t, rest, target - give);
      x := y[p := give];
      OneMoreGiven(x, y, ps, p, give);
    }
  }

  lemma NothingToGive(t: Table, target: nat)
    requires Le(Capped(target), SumOf(t, {}))
    ensures NatSum(map[], {}) == target
  {
  }

  lemma OneMoreGiven(x: Assignment, y: Assignment, ps: set<string>, p: string, give: nat)
    requires p in ps && y.Keys == ps - {p} && x == y[p := give]
    ensures x.Keys == ps && NatSum(x, ps) == give + NatSum(y, ps - {p})
    ensures x[p] == give && forall q :: q in ps && q != p ==> x[q] == y[q]
  {
    hide NatSum;
    assert x.Keys == ps;
    NatStep(x, ps, p);
    NatSame(x, y, ps - {p});
  }

  lemma {:induction false} SumNonNegative(t: Table, ps: set<string>)
    requires ps <= t.Keys && forall p :: p in ps ==> Le(Capped(0), t[p])
    ensures Le(Capped(0), SumOf(t, ps))
    decreases |ps|
  {
    if ps != {} {
      var p :| p in ps;
      SumStep(t, ps, p);
      SumNonNegative(t, ps - {p});
    }
  }

  lemma {:induction false} NatSame(x: Assignment, y: Assignment, ps: set<string>)
    requires ps <= x.Keys && ps <= y.Keys && forall p :: p in ps ==> x[p] == y[p]
    ensures NatSum(x, ps) == NatSum(y, ps)
    decreases |ps|
  {
    if ps != {} {
      var p :| p in ps;
      NatStep(x, ps, p);
      NatStep(y, ps, p);
      NatSame(x, y, ps - {p});
    }
  }

  lemma UseOne(p: string, n: nat, key: string)
    ensures Use(map[p := n], key) == if Covers(key, p) then n else 0
  {
    hide Covers;
    var x: Assignment := map[p := n];
    if Covers(key, p) {
      assert Covered(x, key) == {p};
      NatStep(x, {p}, p);
      assert {p} - {p} == {};
    } else {
      assert Covered(x, key) == {};
    }
  }

  lemma ProductReached(lists: seq<Allowlist>, p: string, n: nat) returns (x: Assignment)
    requires lists != [] && NonNegative(lists) && !IsFamily(p)
    requires TightestOf(lists, p).Some? && Le(Capped(n), TightestOf(lists, p).value)
    ensures Feasible(lists, x) && Use(x, p) == n
  {
    hide Covers, Use, ClusterCap, TightestOf;
    var q := Lower(p);
    LowerTwice(p);
    FamilyFold(p, q);
    ProductNotUnknown(p);
    TightestIsBound(lists, p, Capped(n));
    x := map[q := n];
    UseOne(q, n, p);
    CoversFold(p, q, q, q);
    CoversPreorder(q, q, q);
    forall i | 0 <= i < |lists|
      ensures Respects(lists[i], x)
    {
      ProductRespects(lists, i, p, n);
    }
  }

  lemma ProductRespects(lists: seq<Allowlist>, i: nat, p: string, n: nat)
    requires NonNegative(lists) && i < |lists| && !IsFamily(p)
    requires ClusterCap(lists[i], p).Some? && Le(Capped(n), ClusterCap(lists[i], p).value)
    ensures Respects(lists[i], map[Lower(p) := n])
  {
    hide Covers, Use, ClusterCap;
    var a, q := lists[i], Lower(p);
    LowerTwice(p);
    ProductCap(a, p, Capped(n));
    forall k | k in a
      ensures Use(map[q := n], k) == if Covers(k, p) then n else 0
    {
      UseOne(q, n, k);
      CoversFold(k, k, p, q);
    }
    if n > 0 {
      var k :| k in a && Covers(k, p);
      CoversFold(k, k, p, q);
    }
  }

  /** A product of a family that no allowlist lists under its own name. */
  lemma {:induction false} LongerThan(lists: seq<Allowlist>) returns (m: nat)
    ensures forall i, k :: 0 <= i < |lists| && k in lists[i] ==> |k| < m
  {
    m := 0;
    if lists != [] {
      var n := |lists| - 1;
      var a := LongerThan(lists[..n]);
      var b := LongerThanKeys(lists[n].Keys);
      m := a + b;
      forall i, k | 0 <= i < |lists| && k in lists[i]
        ensures |k| < m
      {
        if i < n {
          assert k in lists[..n][i];
        }
      }
    }
  }

  lemma {:induction false} LongerThanKeys(keys: set<string>) returns (m: nat)
    ensures forall k :: k in keys ==> |k| < m
    decreases |keys|
  {
    m := 0;
    if keys != {} {
      var k :| k in keys;
      var rest := LongerThanKeys(keys - {k});
      m := rest + |k| + 1;
    }
  }

  lemma FreshProduct(lists: seq<Allowlist>, name: string) returns (p: string)
    requires IsFamily(name)
    ensures IsProductOf(p, name) && Lower(p) == p
    ensures forall i, k :: 0 <= i < |lists| && k in lists[i] ==> !EqualFold(k, p)
  {
    var m := LongerThan(lists);
    var tail := seq(m, i => 'x');
    var long := "AMD" + "-" + name + "-" + tail;
    FamilyHasNoHyphen(name);
    AmdProduct(name, tail);
    p := Lower(long);
    LowerTwice(long);
    ProductFold(long, p, name, name);
  }

  lemma OpenFamilyReached(lists: seq<Allowlist>, name: string, n: nat) returns (x: Assignment)
    requires lists != [] && NonNegative(lists) && IsFamily(name) && name != UNKNOWN
    requires forall i :: 0 <= i < |lists| ==> Lists(lists[i], name)
    requires TightestOf(lists, name).Some? && Le(Capped(n), TightestOf(lists, name).value)
    ensures Feasible(lists, x) && Use(x, name) == n
  {
    hide Covers, Use, ClusterCap, TightestOf, IsFamily;
    var p := FreshProduct(lists, name);
    TightestIsBound(lists, name, Capped(n));
    x := map[p := n];
    UseOne(p, n, name);
    CoverOfProduct(name, p, name);
    assert !IsFamily(p);
    forall i | 0 <= i < |lists|
      ensures Respects(lists[i], x)
    {
      var a := lists[i];
      FamilyCapOwn(a, name, Capped(n));
      forall k | k in a
        ensures Use(x, k) == if EqualFold(k, name) then n else 0
      {
        UseOne(p, n, k);
        CoverOfProduct(k, p, name);
      }
      var k :| k in a && EqualFold(k, name);
      CoverOfProduct(k, p, name);
    }
  }

  lemma ClosedFamilyReached(lists: seq<Allowlist>, name: string, n: nat) returns (x: Assignment)
    requires lists != [] && NonNegative(lists) && IsFamily(name) && name != UNKNOWN
    requires TightestOf(lists, name).Some? && Le(Capped(n), TightestOf(lists, name).value)
    requires var ps := Listed(lists, name); Le(Capped(n), SumOf(TightTable(lists, ps), ps))
    ensures Feasible(lists, x) && Use(x, name) == n
  {
    hide Covers, Use, ClusterCap, TightestOf, IsFamily, SumOf, IsProductOf, EqualFold, Listed;
    var ps := Listed(lists, name);
    var t := TightTable(lists, ps);
    forall p | p in ps
      ensures !IsFamily(p) && Lower(p) == p && IsProductOf(p, name) && TightestOf(lists, p).Some?
      ensures Le(Capped(0), t[p])
    {
      ListedIsProduct(lists, name, p);
      ProductIsNoFamily(p, name);
      TightestNonNegative(lists, p);
    }
    x := Distribute(t, ps, n);
    FamilyUse(x, name);
    forall i | 0 <= i < |lists|
      ensures Respects(lists[i], x)
    {
      DistributedRespects(lists, name, x, n, i);
    }
  }

  lemma ProductIsNoFamily(p: string, name: string)
    requires IsProductOf(p, name)
    ensures !IsFamily(p)
  {
  }

  lemma TightestNonNegative(lists: seq<Allowlist>, p: string)
    requires lists != [] && NonNegative(lists) && !IsFamily(p)
    ensures TightestOf(lists, p).Some? && Le(Capped(0), TightestOf(lists, p).value)
  {
    hide ClusterCap, TightestOf, Covers;
    ProductNotUnknown(p);
    TightestIsBound(lists, p, Capped(0));
    forall i | 0 <= i < |lists|
      ensures Le(Capped(0), ClusterCap(lists[i], p).value)
    {
      ProductCap(lists[i], p, Capped(0));
    }
  }

  lemma FamilyUse(x: Assignment, name: string)
    requires forall p :: p in x ==> IsProductOf(p, name)
    ensures Use(x, name) == NatSum(x, x.Keys)
  {
    hide IsProductOf, Covers;
    forall p | p in x
      ensures Covers(name, p)
    {
      CoverOfProduct(name, p, name);
    }
    assert Covered(x, name) == x.Keys;
  }

  /** Within every cap and within the family's own bound, a distribution over the
      listed products respects each allowlist. */
  lemma DistributedRespects(lists: seq<Allowlist>, name: string, x: Assignment, n: nat, i: nat)
    requires i < |lists| && NonNegative(lists) && IsFamily(name) && name != UNKNOWN && IsAssignment(x)
    requires TightestOf(lists, name).Some? && Le(Capped(n), TightestOf(lists, name).value)
    requires Use(x, name) == n
    requires forall p :: p in x ==>
               && IsProductOf(p, name) && TightestOf(lists, p).Some?
               && Le(Capped(x[p]), TightestOf(lists, p).value)
    ensures Respects(lists[i], x)
  {
    hide Covers, Use, ClusterCap, TightestOf, IsFamily, IsProductOf, EqualFold;
    var a := lists[i];
    TightestIsBound(lists, name, Capped(n));
    forall p | p in x
      ensures ClusterCap(a, p).Some? && Le(Capped(x[p]), ClusterCap(a, p).value) && !IsFamily(p)
    {
      ProductIsNoFamily(p, name);
      ProductNotUnknown(p);
      TightestIsBound(lists, p, Capped(x[p]));
    }
    forall k | k in a && !a[k].unlimited
      ensures Use(x, k) <= a[k].free
    {
      KeyRespected(a, name, x, n, k);
    }
    forall p | p in x && x[p] > 0
      ensures exists k :: k in a && Covers(k, p)
    {
      ProductCap(a, p, Capped(x[p]));
    }
  }

  lemma KeyRespected(a: Allowlist, name: string, x: Assignment, n: nat, k: string)
    requires k in a && !a[k].unlimited && a[k].free >= 0 && IsFamily(name) && IsAssignment(x)
    requires Use(x, name) == n && ClusterCap(a, name).Some? && Le(Capped(n), ClusterCap(a, name).value)
    requires forall p :: p in x ==>
               && IsProductOf(p, name) && !IsFamily(p) && ClusterCap(a, p).Some?
               && Le(Capped(x[p]), ClusterCap(a, p).value)
    ensures Use(x, k) <= a[k].free
  {
    hide Covers, ClusterCap, IsFamily, IsProductOf, EqualFold;
    forall p | p in x
      ensures Covers(k, p) <==> EqualFold(k, p) || EqualFold(k, name)
    {
      CoverOfProduct(k, p, name);
    }
    if EqualFold(k, name) {
      assert Lists(a, name);
      FamilyCapOwn(a, name, Capped(n));
      FamilyUse(x, name);
      assert Covered(x, k) == x.Keys;
    } else if Covered(x, k) == {} {
    } else {
      var p :| p in Covered(x, k);
      forall q | q in Covered(x, k)
        ensures q == p
      {
        SameSpelling(k, p, q);
      }
      assert Covered(x, k) == {p};
      NatStep(x, {p}, p);
      assert {p} - {p} == {};
      ProductCap(a, p, Capped(x[p]));
    }
  }

  lemma SameSpelling(k: string, p: string, q: string)
    requires EqualFold(k, p) && EqualFold(k, q) && Lower(p) == p && Lower(q) == q
    ensures p == q
  {
  }

  /** Every number of GPUs up to the bound is used by some feasible assignment. */
  lemma BoundIsReached(lists: seq<Allowlist>, name: string, n: nat) returns (x: Assignment)
    requires lists != [] && name != "" && name != UNKNOWN && name != UNRESOLVED && NonNegative(lists)
    requires ClusterBound(lists, name).Some? && Le(Capped(n), ClusterBound(lists, name).value)
    ensures Feasible(lists, x) && Use(x, name) == n
  {
    hide TightestOf, Use, Feasible, Lists, IsFamily, NonNegative;
    var ps := Listed(lists, name);
    if !IsFamily(name) {
      x := ProductReached(lists, name, n);
    } else if ClosesFamily(lists, name) {
      LeMeet(Capped(n), TightestOf(lists, name).value, SumOf(TightTable(lists, ps), ps));
      x := ClosedFamilyReached(lists, name, n);
    } else {
      x := OpenFamilyReached(lists, name, n);
    }
  }

  /** The merged bound is exact. For a resolved name it is a number n exactly when
      n is the most GPUs of that name a feasible assignment uses, and unlimited
      exactly when feasible assignments use arbitrarily many. */
  lemma ClusterBoundExact(lists: seq<Allowlist>, name: string)
    requires lists != [] && name != "" && name != UNKNOWN && name != UNRESOLVED && NonNegative(lists)
    ensures ClusterBound(lists, name).Some?
    ensures forall n: nat :: ClusterBound(lists, name).value == Capped(n) <==> MostUsed(lists, name, n)
    ensures ClusterBound(lists, name).value.Uncapped? <==> forall n: nat :: Reached(lists, name, n)
  {
    hide ClusterBound, Use, Feasible;
    var none: Assignment := map[];
    NothingFeasible(lists, name);
    BoundIsUpper(lists, name, none);
    var c := ClusterBound(lists, name).value;
    forall n: nat
      ensures Reached(lists, name, n) <==> Le(Capped(n), c)
    {
      if Le(Capped(n), c) {
        var x := BoundIsReached(lists, name, n);
        assert Feasible(lists, x);
      }
      forall x | Feasible(lists, x)
        ensures Le(Capped(Use(x, name)), c)
      {
        BoundIsUpper(lists, name, x);
      }
    }
    if c.Capped? {
      assert Le(Capped(0), c);
      assert !Reached(lists, name, c.n + 1);
      assert Reached(lists, name, c.n);
    }
    forall n: nat
      ensures c == Capped(n) <==> MostUsed(lists, name, n)
    {
      if MostUsed(lists, name, n) {
        assert Reached(lists, name, n) && !Reached(lists, name, n + 1);
      }
    }
  }

  ghost predicate Reached(lists: seq<Allowlist>, name: string, n: nat) {
    exists x :: Feasible(lists, x) && Use(x, name) == n
  }

  ghost predicate MostUsed(lists: seq<Allowlist>, name: string, n: nat) {
    Reached(lists, name, n) && forall m: nat :: m > n ==> !Reached(lists, name, m)
  }

  lemma NothingFeasible(lists: seq<Allowlist>, name: string)
    requires NonNegative(lists)
    ensures Feasible(lists, map[]) && Use(map[], name) == 0
  {
    var x: Assignment := map[];
    forall k ensures Use(x, k) == 0 {
      assert Covered(x, k) == {};
    }
  }

  // One more allowlist.

  predicate LeOption(c: Option<Cap>, d: Option<Cap>) {
    d.None? || (c.Some? && Le(c.value, d.value))
  }

  lemma OneMoreTightens(lists: seq<Allowlist>, b: Allowlist, name: string)
    ensures LeOption(TightestOf(lists + [b], name), TightestOf(lists, name))
  {
    hide ClusterCap;
    assert (lists + [b])[..|lists|] == lists;
  }

  /** Adding one more cluster-wide allowlist never loosens the bound on any name,
      even when it lists products nobody listed before. */
  lemma OneMoreNeverLoosens(lists: seq<Allowlist>, b: Allowlist, name: string)
    ensures LeOption(ClusterBound(lists + [b], name), ClusterBound(lists, name))
  {
    hide TightestOf, SumOf, Lists, IsFamily;
    var more := lists + [b];
    OneMoreTightens(lists, b, name);
    if ClosesFamily(lists, name) && TightestOf(lists, name).Some? {
      var i :| 0 <= i < |lists| && !Lists(lists[i], name);
      assert more[i] == lists[i];
      assert ClosesFamily(more, name);
      OneMoreSum(lists, b, name, i);
    }
  }

  lemma OneMoreSum(lists: seq<Allowlist>, b: Allowlist, name: string, i: nat)
    requires i < |lists| && !Lists(lists[i], name) && IsFamily(name)
    ensures var more := lists + [b];
      var ps, qs := Listed(lists, name), Listed(more, name);
      Le(SumOf(TightTable(more, qs), qs), SumOf(TightTable(lists, ps), ps))
  {
    hide TightestOf, SumOf, IsFamily, IsProductOf, Lists;
    var more := lists + [b];
    assert more[..|lists|] == lists;
    var ps, qs := Listed(lists, name), Listed(more, name);
    var t, u := TightTable(more, qs), TightTable(lists, ps);
    forall p | p in qs
      ensures if p in ps then Le(t[p], u[p]) else Le(t[p], Capped(0))
    {
      ListedIsProduct(more, name, p);
      ProductIsNoFamily(p, name);
      OneMoreTightens(lists, b, p);
      TightestFold(lists, p, p);
      TightestFold(more, p, p);
      if p !in ps {
        NewProductGetsNothing(lists, name, i, p);
      }
    }
    SumLe(t, u, qs, ps);
  }

  /** The allowlist that closes the family leaves a product nobody listed nothing. */
  lemma NewProductGetsNothing(lists: seq<Allowlist>, name: string, i: nat, p: string)
    requires i < |lists| && !Lists(lists[i], name) && IsProductOf(p, name) && Lower(p) == p
    requires p !in Listed(lists, name)
    ensures TightestOf(lists, p).Some? && Le(TightestOf(lists, p).value, Capped(0))
  {
    hide Covers, TightestOf, ClusterCap, IsFamily, IsProductOf;
    ProductIsNoFamily(p, name);
    ProductNotUnknown(p);
    forall k | k in lists[i]
      ensures !Covers(k, p)
    {
      CoverOfProduct(k, p, name);
      if IsProductOf(k, name) {
        ListedHas(lists, name, i, k);
      }
    }
    ProductCap(lists[i], p, Capped(0));
    TightestIsBound(lists, p, TightestOfValue(lists, p));
  }

  ghost function TightestOfValue(lists: seq<Allowlist>, p: string): Cap {
    match TightestOf(lists, p) case Some(c) => c case None => Uncapped
  }
}

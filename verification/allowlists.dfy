/** GPU allowlists: closed sets of bounds keyed by family or product, read one
    at a time and merged. The meaning is given on sets of keys; the loops of the
    source, whose map order is arbitrary, are proved to compute it. */
module Allowlists {
  import opened Options
  import opened AcceleratorNames

  /** One value of an allowlist, read as a GPU bound. */
  datatype Bound = Bound(free: int, unlimited: bool)

  type Allowlist = map<string, Bound>

  /** What a bound means: a number of GPUs, or none at all. */
  datatype Cap = Capped(n: int) | Uncapped

  function CapOf(b: Bound): Cap {
    if b.unlimited then Uncapped else Capped(b.free)
  }

  predicate Le(c: Cap, d: Cap) {
    d.Uncapped? || (c.Capped? && c.n <= d.n)
  }

  function Meet(c: Cap, d: Cap): Cap {
    if Le(c, d) then c else d
  }

  function Plus(c: Cap, d: Cap): Cap {
    if c.Uncapped? || d.Uncapped? then Uncapped else Capped(c.n + d.n)
  }

  // Minimum and sum over a set of keys, in any order.

  type Table = map<string, Cap>

  ghost function MinOf(t: Table, keys: set<string>): Cap
    requires keys <= t.Keys
  {
    if keys == {} then Uncapped
    else
      var k :| k in keys;
      Meet(t[k], MinOf(t, keys - {k}))
  }

  ghost function SumOf(t: Table, keys: set<string>): Cap
    requires keys <= t.Keys
  {
    if keys == {} then Capped(0)
    else
      var k :| k in keys;
      Plus(t[k], SumOf(t, keys - {k}))
  }

  /** The minimum is the greatest lower bound, whichever key is taken first. */
  lemma {:induction false} MinIsBound(t: Table, keys: set<string>, x: Cap)
    requires keys <= t.Keys
    ensures Le(x, MinOf(t, keys)) <==> forall k :: k in keys ==> Le(x, t[k])
    decreases |keys|
  {
    if keys != {} {
      var k :| k in keys && MinOf(t, keys) == Meet(t[k], MinOf(t, keys - {k}));
      var rest := keys - {k};
      MinIsBound(t, rest, x);
      LeMeet(x, t[k], MinOf(t, rest));
      assert forall j :: j in keys <==> j == k || j in rest;
      assert (forall j :: j in keys ==> Le(x, t[j])) <==> Le(x, t[k]) && forall j :: j in rest ==> Le(x, t[j]);
    }
  }

  lemma LeMeet(x: Cap, c: Cap, d: Cap)
    ensures Le(x, Meet(c, d)) <==> Le(x, c) && Le(x, d)
  {
  }

  lemma LeAntisymmetric(c: Cap, d: Cap)
    requires Le(c, d) && Le(d, c)
    ensures c == d
  {
  }

  lemma MinStep(t: Table, keys: set<string>, k: string)
    requires keys <= t.Keys && k in keys
    ensures MinOf(t, keys) == Meet(t[k], MinOf(t, keys - {k}))
  {
    var m, m' := MinOf(t, keys), Meet(t[k], MinOf(t, keys - {k}));
    MinIsBound(t, keys, m);
    MinIsBound(t, keys - {k}, m);
    MinIsBound(t, keys, m');
    MinIsBound(t, keys - {k}, m');
    LeAntisymmetric(m, m');
  }

  lemma {:induction false} SumStep(t: Table, keys: set<string>, k: string)
    requires keys <= t.Keys && k in keys
    ensures SumOf(t, keys) == Plus(t[k], SumOf(t, keys - {k}))
    decreases |keys|
  {
    var j :| j in keys && SumOf(t, keys) == Plus(t[j], SumOf(t, keys - {j}));
    if j != k {
      var rest := keys - {j} - {k};
      SumStep(t, keys - {j}, k);
      SumStep(t, keys - {k}, j);
      assert keys - {k} - {j} == rest;
      assert SumOf(t, keys) == Plus(t[j], Plus(t[k], SumOf(t, rest)));
      assert SumOf(t, keys - {k}) == Plus(t[j], SumOf(t, rest));
    }
  }

  /** The sum sees only the entries it adds up. */
  lemma {:induction false} SumSame(t: Table, u: Table, keys: set<string>)
    requires keys <= t.Keys && keys <= u.Keys && forall k :: k in keys ==> t[k] == u[k]
    ensures SumOf(t, keys) == SumOf(u, keys)
    decreases |keys|
  {
    if keys != {} {
      var k :| k in keys;
      SumStep(t, keys, k);
      SumStep(u, keys, k);
      SumSame(t, u, keys - {k});
    }
  }

  // One allowlist.

  function Caps(a: Allowlist): (t: Table)
    ensures t.Keys == a.Keys && forall k :: k in a ==> t[k] == CapOf(a[k])
  {
    map k | k in a :: CapOf(a[k])
  }

  ghost function Own(keys: set<string>, name: string): (ks: set<string>)
    ensures ks <= keys
  {
    set k | k in keys && EqualFold(k, name)
  }

  ghost function Products(keys: set<string>, name: string): (ks: set<string>)
    ensures ks <= keys
  {
    set k | k in keys && IsProductOf(k, name)
  }

  ghost function Families(keys: set<string>, name: string): (ks: set<string>)
    ensures ks <= keys
  {
    set k | k in keys && IsProductOf(name, k)
  }

  /** What one allowlist allows on `name`; None when it does not list it. */
  ghost function AllowlistCap(a: Allowlist, name: string): Option<Cap> {
    var t := Caps(a);
    var own, products, families := Own(a.Keys, name), Products(a.Keys, name), Families(a.Keys, name);
    if own != {} then Some(Meet(MinOf(t, own), MinOf(t, families)))
    else if products != {} then Some(SumOf(t, products))
    else if families != {} then Some(MinOf(t, families))
    else None
  }

  /** A closed allowlist gives a name it does not list nothing, except the
      catch-all, which it then does not bound. */
  ghost function ClusterCap(a: Allowlist, name: string): Option<Cap> {
    match AllowlistCap(a, name)
    case Some(c) => Some(c)
    case None => if name == UNKNOWN then None else Some(Capped(0))
  }

  // Several allowlists.

  /** The tightest of the allowlists that bound `name`. */
  ghost function TightestOf(lists: seq<Allowlist>, name: string): Option<Cap> {
    if lists == [] then None
    else
      var n := |lists| - 1;
      match (TightestOf(lists[..n], name), ClusterCap(lists[n], name))
      case (c, None) => c
      case (None, d) => d
      case (Some(c), Some(d)) => Some(Meet(c, d))
  }

  ghost predicate Lists(a: Allowlist, name: string) {
    exists k :: k in a && EqualFold(k, name)
  }

  /** `name` is a family that one of the allowlists does not list itself. */
  ghost predicate ClosesFamily(lists: seq<Allowlist>, name: string) {
    && IsFamily(name) && IsAcceleratorResolved(name)
    && exists i :: 0 <= i < |lists| && !Lists(lists[i], name)
  }

  ghost function LowerSet(keys: set<string>): set<string> {
    set k | k in keys :: Lower(k)
  }

  /** The products of `name` any allowlist lists, one spelling each. */
  ghost function Listed(lists: seq<Allowlist>, name: string): set<string> {
    if lists == [] then {}
    else Listed(lists[..|lists| - 1], name) + LowerSet(Products(lists[|lists| - 1].Keys, name))
  }

  ghost function TightTable(lists: seq<Allowlist>, ps: set<string>): (t: Table)
    ensures t.Keys == ps
  {
    map p | p in ps :: match TightestOf(lists, p) case Some(c) => c case None => Capped(0)
  }

  /** What all the allowlists together allow on `name`; None when none bounds it. */
  ghost function ClusterBound(lists: seq<Allowlist>, name: string): Option<Cap> {
    var c, ps := TightestOf(lists, name), Listed(lists, name);
    if c.None? || !ClosesFamily(lists, name) then c
    else Some(Meet(c.value, SumOf(TightTable(lists, ps), ps)))
  }

  // The loops of the source.

  /** The triple the source returns. */
  function Result(c: Option<Cap>): (int, bool, bool) {
    match c
    case None => (0, false, false)
    case Some(Capped(n)) => (n, false, true)
    case Some(Uncapped) => (0, true, true)
  }

  /** The tighter of two (free, unlimited) bounds. */
  function Tighter(a: Bound, b: Bound): (r: Bound)
    ensures CapOf(r) == Meet(CapOf(a), CapOf(b)) && (r == a || r == b || (r.free == a.free && !r.unlimited))
  {
    if a.unlimited then b
    else if b.unlimited then Bound(a.free, false)
    else Bound(if a.free <= b.free then a.free else b.free, false)
  }

  function SeqMin(bs: seq<Bound>): Cap {
    if bs == [] then Uncapped else Meet(SeqMin(bs[..|bs| - 1]), CapOf(bs[|bs| - 1]))
  }

  method TightestLoop(bs: seq<Bound>) returns (r: Bound)
    ensures CapOf(r) == SeqMin(bs) && (r.unlimited ==> r.free == 0)
  {
    r := Bound(0, true);
    for i := 0 to |bs|
      invariant CapOf(r) == SeqMin(bs[..i]) && (r.unlimited ==> r.free == 0)
    {
      assert bs[..i + 1][..i] == bs[..i];
      if !bs[i].unlimited {
        r := Tighter(r, Bound(bs[i].free, false));
      }
    }
    assert bs[..|bs|] == bs;
  }

  function SeqSum(bs: seq<Bound>): Cap {
    if bs == [] then Capped(0) else Plus(SeqSum(bs[..|bs| - 1]), CapOf(bs[|bs| - 1]))
  }

  lemma {:induction false} SeqSumUncapped(bs: seq<Bound>, i: nat)
    requires i < |bs| && bs[i].unlimited
    ensures SeqSum(bs) == Uncapped
  {
    if i < |bs| - 1 {
      SeqSumUncapped(bs[..|bs| - 1], i);
    }
  }

  method SumLoop(bs: seq<Bound>) returns (r: Bound)
    ensures CapOf(r) == SeqSum(bs) && (r.unlimited ==> r.free == 0)
  {
    var free := 0;
    for i := 0 to |bs|
      invariant SeqSum(bs[..i]) == Capped(free)
    {
      if bs[i].unlimited {
        SeqSumUncapped(bs, i);
        return Bound(0, true);
      }
      assert bs[..i + 1][..i] == bs[..i];
      free := free + bs[i].free;
    }
    assert bs[..|bs|] == bs;
    return Bound(free, false);
  }

  lemma MeetOrder(c: Cap, d: Cap, e: Cap)
    ensures Meet(c, d) == Meet(d, c) && Meet(Meet(c, d), e) == Meet(c, Meet(d, e)) && Plus(c, d) == Plus(d, c)
  {
  }

  /** The three lists of the switch say what the three sets of keys say. */
  ghost predicate Sorts(t: Table, keys: set<string>, name: string,
                        own: seq<Bound>, products: seq<Bound>, family: seq<Bound>)
    requires keys <= t.Keys
  {
    && SeqMin(own) == MinOf(t, Own(keys, name)) && (own == [] <==> Own(keys, name) == {})
    && SeqSum(products) == SumOf(t, Products(keys, name)) && (products == [] <==> Products(keys, name) == {})
    && SeqMin(family) == MinOf(t, Families(keys, name)) && (family == [] <==> Families(keys, name) == {})
  }

  lemma SortsOneMore(t: Table, keys: set<string>, name: string, key: string, b: Bound,
                     own: seq<Bound>, products: seq<Bound>, family: seq<Bound>)
    requires keys <= t.Keys && key in t && key !in keys && t[key] == CapOf(b)
    requires Sorts(t, keys, name, own, products, family)
    ensures var all := keys + {key};
      if EqualFold(key, name) then Sorts(t, all, name, own + [b], products, family)
      else if IsProductOf(key, name) then Sorts(t, all, name, own, products + [b], family)
      else if IsProductOf(name, key) then Sorts(t, all, name, own, products, family + [b])
      else Sorts(t, all, name, own, products, family)
  {
    hide EqualFold, IsProductOf, Own, Products, Families, MinOf, SumOf;
    VisitKey(t, keys, key, name);
    MeetOrder(t[key], MinOf(t, Own(keys, name)), Uncapped);
    MeetOrder(t[key], MinOf(t, Families(keys, name)), Uncapped);
    MeetOrder(t[key], SumOf(t, Products(keys, name)), Uncapped);
    assert (own + [b])[..|own|] == own;
    assert (products + [b])[..|products|] == products;
    assert (family + [b])[..|family|] == family;
  }

  /** The switch over the keys, in any order. */
  method SortKeys(a: Allowlist, name: string) returns (own: seq<Bound>, products: seq<Bound>, family: seq<Bound>)
    ensures Sorts(Caps(a), a.Keys, name, own, products, family)
  {
    own, products, family := [], [], [];
    ghost var done: set<string> := {};
    var rest := a.Keys;
    NoKeys(Caps(a), name);
    hide EqualFold, IsProductOf, Sorts;
    while rest != {}
      invariant done <= a.Keys && done !! rest && done + rest == a.Keys
      invariant Sorts(Caps(a), done, name, own, products, family)
      decreases rest
    {
      var key :| key in rest;
      SortsOneMore(Caps(a), done, name, key, a[key], own, products, family);
      if EqualFold(key, name) {
        own := own + [a[key]];
      } else if IsProductOf(key, name) {
        products := products + [a[key]];
      } else if IsProductOf(name, key) {
        family := family + [a[key]];
      }
      done, rest := done + {key}, rest - {key};
    }
    assert done == a.Keys;
  }

  method AllowlistBoundLoop(a: Allowlist, name: string) returns (free: int, unlimited: bool, listed: bool)
    ensures (free, unlimited, listed) == Result(AllowlistCap(a, name))
    ensures listed <==> AllowlistCap(a, name).Some?
    ensures listed ==> (unlimited <==> AllowlistCap(a, name).value == Uncapped) && (!unlimited ==> AllowlistCap(a, name).value == Capped(free))
    ensures (!listed ==> !unlimited) && (!listed || unlimited ==> free == 0)
  {
    hide EqualFold, IsProductOf, Own, Products, Families, MinOf, SumOf, SeqMin, SeqSum;
    var own, products, family := SortKeys(a, name);
    if own != [] {
      var b := TightestLoop(own);
      if family != [] {
        var f := TightestLoop(family);
        b := Tighter(b, f);
      } else {
        NoKeys(Caps(a), name);
      }
      return b.free, b.unlimited, true;
    } else if products != [] {
      var b := SumLoop(products);
      return b.free, b.unlimited, true;
    } else if family != [] {
      var b := TightestLoop(family);
      return b.free, b.unlimited, true;
    }
    return 0, false, false;
  }

  lemma NoKeys(t: Table, name: string)
    ensures Own({}, name) == {} && Products({}, name) == {} && Families({}, name) == {}
    ensures MinOf(t, {}) == Uncapped && SumOf(t, {}) == Capped(0)
    ensures Sorts(t, {}, name, [], [], [])
  {
  }

  /** A key falls into at most one of the three kinds and joins that kind. */
  lemma VisitKey(t: Table, done: set<string>, key: string, name: string)
    requires done <= t.Keys && key in t && key !in done
    ensures var all := done + {key};
      && Own(all, name) == (if EqualFold(key, name) then Own(done, name) + {key} else Own(done, name))
      && Products(all, name) == (if IsProductOf(key, name) then Products(done, name) + {key} else Products(done, name))
      && Families(all, name) == (if IsProductOf(name, key) then Families(done, name) + {key} else Families(done, name))
      && (EqualFold(key, name) ==> !IsProductOf(key, name) && !IsProductOf(name, key))
      && (IsProductOf(key, name) ==> !IsProductOf(name, key))
      && MinOf(t, Own(done, name) + {key}) == Meet(t[key], MinOf(t, Own(done, name)))
      && MinOf(t, Families(done, name) + {key}) == Meet(t[key], MinOf(t, Families(done, name)))
      && SumOf(t, Products(done, name) + {key}) == Plus(t[key], SumOf(t, Products(done, name)))
  {
    if EqualFold(key, name) {
      FamilyFold(key, name);
    }
    MinStep(t, Own(done, name) + {key}, key);
    MinStep(t, Families(done, name) + {key}, key);
    SumStep(t, Products(done, name) + {key}, key);
    assert Own(done, name) + {key} - {key} == Own(done, name);
    assert Families(done, name) + {key} - {key} == Families(done, name);
    assert Products(done, name) + {key} - {key} == Products(done, name);
  }

  method ClusterAllowlistBoundLoop(a: Allowlist, name: string) returns (free: int, unlimited: bool, bounds: bool)
    ensures (free, unlimited, bounds) == Result(ClusterCap(a, name))
    ensures bounds <==> ClusterCap(a, name).Some?
    ensures bounds ==> (unlimited <==> ClusterCap(a, name).value == Uncapped) && (!unlimited ==> ClusterCap(a, name).value == Capped(free))
    ensures (!bounds ==> !unlimited) && (!bounds || unlimited ==> free == 0)
  {
    free, unlimited, bounds := AllowlistBoundLoop(a, name);
    if !bounds && name != UNKNOWN {
      return 0, false, true;
    }
  }

  method TightestOfLoop(lists: seq<Allowlist>, name: string) returns (free: int, unlimited: bool, bounds: bool)
    ensures (free, unlimited, bounds) == Result(TightestOf(lists, name))
  {
    var r := Bound(0, true);
    bounds := false;
    for i := 0 to |lists|
      invariant bounds <==> TightestOf(lists[..i], name).Some?
      invariant bounds ==> CapOf(r) == TightestOf(lists[..i], name).value
      invariant r.unlimited ==> r.free == 0
      invariant !bounds ==> r == Bound(0, true)
    {
      assert lists[..i + 1][..i] == lists[..i];
      var f, u, b := ClusterAllowlistBoundLoop(lists[i], name);
      if b {
        r := Tighter(r, Bound(f, u));
        bounds := true;
      }
    }
    assert lists[..|lists|] == lists;
    return r.free, r.unlimited && bounds, bounds;
  }

  method ClosesFamilyLoop(lists: seq<Allowlist>, name: string) returns (closes: bool)
    ensures closes == ClosesFamily(lists, name)
  {
    if !IsFamily(name) || !IsAcceleratorResolved(name) {
      return false;
    }
    for i := 0 to |lists|
      invariant forall j :: 0 <= j < i ==> Lists(lists[j], name)
    {
      var found := exists k :: k in lists[i] && EqualFold(k, name);
      assert found <==> Lists(lists[i], name);
      if !found {
        return true;
      }
    }
    return false;
  }

  // Collecting one spelling of each product.

  ghost predicate OneSpellingEach(ps: seq<string>) {
    forall i, j :: 0 <= i < j < |ps| ==> !EqualFold(ps[i], ps[j])
  }

  ghost function LowerOf(ps: seq<string>): set<string> {
    set p | p in ps :: Lower(p)
  }

  lemma VisitProduct(done: set<string>, key: string, name: string)
    ensures LowerSet(Products(done + {key}, name))
         == LowerSet(Products(done, name)) + if IsProductOf(key, name) then {Lower(key)} else {}
  {
    hide IsProductOf;
    var all := Products(done + {key}, name);
    if IsProductOf(key, name) {
      assert all == Products(done, name) + {key};
    } else {
      assert all == Products(done, name);
    }
  }

  lemma LowerAppend(ps: seq<string>, key: string)
    ensures LowerOf(ps + [key]) == LowerOf(ps) + {Lower(key)}
  {
  }

  lemma LowerMember(ps: seq<string>, key: string)
    requires exists p :: p in ps && EqualFold(p, key)
    ensures Lower(key) in LowerOf(ps)
  {
  }

  method CollectProducts(a: Allowlist, name: string, known: seq<string>) returns (ps: seq<string>)
    requires OneSpellingEach(known) && forall p :: p in known ==> IsProductOf(p, name)
    ensures OneSpellingEach(ps) && forall p :: p in ps ==> IsProductOf(p, name)
    ensures LowerOf(ps) == LowerOf(known) + LowerSet(Products(a.Keys, name))
  {
    hide EqualFold, IsProductOf;
    ps := known;
    ghost var done: set<string> := {};
    var rest := a.Keys;
    while rest != {}
      invariant done !! rest && done + rest == a.Keys
      invariant OneSpellingEach(ps) && forall p :: p in ps ==> IsProductOf(p, name)
      invariant LowerOf(ps) == LowerOf(known) + LowerSet(Products(done, name))
      decreases rest
    {
      var key :| key in rest;
      VisitProduct(done, key, name);
      if IsProductOf(key, name) && !exists p :: p in ps && EqualFold(p, key) {
        LowerAppend(ps, key);
        ps := ps + [key];
      } else if IsProductOf(key, name) {
        LowerMember(ps, key);
      }
      done, rest := done + {key}, rest - {key};
    }
    assert done == a.Keys;
  }

  method ClusterAllowlistsBoundLoop(lists: seq<Allowlist>, name: string) returns (free: int, unlimited: bool, bounds: bool)
    ensures (free, unlimited, bounds) == Result(ClusterBound(lists, name))
    ensures bounds <==> ClusterBound(lists, name).Some?
    ensures bounds ==> (unlimited <==> ClusterBound(lists, name).value == Uncapped) && (!unlimited ==> ClusterBound(lists, name).value == Capped(free))
    ensures (!bounds ==> !unlimited) && (!bounds || unlimited ==> free == 0)
  {
    free, unlimited, bounds := TightestOfLoop(lists, name);
    var closes := ClosesFamilyLoop(lists, name);
    if !bounds || !closes {
      return;
    }
    var ps: seq<string> := [];
    assert LowerOf(ps) == {};
    for i := 0 to |lists|
      invariant OneSpellingEach(ps) && forall p :: p in ps ==> IsProductOf(p, name)
      invariant LowerOf(ps) == Listed(lists[..i], name)
    {
      assert lists[..i + 1][..i] == lists[..i];
      ps := CollectProducts(lists[i], name, ps);
    }
    assert lists[..|lists|] == lists;
    var b := SumProducts(lists, name, ps);
    var r := Tighter(Bound(free, unlimited), b);
    return r.free, r.unlimited, true;
  }

  lemma NewSpelling(ps: seq<string>, i: nat)
    requires OneSpellingEach(ps) && i < |ps|
    ensures Lower(ps[i]) !in LowerOf(ps[..i])
  {
  }

  method SumProducts(lists: seq<Allowlist>, name: string, ps: seq<string>) returns (r: Bound)
    requires OneSpellingEach(ps) && forall p :: p in ps ==> IsProductOf(p, name)
    ensures CapOf(r) == SumOf(TightTable(lists, LowerOf(ps)), LowerOf(ps)) && (r.unlimited ==> r.free == 0)
  {
    hide EqualFold, IsProductOf, TightestOf, SumOf, Plus;
    NoKeys(TightTable(lists, LowerOf(ps)), name);
    var bs: seq<Bound> := [];
    ghost var t := TightTable(lists, LowerOf(ps));
    assert LowerOf(ps[..0]) == {};
    for i := 0 to |ps|
      invariant |bs| == i && LowerOf(ps[..i]) <= LowerOf(ps)
      invariant SeqSum(bs) == SumOf(t, LowerOf(ps[..i]))
    {
      var f, u, b := TightestOfLoop(lists, ps[i]);
      ghost var q := Lower(ps[i]);
      ghost var sofar := LowerOf(ps[..i]);
      assert ps[..i + 1] == ps[..i] + [ps[i]];
      assert LowerOf(ps[..i + 1]) == sofar + {q};
      assert q in LowerOf(ps) by { assert ps[i] in ps; }
      NewSpelling(ps, i);
      SumStep(t, sofar + {q}, q);
      assert sofar + {q} - {q} == sofar;
      SpellingRead(lists, name, ps[i]) by { assert ps[i] in ps; }
      MeetOrder(t[q], SumOf(t, sofar), Uncapped);
      assert (bs + [Bound(f, u)])[..i] == bs;
      bs := bs + [Bound(f, u)];
    }
    assert ps[..|ps|] == ps;
    r := SumLoop(bs);
  }

  // Reading a product does not see its spelling.

  lemma SpellingRead(lists: seq<Allowlist>, name: string, p: string)
    requires IsProductOf(p, name)
    ensures TightestOf(lists, p) == TightestOf(lists, Lower(p))
  {
    LowerTwice(p);
    TightestFold(lists, p, Lower(p));
  }

  lemma ProductNotUnknown(p: string)
    requires !IsFamily(p)
    ensures p != UNKNOWN
  {
    FamilyHasNoHyphen(p);
  }

  lemma ClusterCapFold(a: Allowlist, p: string, q: string)
    requires EqualFold(p, q) && !IsFamily(p)
    ensures ClusterCap(a, p) == ClusterCap(a, q) && ClusterCap(a, p).Some?
  {
    hide IsProductOf, MinOf, SumOf, IsFamily;
    FamilyFold(p, q);
    ProductNotUnknown(p);
    ProductNotUnknown(q);
    forall k | k in a
      ensures EqualFold(k, p) <==> EqualFold(k, q)
      ensures IsProductOf(k, p) <==> IsProductOf(k, q)
      ensures IsProductOf(p, k) <==> IsProductOf(q, k)
    {
      ProductFold(k, k, p, q);
      ProductFold(p, q, k, k);
    }
    assert Own(a.Keys, p) == Own(a.Keys, q);
    assert Products(a.Keys, p) == Products(a.Keys, q);
    assert Families(a.Keys, p) == Families(a.Keys, q);
  }

  lemma {:induction false} TightestFold(lists: seq<Allowlist>, p: string, q: string)
    requires EqualFold(p, q) && !IsFamily(p)
    ensures TightestOf(lists, p) == TightestOf(lists, q)
    ensures TightestOf(lists, p).Some? <==> lists != []
  {
    if lists != [] {
      TightestFold(lists[..|lists| - 1], p, q);
      ClusterCapFold(lists[|lists| - 1], p, q);
    }
  }
}

/** What allowlists say of the names that are not resolved accelerators, read off
    their keys: the catch-all, the placeholder and the empty name. */
module CatchAll {
  import opened Options
  import opened AcceleratorNames
  import opened Allowlists

  /** Some key of the allowlist speaks of the name: a key that covers it, or a
      product of it. */
  ghost predicate Speaks(a: Allowlist, name: string) {
    exists k :: k in a && (Covers(k, name) || IsProductOf(k, name))
  }

  /** v is within what the keys of the allowlist leave: within every key that covers
      the name; else, for a family, within the sum of its products; else nothing. */
  ghost predicate Leaves(a: Allowlist, name: string, v: Cap) {
    if exists k :: k in a && Covers(k, name) then forall k :: k in a && Covers(k, name) ==> Le(v, CapOf(a[k]))
    else if exists k :: k in a && IsProductOf(k, name) then Le(v, SumOf(Caps(a), set k | k in a && IsProductOf(k, name)))
    else Le(v, Capped(0))
  }

  /** One allowlist, for every name: it does not bound the catch-all it does not
      speak of, and bounds everything else by its keys. */
  lemma OneListExact(a: Allowlist, name: string, v: Cap)
    ensures ClusterCap(a, name).None? <==> name == UNKNOWN && !Speaks(a, name)
    ensures ClusterCap(a, name).Some? ==> (Le(v, ClusterCap(a, name).value) <==> Leaves(a, name, v))
  {
    hide EqualFold, Normalize, MinOf, SumOf, Le;
    var t, own, products, families := Caps(a), Own(a.Keys, name), Products(a.Keys, name), Families(a.Keys, name);
    MinIsBound(t, own, v);
    MinIsBound(t, families, v);
    LeMeet(v, MinOf(t, own), MinOf(t, families));
    assert forall k :: k in a && EqualFold(k, name) <==> k in own;
    assert forall k :: k in a && IsProductOf(k, name) <==> k in products;
    assert forall k :: k in a && IsProductOf(name, k) <==> k in families;
    assert products == set k | k in a && IsProductOf(k, name);
    if own != {} {
      var k :| k in own;
      assert Covers(k, name);
    } else if products != {} {
      var k :| k in products;
      assert IsProductOf(k, name);
    } else if families != {} {
      var k :| k in families;
      assert Covers(k, name);
    }
  }

  /** Of several allowlists the tightest of those that bound the name counts. */
  lemma {:induction false} TightestExact(lists: seq<Allowlist>, name: string, v: Cap)
    ensures TightestOf(lists, name).None? <==> forall i :: 0 <= i < |lists| ==> ClusterCap(lists[i], name).None?
    ensures TightestOf(lists, name).Some? ==>
              (Le(v, TightestOf(lists, name).value) <==>
               forall i :: 0 <= i < |lists| && ClusterCap(lists[i], name).Some? ==> Le(v, ClusterCap(lists[i], name).value))
  {
    hide ClusterCap, Le, Meet;
    if lists != [] {
      var n := |lists| - 1;
      var b, d := TightestOf(lists[..n], name), ClusterCap(lists[n], name);
      TightestExact(lists[..n], name, v);
      assert forall i :: 0 <= i < n ==> lists[i] == lists[..n][i];
      if b.Some? && d.Some? {
        LeMeet(v, b.value, d.value);
      }
    }
  }

  /** The names that are no resolved accelerator have no closed family, so the
      tightest allowlist alone bounds them: every allowlist for the placeholder and
      the empty name, those that speak of it for the catch-all. */
  lemma UnresolvedExact(lists: seq<Allowlist>, name: string, v: Cap)
    requires name == "" || name == UNKNOWN || name == UNRESOLVED
    ensures ClusterBound(lists, name).None? <==>
            if name == UNKNOWN then forall i :: 0 <= i < |lists| ==> !Speaks(lists[i], name) else lists == []
    ensures ClusterBound(lists, name).Some? ==>
              (Le(v, ClusterBound(lists, name).value) <==>
               forall i :: 0 <= i < |lists| && (name != UNKNOWN || Speaks(lists[i], name)) ==> Leaves(lists[i], name, v))
  {
    hide ClusterCap, Le, Speaks, Leaves, TightestOf;
    TightestExact(lists, name, v);
    forall i | 0 <= i < |lists|
      ensures ClusterCap(lists[i], name).None? <==> name == UNKNOWN && !Speaks(lists[i], name)
      ensures ClusterCap(lists[i], name).Some? ==> (Le(v, ClusterCap(lists[i], name).value) <==> Leaves(lists[i], name, v))
    {
      OneListExact(lists[i], name, v);
    }
    assert lists != [] && name != UNKNOWN ==> ClusterCap(lists[0], name).Some?;
  }

  /** A key that names the catch-all: spelled like it ignoring case, or a hyphenated
      name that is short for it. */
  ghost predicate NamesCatchAll(k: string) {
    EqualFold(k, UNKNOWN) || ('-' in k && EqualFold(Normalize(k), UNKNOWN))
  }

  /** The catch-all is bounded exactly when some key is spelled like it, ignoring
      case, or is a hyphenated name short for it. */
  lemma CatchAllBounded(lists: seq<Allowlist>)
    ensures ClusterBound(lists, UNKNOWN).Some? <==>
            exists i, k :: 0 <= i < |lists| && k in lists[i] && NamesCatchAll(k)
  {
    hide ClusterBound, EqualFold, Normalize, Leaves, NamesCatchAll, Covers, IsProductOf;
    UnresolvedExact(lists, UNKNOWN, Uncapped);
    if i, k :| 0 <= i < |lists| && k in lists[i] && NamesCatchAll(k) {
      SpeaksOfIt(k);
      assert Speaks(lists[i], UNKNOWN);
    }
    if i :| 0 <= i < |lists| && Speaks(lists[i], UNKNOWN) {
      var k :| k in lists[i] && (Covers(k, UNKNOWN) || IsProductOf(k, UNKNOWN));
      SpeaksOfIt(k);
    }
  }

  lemma SpeaksOfIt(k: string)
    ensures Covers(k, UNKNOWN) || IsProductOf(k, UNKNOWN) <==> NamesCatchAll(k)
  {
    hide Normalize;
    FamilyHasNoHyphen(k);
    FamilyHasNoHyphen(UNKNOWN);
  }
}

/** Which key of a budget map a declared name is spent from. */
module BudgetKeys {
  import opened Options
  import opened AcceleratorNames
  import opened Lexical
  import A = Allowlists

  /** Two names of one accelerator: equal ignoring case, or one the short name
      of the other. */
  predicate SameName(a: string, b: string) {
    || a == b || EqualFold(a, b)
    || (Normalize(a) != a && EqualFold(Normalize(a), b))
    || (Normalize(b) != b && EqualFold(Normalize(b), a))
  }

  ghost function Matches(known: set<string>, name: string): set<string> {
    set k | k in known && SameName(k, name)
  }

  ghost function FindKey(known: set<string>, name: string): Option<string> {
    if name in known then Some(name)
    else if Normalize(name) != name && Normalize(name) in known then Some(Normalize(name))
    else if Matches(known, name) != {} then Some(Least(Matches(known, name)))
    else None
  }

  ghost predicate OneSpelling(keys: set<string>) {
    forall k, j :: k in keys && j in keys ==> EqualFold(k, j)
  }

  /** A product of the same family under another name. */
  predicate Sibling(k: string, name: string) {
    && !EqualFold(k, name) && !IsProductOf(k, name) && !IsProductOf(name, k)
    && !IsFamily(name) && !IsFamily(k) && EqualFold(Family(k), Family(name))
  }

  ghost predicate HasSibling(known: set<string>, name: string) {
    exists k :: k in known && Sibling(k, name)
  }

  ghost function FindBudgetKey(known: set<string>, name: string): Option<string> {
    var spellings, products, families := A.Own(known, name), A.Products(known, name), A.Families(known, name);
    if name in known then Some(name)
    else if spellings != {} then Some(Least(spellings))
    else if products != {} then (if OneSpelling(products) then Some(Least(products)) else None)
    else if families != {} && !HasSibling(known, name) then Some(Least(families))
    else None
  }

  // The loops of the source, in any map order.

  method OneSpellingLoop(names: seq<string>) returns (one: bool)
    requires names != []
    ensures one <==> OneSpelling(Elements(names))
  {
    for i := 1 to |names|
      invariant forall j :: 0 <= j < i ==> EqualFold(names[j], names[0])
    {
      if !EqualFold(names[i], names[0]) {
        assert names[i] in names && names[0] in names;
        return false;
      }
    }
    return true;
  }

  method FindBudgetKeyLoop(known: set<string>, name: string) returns (key: Option<string>)
    ensures key == FindBudgetKey(known, name)
  {
    hide EqualFold, IsProductOf, Sibling;
    if name in known {
      return Some(name);
    }
    var spellings: seq<string>, products: seq<string>, families: seq<string> := [], [], [];
    var sibling := false;
    ghost var done: set<string> := {};
    var rest := known;
    while rest != {}
      invariant done !! rest && done + rest == known
      invariant Elements(spellings) == A.Own(done, name)
      invariant Elements(products) == A.Products(done, name)
      invariant Elements(families) == A.Families(done, name)
      invariant sibling <==> HasSibling(done, name)
      decreases rest
    {
      var k :| k in rest;
      Visit(done, k, name);
      if EqualFold(k, name) {
        ElementsAppend(spellings, k);
        spellings := spellings + [k];
      } else if IsProductOf(k, name) {
        ElementsAppend(products, k);
        products := products + [k];
      } else if IsProductOf(name, k) {
        ElementsAppend(families, k);
        families := families + [k];
      } else if !IsFamily(name) && !IsFamily(k) && EqualFold(Family(k), Family(name)) {
        sibling := true;
      }
      done, rest := done + {k}, rest - {k};
    }
    assert done == known;
    if spellings != [] {
      var least := LeastLoop(spellings);
      return Some(least);
    } else if products != [] {
      var one := OneSpellingLoop(products);
      if one {
        var least := LeastLoop(products);
        return Some(least);
      }
      return None;
    } else if families != [] && !sibling {
      var least := LeastLoop(families);
      return Some(least);
    }
    return None;
  }

  lemma Visit(done: set<string>, k: string, name: string)
    ensures var all := done + {k};
      && A.Own(all, name) == (if EqualFold(k, name) then A.Own(done, name) + {k} else A.Own(done, name))
      && A.Products(all, name) == (if IsProductOf(k, name) then A.Products(done, name) + {k} else A.Products(done, name))
      && A.Families(all, name) == (if IsProductOf(name, k) then A.Families(done, name) + {k} else A.Families(done, name))
      && (HasSibling(all, name) <==> HasSibling(done, name) || Sibling(k, name))
      && (EqualFold(k, name) ==> !IsProductOf(k, name) && !IsProductOf(name, k))
      && (IsProductOf(k, name) ==> !IsProductOf(name, k))
      && (Sibling(k, name) <==>
            && !EqualFold(k, name) && !IsProductOf(k, name) && !IsProductOf(name, k)
            && !IsFamily(name) && !IsFamily(k) && EqualFold(Family(k), Family(name)))
  {
    hide EqualFold, Normalize;
    NameCases(k, name);
  }

  method FindKeyLoop(known: set<string>, name: string) returns (key: Option<string>)
    ensures key == FindKey(known, name)
  {
    hide SameName;
    if name in known {
      return Some(name);
    }
    if Normalize(name) != name && Normalize(name) in known {
      return Some(Normalize(name));
    }
    var matches: seq<string> := [];
    ghost var done: set<string> := {};
    var rest := known;
    while rest != {}
      invariant done !! rest && done + rest == known
      invariant Elements(matches) == Matches(done, name)
      decreases rest
    {
      var k :| k in rest;
      if SameName(k, name) {
        ElementsAppend(matches, k);
        matches := matches + [k];
        assert Matches(done + {k}, name) == Matches(done, name) + {k};
      } else {
        assert Matches(done + {k}, name) == Matches(done, name);
      }
      done, rest := done + {k}, rest - {k};
    }
    assert done == known;
    if matches == [] {
      return None;
    }
    var least := LeastLoop(matches);
    return Some(least);
  }

  // What the two lookups promise.

  /** A budget lookup never crosses products: a product is spent from a family
      key only when no product of that family is a key, a family from a product
      key only when that is the one product listed; and these, with the case
      spellings, are exactly the names found. */
  lemma FindBudgetKeyExact(known: set<string>, name: string)
    ensures var r := FindBudgetKey(known, name);
      && (r.Some? ==> r.value in known && (Covers(r.value, name) || Covers(name, r.value)))
      && (r.Some? && IsProductOf(name, r.value) ==>
            forall k :: k in known && !IsFamily(k) ==> !EqualFold(Family(k), Family(name)))
      && (r.Some? && IsProductOf(r.value, name) ==>
            forall k :: k in known && IsProductOf(k, name) ==> EqualFold(k, r.value))
      && (r.Some? <==>
            || (exists k :: k in known && EqualFold(k, name))
            || ((exists k :: k in known && IsProductOf(k, name))
                && forall k, j :: k in known && IsProductOf(k, name) && j in known && IsProductOf(j, name) ==> EqualFold(k, j))
            || ((exists k :: k in known && IsProductOf(name, k))
                && forall k :: k in known && !IsFamily(k) ==> !EqualFold(Family(k), Family(name))))
  {
    hide EqualFold, Normalize;
    var spellings, products, families := A.Own(known, name), A.Products(known, name), A.Families(known, name);
    NameCases(name, name);
    assert name in known ==> name in spellings;
    forall k | k in known
      ensures IsProductOf(k, name) ==> IsFamily(name)
      ensures IsProductOf(name, k) ==> !IsFamily(name)
      ensures EqualFold(k, name) ==> !IsProductOf(k, name) && !IsProductOf(name, k)
      ensures !IsFamily(k) && !IsFamily(name) && EqualFold(Family(k), Family(name)) <==>
              Sibling(k, name) || (EqualFold(k, name) && !IsFamily(name))
    {
      NameCases(k, name);
    }
    assert (exists k :: k in known && EqualFold(k, name)) <==> spellings != {} by {
      if spellings != {} { var k :| k in spellings; }
      forall k | k in known && EqualFold(k, name) ensures k in spellings { }
    }
    assert (exists k :: k in known && IsProductOf(k, name)) <==> products != {} by {
      if products != {} { var k :| k in products; }
      forall k | k in known && IsProductOf(k, name) ensures k in products { }
    }
    assert (exists k :: k in known && IsProductOf(name, k)) <==> families != {} by {
      if families != {} { var k :| k in families; }
      forall k | k in known && IsProductOf(name, k) ensures k in families { }
    }
    if families != {} {
      var f :| f in families;
      assert !IsFamily(name);
    }
  }

  /** The order of the budget lookup: the name itself; else the first key spelled
      like it ignoring case; else, for a family, the first spelling of its one
      product, and for a product the first spelling of its family. */
  lemma FindBudgetKeyOrder(known: set<string>, name: string)
    ensures var r := FindBudgetKey(known, name);
      && (name in known ==> r == Some(name))
      && (name !in known && (exists k :: k in known && EqualFold(k, name)) ==>
            r.Some? && IsLeast(r.value, set k | k in known && EqualFold(k, name)))
      && ((forall k :: k in known ==> !EqualFold(k, name)) && r.Some? ==>
            if IsFamily(name) then IsLeast(r.value, set k | k in known && IsProductOf(k, name))
            else IsLeast(r.value, set k | k in known && IsProductOf(name, k)))
  {
    hide EqualFold, Normalize, Precedes, HasSibling;
    var spellings, products, families := A.Own(known, name), A.Products(known, name), A.Families(known, name);
    NameCases(name, name);
    assert forall k :: k in known && EqualFold(k, name) ==> k in spellings;
    assert IsFamily(name) ==> families == {};
    assert !IsFamily(name) ==> products == {};
  }

  lemma NameCases(k: string, name: string)
    ensures EqualFold(name, name)
    ensures EqualFold(k, name) ==>
              && !IsProductOf(k, name) && !IsProductOf(name, k)
              && (IsFamily(k) <==> IsFamily(name)) && EqualFold(Family(k), Family(name)) && EqualFold(name, k)
  {
    if EqualFold(k, name) {
      FamilyFold(k, name);
      NormalizeFold(k, name);
    }
  }

  /** Between names of which one covers the other, SameName holds; and where one
      of the two is a family, only there. */
  lemma SameNameCovers(a: string, b: string)
    ensures Covers(a, b) || Covers(b, a) ==> SameName(a, b)
    ensures SameName(a, b) && (IsFamily(a) || IsFamily(b)) ==> Covers(a, b) || Covers(b, a)
  {
    if SameName(a, b) && !EqualFold(a, b) && (IsFamily(a) || IsFamily(b)) {
      if IsFamily(a) && IsFamily(b) {
        assert false;
      }
    }
  }

  /** The plain lookup finds a name exactly when some key is the same name, and
      then returns such a key. */
  lemma FindKeyExact(known: set<string>, name: string)
    ensures FindKey(known, name).Some? <==> exists k :: k in known && SameName(k, name)
    ensures FindKey(known, name).Some? ==> FindKey(known, name).value in Matches(known, name)
  {
    hide Normalize;
    var short := Normalize(name);
    NameCases(name, name);
    NameCases(short, short);
    assert SameName(name, name) && (short != name ==> SameName(short, name));
    if k :| k in known && SameName(k, name) {
      assert k in Matches(known, name);
    }
    if Matches(known, name) != {} {
      var k :| k in Matches(known, name);
    }
  }

  /** The order of the plain lookup: the name itself; else its short name; else the
      first of the keys that are the same name. */
  lemma FindKeyOrder(known: set<string>, name: string)
    ensures var r := FindKey(known, name);
      && (name in known ==> r == Some(name))
      && (name !in known && !IsFamily(name) && Normalize(name) in known ==> r == Some(Normalize(name)))
      && (name !in known && (IsFamily(name) || Normalize(name) !in known) && r.Some? ==>
            IsLeast(r.value, set k | k in known && SameName(k, name)))
  {
    hide SameName, Normalize, Precedes;
  }

  /** Every name the budget lookup finds, the plain lookup finds too. */
  lemma BudgetKeyFound(known: set<string>, name: string)
    requires FindBudgetKey(known, name).Some?
    ensures FindKey(known, name).Some?
  {
    var k := FindBudgetKey(known, name).value;
    assert k in known && (Covers(k, name) || Covers(name, k)) by {
      FindBudgetKeyExact(known, name);
    }
    SameNameCovers(k, name);
    FindKeyExact(known, name);
  }

  /** One name for two others with a hyphen: a short name that has one itself,
      such as Gaudi-2, and a product that reduces to it. */
  predicate ShortWithHyphen(k: string, name: string) {
    !IsFamily(k) && !IsFamily(name) && !EqualFold(k, name) && SameName(k, name)
  }

  /** The same name in one of four ways. */
  lemma SameNameCases(k: string, name: string)
    ensures SameName(k, name) <==>
            EqualFold(k, name) || IsProductOf(k, name) || IsProductOf(name, k) || ShortWithHyphen(k, name)
  {
    hide EqualFold, Normalize;
    NameCases(k, name);
    NameCases(name, k);
    SameNameCovers(k, name);
  }

  /** Exactly where the two lookups differ, no case spelling being a key: a family
      with two listed products, a product with its family key and a sibling listed,
      and a product without a family key that is the same name as another only
      through a short name with a hyphen. */
  lemma LookupsDiffer(known: set<string>, name: string)
    ensures FindKey(known, name).Some? && FindBudgetKey(known, name).None? <==>
            && (forall k :: k in known ==> !EqualFold(k, name))
            && if IsFamily(name) then
                 exists k, j :: k in known && j in known && IsProductOf(k, name) && IsProductOf(j, name) && !EqualFold(k, j)
               else if exists f :: f in known && IsProductOf(name, f) then HasSibling(known, name)
               else exists k :: k in known && ShortWithHyphen(k, name)
  {
    FindKeyExact(known, name);
    hide FindKey, SameName, EqualFold, Normalize, Sibling, ShortWithHyphen;
    forall k | k in known
      ensures SameName(k, name) <==>
              EqualFold(k, name) || IsProductOf(k, name) || IsProductOf(name, k) || ShortWithHyphen(k, name)
      ensures IsProductOf(k, name) ==> IsFamily(name)
      ensures IsProductOf(name, k) ==> !IsFamily(name)
      ensures ShortWithHyphen(k, name) ==> !IsFamily(name)
    {
      SameNameCases(k, name);
      ShortIsProduct(k, name);
    }
    DeniedWhen(known, name);
  }

  lemma ShortIsProduct(k: string, name: string)
    ensures ShortWithHyphen(k, name) ==> !IsFamily(name)
  {
  }

  /** When the budget lookup denies a name. */
  lemma DeniedWhen(known: set<string>, name: string)
    ensures FindBudgetKey(known, name).None? <==>
            && (forall k :: k in known ==> !EqualFold(k, name))
            && ((exists k :: k in known && IsProductOf(k, name)) ==>
                  exists k, j :: k in known && j in known && IsProductOf(k, name) && IsProductOf(j, name) && !EqualFold(k, j))
            && ((exists f :: f in known && IsProductOf(name, f)) ==> HasSibling(known, name))
  {
    hide EqualFold, Normalize, Sibling, IsProductOf;
    var spellings, products, families := A.Own(known, name), A.Products(known, name), A.Families(known, name);
    NameCases(name, name);
    assert name in known ==> name in spellings;
    assert forall k :: k in known && EqualFold(k, name) ==> k in spellings;
    assert forall k :: k in known && IsProductOf(k, name) ==> k in products;
    assert forall k :: k in known && IsProductOf(name, k) ==> k in families;
    if products != {} && families != {} {
      var k :| k in products;
      var f :| f in families;
      NotBothWays(k, name, f);
      assert false;
    }
  }

  lemma NotBothWays(k: string, name: string, f: string)
    requires IsProductOf(k, name)
    ensures !IsProductOf(name, f)
  {
  }

  lemma VendorsDiffer()
    ensures '-' !in "Intel" && !EqualFold("Intel", "NVIDIA") && EqualFold("Intel", "Intel")
  {
    assert |Lower("Intel")| != |Lower("NVIDIA")|;
  }

  /** The last of these for every Intel name of four parts: its short name is found
      by the plain lookup and never by the budget lookup. */
  lemma IntelShortDenied(b: string, c: string, d: string)
    requires '-' !in b && '-' !in c
    ensures var short, long := b + "-" + c, "Intel" + "-" + b + "-" + (c + "-" + d);
      FindKey({short}, long) == Some(short) && FindBudgetKey({short}, long) == None
  {
    hide Normalize, Split;
    var tail := c + "-" + d;
    var short, long := b + "-" + c, "Intel" + "-" + b + "-" + tail;
    assert tail == c + ("-" + d);
    ShortNames("Intel", b, c, "-" + d);
    VendorsDiffer();
    assert Normalize(long) == short;
    assert short[|b|] == '-' && long[5] == '-';
    FamilyHasNoHyphen(short);
    FamilyHasNoHyphen(long);
    assert |short| != |long|;
    hide IsFamily;
    assert !EqualFold(short, long) by { assert |Lower(short)| != |Lower(long)|; }
    assert !IsProductOf(short, long) && !IsProductOf(long, short);
  }

  /** A product beside a listed sibling: the budget lookup denies it, and the plain
      lookup hands it its family key, or a key that is the same name through a
      short name with a hyphen. */
  lemma SiblingDenied(known: set<string>, name: string)
    requires HasSibling(known, name) && A.Own(known, name) == {}
    ensures FindBudgetKey(known, name) == None
    ensures (exists f :: f in known && IsProductOf(name, f)) ==>
              && FindKey(known, name).Some? && FindKey(known, name).value in known
              && (IsProductOf(name, FindKey(known, name).value) || ShortWithHyphen(FindKey(known, name).value, name))
    ensures (exists f :: f in known && IsProductOf(name, f)) && (forall k :: k in known ==> !ShortWithHyphen(k, name)) ==>
              IsProductOf(name, FindKey(known, name).value)
  {
    NameCases(name, name);
    assert name in known ==> name in A.Own(known, name);
    assert A.Products(known, name) == {};
    if f: string :| f in known && IsProductOf(name, f) {
      SameNameCovers(f, name);
      FindKeyExact(known, name);
      hide FindKey, SameName, EqualFold, Normalize;
      var k := FindKey(known, name).value;
      assert k in known && SameName(k, name);
      assert k !in A.Own(known, name);
      SameNameCases(k, name);
      SiblingIsProduct(known, name);
    }
  }

  lemma SiblingIsProduct(known: set<string>, name: string)
    requires HasSibling(known, name)
    ensures forall k :: !IsProductOf(k, name)
  {
  }
}

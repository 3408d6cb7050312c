/** GPU names: a two-level tree of families and products, spelled in any case. */
module AcceleratorNames {
  const UNKNOWN := "unknown"        // the catch-all accelerator name
  const UNRESOLVED := "unresolved"  // the placeholder label value

  function LowerChar(c: char): char {
    if 'A' <= c <= 'Z' then (c as int + 32) as char else c
  }

  function UpperChar(c: char): char {
    if 'a' <= c <= 'z' then (c as int - 32) as char else c
  }

  function Lower(s: string): (l: string)
    ensures |l| == |s| && forall i :: 0 <= i < |s| ==> l[i] == LowerChar(s[i])
  {
    seq(|s|, i requires 0 <= i < |s| => LowerChar(s[i]))
  }

  function Upper(s: string): (u: string)
    ensures |u| == |s| && forall i :: 0 <= i < |s| ==> u[i] == UpperChar(s[i])
  {
    seq(|s|, i requires 0 <= i < |s| => UpperChar(s[i]))
  }

  /** Equal ignoring (ASCII) case. */
  predicate EqualFold(a: string, b: string) {
    Lower(a) == Lower(b)
  }

  predicate IsAcceleratorResolved(name: string) {
    name != "" && name != UNKNOWN && name != UNRESOLVED
  }

  // Splitting at hyphens.

  function Hyphen(s: string): (i: nat)
    requires '-' in s
    ensures i < |s| && s[i] == '-' && '-' !in s[..i]
  {
    if s[0] == '-' then 0
    else
      var i := 1 + Hyphen(s[1..]);
      assert s[..i] == [s[0]] + s[1..][..i - 1];
      i
  }

  function Split(s: string): (parts: seq<string>)
    ensures |parts| >= 1 && (|parts| >= 2 <==> '-' in s)
    ensures forall i :: 0 <= i < |parts| ==> '-' !in parts[i] && |parts[i]| <= |s|
    decreases |s|
  {
    if '-' !in s then [s]
    else
      var i := Hyphen(s);
      [s[..i]] + Split(s[i + 1..])
  }

  lemma SplitCons(a: string, s: string)
    requires '-' !in a
    ensures Split(a + "-" + s) == [a] + Split(s)
  {
    var t := a + "-" + s;
    assert t[|a|] == '-';
    assert t[..|a|] == a;
    assert Hyphen(t) == |a|;
    assert t[|a| + 1..] == s;
  }

  function LowerAll(parts: seq<string>): (l: seq<string>)
    ensures |l| == |parts| && forall i :: 0 <= i < |parts| ==> l[i] == Lower(parts[i])
  {
    seq(|parts|, i requires 0 <= i < |parts| => Lower(parts[i]))
  }

  lemma LowerConcat(a: string, b: string)
    ensures Lower(a + b) == Lower(a) + Lower(b)
  {
  }

  lemma LowerTwice(s: string)
    ensures Lower(Lower(s)) == Lower(s) && Upper(Lower(s)) == Upper(s)
  {
  }

  lemma LowerHyphen(s: string)
    ensures '-' in Lower(s) <==> '-' in s
  {
    if '-' in s {
      var i :| 0 <= i < |s| && s[i] == '-';
      assert Lower(s)[i] == '-';
    }
  }

  /** Case folding does not move a hyphen. */
  lemma {:induction false} SplitLower(s: string)
    ensures Split(Lower(s)) == LowerAll(Split(s))
    decreases |s|
  {
    LowerHyphen(s);
    if '-' in s {
      var i := Hyphen(s);
      var a, b := s[..i], s[i + 1..];
      assert s == a + "-" + b;
      assert Split(s) == [a] + Split(b);
      hide Split, Lower;
      SplitLower(b);
      LowerParts(a, b);
      LowerHyphen(a);
      SplitCons(Lower(a), Lower(b));
    }
  }

  lemma LowerParts(a: string, b: string)
    ensures Lower(a + "-" + b) == Lower(a) + "-" + Lower(b)
  {
    LowerConcat(a + "-", b);
    LowerConcat(a, "-");
    assert Lower("-") == "-";
  }

  // Short names.

  /** The model among the parts of a hyphenated name. */
  function Model(parts: seq<string>): string
    requires |parts| >= 2
  {
    var vendor := Upper(parts[0]);
    if vendor == "NVIDIA" && |parts| >= 3 && EqualFold(parts[1], "tesla") then parts[2]
    else if vendor == "INTEL" && |parts| >= 3 then parts[1] + "-" + parts[2]
    else parts[1]
  }

  /** The short name of a vendor spelling. */
  function Normalize(name: string): string {
    if '-' !in name then name else Model(Split(name))
  }

  lemma ModelLower(parts: seq<string>)
    requires |parts| >= 2
    ensures Model(LowerAll(parts)) == Lower(Model(parts))
  {
    LowerTwice(parts[0]);
    LowerTwice(parts[1]);
    if |parts| >= 3 {
      LowerConcat(parts[1] + "-", parts[2]);
      LowerConcat(parts[1], "-");
      assert Lower("-") == "-";
    }
  }

  lemma NormalizeLower(name: string)
    ensures Normalize(Lower(name)) == Lower(Normalize(name))
  {
    hide Split, Model, LowerAll;
    LowerHyphen(name);
    if '-' in name {
      SplitLower(name);
      ModelLower(Split(name));
    }
  }

  lemma NormalizeFold(a: string, b: string)
    requires EqualFold(a, b)
    ensures EqualFold(Normalize(a), Normalize(b))
  {
    NormalizeLower(a);
    NormalizeLower(b);
  }

  predicate IsFamily(name: string) {
    Normalize(name) == name
  }

  function Family(name: string): string {
    Normalize(name)
  }

  predicate IsProductOf(product: string, family: string) {
    IsFamily(family) && !IsFamily(product) && EqualFold(Family(product), family)
  }

  /** A budget keyed `key` bounds what is spent under `name`. */
  predicate Covers(key: string, name: string) {
    EqualFold(key, name) || IsProductOf(name, key)
  }

  /** A name is a family exactly when it has no hyphen. */
  lemma FamilyHasNoHyphen(name: string)
    ensures IsFamily(name) <==> '-' !in name
  {
    if '-' in name {
      var i := Hyphen(name);
      var rest := name[i + 1..];
      var parts := Split(name);
      assert parts[1..] == Split(rest);
      if |parts| >= 3 {
        SplitLengths(rest);
        assert |parts[1] + "-" + parts[2]| < |name|;
      }
    }
  }

  lemma SplitLengths(s: string)
    requires |Split(s)| >= 2
    ensures |Split(s)[0]| + 1 + |Split(s)[1]| <= |s|
  {
  }

  lemma FamilyFold(a: string, b: string)
    requires EqualFold(a, b)
    ensures IsFamily(a) <==> IsFamily(b)
  {
    FamilyHasNoHyphen(a);
    FamilyHasNoHyphen(b);
    LowerHyphen(a);
    LowerHyphen(b);
  }

  /** Product-of does not see case, on either side. */
  lemma ProductFold(p: string, p': string, f: string, f': string)
    requires EqualFold(p, p') && EqualFold(f, f')
    ensures IsProductOf(p, f) <==> IsProductOf(p', f')
  {
    FamilyFold(p, p');
    FamilyFold(f, f');
    NormalizeFold(p, p');
  }

  lemma CoversFold(k: string, k': string, n: string, n': string)
    requires EqualFold(k, k') && EqualFold(n, n')
    ensures Covers(k, n) <==> Covers(k', n')
  {
    ProductFold(n, n', k, k');
  }

  /** Covers is a preorder whose only cycles are case spellings of one name. */
  lemma CoversPreorder(a: string, b: string, c: string)
    ensures Covers(a, a)
    ensures Covers(a, b) && Covers(b, c) ==> Covers(a, c)
    ensures Covers(a, b) && Covers(b, a) <==> EqualFold(a, b)
  {
    if Covers(a, b) && Covers(b, c) {
      if EqualFold(a, b) {
        CoversFold(a, b, c, c);
      } else if EqualFold(b, c) {
        CoversFold(a, a, b, c);
      }
    }
  }

  /** A product has at most one family, up to case, and is never a family. */
  lemma OneFamily(p: string, f: string, f': string)
    requires IsProductOf(p, f)
    ensures IsProductOf(p, f') <==> EqualFold(f, f')
    ensures !IsProductOf(f', p) && !EqualFold(p, f)
  {
    if EqualFold(f, f') {
      ProductFold(p, p, f, f');
    }
    if EqualFold(p, f) {
      FamilyFold(p, f);
    }
  }

  // A product nobody lists.

  function Candidate(vendor: string, family: string): string {
    vendor + "-" + family + "-unlisted-product"
  }

  /** The first vendor spelling that is a product of the family. */
  function UnlistedProduct(family: string): (r: (string, bool)) {
    if IsProductOf(Candidate("NVIDIA", family), family) then (Candidate("NVIDIA", family), true)
    else if IsProductOf(Candidate("Intel", family), family) then (Candidate("Intel", family), true)
    else if IsProductOf(Candidate("AMD", family), family) then (Candidate("AMD", family), true)
    else if IsProductOf(Candidate("vendor", family), family) then (Candidate("vendor", family), true)
    else ("", false)
  }

  lemma NormalizeFour(a: string, b: string, c: string)
    requires '-' !in a && '-' !in b
    ensures '-' in a + "-" + b + "-" + c
    ensures Normalize(a + "-" + b + "-" + c) == Model([a, b] + Split(c))
  {
    hide Split, Model;
    var rest := b + "-" + c;
    var name := a + "-" + rest;
    assert a + "-" + b + "-" + c == name;
    assert name[|a|] == '-';
    SplitCons(a, rest);
    SplitCons(b, c);
    assert Split(name) == [a, b] + Split(c);
  }

  /** What a vendor spelling is short for, whatever follows: the part after the
      vendor; the one after the brand for NVIDIA's Tesla family; two parts for
      Intel. The vendor's case does not matter, and any other vendor is read like
      AMD. */
  lemma ShortNames(vendor: string, b: string, c: string, tail: string)
    requires '-' !in vendor && '-' !in b && '-' !in c && (tail == "" || tail[0] == '-')
    ensures Normalize(vendor + "-" + b) == b
    ensures Normalize(vendor + "-" + b + "-" + (c + tail))
         == if EqualFold(vendor, "NVIDIA") && EqualFold(b, "tesla") then c
            else if EqualFold(vendor, "Intel") then b + "-" + c
            else b
  {
    hide Split, EqualFold;
    NormalizeTwo(vendor, b);
    FirstPart(c, tail);
    NormalizeFour(vendor, b, c + tail);
    hide Normalize;
    VendorModel(vendor, b, Split(c + tail));
  }

  lemma FirstPart(c: string, tail: string)
    requires '-' !in c && (tail == "" || tail[0] == '-')
    ensures Split(c + tail)[0] == c
  {
    hide Split;
    if tail == "" {
      assert c + tail == c;
      SplitAlone(c);
    } else {
      assert c + tail == c + "-" + tail[1..];
      SplitCons(c, tail[1..]);
    }
  }

  lemma NormalizeTwo(vendor: string, b: string)
    requires '-' !in vendor && '-' !in b
    ensures Normalize(vendor + "-" + b) == b
  {
    hide Split;
    var name := vendor + "-" + b;
    assert name[|vendor|] == '-';
    SplitCons(vendor, b);
    SplitAlone(b);
    assert Split(name) == [vendor, b];
  }

  lemma UpperFold(a: string, b: string)
    ensures Upper(a) == Upper(b) <==> EqualFold(a, b)
  {
    if Upper(a) == Upper(b) {
      forall i | 0 <= i < |a|
        ensures LowerChar(a[i]) == LowerChar(b[i])
      {
        assert Upper(a)[i] == Upper(b)[i];
      }
    }
    if EqualFold(a, b) {
      forall i | 0 <= i < |a|
        ensures UpperChar(a[i]) == UpperChar(b[i])
      {
        assert Lower(a)[i] == Lower(b)[i];
      }
    }
  }

  lemma VendorModel(vendor: string, b: string, rest: seq<string>)
    requires |rest| >= 1
    ensures Model([vendor, b] + rest)
         == if EqualFold(vendor, "NVIDIA") && EqualFold(b, "tesla") then rest[0]
            else if EqualFold(vendor, "Intel") then b + "-" + rest[0] else b
  {
    var parts := [vendor, b] + rest;
    assert parts[0] == vendor && parts[1] == b && parts[2] == rest[0];
    assert Upper("NVIDIA") == "NVIDIA" && Upper("Intel") == "INTEL";
    UpperFold(vendor, "NVIDIA");
    UpperFold(vendor, "Intel");
    assert |"NVIDIA"| != |"INTEL"|;
    hide EqualFold, Upper;
  }

  lemma AmdProduct(family: string, tail: string)
    requires '-' !in family
    ensures IsProductOf("AMD" + "-" + family + "-" + tail, family)
  {
    hide Split;
    NormalizeFour("AMD", family, tail);
    assert Upper("AMD") == "AMD";
    FamilyHasNoHyphen("AMD" + "-" + family + "-" + tail);
    FamilyHasNoHyphen(family);
  }

  /** An unlisted product exists exactly for the families, "tesla" included. */
  lemma UnlistedProductExact(family: string)
    ensures var (name, ok) := UnlistedProduct(family);
      && (ok <==> '-' !in family)
      && (ok ==> IsProductOf(name, family))
  {
    hide Normalize, EqualFold, Candidate;
    FamilyHasNoHyphen(family);
    if '-' !in family {
      AmdProduct(family, "unlisted-product");
      CandidateShape("AMD", family);
    }
  }

  lemma CandidateShape(vendor: string, family: string)
    ensures Candidate(vendor, family) == vendor + "-" + family + "-" + "unlisted-product"
  {
    assert "-" + "unlisted-product" == "-unlisted-product";
  }

  /** The brand word is not taken for a model: the NVIDIA spelling reads as a
      product of "unlisted", the Intel one as one of a name with a hyphen. */
  lemma TeslaSkipsTwoVendors()
    ensures UnlistedProduct("tesla") == (Candidate("AMD", "tesla"), true)
  {
    hide Candidate, IsProductOf;
    NotOfTesla("NVIDIA");
    NotOfTesla("Intel");
    CandidateShape("AMD", "tesla");
    AmdProduct("tesla", "unlisted-product");
  }

  lemma NotOfTesla(vendor: string)
    requires vendor == "NVIDIA" || vendor == "Intel"
    ensures !IsProductOf(Candidate(vendor, "tesla"), "tesla")
  {
    hide Split, Candidate, Model, EqualFold, IsFamily;
    CandidateShape(vendor, "tesla");
    NormalizeFour(vendor, "tesla", "unlisted-product");
    TeslaModels();
  }

  lemma TeslaModels()
    ensures !EqualFold(Model(["NVIDIA", "tesla"] + Split("unlisted-product")), "tesla")
    ensures !EqualFold(Model(["Intel", "tesla"] + Split("unlisted-product")), "tesla")
  {
    hide Split;
    assert "unlisted" + "-" + "product" == "unlisted-product";
    SplitCons("unlisted", "product");
    SplitAlone("product");
    assert ["unlisted"] + ["product"] == ["unlisted", "product"];
    TeslaModel("NVIDIA");
    TeslaModel("Intel");
  }

  lemma TeslaModel(vendor: string)
    requires vendor == "NVIDIA" || vendor == "Intel"
    ensures !EqualFold(Model([vendor, "tesla"] + ["unlisted", "product"]), "tesla")
  {
    assert Upper("NVIDIA") == "NVIDIA" && Upper("Intel") == "INTEL";
    var parts := [vendor, "tesla"] + ["unlisted", "product"];
    assert parts[0] == vendor && parts[1] == "tesla" && parts[2] == "unlisted";
    assert |Model(parts)| != |"tesla"|;
  }

  lemma SplitAlone(s: string)
    requires '-' !in s
    ensures Split(s) == [s]
  {
  }
}

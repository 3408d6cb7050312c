/** Sorted vectors of levels and their lexicographic order: the leximin order
    on allocations. */
module Leximin {
  import opened PlannerTypes

  ghost predicate Ascending(s: seq<Level>) {
    forall i, j :: 0 <= i < j < |s| ==> AtMost(s[i], s[j])
  }

  function InsertLevel(x: Level, s: seq<Level>): (out: seq<Level>)
    ensures multiset(out) == multiset{x} + multiset(s) && |out| == |s| + 1
  {
    if s == [] then [x]
    else
      assert s == [s[0]] + s[1..];
      if AtMost(x, s[0]) then [x] + s else [s[0]] + InsertLevel(x, s[1..])
  }

  function SortLevels(s: seq<Level>): (out: seq<Level>)
    ensures multiset(out) == multiset(s) && |out| == |s|
  {
    if s == [] then []
    else
      assert s == [s[0]] + s[1..];
      InsertLevel(s[0], SortLevels(s[1..]))
  }

  lemma {:induction false} InsertAscending(x: Level, s: seq<Level>)
    requires Ascending(s)
    ensures Ascending(InsertLevel(x, s))
  {
    if s != [] && !AtMost(x, s[0]) {
      hide AtMost;
      var rest := InsertLevel(x, s[1..]);
      InsertAscending(x, s[1..]);
      AboveHead(x, s);
      hide InsertLevel;
      AscendingCons(s[0], rest);
    } else {
      AscendingFirst(x, s);
    }
  }

  lemma AscendingCons(x: Level, s: seq<Level>)
    requires Ascending(s) && forall j :: 0 <= j < |s| ==> AtMost(x, s[j])
    ensures Ascending([x] + s)
  {
    hide AtMost;
  }

  lemma AscendingFirst(x: Level, s: seq<Level>)
    requires Ascending(s) && (s != [] ==> AtMost(x, s[0]))
    ensures Ascending([x] + s)
  {
    forall j | 0 <= j < |s|
      ensures AtMost(x, s[j])
    {
      assert j > 0 ==> AtMost(s[0], s[j]);
    }
    AscendingCons(x, s);
  }

  /** Nothing of what follows the head comes before it. */
  lemma AboveHead(x: Level, s: seq<Level>)
    requires s != [] && Ascending(s) && !AtMost(x, s[0])
    ensures forall j :: 0 <= j < |InsertLevel(x, s[1..])| ==> AtMost(s[0], InsertLevel(x, s[1..])[j])
  {
    hide InsertLevel;
    var rest := InsertLevel(x, s[1..]);
    forall j | 0 <= j < |rest|
      ensures AtMost(s[0], rest[j])
    {
      assert rest[j] in multiset(rest);
      assert rest[j] == x || rest[j] in s[1..];
    }
  }

  lemma {:induction false} SortAscending(s: seq<Level>)
    ensures Ascending(SortLevels(s))
  {
    if s != [] {
      SortAscending(s[1..]);
      InsertAscending(s[0], SortLevels(s[1..]));
    }
  }

  /** How many entries are at most v. */
  function Count(s: seq<Level>, v: Level): (c: nat)
    ensures c <= |s|
  {
    if s == [] then 0 else (if AtMost(s[0], v) then 1 else 0) + Count(s[1..], v)
  }

  lemma {:induction false} CountInsert(x: Level, s: seq<Level>, v: Level)
    ensures Count(InsertLevel(x, s), v) == Count(s, v) + (if AtMost(x, v) then 1 else 0)
  {
    if s != [] {
      if AtMost(x, s[0]) {
        assert ([x] + s)[1..] == s;
      } else {
        CountInsert(x, s[1..], v);
        assert ([s[0]] + InsertLevel(x, s[1..]))[1..] == InsertLevel(x, s[1..]);
      }
    }
  }

  lemma {:induction false} CountSort(s: seq<Level>, v: Level)
    ensures Count(SortLevels(s), v) == Count(s, v)
  {
    if s != [] {
      CountSort(s[1..], v);
      CountInsert(s[0], SortLevels(s[1..]), v);
    }
  }

  lemma {:induction false} CountUpdate(s: seq<Level>, i: nat, x: Level, v: Level)
    requires i < |s|
    ensures Count(s[i := x], v)
         == Count(s, v) - (if AtMost(s[i], v) then 1 else 0) + (if AtMost(x, v) then 1 else 0)
  {
    if i == 0 {
      assert s[0 := x][1..] == s[1..];
    } else {
      assert s[i := x][1..] == s[1..][i - 1 := x];
      CountUpdate(s[1..], i - 1, x, v);
    }
  }

  /** In ascending order the entries at most v are exactly the first Count ones. */
  lemma {:induction false} CountPosition(s: seq<Level>, v: Level, i: nat)
    requires Ascending(s) && i < |s|
    ensures AtMost(s[i], v) <==> i < Count(s, v)
  {
    if i > 0 {
      CountPosition(s[1..], v, i - 1);
    } else if !AtMost(s[0], v) {
      CountNone(s, v);
    }
  }

  lemma {:induction false} CountNone(s: seq<Level>, v: Level)
    requires forall i :: 0 <= i < |s| ==> !AtMost(s[i], v)
    ensures Count(s, v) == 0
  {
    if s != [] {
      CountNone(s[1..], v);
    }
  }

  ghost predicate LexLess(a: seq<Level>, b: seq<Level>) {
    |a| == |b| && exists p :: LexAt(a, b, p)
  }

  ghost predicate LexAt(a: seq<Level>, b: seq<Level>, p: nat)
    requires |a| == |b|
  {
    p < |a| && a[..p] == b[..p] && Below(a[p], b[p])
  }

  lemma LexTransitive(a: seq<Level>, b: seq<Level>, c: seq<Level>)
    requires LexLess(a, b) && LexLess(b, c)
    ensures LexLess(a, c)
  {
    var p: nat :| LexAt(a, b, p);
    var q: nat :| LexAt(b, c, q);
    var m := if p <= q then p else q;
    assert a[..m] == a[..p][..m] == b[..p][..m] == b[..m];
    assert b[..m] == b[..q][..m] == c[..q][..m] == c[..m];
    if p < q {
      assert b[p] == b[..q][p] == c[..q][p] == c[p];
    } else if q < p {
      assert a[q] == a[..p][q] == b[..p][q] == b[q];
    }
    assert LexAt(a, c, m);
  }

  lemma LexIrreflexive(a: seq<Level>)
    ensures !LexLess(a, a)
  {
  }

  /** Fewer entries at m and the same entries below m make the sorted vector larger. */
  lemma CountsLex(s: seq<Level>, u: seq<Level>, m: Level)
    requires |s| == |u|
    requires forall v :: Below(v, m) ==> Count(s, v) == Count(u, v)
    requires Count(u, m) < Count(s, m)
    ensures LexLess(SortLevels(s), SortLevels(u))
  {
    hide SortLevels, Count;
    var a, b := SortLevels(s), SortLevels(u);
    SortAscending(s);
    SortAscending(u);
    var p := Count(u, m);
    CountSort(s, m);
    CountSort(u, m);
    CountPosition(a, m, p);
    CountPosition(b, m, p);
    forall i | 0 <= i < p
      ensures a[i] == b[i]
    {
      CountPosition(a, m, i);
      CountPosition(b, m, i);
      SameBelow(s, u, m, i);
      SameBelow(u, s, m, i);
    }
    assert a[..p] == b[..p];
    assert LexAt(a, b, p);
  }

  lemma SameBelow(s: seq<Level>, u: seq<Level>, m: Level, i: nat)
    requires i < |s| == |u| && forall v :: Below(v, m) ==> Count(s, v) == Count(u, v)
    ensures var a, b := SortLevels(s), SortLevels(u); Below(a[i], m) ==> AtMost(b[i], a[i])
  {
    var a, b := SortLevels(s), SortLevels(u);
    SortAscending(s);
    SortAscending(u);
    CountPosition(a, a[i], i);
    CountPosition(b, a[i], i);
    CountSort(s, a[i]);
    CountSort(u, a[i]);
  }

  /** Changing two entries so that their minimum rises makes the sorted vector
      lexicographically larger. */
  lemma PairRaisesLex(s: seq<Level>, i: nat, j: nat, x: Level, y: Level)
    requires i < |s| && j < |s| && i != j
    requires Below(LeastOf(s[i], s[j]), LeastOf(x, y))
    ensures LexLess(SortLevels(s), SortLevels(s[i := x][j := y]))
  {
    var m, u := LeastOf(s[i], s[j]), s[i := x][j := y];
    forall v
      ensures Below(v, m) ==> Count(s, v) == Count(u, v)
    {
      CountUpdate(s, i, x, v);
      CountUpdate(s[i := x], j, y, v);
    }
    CountUpdate(s, i, x, m);
    CountUpdate(s[i := x], j, y, m);
    CountsLex(s, u, m);
  }
}

/** Sums over a role-indexed table, and whole multiples of a replica. */
module Tables {
  function Times(k: int, g: int): int { k * g }

  ghost predicate Whole(a: int, g: int) {
    exists k :: a == Times(k, g)
  }

  lemma WholeStep(a: int, g: int)
    requires Whole(a, g)
    ensures Whole(a + g, g) && Whole(a - g, g)
  {
    var k :| a == Times(k, g);
    assert a + g == Times(k + 1, g) && a - g == Times(k - 1, g);
  }

  lemma WholeZero(g: int)
    ensures Whole(0, g)
  {
    assert Times(0, g) == 0;
  }

  /** Two different multiples of g are at least g apart. */
  lemma WholeGap(a: int, b: int, g: int)
    requires g > 0 && Whole(a, g) && Whole(b, g) && a < b
    ensures a + g <= b
  {
    var p, q :| a == Times(p, g) && b == Times(q, g);
    var d := q - p;
    assert b - a == d * g;
    WholeSize(d, g);
  }

  lemma {:induction false} WholeSize(d: int, g: int)
    requires g > 0
    ensures if d <= 0 then d * g <= 0 else d * g >= g
    decreases if d < 0 then -d else d
  {
    if d > 1 {
      WholeSize(d - 1, g);
    } else if d < 0 {
      WholeSize(d + 1, g);
    }
  }

  function Sum(s: seq<int>): int {
    if |s| == 0 then 0 else Sum(s[..|s| - 1]) + s[|s| - 1]
  }

  lemma {:induction false} SumUpdate(s: seq<int>, i: nat, v: int)
    requires i < |s|
    ensures Sum(s[i := v]) == Sum(s) - s[i] + v
  {
    var n := |s| - 1;
    assert s[i := v][..n] == if i < n then s[..n][i := v] else s[..n];
    if i < n {
      SumUpdate(s[..n], i, v);
    }
  }

  lemma {:induction false} SumBelow(s: seq<int>, u: seq<int>)
    requires |s| == |u|
    requires forall i :: 0 <= i < |s| ==> s[i] <= u[i]
    ensures Sum(s) <= Sum(u)
  {
    if |s| > 0 {
      SumBelow(s[..|s| - 1], u[..|u| - 1]);
    }
  }

  /** A table that is nowhere smaller and at one place larger by d has a sum larger by d. */
  lemma SumGain(s: seq<int>, u: seq<int>, i: nat, d: int)
    requires i < |s| == |u|
    requires forall k :: 0 <= k < |s| ==> s[k] <= u[k]
    requires s[i] + d <= u[i]
    ensures Sum(s) + d <= Sum(u)
  {
    var v := u[i := u[i] - d];
    SumUpdate(u, i, u[i] - d);
    SumBelow(s, v);
  }
}

/** The greedy leveller: whole replicas, one at a time, to the role with the
    least headroom. */
module IntegerTargets {
  import opened Lexical
  import opened PlannerTypes
  import opened Tables

  ghost predicate Shaped(roles: seq<Role>, need: seq<real>, G: seq<int>) {
    ValidRoles(roles) && |need| == |roles| && |G| == |roles|
  }

  function Floors(roles: seq<Role>): (G: seq<int>)
    ensures |G| == |roles| && forall r :: 0 <= r < |G| ==> G[r] == roles[r].floor
  {
    seq(|roles|, r requires 0 <= r < |roles| => roles[r].floor)
  }

  predicate Candidate(roles: seq<Role>, need: seq<real>, left: int, r: int)
    requires |need| == |roles|
  {
    0 <= r < |roles| && need[r] > 0.0 && roles[r].g <= left
  }

  function ZOf(roles: seq<Role>, need: seq<real>, G: seq<int>, r: int): Level
    requires Shaped(roles, need, G) && 0 <= r < |roles|
  {
    Z(G[r] as real, need[r], roles[r].w)
  }

  predicate KeyBefore(roles: seq<Role>, need: seq<real>, G: seq<int>, a: int, b: int)
    requires Shaped(roles, need, G) && 0 <= a < |roles| && 0 <= b < |roles|
  {
    var za, zb := ZOf(roles, need, G, a), ZOf(roles, need, G, b);
    || Below(za, zb)
    || (za == zb && (|| roles[a].w > roles[b].w
                     || (roles[a].w == roles[b].w && Precedes(roles[a].name, roles[b].name))))
  }

  lemma KeyBeforeTransitive(roles: seq<Role>, need: seq<real>, G: seq<int>, a: int, b: int, c: int)
    requires Shaped(roles, need, G) && 0 <= a < |roles| && 0 <= b < |roles| && 0 <= c < |roles|
    requires KeyBefore(roles, need, G, a, b) && KeyBefore(roles, need, G, b, c)
    ensures KeyBefore(roles, need, G, a, c)
  {
    if Precedes(roles[a].name, roles[b].name) && Precedes(roles[b].name, roles[c].name) {
      PrecedesTransitive(roles[a].name, roles[b].name, roles[c].name);
    }
  }

  /** The candidate among the first n roles that no other comes before; -1 without one. */
  function Pick(roles: seq<Role>, need: seq<real>, G: seq<int>, left: int, n: nat): (r: int)
    requires Shaped(roles, need, G) && n <= |roles|
    ensures -1 <= r < n
    ensures r >= 0 ==> Candidate(roles, need, left, r)
    ensures forall j :: 0 <= j < n && Candidate(roles, need, left, j) ==> r >= 0 && !KeyBefore(roles, need, G, j, r)
  {
    if n == 0 then -1
    else
      var best := Pick(roles, need, G, left, n - 1);
      if !Candidate(roles, need, left, n - 1) then best
      else if best < 0 then PrecedesIrreflexive(roles[n - 1].name); n - 1
      else if KeyBefore(roles, need, G, n - 1, best) then
        assert forall j :: 0 <= j < n - 1 && Candidate(roles, need, left, j)
                           ==> !KeyBefore(roles, need, G, j, n - 1) by {
          forall j | 0 <= j < n - 1 && Candidate(roles, need, left, j) && KeyBefore(roles, need, G, j, n - 1)
            ensures false
          {
            KeyBeforeTransitive(roles, need, G, j, n - 1, best);
          }
        }
        PrecedesIrreflexive(roles[n - 1].name);
        n - 1
      else best
  }

  function Greedy(roles: seq<Role>, need: seq<real>, G: seq<int>, left: int): (H: seq<int>)
    requires Shaped(roles, need, G)
    ensures |H| == |roles|
    decreases if left < 0 then 0 else left
  {
    var r := Pick(roles, need, G, left, |roles|);
    if r < 0 then G else Greedy(roles, need, G[r := G[r] + roles[r].g], left - roles[r].g)
  }

  function Integer(roles: seq<Role>, need: seq<real>, B: int): (H: seq<int>)
    requires ValidRoles(roles) && |need| == |roles|
    ensures |H| == |roles|
  {
    Greedy(roles, need, Floors(roles), B - Sum(Floors(roles)))
  }

  /** The loop of the source. */
  method IntegerTargetsLoop(roles: seq<Role>, need: seq<real>, B: int) returns (G: seq<int>)
    requires ValidRoles(roles) && |need| == |roles|
    ensures G == Integer(roles, need, B)
  {
    hide Pick, KeyBefore;
    G := Floors(roles);
    var left := B - Sum(G);
    var r := Pick(roles, need, G, left, |roles|);
    while r >= 0
      invariant |G| == |roles|
      invariant r == Pick(roles, need, G, left, |roles|)
      invariant Greedy(roles, need, G, left) == Integer(roles, need, B)
      decreases if left < 0 then 0 else left, r
    {
      G, left := G[r := G[r] + roles[r].g], left - roles[r].g;
      r := Pick(roles, need, G, left, |roles|);
    }
  }

  // Who comes first.

  /** The choice spelled out: a role with need whose replica the budget buys, with
      the smallest z; among those the heaviest; among those no name precedes it. */
  lemma PickFirst(roles: seq<Role>, need: seq<real>, G: seq<int>, left: int)
    requires Shaped(roles, need, G)
    ensures var r := Pick(roles, need, G, left, |roles|);
      && (r < 0 <==> forall j :: 0 <= j < |roles| ==> need[j] <= 0.0 || roles[j].g > left)
      && (r >= 0 ==> need[r] > 0.0 && roles[r].g <= left)
      && forall j :: r >= 0 && 0 <= j < |roles| && j != r && need[j] > 0.0 && roles[j].g <= left ==>
           var zr, zj := Z(G[r] as real, need[r], roles[r].w), Z(G[j] as real, need[j], roles[j].w);
           || Below(zr, zj)
           || (zr == zj && (roles[r].w > roles[j].w
                            || (roles[r].w == roles[j].w && !Precedes(roles[j].name, roles[r].name))))
  {
    hide Pick, Z, Precedes;
    var r := Pick(roles, need, G, left, |roles|);
    forall j | 0 <= j < |roles| && need[j] > 0.0 && roles[j].g <= left
      ensures r >= 0 && !KeyBefore(roles, need, G, j, r)
    {
      assert Candidate(roles, need, left, j);
    }
  }

  /** At the same holding and need the heavier role has no larger z. */
  lemma ZWeight(G: real, N: real, w: real, v: real)
    requires N > 0.0 && w >= v > 0.0
    ensures AtMost(Z(G, N, w), Z(G, N, v))
  {
    var x := G / N - 1.0;
    if x < 0.0 {
      assert (w - v) * (-x) >= 0.0;
    } else {
      SmallerShare(x, w, v);
    }
  }

  lemma SmallerShare(x: real, w: real, v: real)
    requires x >= 0.0 && w >= v > 0.0
    ensures x / w <= x / v
  {
    var p := x / w;
    assert p >= 0.0;
    assert p * w == x;
    ScaleMonotone(v, w, p);
    assert v * p <= w * p;
    DivideUndo(p, v);
    if p * v < x {
      DivideMonotone(p * v, x, v);
    }
  }

  /** Two roles alike but for weight and name, and a comes before b. */
  ghost predicate Before(roles: seq<Role>, need: seq<real>, a: nat, b: nat) {
    && a < |roles| && b < |roles| && |need| == |roles|
    && roles[a].g == roles[b].g && roles[a].floor == roles[b].floor && need[a] == need[b]
    && (roles[a].w > roles[b].w || (roles[a].w == roles[b].w && Precedes(roles[a].name, roles[b].name)))
  }

  /** a holds at least what b holds, by whole replicas; of equal weight, at most
      one more. */
  ghost predicate Ahead(roles: seq<Role>, G: seq<int>, a: nat, b: nat)
    requires a < |roles| && b < |roles| && |G| == |roles|
  {
    && G[b] <= G[a] && Whole(G[a] - G[b], roles[a].g)
    && (roles[a].w == roles[b].w ==> G[a] <= G[b] + roles[a].g)
  }

  lemma AheadStep(roles: seq<Role>, need: seq<real>, G: seq<int>, left: int, a: nat, b: nat)
    requires Shaped(roles, need, G) && Before(roles, need, a, b) && Ahead(roles, G, a, b)
    requires Pick(roles, need, G, left, |roles|) >= 0
    ensures var r := Pick(roles, need, G, left, |roles|);
      Ahead(roles, G[r := G[r] + roles[r].g], a, b)
  {
    PickFirst(roles, need, G, left);
    hide Pick, Z, Whole, Precedes;
    var r, g := Pick(roles, need, G, left, |roles|), roles[a].g;
    WholeStep(G[a] - G[b], g);
    if r == b {
      if G[a] == G[b] {
        ZWeight(G[a] as real, need[a], roles[a].w, roles[b].w);
        assert false;
      }
      WholeZero(g);
      WholeGap(0, G[a] - G[b], g);
    } else if r == a && roles[a].w == roles[b].w && G[a] > G[b] {
      ZStrict(G[b] as real, G[a] as real, need[a], roles[a].w);
      assert false;
    }
  }

  lemma {:induction false} GreedyAhead(roles: seq<Role>, need: seq<real>, G: seq<int>, left: int, a: nat, b: nat)
    requires Shaped(roles, need, G) && Before(roles, need, a, b) && Ahead(roles, G, a, b)
    ensures Ahead(roles, Greedy(roles, need, G, left), a, b)
    decreases if left < 0 then 0 else left
  {
    hide Pick, Ahead, Before;
    var r := Pick(roles, need, G, left, |roles|);
    if r >= 0 {
      AheadStep(roles, need, G, left, a, b);
      GreedyAhead(roles, need, G[r := G[r] + roles[r].g], left - roles[r].g, a, b);
    }
  }

  /** For every budget: of two roles with the same replica size, floor and need the
      heavier never gets less; of the same weight too, the one whose name precedes
      never gets less, and at most one replica more. */
  lemma HeavierNeverLess(roles: seq<Role>, need: seq<real>, B: int, a: nat, b: nat)
    requires ValidRoles(roles) && a < |roles| && b < |roles| && |need| == |roles|
    requires roles[a].g == roles[b].g && roles[a].floor == roles[b].floor && need[a] == need[b]
    requires roles[a].w > roles[b].w || (roles[a].w == roles[b].w && Precedes(roles[a].name, roles[b].name))
    ensures var H := Integer(roles, need, B);
      H[b] <= H[a] && (roles[a].w == roles[b].w ==> H[a] <= H[b] + roles[a].g)
  {
    hide Greedy;
    WholeZero(roles[a].g);
    GreedyAhead(roles, need, Floors(roles), B - Sum(Floors(roles)), a, b);
  }

  // What the greedy spends.

  /** A budget that covers the start is never overspent, a smaller one is not
      spent at all, and what is left buys no replica for a role with need. */
  lemma {:induction false} GreedySpending(roles: seq<Role>, need: seq<real>, G: seq<int>, left: int)
    requires Shaped(roles, need, G)
    ensures var H := Greedy(roles, need, G, left);
      && (left >= 0 ==> Sum(H) <= Sum(G) + left)
      && (left < 0 ==> H == G)
      && forall r :: 0 <= r < |roles| && need[r] > 0.0 ==> Sum(G) + left - Sum(H) < roles[r].g
    decreases if left < 0 then 0 else left
  {
    hide Pick, KeyBefore;
    var r := Pick(roles, need, G, left, |roles|);
    if r >= 0 {
      var G' := G[r := G[r] + roles[r].g];
      SumUpdate(G, r, G[r] + roles[r].g);
      GreedySpending(roles, need, G', left - roles[r].g);
    } else {
      forall q | 0 <= q < |roles| && need[q] > 0.0
        ensures left < roles[q].g
      {
        assert !Candidate(roles, need, left, q);
      }
    }
  }

  /** Greedy only adds whole replicas, and none to a role without need. */
  lemma {:induction false} GreedyWhole(roles: seq<Role>, need: seq<real>, G: seq<int>, left: int, q: nat)
    requires Shaped(roles, need, G) && q < |roles|
    ensures var H := Greedy(roles, need, G, left);
      && H[q] >= G[q] && Whole(H[q] - G[q], roles[q].g)
      && (need[q] <= 0.0 ==> H[q] == G[q])
    decreases if left < 0 then 0 else left
  {
    hide Pick, KeyBefore;
    var r := Pick(roles, need, G, left, |roles|);
    if r >= 0 {
      var G' := G[r := G[r] + roles[r].g];
      GreedyWhole(roles, need, G', left - roles[r].g, q);
      if r == q {
        WholeStep(Greedy(roles, need, G, left)[q] - G'[q], roles[q].g);
      }
    } else {
      WholeZero(roles[q].g);
    }
  }

  /** The whole contract of the integer target: floors kept, whole replicas, no
      overspending, nothing affordable left. */
  lemma IntegerSpending(roles: seq<Role>, need: seq<real>, B: int)
    requires ValidRoles(roles) && |need| == |roles|
    ensures var H := Integer(roles, need, B);
      && (forall r :: 0 <= r < |roles| ==>
            && H[r] >= roles[r].floor && Whole(H[r] - roles[r].floor, roles[r].g)
            && (need[r] <= 0.0 ==> H[r] == roles[r].floor)
            && (need[r] > 0.0 ==> B - Sum(H) < roles[r].g))
      && (Sum(Floors(roles)) <= B ==> Sum(H) <= B)
      && (Sum(Floors(roles)) > B ==> H == Floors(roles))
  {
    var G, left := Floors(roles), B - Sum(Floors(roles));
    GreedySpending(roles, need, G, left);
    forall r | 0 <= r < |roles|
      ensures Greedy(roles, need, G, left)[r] >= G[r]
      ensures Whole(Greedy(roles, need, G, left)[r] - G[r], roles[r].g)
      ensures need[r] <= 0.0 ==> Greedy(roles, need, G, left)[r] == G[r]
    {
      GreedyWhole(roles, need, G, left, r);
    }
  }

  /** With equal replica sizes a larger budget gives every role at least as much. */
  lemma {:induction false} GreedyMonotone(roles: seq<Role>, need: seq<real>, G: seq<int>, left: int, more: int, g: int, q: nat)
    requires Shaped(roles, need, G) && EqualSizes(roles, g) && left <= more && q < |roles|
    ensures Greedy(roles, need, G, left)[q] <= Greedy(roles, need, G, more)[q]
    decreases if left < 0 then 0 else left
  {
    hide Pick, KeyBefore;
    var r := Pick(roles, need, G, left, |roles|);
    if r >= 0 {
      PickSame(roles, need, G, left, more, |roles|);
      GreedyMonotone(roles, need, G[r := G[r] + g], left - g, more - g, g, q);
    } else {
      GreedyWhole(roles, need, G, more, q);
    }
  }

  /** The pick sees a budget only through the candidates it affords. */
  lemma {:induction false} PickSame(roles: seq<Role>, need: seq<real>, G: seq<int>, left: int, more: int, n: nat)
    requires Shaped(roles, need, G) && n <= |roles|
    requires forall j :: 0 <= j < n ==> (Candidate(roles, need, left, j) <==> Candidate(roles, need, more, j))
    ensures Pick(roles, need, G, left, n) == Pick(roles, need, G, more, n)
  {
    hide KeyBefore;
    if n > 0 {
      PickSame(roles, need, G, left, more, n - 1);
    }
  }

  lemma IntegerMonotone(roles: seq<Role>, need: seq<real>, B: int, B': int, g: int)
    requires ValidRoles(roles) && |need| == |roles| && EqualSizes(roles, g) && B <= B'
    ensures forall r :: 0 <= r < |roles| ==> Integer(roles, need, B)[r] <= Integer(roles, need, B')[r]
  {
    var G := Floors(roles);
    forall r | 0 <= r < |roles|
      ensures Integer(roles, need, B)[r] <= Integer(roles, need, B')[r]
    {
      GreedyMonotone(roles, need, G, B - Sum(G), B' - Sum(G), g, r);
    }
  }

  // Max-min optimality.

  /** The smallest z of an allocation; a role without need counts as infinite. */
  function SmallestZ(roles: seq<Role>, need: seq<real>, G: seq<int>, n: nat): (m: Level)
    requires Shaped(roles, need, G) && n <= |roles|
    ensures forall r :: 0 <= r < n ==> AtMost(m, ZOf(roles, need, G, r))
    ensures m == Infinite || exists r :: 0 <= r < n && need[r] > 0.0 && m == ZOf(roles, need, G, r)
  {
    if n == 0 then Infinite
    else LeastOf(SmallestZ(roles, need, G, n - 1), ZOf(roles, need, G, n - 1))
  }

  /** Every replica above the floors went to a role that was lowest when it was
      given, so taking it back would put that role at or below every other. */
  ghost predicate Levelled(roles: seq<Role>, need: seq<real>, G: seq<int>) {
    && Shaped(roles, need, G)
    && forall r, q :: 0 <= r < |roles| && 0 <= q < |roles| && G[r] > roles[r].floor && need[q] > 0.0 ==>
         AtMost(Z((G[r] - roles[r].g) as real, need[r], roles[r].w), ZOf(roles, need, G, q))
  }

  lemma FloorsLevelled(roles: seq<Role>, need: seq<real>)
    requires ValidRoles(roles) && |need| == |roles|
    ensures Levelled(roles, need, Floors(roles))
  {
  }

  lemma {:induction false} GreedyLevels(roles: seq<Role>, need: seq<real>, G: seq<int>, left: int, g: int)
    requires Shaped(roles, need, G) && Levelled(roles, need, G) && EqualSizes(roles, g)
    ensures Levelled(roles, need, Greedy(roles, need, G, left))
    decreases if left < 0 then 0 else left
  {
    hide Pick, Levelled;
    var r := Pick(roles, need, G, left, |roles|);
    if r >= 0 {
      LevelStep(roles, need, G, left, g, r);
      GreedyLevels(roles, need, G[r := G[r] + g], left - g, g);
    }
  }

  lemma LevelStep(roles: seq<Role>, need: seq<real>, G: seq<int>, left: int, g: int, r: nat)
    requires Levelled(roles, need, G) && EqualSizes(roles, g) && r < |roles|
    requires r == Pick(roles, need, G, left, |roles|)
    ensures Levelled(roles, need, G[r := G[r] + g])
  {
    hide Pick;
    var G' := G[r := G[r] + g];
    forall p, q | 0 <= p < |roles| && 0 <= q < |roles| && G'[p] > roles[p].floor && need[q] > 0.0
      ensures AtMost(Z((G'[p] - g) as real, need[p], roles[p].w), ZOf(roles, need, G', q))
    {
      assert Candidate(roles, need, left, q);
      assert !KeyBefore(roles, need, G, q, r);
      ZMonotone(G[q] as real, G'[q] as real, need[q], roles[q].w);
    }
  }

  /** An allocation of floor plus whole replicas within the budget. */
  ghost predicate Allocation(roles: seq<Role>, B: int, H: seq<int>) {
    && |H| == |roles| && Sum(H) <= B
    && forall r :: 0 <= r < |roles| && roles[r].g > 0 ==> H[r] >= roles[r].floor && Whole(H[r] - roles[r].floor, roles[r].g)
  }

  lemma MaxMinAtLeast(roles: seq<Role>, need: seq<real>, G: seq<int>, H: seq<int>, g: int, low: nat, r: nat)
    requires Levelled(roles, need, G) && Shaped(roles, need, H) && EqualSizes(roles, g)
    requires low < |roles| && r < |roles| && need[low] > 0.0
    requires H[r] >= roles[r].floor && Whole(H[r] - roles[r].floor, g) && Whole(G[r] - roles[r].floor, g)
    requires Below(ZOf(roles, need, G, low), ZOf(roles, need, H, r))
    ensures G[r] <= H[r]
    ensures r == low ==> G[r] + g <= H[r]
  {
    if H[r] < G[r] {
      WholeGap(H[r] - roles[r].floor, G[r] - roles[r].floor, g);
      ZMonotone(H[r] as real, (G[r] - g) as real, need[r], roles[r].w);
    } else if G[r] < H[r] {
      WholeGap(G[r] - roles[r].floor, H[r] - roles[r].floor, g);
    }
  }

  /** No allocation of floor plus whole replicas within the budget has a larger
      smallest z than the greedy one. */
  lemma IntegerMaxMin(roles: seq<Role>, need: seq<real>, B: int, g: int, H: seq<int>)
    requires ValidRoles(roles) && |need| == |roles| && EqualSizes(roles, g)
    requires Allocation(roles, B, H)
    ensures AtMost(SmallestZ(roles, need, H, |roles|), SmallestZ(roles, need, Integer(roles, need, B), |roles|))
  {
    hide SmallestZ, ZOf, Greedy, Levelled;
    var G := Integer(roles, need, B);
    var m := SmallestZ(roles, need, G, |roles|);
    if Below(m, SmallestZ(roles, need, H, |roles|)) {
      var low :| 0 <= low < |roles| && need[low] > 0.0 && m == ZOf(roles, need, G, low);
      IntegerSpending(roles, need, B);
      FloorsLevelled(roles, need);
      GreedyLevels(roles, need, Floors(roles), B - Sum(Floors(roles)), g);
      forall r | 0 <= r < |roles|
        ensures G[r] <= H[r] && (r == low ==> G[r] + g <= H[r])
      {
        assert AtMost(SmallestZ(roles, need, H, |roles|), ZOf(roles, need, H, r));
        MaxMinAtLeast(roles, need, G, H, g, low, r);
      }
      SumGain(G, H, low, g);
      assert false;
    }
  }

  // Monotone in the budget, exactly.

  /** However the need is spread, a larger budget gives no role less. */
  ghost predicate BudgetMonotone(roles: seq<Role>)
    requires ValidRoles(roles)
  {
    forall need, B, B', r :: |need| == |roles| && B <= B' && 0 <= r < |roles| ==>
      Integer(roles, need, B)[r] <= Integer(roles, need, B')[r]
  }

  /** Need for two roles alone: b starts below its need, a at it, or with nothing
      and a need of one replica. */
  function TwoNeeds(roles: seq<Role>, a: nat, b: nat): (need: seq<real>)
    requires ValidRoles(roles) && a < |roles| && b < |roles|
    ensures |need| == |roles|
  {
    seq(|roles|, r requires 0 <= r < |roles| =>
      if r == b then (roles[b].floor + 1) as real
      else if r == a then (if roles[a].floor > 0 then roles[a].floor else roles[a].g) as real
      else 0.0)
  }

  lemma TwoCandidates(roles: seq<Role>, a: nat, b: nat, left: int)
    requires ValidRoles(roles) && a < |roles| && b < |roles| && roles[a].g < roles[b].g
    ensures var need := TwoNeeds(roles, a, b);
      forall j :: Candidate(roles, need, left, j) <==> (j == a && roles[a].g <= left) || (j == b && roles[b].g <= left)
  {
  }

  /** Below its need a role comes before one that holds its need. */
  lemma ShortComesFirst(roles: seq<Role>, a: nat, b: nat, G: seq<int>)
    requires ValidRoles(roles) && a < |roles| && b < |roles| && a != b && |G| == |roles|
    requires G[b] == roles[b].floor && G[a] as real == TwoNeeds(roles, a, b)[a]
    ensures KeyBefore(roles, TwoNeeds(roles, a, b), G, b, a)
  {
    var need := TwoNeeds(roles, a, b);
    DivideMonotone(G[b] as real, need[b], need[b]);
    DivideUndo(1.0, need[b]);
    DivideUndo(1.0, need[a]);
    var x := G[b] as real / need[b] - 1.0;
    assert x < 0.0;
    assert x * roles[b].w < 0.0;
    assert 0.0 / roles[a].w == 0.0;
  }

  /** A budget too small for b gives a a replica more than the one that buys b's. */
  lemma SmallerBuysMore(roles: seq<Role>, a: nat, b: nat, G: seq<int>)
    requires ValidRoles(roles) && a < |roles| && b < |roles| && roles[a].g < roles[b].g && |G| == |roles|
    requires Pick(roles, TwoNeeds(roles, a, b), G, roles[b].g, |roles|) == b
    ensures var need := TwoNeeds(roles, a, b);
      Greedy(roles, need, G, roles[b].g)[a] == G[a] < Greedy(roles, need, G, roles[b].g - 1)[a]
  {
    hide Pick, KeyBefore;
    var need := TwoNeeds(roles, a, b);
    var ga, gb := roles[a].g, roles[b].g;
    TwoCandidates(roles, a, b, 0);
    TwoCandidates(roles, a, b, gb - 1);
    var H := G[b := G[b] + gb];
    assert Pick(roles, need, H, 0, |roles|) == -1;
    assert Greedy(roles, need, H, 0) == H;
    assert Candidate(roles, need, gb - 1, a);
    assert Pick(roles, need, G, gb - 1, |roles|) == a;
    GreedyWhole(roles, need, G[a := G[a] + ga], gb - 1 - ga, a);
  }

  /** Two sizes are enough to break monotonicity: in every table with a smaller
      and a bigger replica some budget, by one GPU larger, takes a replica away. */
  lemma TwoSizesBreakMonotone(roles: seq<Role>, a: nat, b: nat)
    requires ValidRoles(roles) && a < |roles| && b < |roles| && roles[a].g < roles[b].g
    ensures exists B, B' :: B' == B + 1 && Integer(roles, TwoNeeds(roles, a, b), B')[a] < Integer(roles, TwoNeeds(roles, a, b), B)[a]
  {
    hide Pick, KeyBefore;
    var need, F := TwoNeeds(roles, a, b), Floors(roles);
    var ga, gb, base := roles[a].g, roles[b].g, Sum(F);
    TwoCandidates(roles, a, b, gb);
    assert Candidate(roles, need, gb, a);
    var first := Pick(roles, need, F, gb, |roles|);
    if first == b {
      SmallerBuysMore(roles, a, b, F);
      assert Integer(roles, need, base + gb)[a] < Integer(roles, need, base + gb - 1)[a];
    } else {
      FirstGoesToSmall(roles, a, b);
      assert base + ga + gb == base + ga + gb - 1 + 1;
    }
  }

  /** Where the first replica goes to a, the next would go to b. */
  lemma FirstGoesToSmall(roles: seq<Role>, a: nat, b: nat)
    requires ValidRoles(roles) && a < |roles| && b < |roles| && roles[a].g < roles[b].g
    requires Pick(roles, TwoNeeds(roles, a, b), Floors(roles), roles[b].g, |roles|) == a
    ensures var need, B := TwoNeeds(roles, a, b), Sum(Floors(roles)) + roles[a].g + roles[b].g;
      Integer(roles, need, B)[a] < Integer(roles, need, B - 1)[a]
  {
    hide Pick, KeyBefore, Greedy, Integer, Sum, Candidate, TwoNeeds;
    var F := Floors(roles);
    var G := F[a := F[a] + roles[a].g];
    SmallStartsEmpty(roles, a, b);
    BigComesNext(roles, a, b, G);
    SmallerBuysMore(roles, a, b, G);
    FirstStep(roles, a, b, Sum(F) + roles[a].g + roles[b].g);
    FirstStep(roles, a, b, Sum(F) + roles[a].g + roles[b].g - 1);
  }

  lemma SmallStartsEmpty(roles: seq<Role>, a: nat, b: nat)
    requires ValidRoles(roles) && a < |roles| && b < |roles| && roles[a].g < roles[b].g
    requires Pick(roles, TwoNeeds(roles, a, b), Floors(roles), roles[b].g, |roles|) == a
    ensures roles[a].floor == 0 < roles[a].g
  {
    hide Pick, KeyBefore;
    if roles[a].floor > 0 {
      TwoCandidates(roles, a, b, roles[b].g);
      ShortComesFirst(roles, a, b, Floors(roles));
      assert false;
    }
  }

  lemma BigComesNext(roles: seq<Role>, a: nat, b: nat, G: seq<int>)
    requires ValidRoles(roles) && a < |roles| && b < |roles| && roles[a].g < roles[b].g && |G| == |roles|
    requires roles[a].floor == 0 && G[a] == roles[a].g && G[b] == roles[b].floor
    ensures Pick(roles, TwoNeeds(roles, a, b), G, roles[b].g, |roles|) == b
  {
    hide Pick, KeyBefore;
    var need := TwoNeeds(roles, a, b);
    TwoCandidates(roles, a, b, roles[b].g);
    ShortComesFirst(roles, a, b, G);
    KeyBeforeNotBoth(roles, need, G, a, b);
    assert Candidate(roles, need, roles[b].g, b);
  }

  /** A budget that would buy either role buys a's replica first. */
  lemma FirstStep(roles: seq<Role>, a: nat, b: nat, B: int)
    requires ValidRoles(roles) && a < |roles| && b < |roles| && roles[a].g < roles[b].g <= B - Sum(Floors(roles))
    requires Pick(roles, TwoNeeds(roles, a, b), Floors(roles), roles[b].g, |roles|) == a
    ensures var need, F := TwoNeeds(roles, a, b), Floors(roles);
      Integer(roles, need, B) == Greedy(roles, need, F[a := F[a] + roles[a].g], B - Sum(F) - roles[a].g)
  {
    hide Pick, KeyBefore, Sum;
    var need, F := TwoNeeds(roles, a, b), Floors(roles);
    TwoCandidates(roles, a, b, roles[b].g);
    TwoCandidates(roles, a, b, B - Sum(F));
    PickSame(roles, need, F, roles[b].g, B - Sum(F), |roles|);
  }

  lemma KeyBeforeNotBoth(roles: seq<Role>, need: seq<real>, G: seq<int>, a: nat, b: nat)
    requires Shaped(roles, need, G) && a < |roles| && b < |roles| && KeyBefore(roles, need, G, b, a)
    ensures !KeyBefore(roles, need, G, a, b)
  {
    if KeyBefore(roles, need, G, a, b) {
      KeyBeforeTransitive(roles, need, G, a, b, a);
      PrecedesIrreflexive(roles[a].name);
    }
  }

  /** The greedy target is monotone in the budget, for all needs, if and only if
      all replicas have the same size. */
  lemma MonotoneExactly(roles: seq<Role>)
    requires ValidRoles(roles)
    ensures BudgetMonotone(roles) <==> forall a, b :: 0 <= a < |roles| && 0 <= b < |roles| ==> roles[a].g == roles[b].g
  {
    hide Integer;
    if !(forall a, b :: 0 <= a < |roles| && 0 <= b < |roles| ==> roles[a].g == roles[b].g) {
      var a, b :| 0 <= a < |roles| && 0 <= b < |roles| && roles[a].g < roles[b].g;
      TwoSizesBreakMonotone(roles, a, b);
      var need := TwoNeeds(roles, a, b);
      var B, B' :| B' == B + 1 && Integer(roles, need, B')[a] < Integer(roles, need, B)[a];
      assert !(Integer(roles, need, B)[a] <= Integer(roles, need, B')[a]);
    } else if |roles| > 0 {
      forall need, B, B', r | |need| == |roles| && B <= B' && 0 <= r < |roles|
        ensures Integer(roles, need, B)[r] <= Integer(roles, need, B')[r]
      {
        IntegerMonotone(roles, need, B, B', roles[0].g);
      }
    }
  }

  function SmallAndBig(): (roles: seq<Role>)
    ensures ValidRoles(roles) && |roles| == 2
  {
    [Role("A", 1.0, 1, 0, 0), Role("B", 2.0, 4, 0, 0)]
  }

  /** An instance in numbers: three GPUs buy the small role three replicas, four
      buy the big role one. */
  lemma MonotoneNeedsEqualSizes()
    ensures Integer(SmallAndBig(), [4.0, 4.0], 3)[0] == 3
    ensures Integer(SmallAndBig(), [4.0, 4.0], 4)[0] == 0
  {
    hide Greedy;
    assert Floors(SmallAndBig()) == [0, 0];
    assert Sum([0, 0]) == 0 by { assert [0, 0][..1] == [0] && [0][..0] == []; assert Sum([0]) == 0; }
    UnequalSmall();
    UnequalLarge();
  }

  lemma UnequalSmall()
    ensures Greedy(SmallAndBig(), [4.0, 4.0], [0, 0], 3)[0] == 3
  {
    hide Pick, KeyBefore;
    var roles, need := SmallAndBig(), [4.0, 4.0];
    assert Candidate(roles, need, 3, 0) && Candidate(roles, need, 2, 0) && Candidate(roles, need, 1, 0);
    assert Pick(roles, need, [0, 0], 3, 2) == 0;
    assert [0, 0][0 := 1] == [1, 0];
    assert Pick(roles, need, [1, 0], 2, 2) == 0;
    assert [1, 0][0 := 2] == [2, 0];
    assert Pick(roles, need, [2, 0], 1, 2) == 0;
    assert [2, 0][0 := 3] == [3, 0];
    assert Pick(roles, need, [3, 0], 0, 2) == -1;
  }

  lemma UnequalLarge()
    ensures Greedy(SmallAndBig(), [4.0, 4.0], [0, 0], 4)[0] == 0
  {
    var roles, need := SmallAndBig(), [4.0, 4.0];
    assert Pick(roles, need, [0, 0], 4, 1) == 0;
    assert ZOf(roles, need, [0, 0], 1) == Finite(-2.0);
    assert Pick(roles, need, [0, 0], 4, 2) == 1;
    assert [0, 0][1 := 4] == [0, 4];
    assert Pick(roles, need, [0, 4], 0, 2) == -1;
  }
}

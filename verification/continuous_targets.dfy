/** The continuous leveller: spare GPUs are shared in proportion to weight times
    need, a shortage in proportion to need over weight, never below a floor. */
module ContinuousTargets {
  import opened PlannerTypes

  ghost predicate Shaped(roles: seq<Role>, need: seq<real>) {
    ValidRoles(roles) && |need| == |roles|
  }

  function Claim(roles: seq<Role>, need: seq<real>, r: nat): real
    requires Shaped(roles, need) && r < |roles|
  {
    Max(need[r], roles[r].floor as real)
  }

  /** A role with need above its floor; every other role is pinned to its claim. */
  predicate Free(roles: seq<Role>, need: seq<real>, r: int)
    requires Shaped(roles, need)
  {
    0 <= r < |roles| && (roles[r].floor as real) < need[r] && need[r] > 0.0
  }

  predicate AnyFree(roles: seq<Role>, need: seq<real>)
    requires Shaped(roles, need)
  {
    exists r :: 0 <= r < |roles| && Free(roles, need, r)
  }

  function Claims(roles: seq<Role>, need: seq<real>, n: nat): real
    requires Shaped(roles, need) && n <= |roles|
  {
    if n == 0 then 0.0 else Claims(roles, need, n - 1) + Claim(roles, need, n - 1)
  }

  /** Sum of w * need over the free roles among the first n. */
  function SpareWeight(roles: seq<Role>, need: seq<real>, n: nat): (d: real)
    requires Shaped(roles, need) && n <= |roles|
    ensures d >= 0.0 && ((exists r :: 0 <= r < n && Free(roles, need, r)) ==> d > 0.0)
  {
    if n == 0 then 0.0
    else if Free(roles, need, n - 1) then
      assert roles[n - 1].w * need[n - 1] > 0.0;
      SpareWeight(roles, need, n - 1) + roles[n - 1].w * need[n - 1]
    else SpareWeight(roles, need, n - 1)
  }

  /** Sum of need / w over the free roles among the first n. */
  function CutWeight(roles: seq<Role>, need: seq<real>, n: nat): (d: real)
    requires Shaped(roles, need) && n <= |roles|
    ensures d >= 0.0 && ((exists r :: 0 <= r < n && Free(roles, need, r)) ==> d > 0.0)
  {
    if n == 0 then 0.0
    else if Free(roles, need, n - 1) then
      DivideMonotone(0.0, need[n - 1], roles[n - 1].w);
      CutWeight(roles, need, n - 1) + need[n - 1] / roles[n - 1].w
    else CutWeight(roles, need, n - 1)
  }

  function Spare(roles: seq<Role>, need: seq<real>, B: real): real
    requires Shaped(roles, need)
  {
    B - Claims(roles, need, |roles|)
  }

  /** The common level of the free roles: at or above 0 in surplus, below 0 in shortage. */
  function Waterline(roles: seq<Role>, need: seq<real>, B: real): real
    requires Shaped(roles, need) && AnyFree(roles, need)
  {
    var S := Spare(roles, need, B);
    if S >= 0.0 then S / SpareWeight(roles, need, |roles|) else -(-S / CutWeight(roles, need, |roles|))
  }

  function Raised(N: real, s: real, w: real): real { N * (1.0 + s * w) }

  function Lowered(N: real, t: real, w: real): real
    requires w > 0.0
  {
    N * (1.0 - t / w)
  }

  /** Where the waterline alone would put a free role. */
  function Level(roles: seq<Role>, need: seq<real>, v: real, r: nat): real
    requires Shaped(roles, need) && r < |roles|
  {
    if v >= 0.0 then Raised(need[r], v, roles[r].w) else Lowered(need[r], -v, roles[r].w)
  }

  function Target(roles: seq<Role>, need: seq<real>, B: real, r: nat): real
    requires Shaped(roles, need) && r < |roles|
  {
    if !Free(roles, need, r) then Claim(roles, need, r)
    else
      var v := Waterline(roles, need, B);
      if v >= 0.0 then Level(roles, need, v, r)
      else Max(roles[r].floor as real, Level(roles, need, v, r))
  }

  function Continuous(roles: seq<Role>, need: seq<real>, B: real): (tgt: seq<real>)
    requires Shaped(roles, need)
    ensures |tgt| == |roles| && forall r :: 0 <= r < |roles| ==> tgt[r] == Target(roles, need, B, r)
  {
    seq(|roles|, r requires 0 <= r < |roles| => Target(roles, need, B, r))
  }

  /** The dictionary-filling loops of the source. */
  method ContinuousTargetsLoop(roles: seq<Role>, need: seq<real>, B: real) returns (tgt: seq<real>)
    requires Shaped(roles, need)
    ensures tgt == Continuous(roles, need, B)
  {
    hide Claims, SpareWeight, CutWeight, Claim, Free, Continuous;
    var n := |roles|;
    var free, total, spare, cut := [], 0.0, 0.0, 0.0;
    tgt := [];
    SumsEmpty(roles, need);
    for r := 0 to n
      invariant |tgt| == r && total == Claims(roles, need, r)
      invariant spare == SpareWeight(roles, need, r) && cut == CutWeight(roles, need, r)
      invariant forall i :: 0 <= i < r ==> tgt[i] == Claim(roles, need, i)
      invariant forall i :: 0 <= i < |free| ==> 0 <= free[i] < r && Free(roles, need, free[i])
      invariant forall i, j :: 0 <= i < j < |free| ==> free[i] < free[j]
      invariant forall i :: 0 <= i < r && Free(roles, need, i) ==> i in free
    {
      SumsStep(roles, need, r);
      tgt := tgt + [Claim(roles, need, r)];
      total := total + tgt[r];
      if Free(roles, need, r) {
        free := free + [r];
        spare := spare + roles[r].w * need[r];
        cut := cut + need[r] / roles[r].w;
      }
    }
    if free != [] {
      assert AnyFree(roles, need) by { assert Free(roles, need, free[0]); }
      tgt := LevelFree(roles, need, B, tgt, free, B - total, spare, cut);
    } else {
      NothingFree(roles, need, B);
    }
  }

  lemma SumsEmpty(roles: seq<Role>, need: seq<real>)
    requires Shaped(roles, need)
    ensures Claims(roles, need, 0) == SpareWeight(roles, need, 0) == CutWeight(roles, need, 0) == 0.0
  {
  }

  lemma SumsStep(roles: seq<Role>, need: seq<real>, r: nat)
    requires Shaped(roles, need) && r < |roles|
    ensures Claims(roles, need, r + 1) == Claims(roles, need, r) + Claim(roles, need, r)
    ensures SpareWeight(roles, need, r + 1) == SpareWeight(roles, need, r) + if Free(roles, need, r) then roles[r].w * need[r] else 0.0
    ensures CutWeight(roles, need, r + 1) == CutWeight(roles, need, r) + if Free(roles, need, r) then need[r] / roles[r].w else 0.0
  {
    hide Claim, Free;
  }

  lemma NothingFree(roles: seq<Role>, need: seq<real>, B: real)
    requires Shaped(roles, need) && forall r :: 0 <= r < |roles| ==> !Free(roles, need, r)
    ensures forall r :: 0 <= r < |roles| ==> Continuous(roles, need, B)[r] == Claim(roles, need, r)
  {
    hide Claim, Free;
  }

  method LevelFree(roles: seq<Role>, need: seq<real>, B: real, claims: seq<real>, free: seq<nat>,
                   S: real, spare: real, cut: real)
    returns (tgt: seq<real>)
    requires Shaped(roles, need) && AnyFree(roles, need) && |claims| == |roles|
    requires S == Spare(roles, need, B)
    requires spare == SpareWeight(roles, need, |roles|) && cut == CutWeight(roles, need, |roles|)
    requires forall i :: 0 <= i < |roles| ==> claims[i] == Claim(roles, need, i)
    requires forall i :: 0 <= i < |roles| ==> (Free(roles, need, i) <==> i in free)
    requires forall i :: 0 <= i < |free| ==> free[i] < |roles|
    requires forall i, j :: 0 <= i < j < |free| ==> free[i] < free[j]
    ensures tgt == Continuous(roles, need, B)
  {
    hide Waterline, Level, SpareWeight, CutWeight, Raised, Lowered;
    tgt := claims;
    for k := 0 to |free|
      invariant |tgt| == |roles|
      invariant forall i :: 0 <= i < k ==> tgt[free[i]] == Target(roles, need, B, free[i])
      invariant forall i :: 0 <= i < |roles| && i !in free ==> tgt[i] == Claim(roles, need, i)
    {
      var r := free[k];
      TargetFormula(roles, need, B, r);
      if S >= 0.0 {
        tgt := tgt[r := Raised(need[r], S / spare, roles[r].w)];
      } else {
        tgt := tgt[r := Max(roles[r].floor as real, Lowered(need[r], -S / cut, roles[r].w))];
      }
    }
  }

  lemma TargetFormula(roles: seq<Role>, need: seq<real>, B: real, r: nat)
    requires Shaped(roles, need) && r < |roles| && Free(roles, need, r)
    ensures var S := Spare(roles, need, B);
      Target(roles, need, B, r)
      == if S >= 0.0 then Raised(need[r], S / SpareWeight(roles, need, |roles|), roles[r].w)
         else Max(roles[r].floor as real,
                  Lowered(need[r], -S / CutWeight(roles, need, |roles|), roles[r].w))
  {
    hide SpareWeight, CutWeight, Claims, Raised, Lowered;
    WaterlineSign(roles, need, B);
  }

  lemma WaterlineSign(roles: seq<Role>, need: seq<real>, B: real)
    requires Shaped(roles, need) && AnyFree(roles, need)
    ensures Waterline(roles, need, B) >= 0.0 <==> Spare(roles, need, B) >= 0.0
  {
    var S := Spare(roles, need, B);
    if S < 0.0 {
      DivideMonotone(0.0, -S, CutWeight(roles, need, |roles|));
    } else if S > 0.0 {
      DivideMonotone(0.0, S, SpareWeight(roles, need, |roles|));
    }
  }

  lemma RaisedMonotone(N: real, s: real, s': real, w: real)
    requires N > 0.0 && w > 0.0 && 0.0 <= s <= s'
    ensures N <= Raised(N, s, w) <= Raised(N, s', w)
  {
    ScaleMonotone(0.0, s, w);
    ScaleMonotone(s, s', w);
    ScaleMonotone(1.0, 1.0 + s * w, N);
    ScaleMonotone(1.0 + s * w, 1.0 + s' * w, N);
  }

  lemma LoweredMonotone(N: real, t: real, t': real, w: real)
    requires N > 0.0 && w > 0.0 && 0.0 < t <= t'
    ensures Lowered(N, t', w) <= Lowered(N, t, w) < N
  {
    var a, a' := t / w, t' / w;
    DivideMonotone(0.0, t, w);
    if t < t' { DivideMonotone(t, t', w); }
    ScaleMonotone(1.0 - a', 1.0 - a, N);
    assert a * N > 0.0;
  }

  lemma LevelMonotone(roles: seq<Role>, need: seq<real>, u: real, v: real, r: nat)
    requires Shaped(roles, need) && r < |roles| && need[r] > 0.0 && u <= v
    ensures Level(roles, need, u, r) <= Level(roles, need, v, r)
    ensures v < 0.0 ==> Level(roles, need, v, r) < need[r]
    ensures v >= 0.0 ==> Level(roles, need, v, r) >= need[r]
  {
    hide Raised, Lowered;
    if v < 0.0 { LoweredMonotone(need[r], -v, -u, roles[r].w); }
    if u < 0.0 { LoweredMonotone(need[r], -u, -u, roles[r].w); }
    if u >= 0.0 { RaisedMonotone(need[r], u, v, roles[r].w); }
    if v >= 0.0 { RaisedMonotone(need[r], v, v, roles[r].w); }
  }

  lemma WaterlineMonotone(roles: seq<Role>, need: seq<real>, B: real, B': real)
    requires Shaped(roles, need) && AnyFree(roles, need) && B <= B'
    ensures Waterline(roles, need, B) <= Waterline(roles, need, B')
  {
    var S, S' := Spare(roles, need, B), Spare(roles, need, B');
    WaterlineSign(roles, need, B);
    WaterlineSign(roles, need, B');
    if S < S' < 0.0 {
      DivideMonotone(-S', -S, CutWeight(roles, need, |roles|));
    } else if 0.0 <= S < S' {
      DivideMonotone(S, S', SpareWeight(roles, need, |roles|));
    }
  }

  /** No role is ever targeted below its floor. */
  lemma ContinuousFloors(roles: seq<Role>, need: seq<real>, B: real, r: nat)
    requires Shaped(roles, need) && r < |roles|
    ensures Continuous(roles, need, B)[r] >= roles[r].floor as real
  {
    if Free(roles, need, r) {
      var v := Waterline(roles, need, B);
      LevelMonotone(roles, need, v, v, r);
    }
  }

  /** A larger budget never lowers a role's target, across surplus and shortage alike. */
  lemma ContinuousMonotone(roles: seq<Role>, need: seq<real>, B: real, B': real, r: nat)
    requires Shaped(roles, need) && r < |roles| && B <= B'
    ensures Continuous(roles, need, B)[r] <= Continuous(roles, need, B')[r]
  {
    if Free(roles, need, r) {
      var v, v' := Waterline(roles, need, B), Waterline(roles, need, B');
      WaterlineMonotone(roles, need, B, B');
      LevelMonotone(roles, need, v, v', r);
      LevelMonotone(roles, need, v', v', r);
    }
  }

  function SumTo(tgt: seq<real>, n: nat): real
    requires n <= |tgt|
  {
    if n == 0 then 0.0 else SumTo(tgt, n - 1) + tgt[n - 1]
  }

  /** In surplus, with a free role, the targets spend the budget exactly and put
      every free role at one and the same z. */
  lemma ContinuousSurplus(roles: seq<Role>, need: seq<real>, B: real)
    requires Shaped(roles, need) && AnyFree(roles, need) && Spare(roles, need, B) >= 0.0
    ensures SumTo(Continuous(roles, need, B), |roles|) == B
    ensures forall r :: 0 <= r < |roles| && Free(roles, need, r) ==>
              Z(Continuous(roles, need, B)[r], need[r], roles[r].w) == Finite(Waterline(roles, need, B))
  {
    hide Level, SpareWeight, CutWeight, Z, SumTo, Waterline, AnyFree, Spare;
    WaterlineSign(roles, need, B);
    SurplusTotal(roles, need, B);
    forall r | 0 <= r < |roles| && Free(roles, need, r)
      ensures Z(Continuous(roles, need, B)[r], need[r], roles[r].w) == Finite(Waterline(roles, need, B))
    {
      LevelZ(roles, need, Waterline(roles, need, B), r);
    }
  }

  lemma SurplusTotal(roles: seq<Role>, need: seq<real>, B: real)
    requires Shaped(roles, need) && AnyFree(roles, need) && Spare(roles, need, B) >= 0.0
    ensures SumTo(Continuous(roles, need, B), |roles|) == B
  {
    hide Level, SpareWeight, CutWeight, SumTo, Continuous, Claims;
    WaterlineSign(roles, need, B);
    SurplusSum(roles, need, B, |roles|);
    DivideUndo(Spare(roles, need, B), SpareWeight(roles, need, |roles|));
  }

  /** The waterline is the z of the level it sets. */
  lemma LevelZ(roles: seq<Role>, need: seq<real>, v: real, r: nat)
    requires Shaped(roles, need) && r < |roles| && need[r] > 0.0
    ensures Z(Level(roles, need, v, r), need[r], roles[r].w) == Finite(v)
  {
    hide Raised, Lowered, Z;
    if v >= 0.0 {
      RaisedZ(need[r], v, roles[r].w);
    } else {
      LoweredZ(need[r], -v, roles[r].w);
    }
  }

  lemma RatioOf(G: real, N: real, x: real)
    requires N > 0.0 && G == N * (1.0 + x)
    ensures G / N - 1.0 == x
  {
    var d := G / N - (1.0 + x);
    assert d * N == 0.0;
    DivideUndo(d, N);
    assert 0.0 / N == 0.0;
  }

  lemma RaisedZ(N: real, s: real, w: real)
    requires N > 0.0 && w > 0.0 && s >= 0.0
    ensures Z(Raised(N, s, w), N, w) == Finite(s)
  {
    var a := s * w;
    assert a >= 0.0;
    RatioOf(Raised(N, s, w), N, a);
    DivideUndo(s, w);
  }

  lemma LoweredZ(N: real, t: real, w: real)
    requires N > 0.0 && w > 0.0 && t > 0.0
    ensures Z(Lowered(N, t, w), N, w) == Finite(-t)
  {
    var a := t / w;
    DivideMonotone(0.0, t, w);
    RatioOf(Lowered(N, t, w), N, -a);
    DivideUndo(t, w);
    assert -a * w == -t;
  }

  lemma {:induction false} SurplusSum(roles: seq<Role>, need: seq<real>, B: real, n: nat)
    requires Shaped(roles, need) && AnyFree(roles, need) && n <= |roles|
    requires Waterline(roles, need, B) >= 0.0
    ensures SumTo(Continuous(roles, need, B), n)
         == Claims(roles, need, n) + Waterline(roles, need, B) * SpareWeight(roles, need, n)
  {
    hide Waterline, Raised, Lowered, Target, Claim, SpareWeight;
    var v, tgt := Waterline(roles, need, B), Continuous(roles, need, B);
    if n == 0 {
      SumsEmpty(roles, need);
      assert v * 0.0 == 0.0;
    } else {
      SurplusSum(roles, need, B, n - 1);
      SurplusStep(roles, need, B, n - 1);
    }
  }

  lemma SurplusStep(roles: seq<Role>, need: seq<real>, B: real, r: nat)
    requires Shaped(roles, need) && AnyFree(roles, need) && r < |roles|
    requires Waterline(roles, need, B) >= 0.0
    ensures var v := Waterline(roles, need, B);
      Target(roles, need, B, r) + v * SpareWeight(roles, need, r) == Claim(roles, need, r) + v * SpareWeight(roles, need, r + 1)
  {
    hide Waterline, Raised, Lowered;
    if Free(roles, need, r) {
      RaisedShare(need[r], Waterline(roles, need, B), roles[r].w, SpareWeight(roles, need, r));
    }
  }

  lemma RaisedShare(N: real, s: real, w: real, c: real)
    ensures Raised(N, s, w) + s * c == N + s * (c + w * N)
  {
    assert Raised(N, s, w) == N + s * (w * N);
  }

  /** A free role that a shortage would push under its floor. */
  predicate Clamped(roles: seq<Role>, need: seq<real>, B: real, r: nat)
    requires Shaped(roles, need) && AnyFree(roles, need) && r < |roles|
  {
    Free(roles, need, r) && Level(roles, need, Waterline(roles, need, B), r) < roles[r].floor as real
  }

  /** In shortage the targets spend at least the budget, and exactly the budget
      if and only if no free role is clamped up to its floor. Unclamped free
      roles share one z; a clamped one sits above it. */
  lemma ContinuousShortage(roles: seq<Role>, need: seq<real>, B: real)
    requires Shaped(roles, need) && AnyFree(roles, need) && Spare(roles, need, B) < 0.0
    ensures SumTo(Continuous(roles, need, B), |roles|) >= B
    ensures SumTo(Continuous(roles, need, B), |roles|) == B
       <==> forall r :: 0 <= r < |roles| ==> !Clamped(roles, need, B, r)
    ensures forall r :: 0 <= r < |roles| && Free(roles, need, r) ==>
              var zr := Z(Continuous(roles, need, B)[r], need[r], roles[r].w);
              if Clamped(roles, need, B, r) then Below(Finite(Waterline(roles, need, B)), zr)
              else zr == Finite(Waterline(roles, need, B))
  {
    hide Level, SpareWeight, CutWeight, Z, Waterline, Claims, Clamped, SumTo, Free, AnyFree, Spare, Target, Below;
    WaterlineSign(roles, need, B);
    ShortageTotal(roles, need, B);
    forall r | 0 <= r < |roles| && Free(roles, need, r)
      ensures var zr := Z(Continuous(roles, need, B)[r], need[r], roles[r].w);
              if Clamped(roles, need, B, r) then Below(Finite(Waterline(roles, need, B)), zr)
              else zr == Finite(Waterline(roles, need, B))
    {
      ShortageLevel(roles, need, B, r);
    }
  }

  lemma ShortageTotal(roles: seq<Role>, need: seq<real>, B: real)
    requires Shaped(roles, need) && AnyFree(roles, need) && Spare(roles, need, B) < 0.0
    ensures SumTo(Continuous(roles, need, B), |roles|) >= B
    ensures SumTo(Continuous(roles, need, B), |roles|) == B
       <==> forall r :: 0 <= r < |roles| ==> !Clamped(roles, need, B, r)
  {
    hide Level, CutWeight, Waterline, Continuous, Claims, Clamped, SumTo, AnyFree;
    WaterlineSign(roles, need, B);
    ShortageSum(roles, need, B, -Waterline(roles, need, B), |roles|);
    WaterlineSpends(roles, need, B);
  }

  lemma ShortageLevel(roles: seq<Role>, need: seq<real>, B: real, r: nat)
    requires Shaped(roles, need) && r < |roles| && Free(roles, need, r) && Waterline(roles, need, B) < 0.0
    ensures var zr := Z(Target(roles, need, B, r), need[r], roles[r].w);
            if Clamped(roles, need, B, r) then Below(Finite(Waterline(roles, need, B)), zr)
            else zr == Finite(Waterline(roles, need, B))
  {
    hide Level, Z, Waterline;
    var v := Waterline(roles, need, B);
    LevelZ(roles, need, v, r);
    if Clamped(roles, need, B, r) {
      ZStrict(Level(roles, need, v, r), roles[r].floor as real, need[r], roles[r].w);
    }
  }

  lemma WaterlineSpends(roles: seq<Role>, need: seq<real>, B: real)
    requires Shaped(roles, need) && AnyFree(roles, need) && Spare(roles, need, B) < 0.0
    ensures -Waterline(roles, need, B) * CutWeight(roles, need, |roles|) == -Spare(roles, need, B)
  {
    hide CutWeight;
    DivideUndo(-Spare(roles, need, B), CutWeight(roles, need, |roles|));
  }

  lemma {:induction false} ShortageSum(roles: seq<Role>, need: seq<real>, B: real, t: real, n: nat)
    requires Shaped(roles, need) && AnyFree(roles, need) && n <= |roles|
    requires t == -Waterline(roles, need, B) && t > 0.0
    ensures var sum := SumTo(Continuous(roles, need, B), n);
      var plain := Claims(roles, need, n) - t * CutWeight(roles, need, n);
      sum >= plain && (sum == plain <==> forall r :: 0 <= r < n ==> !Clamped(roles, need, B, r))
  {
    hide Waterline, Lowered, Raised, Target, Clamped;
    if n > 0 {
      var r, tgt := n - 1, Continuous(roles, need, B);
      ShortageSum(roles, need, B, t, r);
      assert SumTo(tgt, n) == SumTo(tgt, r) + Target(roles, need, B, r);
      ShortageStep(roles, need, B, t, r);
      assert (forall i :: 0 <= i < n ==> !Clamped(roles, need, B, i))
        <==> (forall i :: 0 <= i < r ==> !Clamped(roles, need, B, i)) && !Clamped(roles, need, B, r);
    }
  }

  lemma ShortageStep(roles: seq<Role>, need: seq<real>, B: real, t: real, r: nat)
    requires Shaped(roles, need) && AnyFree(roles, need) && r < |roles|
    requires t == -Waterline(roles, need, B) && t > 0.0
    ensures var lift := Target(roles, need, B, r) - t * CutWeight(roles, need, r)
                      - (Claim(roles, need, r) - t * CutWeight(roles, need, r + 1));
      lift >= 0.0 && (lift == 0.0 <==> !Clamped(roles, need, B, r))
  {
    hide Waterline, Lowered, Raised;
    if Free(roles, need, r) {
      LoweredShare(need[r], t, roles[r].w, CutWeight(roles, need, r));
    }
  }

  lemma LoweredShare(N: real, t: real, w: real, c: real)
    requires w > 0.0
    ensures Lowered(N, t, w) - t * c == N - t * (c + N / w)
  {
    var x, y := t / w, N / w;
    assert x * w == t && y * w == N;
    assert N * x == y * w * x == t * y;
    assert Lowered(N, t, w) == N - N * x;
  }

  // The whole target, without the solver's own terms.

  /** What every role would have if the budget were no object. */
  ghost function Wanted(roles: seq<Role>, need: seq<real>): (c: seq<real>)
    requires |need| == |roles|
    ensures |c| == |roles|
    ensures forall r :: 0 <= r < |roles| ==> c[r] == if need[r] > roles[r].floor as real then need[r] else roles[r].floor as real
  {
    seq(|roles|, r requires 0 <= r < |roles| => if need[r] > roles[r].floor as real then need[r] else roles[r].floor as real)
  }

  lemma {:induction false} ClaimsAreWanted(roles: seq<Role>, need: seq<real>, n: nat)
    requires Shaped(roles, need) && n <= |roles|
    ensures Claims(roles, need, n) == SumTo(Wanted(roles, need), n)
  {
    if n > 0 {
      ClaimsAreWanted(roles, need, n - 1);
    }
  }

  /** The target of a role whose need is above its floor, with the water at v: at z
      equal to v, or held up by its floor. */
  ghost predicate AtWaterline(role: Role, need: real, tgt: real, v: real)
    requires role.w > 0.0
  {
    || (Z(tgt, need, role.w) == Finite(v) && tgt >= role.floor as real)
    || (tgt == role.floor as real && Below(Finite(v), Z(tgt, need, role.w)))
  }

  /** There is one waterline v. A role whose need is not above its floor gets its
      floor; every other is at the waterline, or held up by its floor, and that only in
      a shortage. If there are such others, a surplus is spent exactly, and a shortage
      exactly if and only if no floor holds a role up; else at least the budget is
      spent. */
  lemma WaterlineExists(roles: seq<Role>, need: seq<real>, B: real) returns (v: real)
    requires Shaped(roles, need)
    ensures var tgt, n := Continuous(roles, need, B), |roles|;
      var surplus := SumTo(Wanted(roles, need), n) <= B;
      && (forall r :: 0 <= r < n && need[r] <= roles[r].floor as real ==> tgt[r] == roles[r].floor as real)
      && (forall r :: 0 <= r < n && need[r] > roles[r].floor as real ==> AtWaterline(roles[r], need[r], tgt[r], v))
      && (surplus <==> v >= 0.0)
      && (surplus ==> forall r :: 0 <= r < n && need[r] > roles[r].floor as real ==> Z(tgt[r], need[r], roles[r].w) == Finite(v))
      && ((exists r :: 0 <= r < n && need[r] > roles[r].floor as real) ==>
            && SumTo(tgt, n) >= B && (surplus ==> SumTo(tgt, n) == B)
            && (SumTo(tgt, n) == B <==>
                forall r :: 0 <= r < n && need[r] > roles[r].floor as real ==> Z(tgt[r], need[r], roles[r].w) == Finite(v)))
  {
    ClaimsAreWanted(roles, need, |roles|);
    hide Level, SpareWeight, CutWeight, Z, Waterline, Claims, SumTo, Target;
    PinnedTargets(roles, need, B);
    FreeIs(roles, need);
    if AnyFree(roles, need) {
      v := Waterline(roles, need, B);
      WaterlineSign(roles, need, B);
      forall r | 0 <= r < |roles|
        ensures Continuous(roles, need, B)[r] >= roles[r].floor as real
      {
        ContinuousFloors(roles, need, B, r);
      }
      if v >= 0.0 {
        ContinuousSurplus(roles, need, B);
      } else {
        ContinuousShortage(roles, need, B);
        ShortageAtWaterline(roles, need, B);
      }
    } else {
      v := if SumTo(Wanted(roles, need), |roles|) <= B then 0.0 else -1.0;
    }
  }

  lemma FreeIs(roles: seq<Role>, need: seq<real>)
    requires Shaped(roles, need)
    ensures forall r :: 0 <= r < |roles| ==> (Free(roles, need, r) <==> need[r] > roles[r].floor as real)
  {
  }

  lemma PinnedTargets(roles: seq<Role>, need: seq<real>, B: real)
    requires Shaped(roles, need)
    ensures forall r :: 0 <= r < |roles| && need[r] <= roles[r].floor as real ==> Continuous(roles, need, B)[r] == roles[r].floor as real
  {
    hide Waterline, Level;
  }

  lemma ShortageAtWaterline(roles: seq<Role>, need: seq<real>, B: real)
    requires Shaped(roles, need) && AnyFree(roles, need) && Spare(roles, need, B) < 0.0
    ensures forall r :: 0 <= r < |roles| && Free(roles, need, r) ==>
              && (Clamped(roles, need, B, r) ==> Continuous(roles, need, B)[r] == roles[r].floor as real)
              && AtWaterline(roles[r], need[r], Continuous(roles, need, B)[r], Waterline(roles, need, B))
  {
    WaterlineSign(roles, need, B);
    hide Level, SpareWeight, CutWeight, Z, Waterline, Claims;
    forall r | 0 <= r < |roles| && Free(roles, need, r)
      ensures Clamped(roles, need, B, r) ==> Continuous(roles, need, B)[r] == roles[r].floor as real
      ensures AtWaterline(roles[r], need[r], Continuous(roles, need, B)[r], Waterline(roles, need, B))
    {
      ShortageLevel(roles, need, B, r);
    }
  }
}

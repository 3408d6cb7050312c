/** The vocabulary of the GPU-transfer planner: its constants, its roles and
    rules, and the three pure judgements every decision is made of -- the
    weighted headroom z, the tolerance, and the band. */
module PlannerTypes {
  const K := 0.8                      // scale-up threshold
  const CYCLE := 30                   // seconds between decisions
  const WINDOW := 300                 // a transfer may be cancelled this long
  const RELEASE := 360                // start of a transfer to its landing
  const FILL := 180                   // landing to serving
  const LAG := 60                     // age, and averaging span, of the demand seen
  const T_END := 6 * 3600
  const HOLD := 2 * RELEASE           // reversal hold
  const TAU := 0.15
  const TAU_ABS := 0.05
  const CONFIRM := 2
  const LATENCY := 2 * LAG + CONFIRM * CYCLE + RELEASE + FILL
  const SWING_W := 8 * LATENCY
  const NEVER := -1000000000          // a timer that was never set

  /** One role: weight, GPUs per replica, floor and initial holding in GPUs. */
  datatype Role = Role(name: string, w: real, g: int, floor: int, init: int)

  ghost predicate ValidRoles(roles: seq<Role>) {
    forall r :: 0 <= r < |roles| ==> roles[r].w > 0.0 && roles[r].g > 0 && roles[r].floor >= 0
  }

  /** All replicas of every role have the same size. */
  ghost predicate EqualSizes(roles: seq<Role>, g: int) {
    forall r :: 0 <= r < |roles| ==> roles[r].g == g
  }

  datatype Swing = SwingOff | SwingMean | SwingFreeze
  datatype Headroom = AnyMiss | MissAbove(fraction: real) | NoMiss
  datatype Rules = Rules(committed: bool, actionable: bool, hysteresis: bool, hold: bool,
                         slowGiving: bool, headroom: Headroom, swing: Swing, swingW: nat)

  /** A value of z: a real, or infinite for a role without need. */
  datatype Level = Finite(x: real) | Infinite

  predicate Below(a: Level, b: Level) {
    a.Finite? && (b.Infinite? || a.x < b.x)
  }

  predicate AtMost(a: Level, b: Level) {
    !Below(b, a)
  }

  function LeastOf(a: Level, b: Level): (m: Level)
    ensures AtMost(m, a) && AtMost(m, b) && (m == a || m == b)
  {
    if Below(b, a) then b else a
  }

  function Max(a: real, b: real): (m: real)
    ensures m >= a && m >= b && (m == a || m == b)
  {
    if a >= b then a else b
  }

  function Abs(a: real): (m: real)
    ensures m >= 0.0 && (m == a || m == -a)
  {
    if a >= 0.0 then a else -a
  }

  /** Weighted headroom of a role that holds G against need N. */
  function Z(G: real, N: real, w: real): Level
    requires w > 0.0
  {
    if N <= 0.0 then Infinite
    else
      var x := G / N - 1.0;
      Finite(if x >= 0.0 then x / w else x * w)
  }

  function Tol(tgt: real, g: int): real {
    Max(TAU * tgt, 0.5 * g as real)
  }

  predicate InBand(G: int, tgt: real, N: real, g: int) {
    || Abs(G as real - tgt) <= Tol(tgt, g)
    || (&& G > 0 && tgt > 0.0
        && N * K / G as real <= K
        && Abs(N * K / G as real - N * K / tgt) <= TAU_ABS)
  }

  lemma DivideMonotone(a: real, b: real, d: real)
    requires d > 0.0 && a < b
    ensures a / d < b / d
  {
    var x, y := a / d, b / d;
    assert x * d == a && y * d == b;
    if x >= y {
      ScaleMonotone(y, x, d);
      assert false;
    }
  }

  lemma ScaleMonotone(a: real, b: real, d: real)
    requires d >= 0.0 && a <= b
    ensures a * d <= b * d
  {
    assert (b - a) * d >= 0.0;
  }

  lemma DivideUndo(a: real, d: real)
    requires d > 0.0
    ensures a * d / d == a && d * a / d == a && a / d * d == a
  {
    var q := a * d / d;
    assert (q - a) * d == 0.0;
  }

  /** One more GPU always raises the headroom of a role with need. */
  lemma ZStrict(G: real, H: real, N: real, w: real)
    requires w > 0.0 && N > 0.0 && G < H
    ensures Below(Z(G, N, w), Z(H, N, w))
  {
    var x, y := G / N - 1.0, H / N - 1.0;
    DivideMonotone(G, H, N);
    assert x < y;
    if x >= 0.0 {
      DivideMonotone(x, y, w);
    } else if y >= 0.0 {
      assert x * w < 0.0;
      assert y / w >= 0.0;
    } else {
      assert (y - x) * w > 0.0;
    }
  }

  lemma ZMonotone(G: real, H: real, N: real, w: real)
    requires w > 0.0 && G <= H
    ensures AtMost(Z(G, N, w), Z(H, N, w))
  {
    if N > 0.0 && G < H {
      ZStrict(G, H, N, w);
    }
  }

  /** The band without divisions: within 15 percent of the target or half a replica;
      or, for a role that is not short, a utilization within 0.05 of what it would be
      at the target. A short role is in band by the first alone. */
  lemma InBandExactly(G: int, tgt: real, N: real, g: int)
    ensures InBand(G, tgt, N, g) <==>
            || (G as real - tgt <= 0.15 * tgt && tgt - G as real <= 0.15 * tgt)
            || (G as real - tgt <= 0.5 * g as real && tgt - G as real <= 0.5 * g as real)
            || (&& G > 0 && tgt > 0.0 && N <= G as real
                && 0.8 * Abs(N * (tgt - G as real)) <= 0.05 * (G as real * tgt))
  {
    hide Abs, Tol;
    WithinTolerance(G as real, tgt, g);
    if G > 0 && tgt > 0.0 {
      UtilizationClose(G as real, tgt, N);
    }
  }

  lemma WithinTolerance(G: real, tgt: real, g: int)
    ensures Abs(G - tgt) <= Tol(tgt, g) <==>
            || (G - tgt <= 0.15 * tgt && tgt - G <= 0.15 * tgt)
            || (G - tgt <= 0.5 * g as real && tgt - G <= 0.5 * g as real)
  {
  }

  lemma UtilizationClose(G: real, tgt: real, N: real)
    requires G > 0.0 && tgt > 0.0
    ensures N * K / G <= K <==> N <= G
    ensures Abs(N * K / G - N * K / tgt) <= TAU_ABS <==> 0.8 * Abs(N * (tgt - G)) <= 0.05 * (G * tgt)
  {
    var p, q := N * K / G, N * K / tgt;
    assert p * G == N * K && q * tgt == N * K;
    AtMostOne(p, K, G);
    CrossProduct(p, q, G, tgt, N);
    ScaledGap(p - q, G * tgt, N * (tgt - G));
  }

  lemma CrossProduct(p: real, q: real, G: real, tgt: real, N: real)
    requires G > 0.0 && tgt > 0.0 && p * G == N * K && q * tgt == N * K
    ensures G * tgt > 0.0 && (p - q) * (G * tgt) == 0.8 * (N * (tgt - G))
  {
    assert p * (G * tgt) == (p * G) * tgt;
    assert q * (G * tgt) == (q * tgt) * G;
    assert (p - q) * (G * tgt) == p * (G * tgt) - q * (G * tgt);
    assert (N * K) * tgt - (N * K) * G == 0.8 * (N * (tgt - G));
  }

  lemma ScaledGap(x: real, d: real, e: real)
    requires d > 0.0 && x * d == 0.8 * e
    ensures Abs(x) <= 0.05 <==> 0.8 * Abs(e) <= 0.05 * d
  {
    var y, a, m := 0.0 - x, 0.8 * e, 0.05 * d;
    assert y * d == 0.0 - x * d;
    Compare(x, 0.05, d, a, m);
    Compare(y, 0.05, d, 0.0 - a, m);
    hide *;
    AbsAtMost(x, 0.05);
    AbsAtMost(a, m);
    AbsScaled(e);
  }

  lemma Compare(p: real, c: real, d: real, pd: real, cd: real)
    requires d > 0.0 && pd == p * d && cd == c * d
    ensures p <= c <==> pd <= cd
  {
    AtMostOne(p, c, d);
  }

  lemma AbsAtMost(x: real, m: real)
    ensures Abs(x) <= m <==> x <= m && 0.0 - x <= m
  {
  }

  lemma AbsScaled(e: real)
    ensures Abs(0.8 * e) == 0.8 * Abs(e)
  {
  }

  /** Comparing quotients is comparing products. */
  lemma AtMostOne(p: real, c: real, d: real)
    requires d > 0.0
    ensures p <= c <==> p * d <= c * d
  {
    if p <= c {
      ScaleMonotone(p, c, d);
    } else {
      assert (p - c) * d > 0.0;
    }
  }
}

/** Integrals of step functions, as weighted sums over any partition that is fine
    enough. */
module Partitions {
  ghost predicate Sorted(ps: seq<real>) {
    forall i, j :: 0 <= i < j < |ps| ==> ps[i] <= ps[j]
  }

  /** A cell from p to q weighs its length times its value. */
  function Cell(v: real, p: real, q: real): real { v * (q - p) }

  ghost function Weighted(vs: seq<real>, ps: seq<real>): real
    requires |ps| == |vs| + 1
  {
    if vs == [] then 0.0
    else
      var n := |vs| - 1;
      Weighted(vs[..n], ps[..n + 1]) + Cell(vs[n], ps[n], ps[n + 1])
  }

  function Plus(u: real, c: real, v: real): real { u + c * v }

  /** ws is us plus c times vs. */
  ghost predicate Combines(us: seq<real>, vs: seq<real>, ws: seq<real>, c: real) {
    |us| == |vs| == |ws| && forall i :: 0 <= i < |us| ==> ws[i] == Plus(us[i], c, vs[i])
  }

  /** The weight is linear in the values. */
  lemma {:induction false} WeightedAdd(us: seq<real>, vs: seq<real>, ws: seq<real>, c: real, ps: seq<real>)
    requires Combines(us, vs, ws, c) && |ps| == |us| + 1
    ensures Weighted(ws, ps) == Plus(Weighted(us, ps), c, Weighted(vs, ps))
  {
    if us == [] {
      assert Weighted(us, ps) == Weighted(vs, ps) == Weighted(ws, ps) == 0.0;
    } else {
      hide Plus, Cell;
      var n := |us| - 1;
      WeightedAdd(us[..n], vs[..n], ws[..n], c, ps[..n + 1]);
      CellAdd(Weighted(us[..n], ps[..n + 1]), us[n], Weighted(vs[..n], ps[..n + 1]), vs[n], c, ps[n], ps[n + 1]);
    }
  }

  lemma CellAdd(a: real, u: real, b: real, v: real, c: real, p: real, q: real)
    ensures Plus(a, c, b) + Cell(Plus(u, c, v), p, q) == Plus(a + Cell(u, p, q), c, b + Cell(v, p, q))
  {
    var d := q - p;
    assert c * v * d == c * (v * d);
    assert c * (b + v * d) == c * b + c * (v * d);
    assert (u + c * v) * d == u * d + c * v * d;
  }

  lemma {:induction false} WeightedZero(vs: seq<real>, ps: seq<real>)
    requires |ps| == |vs| + 1 && forall i :: 0 <= i < |vs| ==> vs[i] == 0.0
    ensures Weighted(vs, ps) == 0.0
  {
    if vs != [] {
      WeightedZero(vs[..|vs| - 1], ps[..|vs|]);
    }
  }

  /** 1 on [s, e), 0 elsewhere. */
  function Inside(s: real, e: real, t: real): real {
    if s <= t < e then 1.0 else 0.0
  }

  ghost function Indicator(s: real, e: real, ps: seq<real>): (vs: seq<real>)
    requires |ps| > 0
    ensures |vs| == |ps| - 1 && forall i :: 0 <= i < |vs| ==> vs[i] == Inside(s, e, ps[i])
  {
    seq(|ps| - 1, i requires 0 <= i < |ps| - 1 => Inside(s, e, ps[i]))
  }

  function Clamp(s: real, e: real, x: real): real {
    if x <= s then 0.0 else if x <= e then x - s else e - s
  }

  /** The weight of an interval whose ends are in the partition is its length. */
  lemma IntervalLength(s: real, e: real, ps: seq<real>)
    requires Sorted(ps) && s in ps && e in ps && s <= e
    ensures Weighted(Indicator(s, e, ps), ps) == e - s
  {
    var i :| 0 <= i < |ps| && ps[i] == s;
    var j :| 0 <= j < |ps| && ps[j] == e;
    PrefixLength(ps, i, j, |ps| - 1);
    assert ps[..|ps|] == ps;
    assert e <= ps[|ps| - 1];
  }

  lemma {:induction false} PrefixLength(ps: seq<real>, i: nat, j: nat, n: nat)
    requires Sorted(ps) && i < |ps| && j < |ps| && n < |ps| && ps[i] <= ps[j]
    ensures Weighted(Indicator(ps[i], ps[j], ps[..n + 1]), ps[..n + 1]) == Clamp(ps[i], ps[j], ps[n])
  {
    var s, e, qs := ps[i], ps[j], ps[..n + 1];
    if n == 0 {
      assert ps[0] <= s;
    } else {
      PrefixLength(ps, i, j, n - 1);
      LastCell(s, e, ps, n);
      assert ps[n - 1] < s ==> n <= i && ps[n] <= s;
      assert ps[n - 1] < e ==> n <= j && ps[n] <= e;
      assert ps[n - 1] <= ps[n];
    }
  }

  lemma LastCell(s: real, e: real, ps: seq<real>, n: nat)
    requires 0 < n < |ps|
    ensures Weighted(Indicator(s, e, ps[..n + 1]), ps[..n + 1])
         == Weighted(Indicator(s, e, ps[..n]), ps[..n]) + (if s <= ps[n - 1] < e then ps[n] - ps[n - 1] else 0.0)
  {
    var qs := ps[..n + 1];
    var vs := Indicator(s, e, qs);
    assert qs[..n] == ps[..n];
    assert vs[..n - 1] == Indicator(s, e, ps[..n]);
    assert Weighted(vs, qs) == Weighted(vs[..n - 1], qs[..n]) + Cell(vs[n - 1], qs[n - 1], qs[n]);
  }
}

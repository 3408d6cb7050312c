/** Grouping log events into optimize cycles by the silence between them, and
    narrowing that silence until no group provably holds two cycles. */
module OptimizeCycles {
  import opened Options

  const MIN_GAP := 1.0

  /** A time stamp, and for a message that occurs once per cycle what it is once per. */
  datatype Event = Event(ts: real, once: Option<string>)

  predicate Breaks(es: seq<Event>, gap: real, n: nat)
    requires n < |es|
  {
    n == 0 || es[n].ts - es[n - 1].ts > gap
  }

  function Append(cycles: seq<seq<Event>>, e: Event): seq<seq<Event>>
    requires cycles != []
  {
    var n := |cycles| - 1;
    cycles[n := cycles[n] + [e]]
  }

  function Assign(es: seq<Event>, gap: real): (cycles: seq<seq<Event>>)
    ensures cycles == [] <==> es == []
  {
    if es == [] then []
    else
      var n := |es| - 1;
      var before := Assign(es[..n], gap);
      if Breaks(es, gap, n) then before + [[es[n]]] else Append(before, es[n])
  }

  method AssignLoop(es: seq<Event>, gap: real) returns (cycles: seq<seq<Event>>)
    ensures cycles == Assign(es, gap)
  {
    cycles := [];
    var prev: Option<real> := None;
    for i := 0 to |es|
      invariant cycles == Assign(es[..i], gap)
      invariant prev == if i == 0 then None else Some(es[i - 1].ts)
    {
      assert es[..i + 1][..i] == es[..i];
      ghost var before := cycles;
      if prev.None? || es[i].ts - prev.value > gap {
        cycles := cycles + [[]];
      }
      cycles := Append(cycles, es[i]);
      if Breaks(es[..i + 1], gap, i) {
        assert [] + [es[i]] == [es[i]];
        assert cycles == before + [[es[i]]];
      }
      prev := Some(es[i].ts);
    }
    assert es[..|es|] == es;
  }

  /** Two events of one group that can only happen once per cycle. */
  predicate Twice(cycle: seq<Event>) {
    exists i, j :: 0 <= i < j < |cycle| && Repeats(cycle, i, j)
  }

  predicate Repeats(es: seq<Event>, i: nat, j: nat)
    requires i < |es| && j < |es|
  {
    es[i].once.Some? && es[i].once == es[j].once
  }

  predicate Merged(cycles: seq<seq<Event>>) {
    exists c :: 0 <= c < |cycles| && Twice(cycles[c])
  }

  /** Where the run of event n begins: no silence longer than the gap since. */
  function RunStart(es: seq<Event>, gap: real, n: nat): (s: nat)
    requires n < |es|
    ensures s <= n
    ensures forall k :: s < k <= n ==> !Breaks(es, gap, k)
    ensures Breaks(es, gap, s)
  {
    if Breaks(es, gap, n) then n else RunStart(es, gap, n - 1)
  }

  lemma {:induction false} RunStartPrefix(es: seq<Event>, gap: real, n: nat, m: nat)
    requires n < m <= |es|
    ensures RunStart(es[..m], gap, n) == RunStart(es, gap, n)
  {
    if n > 0 {
      RunStartPrefix(es, gap, n - 1, m);
    }
  }

  /** The last group is the run of the last event. */
  lemma {:induction false} LastCycle(es: seq<Event>, gap: real)
    requires es != []
    ensures var c := Assign(es, gap); c[|c| - 1] == es[RunStart(es, gap, |es| - 1)..]
  {
    var n := |es| - 1;
    if !Breaks(es, gap, n) {
      LastCycle(es[..n], gap);
      RunStartPrefix(es, gap, n - 1, n);
      var s := RunStart(es, gap, n - 1);
      assert es[..n][s..] + [es[n]] == es[s..];
    }
  }

  /** Two once-per-cycle events stand in one run. */
  ghost predicate Linked(es: seq<Event>, gap: real, i: nat, j: nat)
    requires j < |es|
  {
    i < j && RunStart(es, gap, j) <= i && Repeats(es, i, j)
  }

  lemma RepeatsShift(es: seq<Event>, s: nat, i: nat, j: nat)
    requires s + i < |es| && s + j < |es|
    ensures Repeats(es[s..], i, j) <==> Repeats(es, s + i, s + j)
  {
  }

  lemma TwiceFrom(es: seq<Event>, s: nat)
    requires s <= |es|
    ensures Twice(es[s..]) <==> exists i, j :: s <= i < j < |es| && Repeats(es, i, j)
  {
    hide Repeats;
    var last := es[s..];
    if Twice(last) {
      var i, j :| 0 <= i < j < |last| && Repeats(last, i, j);
      RepeatsShift(es, s, i, j);
    }
    if i, j :| s <= i < j < |es| && Repeats(es, i, j) {
      RepeatsShift(es, s, i - s, j - s);
    }
  }

  lemma TwiceInLast(es: seq<Event>, gap: real)
    requires es != []
    ensures var c, n := Assign(es, gap), |es| - 1;
      Twice(c[|c| - 1]) <==> exists i, j :: RunStart(es, gap, n) <= i < j <= n && Repeats(es, i, j)
  {
    hide Assign, RunStart, Repeats, Twice;
    LastCycle(es, gap);
    TwiceFrom(es, RunStart(es, gap, |es| - 1));
  }

  lemma SameRun(es: seq<Event>, gap: real, j: nat, n: nat)
    requires j <= n < |es| && RunStart(es, gap, n) <= j
    ensures RunStart(es, gap, j) == RunStart(es, gap, n)
  {
  }

  /** Grouping merges cycles exactly when two once-per-cycle events have no silence
      longer than the gap between them. */
  ghost predicate AnyLinked(es: seq<Event>, gap: real) {
    exists i, j :: 0 <= i < j < |es| && Linked(es, gap, i, j)
  }

  lemma LinkedBefore(es: seq<Event>, gap: real, i: nat, j: nat)
    requires i < j < |es| - 1
    ensures Linked(es, gap, i, j) <==> Linked(es[..|es| - 1], gap, i, j)
  {
    hide RunStart;
    RunStartPrefix(es, gap, j, |es| - 1);
  }

  lemma LinkedToLast(es: seq<Event>, gap: real)
    requires es != [] && exists i, j :: RunStart(es, gap, |es| - 1) <= i < j < |es| && Repeats(es, i, j)
    ensures AnyLinked(es, gap)
  {
    hide RunStart, Repeats;
    var i, j :| RunStart(es, gap, |es| - 1) <= i < j < |es| && Repeats(es, i, j);
    SameRun(es, gap, j, |es| - 1);
    assert Linked(es, gap, i, j);
  }

  lemma LinkedGrows(es: seq<Event>, gap: real)
    requires es != []
    ensures var n := |es| - 1;
      AnyLinked(es, gap) <==>
      AnyLinked(es[..n], gap) || exists i, j :: RunStart(es, gap, n) <= i < j <= n && Repeats(es, i, j)
  {
    hide RunStart, Repeats, Linked;
    var n := |es| - 1;
    if AnyLinked(es[..n], gap) {
      var i, j :| 0 <= i < j < n && Linked(es[..n], gap, i, j);
      LinkedBefore(es, gap, i, j);
    }
    if exists i, j :: RunStart(es, gap, n) <= i < j <= n && Repeats(es, i, j) {
      LinkedToLast(es, gap);
    }
    if AnyLinked(es, gap) {
      var i, j :| 0 <= i < j < |es| && Linked(es, gap, i, j);
      if j < n {
        LinkedBefore(es, gap, i, j);
      } else {
        LinkedIs(es, gap, i, j);
      }
    }
  }

  lemma LinkedIs(es: seq<Event>, gap: real, i: nat, j: nat)
    requires j < |es| && Linked(es, gap, i, j)
    ensures RunStart(es, gap, j) <= i < j && Repeats(es, i, j)
  {
  }

  lemma {:induction false} MergedIsLinked(es: seq<Event>, gap: real)
    ensures Merged(Assign(es, gap)) <==> exists i, j :: 0 <= i < j < |es| && Linked(es, gap, i, j)
  {
    hide RunStart, Repeats, Linked, Twice, Merged;
    if es == [] {
      NothingMerged(gap);
    } else {
      var n := |es| - 1;
      MergedIsLinked(es[..n], gap);
      assert Merged(Assign(es[..n], gap)) <==> AnyLinked(es[..n], gap);
      TwiceInLast(es, gap);
      MergedGrows(Assign(es[..n], gap), Assign(es, gap), es[n]);
      LinkedGrows(es, gap);
      assert AnyLinked(es, gap) <==> Merged(Assign(es, gap));
    }
  }

  lemma NothingMerged(gap: real)
    ensures !Merged(Assign([], gap))
  {
  }

  lemma MergedGrows(b: seq<seq<Event>>, c: seq<seq<Event>>, e: Event)
    requires c == b + [[e]] || (b != [] && c == Append(b, e))
    ensures Merged(c) <==> Merged(b) || Twice(c[|c| - 1])
  {
    if Merged(b) {
      var k :| 0 <= k < |b| && Twice(b[k]);
      if c != b + [[e]] && k == |b| - 1 {
        var i, j :| 0 <= i < j < |b[k]| && Repeats(b[k], i, j);
        assert Repeats(c[k], i, j);
      }
      assert Twice(c[k]);
    }
    if Merged(c) {
      var k :| 0 <= k < |c| && Twice(c[k]);
      if k < |c| - 1 {
        assert Twice(b[k]);
      }
    }
  }

  /** Said of the events themselves: clustering merges cycles exactly when two events
      that are once per the same thing have no two neighbours more than the gap apart
      between them. */
  lemma MergedExactly(es: seq<Event>, gap: real)
    ensures Merged(Assign(es, gap)) <==>
            exists i, j :: 0 <= i < j < |es| && OncePerSame(es[i], es[j]) && NoSilence(es, gap, i, j)
  {
    hide Assign, Merged;
    MergedIsLinked(es, gap);
    if i, j :| 0 <= i < j < |es| && Linked(es, gap, i, j) {
      var what := es[i].once.value;
      assert es[i].once == Some(what) && es[j].once == Some(what);
      forall k | i < k <= j
        ensures es[k].ts - es[k - 1].ts <= gap
      {
        assert !Breaks(es, gap, k);
      }
    }
    if i, j :| 0 <= i < j < |es| && OncePerSame(es[i], es[j]) && NoSilence(es, gap, i, j) {
      var s := RunStart(es, gap, j);
      assert Linked(es, gap, i, j);
    }
  }

  ghost predicate OncePerSame(a: Event, b: Event) {
    exists what :: a.once == Some(what) && b.once == Some(what)
  }

  ghost predicate NoSilence(es: seq<Event>, gap: real, i: nat, j: nat)
    requires j < |es|
  {
    forall k :: i < k <= j ==> es[k].ts - es[k - 1].ts <= gap
  }

  /** A narrower gap never merges what a wider one keeps apart. */
  lemma NarrowerMergesLess(es: seq<Event>, narrow: real, wide: real)
    requires narrow <= wide && Merged(Assign(es, narrow))
    ensures Merged(Assign(es, wide))
  {
    MergedIsLinked(es, narrow);
    MergedIsLinked(es, wide);
    var i, j :| 0 <= i < j < |es| && Linked(es, narrow, i, j);
    var s, s' := RunStart(es, narrow, j), RunStart(es, wide, j);
    assert s' > s ==> !Breaks(es, narrow, s');
    assert Linked(es, wide, i, j);
  }

  /** The groups are the events again, in order and none empty. */
  function Flatten(cycles: seq<seq<Event>>): seq<Event> {
    if cycles == [] then [] else Flatten(cycles[..|cycles| - 1]) + cycles[|cycles| - 1]
  }

  lemma {:induction false} AssignPartitions(es: seq<Event>, gap: real)
    ensures var cycles := Assign(es, gap);
      Flatten(cycles) == es && forall c :: 0 <= c < |cycles| ==> cycles[c] != []
  {
    if es != [] {
      var n := |es| - 1;
      var b, c := Assign(es[..n], gap), Assign(es, gap);
      AssignPartitions(es[..n], gap);
      assert es == es[..n] + [es[n]];
      if Breaks(es, gap, n) {
        assert c[..|b|] == b;
      } else {
        assert c[..|b| - 1] == b[..|b| - 1];
        assert Flatten(b[..|b| - 1]) + (b[|b| - 1] + [es[n]]) == Flatten(b[..|b| - 1]) + b[|b| - 1] + [es[n]];
      }
    }
  }

  /** How many events come before group c. */
  ghost function Place(cycles: seq<seq<Event>>, c: nat): nat
    requires c <= |cycles|
  {
    |Flatten(cycles[..c])|
  }

  ghost predicate Starts(cycles: seq<seq<Event>>, i: nat) {
    exists c :: 0 <= c < |cycles| && Place(cycles, c) == i
  }

  lemma {:induction false} PlaceBefore(cycles: seq<seq<Event>>, c: nat)
    requires c < |cycles| && forall k :: 0 <= k < |cycles| ==> cycles[k] != []
    ensures Place(cycles, c) < |Flatten(cycles)|
  {
    var n := |cycles| - 1;
    if c < n {
      PlaceBefore(cycles[..n], c);
      assert cycles[..n][..c] == cycles[..c];
    }
  }

  lemma StartsGrow(b: seq<seq<Event>>, c: seq<seq<Event>>, e: Event, i: nat)
    requires (forall k :: 0 <= k < |b| ==> b[k] != []) && (c == b + [[e]] || (b != [] && c == Append(b, e)))
    ensures Starts(c, i) <==> (Starts(b, i) && i < |Flatten(b)|) || (c == b + [[e]] && i == |Flatten(b)|)
  {
    hide Flatten;
    assert forall k :: 0 <= k < |b| ==> c[..k] == b[..k];
    forall k | 0 <= k < |b|
      ensures Place(b, k) < |Flatten(b)|
    {
      PlaceBefore(b, k);
    }
    if c == b + [[e]] {
      assert c[..|b|] == b;
      assert Place(c, |b|) == |Flatten(b)|;
    }
    if Starts(b, i) {
      var k :| 0 <= k < |b| && Place(b, k) == i;
      assert Place(c, k) == i;
    }
    if Starts(c, i) {
      var k :| 0 <= k < |c| && Place(c, k) == i;
      if k < |b| {
        assert Place(b, k) == i;
      }
    }
  }

  /** A group starts at the first event and at every event whose time stamp is more
      than the gap after the one before it, and nowhere else: two neighbours share a
      group exactly when they are at most the gap apart. */
  lemma {:induction false} GroupsStartAtGaps(es: seq<Event>, gap: real, i: nat)
    requires i < |es|
    ensures Starts(Assign(es, gap), i) <==> i == 0 || es[i].ts - es[i - 1].ts > gap
  {
    hide Starts, Flatten;
    var n := |es| - 1;
    AssignPartitions(es[..n], gap);
    StartsGrow(Assign(es[..n], gap), Assign(es, gap), es[n], i);
    AppendKeepsCount(Assign(es[..n], gap), es[n]);
    if i < n {
      GroupsStartAtGaps(es[..n], gap, i);
    }
  }

  lemma AppendKeepsCount(b: seq<seq<Event>>, e: Event)
    ensures b != [] ==> Append(b, e) != b + [[e]]
  {
    if b != [] {
      assert |Append(b, e)| != |b + [[e]]|;
    }
  }

  function Narrower(gap: real): real {
    if gap / 2.0 >= MIN_GAP then gap / 2.0 else MIN_GAP
  }

  /** The smallest gap the narrowing can come to. */
  function Smallest(asked: real): real {
    if asked <= MIN_GAP then asked else MIN_GAP
  }

  /** The narrowing loop. It ends with groups that hold no two cycles if and only
      if the smallest gap can separate them; and when it narrowed, every gap of
      twice its width (or the one asked for) would still have merged. */
  method ResolveLoop(es: seq<Event>, asked: real) returns (cycles: seq<seq<Event>>, gap: real)
    ensures Smallest(asked) <= gap <= asked && cycles == Assign(es, gap)
    ensures Merged(cycles) <==> Merged(Assign(es, Smallest(asked)))
    ensures forall wide :: gap < asked && (wide >= asked || wide >= 2.0 * gap) ==> Merged(Assign(es, wide))
  {
    gap := asked;
    cycles := AssignLoop(es, gap);
    while Merged(cycles) && gap > MIN_GAP
      invariant Smallest(asked) <= gap <= asked && cycles == Assign(es, gap)
      invariant forall wide :: gap < asked && (wide >= asked || wide >= 2.0 * gap) ==> Merged(Assign(es, wide))
      decreases gap.Floor, gap > MIN_GAP
    {
      forall wide | wide >= gap
        ensures Merged(Assign(es, wide))
      {
        NarrowerMergesLess(es, gap, wide);
      }
      gap := Narrower(gap);
      cycles := AssignLoop(es, gap);
    }
    if Merged(Assign(es, Smallest(asked))) {
      NarrowerMergesLess(es, Smallest(asked), gap);
    }
  }
}

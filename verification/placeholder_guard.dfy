/** The guard that looks for what a here-document would expand: placeholders
    removed one after another, then a search for what is left. */
module PlaceholderGuard {
  import opened Options
  import opened HereDocument

  /** Every occurrence of ph removed, left to right. */
  function Remove(ph: string, s: string): string
    requires |ph| > 0
    decreases |s|
  {
    if s == "" then ""
    else if ph <= s then Remove(ph, s[|ph|..])
    else [s[0]] + Remove(ph, s[1..])
  }

  function Scrub(phs: seq<string>, s: string): string
    requires AllWellFormed(phs)
  {
    if phs == [] then s
    else
      assert WellFormed(phs[0]);
      Scrub(phs[1..], Remove(phs[0], s))
  }

  method ScrubLoop(phs: seq<string>, text: string) returns (scrubbed: string)
    requires AllWellFormed(phs)
    ensures scrubbed == Scrub(phs, text)
  {
    scrubbed := text;
    for i := 0 to |phs|
      invariant Scrub(phs[i..], scrubbed) == Scrub(phs, text)
    {
      assert phs[i..][1..] == phs[i + 1..] && WellFormed(phs[i]);
      scrubbed := Remove(phs[i], scrubbed);
    }
  }

  predicate Guarded(phs: seq<string>, s: string)
    requires AllWellFormed(phs)
  {
    '$' !in Scrub(phs, s) && '`' !in Scrub(phs, s)
  }

  lemma MatchTail(phs: seq<string>, s: string)
    requires phs != [] && !(phs[0] <= s)
    ensures Match(phs, s) == Match(phs[1..], s)
  {
  }

  lemma CleanCons(phs: seq<string>, c: char, s: string)
    requires Clean(phs, s) && c != '$' && c != '`'
    ensures Clean(phs, [c] + s)
  {
    var t := [c] + s;
    forall i | 0 <= i < |t| && t[i] == '$'
      ensures Match(phs, t[i..]).Some?
    {
      assert t[i..] == s[i - 1..];
    }
  }

  lemma CleanPlaceholder(phs: seq<string>, ph: string, s: string)
    requires Clean(phs, s) && WellFormed(ph) && ph in phs
    ensures Clean(phs, ph + s)
  {
    var t := ph + s;
    forall i | 0 <= i < |t| && t[i] == '$'
      ensures Match(phs, t[i..]).Some?
    {
      if i >= |ph| {
        assert t[i..] == s[i - |ph|..];
      } else {
        assert i == 0 && t[0..] == t && ph <= t;
      }
    }
  }

  /** Removing one placeholder leaves the others whole. */
  lemma {:induction false} RemoveSkips(ph: string, q: string, n: nat, s: string)
    requires WellFormed(ph) && WellFormed(q) && n <= |q| && (n == 0 ==> !(ph <= q + s))
    ensures Remove(ph, q[n..] + s) == q[n..] + Remove(ph, s)
    decreases |q| - n
  {
    var t := q[n..] + s;
    if n == |q| {
      assert t == s;
    } else {
      assert n == 0 ==> t == q + s;
      assert t[0] == q[n];
      assert t[1..] == q[n + 1..] + s;
      RemoveSkips(ph, q, n + 1, s);
      assert q[n..] == [q[n]] + q[n + 1..];
    }
  }

  lemma {:induction false} RemoveKeepsClean(phs: seq<string>, s: string)
    requires AllWellFormed(phs) && phs != [] && Clean(phs, s)
    ensures WellFormed(phs[0]) && Clean(phs[1..], Remove(phs[0], s))
    decreases |s|
  {
    assert WellFormed(phs[0]);
    if s != "" {
      var ph := phs[0];
      assert s[0..] == s;
      if ph <= s {
        CleanSuffix(phs, s, |ph|);
        RemoveKeepsClean(phs, s[|ph|..]);
      } else if s[0] == '$' {
        MatchTail(phs, s);
        var q := Match(phs, s).value;
        assert q in phs[1..] && WellFormed(q);
        var rest := s[|q|..];
        assert s == q + rest && q[0..] == q;
        CleanSuffix(phs, s, |q|);
        RemoveKeepsClean(phs, rest);
        RemoveSkips(ph, q, 0, rest);
        CleanPlaceholder(phs[1..], q, Remove(ph, rest));
      } else {
        CleanSuffix(phs, s, 1);
        RemoveKeepsClean(phs, s[1..]);
        CleanCons(phs[1..], s[0], Remove(ph, s[1..]));
      }
    }
  }

  /** The guard refuses no clean text. */
  lemma {:induction false} CleanPassesGuard(phs: seq<string>, s: string)
    requires AllWellFormed(phs) && Clean(phs, s)
    ensures Guarded(phs, s)
  {
    if phs == [] {
      assert forall i :: 0 <= i < |s| ==> Match(phs, s[i..]).None?;
    } else {
      RemoveKeepsClean(phs, s);
      CleanPassesGuard(phs[1..], Remove(phs[0], s));
    }
  }

  lemma {:induction false} RemoveNone(ph: string, s: string)
    requires WellFormed(ph) && '$' !in s
    ensures Remove(ph, s) == s
  {
    if s != "" {
      RemoveNone(ph, s[1..]);
    }
  }

  lemma RemoveHit(ph: string, s: string)
    requires |ph| > 0
    ensures Remove(ph, ph + s) == Remove(ph, s)
  {
    assert (ph + s)[|ph|..] == s;
  }

  // When an accepted text is safe.

  /** A placeholder directly behind the beginning of a placeholder. */
  ghost predicate Splits(phs: seq<string>, s: string) {
    exists p, q, k :: p in phs && q in phs && 0 < k < |q| && q[..k] + p <= s
  }

  /** Nowhere does a placeholder split what could become another. */
  ghost predicate NoSplit(phs: seq<string>, s: string) {
    forall i :: 0 <= i <= |s| ==> !Splits(phs, s[i..])
  }

  /** A dollar that starts no placeholder. */
  ghost predicate Dangling(phs: seq<string>, s: string) {
    exists i :: 0 <= i < |s| && s[i] == '$' && Match(phs, s[i..]).None?
  }

  /** What a removal leaves at the front was at the front, unless the removed
      placeholder stood in it. */
  lemma {:induction false} RemoveLifts(ph: string, u: string, s: string)
    requires |ph| > 0 && u <= Remove(ph, s)
    requires forall m :: 0 <= m < |u| ==> !(u[..m] + ph <= s)
    ensures u <= s
  {
    if u != "" {
      assert u[..0] + ph == ph;
      var v, t := u[1..], s[1..];
      assert v <= Remove(ph, t);
      forall m | 0 <= m < |v|
        ensures !(v[..m] + ph <= t)
      {
        assert u[..m + 1] + ph == [u[0]] + (v[..m] + ph);
        assert s == [s[0]] + t;
      }
      RemoveLifts(ph, v, t);
      assert u == [u[0]] + v && s == [s[0]] + t;
    }
  }

  /** Where a character of the result was. */
  lemma {:induction false} Back(ph: string, s: string, j: nat) returns (i: nat)
    requires |ph| > 0 && j < |Remove(ph, s)|
    ensures i < |s| && !(ph <= s[i..]) && Remove(ph, s)[j..] == Remove(ph, s[i..])
    decreases |s|
  {
    assert s[0..] == s;
    if ph <= s {
      i := Back(ph, s[|ph|..], j);
      assert s[|ph|..][i..] == s[|ph| + i..];
      i := |ph| + i;
    } else if j == 0 {
      i := 0;
    } else {
      i := Back(ph, s[1..], j - 1);
      assert s[1..][i..] == s[1 + i..];
      assert Remove(ph, s)[j..] == Remove(ph, s[1..])[j - 1..];
      i := 1 + i;
    }
  }

  /** Where a dollar that does not start the removed placeholder goes. */
  lemma {:induction false} Forward(ph: string, s: string, i: nat) returns (j: nat)
    requires WellFormed(ph) && i < |s| && s[i] == '$' && !(ph <= s[i..])
    ensures j < |Remove(ph, s)| && Remove(ph, s)[j..] == Remove(ph, s[i..])
    ensures Remove(ph, s)[j] == '$'
    decreases |s|
  {
    assert s[0..] == s;
    if ph <= s {
      assert forall n :: 0 <= n < |ph| ==> s[n] == ph[n];
      assert s[|ph|..][i - |ph|..] == s[i..];
      j := Forward(ph, s[|ph|..], i - |ph|);
    } else if i == 0 {
      j := 0;
    } else {
      assert s[1..][i - 1..] == s[i..];
      j := Forward(ph, s[1..], i - 1);
      assert Remove(ph, s)[j + 1..] == Remove(ph, s[1..])[j..];
      j := j + 1;
    }
  }

  lemma NotSplit(phs: seq<string>, s: string, i: nat, p: string, q: string, k: nat)
    requires NoSplit(phs, s) && i <= |s| && p in phs && q in phs && 0 < k < |q|
    ensures !(q[..k] + p <= s[i..])
  {
  }

  lemma DanglingStays(phs: seq<string>, ph: string, s: string)
    requires AllWellFormed(phs) && ph in phs && WellFormed(ph) && NoSplit(phs, s) && Dangling(phs, s)
    ensures Dangling(phs, Remove(ph, s))
  {
    hide Remove, NoSplit;
    var i :| 0 <= i < |s| && s[i] == '$' && Match(phs, s[i..]).None?;
    var j := Forward(ph, s, i);
    var t, r := s[i..], Remove(ph, s);
    if Match(phs, r[j..]).Some? {
      var u := Match(phs, r[j..]).value;
      forall m | 0 <= m < |u|
        ensures !(u[..m] + ph <= t)
      {
        if m == 0 {
          assert u[..0] + ph == ph;
        } else {
          NotSplit(phs, s, i, ph, u, m);
        }
      }
      RemoveLifts(ph, u, t);
      assert false;
    }
  }

  /** Nothing behind the beginning of q + p, given that nothing is split. */
  lemma NothingInside(phs: seq<string>, ph: string, s: string, i: nat, p: string, q: string, k: nat, m: nat)
    requires NoSplit(phs, s) && i <= |s| && ph in phs && p in phs && q in phs && 0 < k < |q|
    requires 0 < m < k + |p|
    ensures !((q[..k] + p)[..m] + ph <= s[i..])
  {
    hide NoSplit;
    var u, t := q[..k] + p, s[i..];
    if m <= k {
      assert u[..m] == q[..m];
      NotSplit(phs, s, i, ph, q, m);
    } else if u[..m] + ph <= t {
      assert u[..m] + ph == q[..k] + (p[..m - k] + ph);
      assert t[k..] == s[i + k..];
      NotSplit(phs, s, i + k, ph, p, m - k);
      PrefixTail(q[..k], p[..m - k] + ph, t);
      assert false;
    }
  }

  lemma PrefixTail(a: string, b: string, s: string)
    requires a + b <= s
    ensures b <= s[|a|..]
  {
    assert (a + b)[|a|..] == b;
    assert s[..|a| + |b|] == a + b;
  }

  lemma NoSplitKept(phs: seq<string>, ph: string, s: string)
    requires AllWellFormed(phs) && ph in phs && WellFormed(ph) && NoSplit(phs, s)
    ensures NoSplit(phs, Remove(ph, s))
  {
    hide Remove;
    var r := Remove(ph, s);
    forall j | 0 <= j <= |r|
      ensures !Splits(phs, r[j..])
    {
      if Splits(phs, r[j..]) {
        var p, q, k :| p in phs && q in phs && 0 < k < |q| && q[..k] + p <= r[j..];
        var i := Back(ph, s, j);
        var u := q[..k] + p;
        forall m | 0 <= m < |u|
          ensures !(u[..m] + ph <= s[i..])
        {
          if m == 0 {
            assert u[..0] + ph == ph;
          } else {
            NothingInside(phs, ph, s, i, p, q, k, m);
          }
        }
        NotSplit(phs, s, i, p, q, k);
        RemoveLifts(ph, u, s[i..]);
        assert false;
      }
    }
  }

  lemma {:induction false} DanglingSeen(all: seq<string>, phs: seq<string>, s: string)
    requires AllWellFormed(all) && AllWellFormed(phs) && forall i :: 0 <= i < |phs| ==> phs[i] in all
    requires NoSplit(all, s) && Dangling(all, s)
    ensures '$' in Scrub(phs, s)
  {
    hide NoSplit, Remove;
    if phs != [] {
      assert WellFormed(phs[0]);
      DanglingStays(all, phs[0], s);
      NoSplitKept(all, phs[0], s);
      DanglingSeen(all, phs[1..], Remove(phs[0], s));
    }
  }

  lemma {:induction false} BacktickStays(ph: string, s: string)
    requires WellFormed(ph) && '`' in s
    ensures '`' in Remove(ph, s)
    decreases |s|
  {
    if ph <= s {
      assert s == ph + s[|ph|..];
      assert '`' in s[|ph|..] by { assert forall i :: 0 <= i < |ph| ==> ph[i] != '`'; }
      BacktickStays(ph, s[|ph|..]);
    } else if s[0] != '`' {
      assert s == [s[0]] + s[1..];
      BacktickStays(ph, s[1..]);
    }
  }

  lemma {:induction false} BacktickSeen(phs: seq<string>, s: string)
    requires AllWellFormed(phs) && '`' in s
    ensures '`' in Scrub(phs, s)
  {
    if phs != [] {
      assert WellFormed(phs[0]);
      BacktickStays(phs[0], s);
      BacktickSeen(phs[1..], Remove(phs[0], s));
    }
  }

  lemma CleanOrNot(phs: seq<string>, s: string)
    ensures Clean(phs, s) <==> !Dangling(phs, s) && '`' !in s
  {
    if !Dangling(phs, s) {
      assert forall i :: 0 <= i < |s| && s[i] == '$' ==> Match(phs, s[i..]).Some?;
    }
  }

  /** In a text in which no placeholder splits another the guard is exact. */
  lemma GuardExact(phs: seq<string>, s: string)
    requires AllWellFormed(phs) && NoSplit(phs, s)
    ensures Guarded(phs, s) <==> Clean(phs, s)
  {
    hide NoSplit, Scrub;
    CleanOrNot(phs, s);
    if Clean(phs, s) {
      CleanPassesGuard(phs, s);
    } else if '`' in s {
      BacktickSeen(phs, s);
    } else {
      DanglingSeen(phs, phs, s);
    }
  }

  // When it is not.

  /** No placeholder is the beginning of another. */
  ghost predicate PrefixFree(phs: seq<string>) {
    forall i, j :: 0 <= i < |phs| && 0 <= j < |phs| && i != j ==> !(phs[i] <= phs[j])
  }

  lemma {:induction false} RemovePrefix(ph: string, u: string, s: string)
    requires |ph| > 0 && forall i :: 0 <= i < |u| ==> !(ph <= (u + s)[i..])
    ensures Remove(ph, u + s) == u + Remove(ph, s)
  {
    var t := u + s;
    if u == "" {
      assert t == s;
    } else {
      assert t[0..] == t && t[1..] == u[1..] + s;
      forall i | 0 <= i < |u[1..]|
        ensures !(ph <= (u[1..] + s)[i..])
      {
        assert t[1 + i..] == (u[1..] + s)[i..];
      }
      RemovePrefix(ph, u[1..], s);
      assert u == [u[0]] + u[1..];
    }
  }

  lemma RemoveAbsent(ph: string, t: string)
    requires |ph| > 0 && forall i :: 0 <= i < |t| ==> !(ph <= t[i..])
    ensures Remove(ph, t) == t
  {
    assert t + "" == t;
    RemovePrefix(ph, t, "");
  }

  lemma {:induction false} ScrubAbsent(phs: seq<string>, t: string)
    requires AllWellFormed(phs) && forall c, i :: 0 <= c < |phs| && 0 <= i < |t| ==> !(phs[c] <= t[i..])
    ensures Scrub(phs, t) == t
  {
    if phs != [] {
      RemoveFirst(phs, t);
      ScrubAbsent(phs[1..], t);
    }
  }

  /** Placeholders that do not occur are removed without effect. */
  lemma {:induction false} ScrubOne(phs: seq<string>, a: nat, t: string)
    requires AllWellFormed(phs) && a < |phs| && WellFormed(phs[a])
    requires forall c, i :: 0 <= c < a && 0 <= i < |t| ==> !(phs[c] <= t[i..])
    ensures AllWellFormed(phs[a + 1..]) && Scrub(phs, t) == Scrub(phs[a + 1..], Remove(phs[a], t))
  {
    hide Remove, WellFormed;
    if a > 0 {
      RemoveFirst(phs, t);
      ScrubOne(phs[1..], a - 1, t);
      assert phs[1..][a..] == phs[a + 1..];
    }
  }

  lemma RemoveFirst(phs: seq<string>, t: string)
    requires AllWellFormed(phs) && phs != [] && forall i :: 0 <= i < |t| ==> !(phs[0] <= t[i..])
    ensures AllWellFormed(phs[1..]) && Scrub(phs, t) == Scrub(phs[1..], t)
  {
    hide Remove;
    assert WellFormed(phs[0]);
    RemoveAbsent(phs[0], t);
  }

  function Nest(q: string, k: nat, p: string): string
    requires k <= |q|
  {
    q[..k] + p + q[k..]
  }

  lemma NestDollars(q: string, k: nat, p: string)
    requires WellFormed(q) && WellFormed(p) && 0 < k < |q|
    ensures forall i :: 0 <= i < |Nest(q, k, p)| ==> (Nest(q, k, p)[i] == '$' <==> i == 0 || i == k)
  {
    var t := Nest(q, k, p);
    assert forall i :: 0 <= i < k ==> t[i] == q[i];
    assert forall i :: k <= i < k + |p| ==> t[i] == p[i - k];
    assert forall i :: k + |p| <= i < |t| ==> t[i] == q[i - |p|];
  }

  lemma StopsAtDollar(r: string, t: string, k: nat)
    requires WellFormed(r) && r <= t && 0 < k < |t| && t[k] == '$'
    ensures |r| <= k
  {
    assert forall n :: 0 <= n < |r| ==> r[n] == t[n];
  }

  lemma OuterPrefix(r: string, q: string, k: nat, p: string)
    requires k <= |q| && r <= Nest(q, k, p) && |r| <= k
    ensures r <= q
  {
    assert r == Nest(q, k, p)[..|r|] == q[..|r|];
  }

  lemma OneIsPrefix(r: string, p: string, s: string)
    requires r <= p + s
    ensures r <= p || p <= r
  {
    if |r| <= |p| {
      assert r == p[..|r|];
    } else {
      assert p == r[..|p|];
    }
  }

  /** The one placeholder in a nested text is the inner one. */
  lemma OnlyInner(phs: seq<string>, a: nat, b: nat, k: nat, c: nat, i: nat)
    requires AllWellFormed(phs) && PrefixFree(phs) && a < |phs| && b < |phs| && c < |phs| && 0 < k < |phs[b]|
    requires i < |Nest(phs[b], k, phs[a])| && phs[c] <= Nest(phs[b], k, phs[a])[i..]
    ensures c == a && i == k
  {
    var p, q, r, t := phs[a], phs[b], phs[c], Nest(phs[b], k, phs[a]);
    assert WellFormed(p) && WellFormed(q) && WellFormed(r);
    NestDollars(q, k, p);
    assert t[i] == r[0];
    assert t[0..] == t && t[k..] == p + q[k..];
    if i == 0 {
      StopsAtDollar(r, t, k);
      OuterPrefix(r, q, k, p);
      assert false;
    }
    OneIsPrefix(r, p, q[k..]);
  }

  lemma OnlyItself(phs: seq<string>, b: nat, c: nat, i: nat)
    requires AllWellFormed(phs) && PrefixFree(phs) && b < |phs| && c < |phs|
    requires i < |phs[b]| && phs[c] <= phs[b][i..]
    ensures c == b
  {
    assert WellFormed(phs[b]) && WellFormed(phs[c]);
    assert phs[b][i] == phs[c][0];
    assert phs[b][0..] == phs[b];
  }

  lemma RemoveInner(phs: seq<string>, a: nat, b: nat, k: nat)
    requires AllWellFormed(phs) && PrefixFree(phs) && a < |phs| && b < |phs| && 0 < k < |phs[b]|
    ensures WellFormed(phs[a]) && Remove(phs[a], Nest(phs[b], k, phs[a])) == phs[b]
  {
    hide Remove;
    var p, q := phs[a], phs[b];
    assert WellFormed(p) && WellFormed(q);
    var u, s, t := q[..k], p + q[k..], Nest(q, k, p);
    assert t == u + s;
    forall i | 0 <= i < |u|
      ensures !(p <= (u + s)[i..])
    {
      if p <= t[i..] { OnlyInner(phs, a, b, k, a, i); }
    }
    RemovePrefix(p, u, s);
    RemoveHit(p, q[k..]);
    RemoveNone(p, q[k..]);
    assert u + q[k..] == q;
  }

  lemma NotCleanNested(phs: seq<string>, a: nat, b: nat, k: nat)
    requires AllWellFormed(phs) && PrefixFree(phs) && a < |phs| && b < |phs| && 0 < k < |phs[b]|
    ensures !Clean(phs, Nest(phs[b], k, phs[a]))
  {
    var t := Nest(phs[b], k, phs[a]);
    assert WellFormed(phs[b]) && t[0] == '$';
    var m := Match(phs, t[0..]);
    if m.Some? {
      var c :| 0 <= c < |phs| && phs[c] == m.value;
      OnlyInner(phs, a, b, k, c, 0);
      assert false;
    }
  }

  /** A placeholder nested in another never makes a clean text, wherever it stands
      in it; and the guard passes it exactly if the inner one is removed first. */
  lemma NestingPasses(phs: seq<string>, a: nat, b: nat, k: nat)
    requires AllWellFormed(phs) && PrefixFree(phs) && a < |phs| && b < |phs| && a != b && 0 < k < |phs[b]|
    ensures !Clean(phs, Nest(phs[b], k, phs[a]))
    ensures Guarded(phs, Nest(phs[b], k, phs[a])) <==> a < b
  {
    hide Clean, Remove, Scrub, Nest;
    NotCleanNested(phs, a, b, k);
    var p, q, t := phs[a], phs[b], Nest(phs[b], k, phs[a]);
    forall c, i | 0 <= c < a && 0 <= i < |t|
      ensures !(phs[c] <= t[i..])
    {
      if phs[c] <= t[i..] { OnlyInner(phs, a, b, k, c, i); }
    }
    RemoveInner(phs, a, b, k);
    ScrubOne(phs, a, t);
    ScrubRest(phs, a + 1, b);
  }

  /** What is left of a placeholder after the removals from n on. */
  lemma ScrubRest(phs: seq<string>, n: nat, b: nat)
    requires AllWellFormed(phs) && PrefixFree(phs) && b < |phs| && n <= |phs|
    ensures AllWellFormed(phs[n..]) && Scrub(phs[n..], phs[b]) == if n <= b then "" else phs[b]
    ensures '$' in phs[b]
  {
    hide Scrub;
    var q, ys := phs[b], phs[n..];
    assert WellFormed(q);
    forall c, i | 0 <= c < |ys| && n + c != b && 0 <= i < |q|
      ensures !(ys[c] <= q[i..])
    {
      var place: nat, at: nat := n + c, i;
      if ys[c] <= q[i..] { OnlyItself(phs, b, place, at); }
    }
    if n <= b {
      assert ys[b - n] == q;
      ScrubOne(ys, b - n, q);
      RemoveHit(q, "");
      assert q + "" == q;
      ScrubAbsent(ys[b - n + 1..], "");
    } else {
      ScrubAbsent(ys, q);
    }
  }

  /** The guard is exact on every text if and only if there is at most one
      placeholder to remove. */
  lemma GuardExactlyForOne(phs: seq<string>)
    requires AllWellFormed(phs) && PrefixFree(phs)
    ensures (forall s :: Guarded(phs, s) <==> Clean(phs, s)) <==> |phs| <= 1
  {
    hide Scrub, Remove;
    if |phs| > 1 {
      assert WellFormed(phs[0]) && WellFormed(phs[1]);
      assert |phs[1]| > 1;
      NestingPasses(phs, 0, 1, 1);
    } else {
      forall s
        ensures Guarded(phs, s) <==> Clean(phs, s)
      {
        OneIsExact(phs, s);
      }
    }
  }

  lemma OneIsExact(phs: seq<string>, s: string)
    requires AllWellFormed(phs) && |phs| <= 1
    ensures Guarded(phs, s) <==> Clean(phs, s)
  {
    CleanOrNot(phs, s);
    if Clean(phs, s) {
      CleanPassesGuard(phs, s);
    } else if '`' in s {
      BacktickSeen(phs, s);
    } else {
      var i :| 0 <= i < |s| && s[i] == '$' && Match(phs, s[i..]).None?;
      if phs != [] {
        assert WellFormed(phs[0]) && phs[1..] == [];
        var j := Forward(phs[0], s, i);
        assert Scrub(phs, s) == Remove(phs[0], s);
      } else {
        assert Scrub(phs, s) == s;
      }
    }
  }

  lemma ShippedPrefixFree()
    ensures PrefixFree(PLACEHOLDERS)
  {
    assert GPUS[2] == 'G' && MEMORY[2] == 'W' && IMAGE[2] == 'P' && CLAIM[2] == 'C';
  }

  /** The shipped list: the GPU count inside the memory placeholder. */
  lemma GuardMissesNesting()
    ensures AllWellFormed(PLACEHOLDERS)
    ensures var s := "${" + GPUS + "WP_MEMORY}"; Guarded(PLACEHOLDERS, s) && !Clean(PLACEHOLDERS, s)
  {
    hide Scrub, Clean;
    ShippedWellFormed();
    ShippedPrefixFree();
    NestingPasses(PLACEHOLDERS, 0, 1, 2);
    assert MEMORY[..2] == "${" && MEMORY[2..] == "WP_MEMORY}";
    assert Nest(MEMORY, 2, GPUS) == "${" + GPUS + "WP_MEMORY}";
  }
}

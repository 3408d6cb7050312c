/** The lexical order of names, and the least name of a set. */
module Lexical {
  predicate Precedes(a: string, b: string) {
    |b| > 0 && (|a| == 0 || a[0] < b[0] || (a[0] == b[0] && Precedes(a[1..], b[1..])))
  }

  lemma {:induction false} PrecedesTransitive(a: string, b: string, c: string)
    requires Precedes(a, b) && Precedes(b, c)
    ensures Precedes(a, c)
  {
    if |a| > 0 && a[0] == b[0] == c[0] {
      PrecedesTransitive(a[1..], b[1..], c[1..]);
    }
  }

  lemma {:induction false} PrecedesIrreflexive(a: string)
    ensures !Precedes(a, a)
  {
    if |a| > 0 {
      PrecedesIrreflexive(a[1..]);
    }
  }

  lemma {:induction false} PrecedesTotal(a: string, b: string)
    ensures a == b || Precedes(a, b) || Precedes(b, a)
  {
    if |a| > 0 && |b| > 0 && a[0] == b[0] {
      PrecedesTotal(a[1..], b[1..]);
      assert a == [a[0]] + a[1..] && b == [b[0]] + b[1..];
    }
  }

  /** What preceding means: a proper beginning, or the smaller character where the
      two first differ. */
  lemma {:induction false} PrecedesExactly(a: string, b: string)
    ensures Precedes(a, b) <==>
            || (a <= b && a != b)
            || exists i :: 0 <= i < |a| && i < |b| && a[..i] == b[..i] && a[i] < b[i]
  {
    if a != "" && b != "" {
      var s, t := a[1..], b[1..];
      PrecedesExactly(s, t);
      if a[0] == b[0] {
        assert a <= b <==> s <= t by { SamePrefix(a, b); }
        assert a == [a[0]] + s && b == [b[0]] + t;
        if i :| 0 <= i < |a| && i < |b| && a[..i] == b[..i] && a[i] < b[i] {
          assert s[..i - 1] == a[..i][1..] == b[..i][1..] == t[..i - 1];
          assert s[i - 1] < t[i - 1];
        }
        if i :| 0 <= i < |s| && i < |t| && s[..i] == t[..i] && s[i] < t[i] {
          assert a[..i + 1] == [a[0]] + s[..i] && b[..i + 1] == [b[0]] + t[..i];
          assert a[i + 1] < b[i + 1];
        }
      } else {
        assert a[..0] == b[..0];
        assert forall i :: 0 < i <= |a| && i <= |b| ==> a[..i][0] != b[..i][0];
      }
    }
  }

  lemma SamePrefix(a: string, b: string)
    requires a != "" && b != "" && a[0] == b[0]
    ensures a <= b <==> a[1..] <= b[1..]
  {
    assert a == [a[0]] + a[1..] && b == [b[0]] + b[1..];
    if a <= b {
      assert a[1..] == b[..|a|][1..];
    }
  }

  ghost predicate IsLeast(k: string, keys: set<string>) {
    k in keys && forall j :: j in keys ==> j == k || Precedes(k, j)
  }

  lemma LeastUnique(k: string, j: string, keys: set<string>)
    requires IsLeast(k, keys) && IsLeast(j, keys)
    ensures k == j
  {
    if k != j {
      PrecedesTransitive(k, j, k);
      PrecedesIrreflexive(k);
    }
  }

  /** The smaller of a new key and the least so far. */
  function Smaller(k: string, j: string): string {
    if Precedes(k, j) then k else j
  }

  lemma SmallerIsLeast(k: string, j: string, keys: set<string>)
    requires IsLeast(j, keys)
    ensures IsLeast(Smaller(k, j), keys + {k})
  {
    PrecedesTotal(k, j);
    if Precedes(k, j) {
      forall i | i in keys && i != j
        ensures Precedes(k, i)
      {
        PrecedesTransitive(k, j, i);
      }
    }
  }

  lemma {:induction false} LeastExists(keys: set<string>)
    requires keys != {}
    ensures exists k :: IsLeast(k, keys)
    decreases |keys|
  {
    var k :| k in keys;
    var rest := keys - {k};
    assert keys == rest + {k};
    if rest == {} {
      assert IsLeast(k, keys);
    } else {
      LeastExists(rest);
      var j :| IsLeast(j, rest);
      SmallerIsLeast(k, j, rest);
    }
  }

  ghost function Least(keys: set<string>): (k: string)
    requires keys != {}
    ensures IsLeast(k, keys)
  {
    LeastExists(keys);
    var k :| IsLeast(k, keys);
    k
  }

  ghost function Elements(names: seq<string>): (s: set<string>)
    ensures s == {} <==> names == []
    ensures forall n :: n in s <==> n in names
  {
    var s := set n | n in names;
    assert names != [] ==> names[0] in s;
    s
  }

  lemma ElementsAppend(names: seq<string>, k: string)
    ensures Elements(names + [k]) == Elements(names) + {k}
  {
  }

  /** The least name of a list: what the list holds, not its order, decides it. */
  method LeastLoop(names: seq<string>) returns (k: string)
    requires names != []
    ensures k == Least(Elements(names))
  {
    k := names[0];
    for i := 1 to |names|
      invariant IsLeast(k, Elements(names[..i]))
    {
      assert names[..i + 1] == names[..i] + [names[i]];
      ElementsAppend(names[..i], names[i]);
      SmallerIsLeast(names[i], k, Elements(names[..i]));
      k := Smaller(names[i], k);
    }
    assert names[..|names|] == names;
    LeastUnique(k, Least(Elements(names)), Elements(names));
  }
}

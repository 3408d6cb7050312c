/** Replacing the generated block of a script. */
module GeneratedBlock {
  import opened Options

  const START := "# BEGIN GENERATED" + " POD SPEC -- regenerate" + " with: make warmpool-render"
  const END := "# END GENERATED POD SPEC"

  predicate At(pat: string, s: string, k: nat) {
    k + |pat| <= |s| && s[k..k + |pat|] == pat
  }

  /** The first occurrence. */
  function Find(pat: string, s: string, from: nat): (r: Option<nat>)
    requires from <= |s|
    ensures r.Some? ==> from <= r.value && At(pat, s, r.value) && forall k :: from <= k < r.value ==> !At(pat, s, k)
    ensures r.None? ==> forall k :: from <= k ==> !At(pat, s, k)
    decreases |s| - from
  {
    if At(pat, s, from) then Some(from)
    else if from == |s| then None
    else Find(pat, s, from + 1)
  }

  function Index(pat: string, s: string): Option<nat> {
    Find(pat, s, 0)
  }

  lemma IndexIs(pat: string, s: string, k: nat)
    requires At(pat, s, k) && forall j :: 0 <= j < k ==> !At(pat, s, j)
    ensures Index(pat, s) == Some(k)
  {
    hide At;
  }

  lemma IndexFirst(pat: string, s: string)
    ensures Index(pat, s).Some? ==>
              At(pat, s, Index(pat, s).value) && forall k :: 0 <= k < Index(pat, s).value ==> !At(pat, s, k)
    ensures Index(pat, s).None? ==> forall k :: 0 <= k ==> !At(pat, s, k)
  {
    hide At;
  }

  function ReplaceBlock(start: string, end: string, text: string, block: string): Option<string> {
    var i, j := Index(start, text), Index(end, text);
    if i.None? || j.None? then None
    else Some(text[..i.value] + block + text[j.value + |end|..])
  }

  /** A block that opens with the start marker and ends with the only end marker in it. */
  ghost predicate Framed(start: string, end: string, block: string) {
    && 0 < |end| <= |start| && |start| + |end| <= |block| && !(end <= start)
    && start <= block && Index(end, block) == Some(|block| - |end|)
  }

  lemma AtPrefix(pat: string, s: string, u: string, n: nat, k: nat)
    requires n <= |s| && n <= |u| && s[..n] == u[..n] && k + |pat| <= n
    ensures At(pat, s, k) <==> At(pat, u, k)
  {
    assert s[k..k + |pat|] == s[..n][k..k + |pat|] == u[..n][k..k + |pat|] == u[k..k + |pat|];
  }

  lemma SliceSlice(s: string, i: nat, n: nat, k: nat, m: nat)
    requires i + n <= |s| && k + m <= n
    ensures s[i..i + n][k..k + m] == s[i + k..i + k + m]
  {
    var a, b := s[i..i + n][k..k + m], s[i + k..i + k + m];
    forall j | 0 <= j < m
      ensures a[j] == b[j]
    {
      assert a[j] == s[i..i + n][k + j] == s[i + k + j] == b[j];
    }
  }

  /** The markers keep their places in the result. */
  lemma StartStays(start: string, end: string, text: string, block: string, i: nat, out: string)
    requires Framed(start, end, block) && Index(start, text) == Some(i)
    requires i + |block| <= |out| && out[..i] == text[..i] && out[i..i + |block|] == block
    ensures Index(start, out) == Some(i)
    ensures forall k :: 0 <= k < i ==> (At(end, out, k) <==> At(end, text, k))
  {
    var n := i + |start|;
    SamePrefix(start, end, text, block, i, out);
    forall k | 0 <= k < i
      ensures !At(start, out, k) && (At(end, out, k) <==> At(end, text, k))
    {
      AtPrefix(start, text, out, n, k);
      AtPrefix(end, text, out, n, k);
    }
    SliceSlice(out, i, |block|, 0, |start|);
    assert At(start, out, i);
    IndexIs(start, out, i);
  }

  lemma EndStays(start: string, end: string, text: string, block: string, i: nat, out: string)
    requires Framed(start, end, block) && Index(start, text) == Some(i)
    requires i + |block| <= |out| && out[..i] == text[..i] && out[i..i + |block|] == block
    requires forall k :: 0 <= k < i ==> !At(end, text, k)
    ensures Index(end, out) == Some(i + |block| - |end|)
  {
    hide Index, Find, At;
    var e := |block| - |end|;
    IndexFirst(end, block);
    StartStays(start, end, text, block, i, out);
    EndInside(end, out, i, block, e);
  }

  lemma EndInside(end: string, out: string, i: nat, block: string, e: nat)
    requires i + |block| <= |out| && out[i..i + |block|] == block && e + |end| == |block|
    requires forall k :: 0 <= k < i ==> !At(end, out, k)
    requires At(end, block, e) && forall k :: 0 <= k < e ==> !At(end, block, k)
    ensures Index(end, out) == Some(i + e)
  {
    hide Index, Find, At;
    forall k | i <= k < i + e
      ensures !At(end, out, k)
    {
      AtShifted(end, out, i, block, k - i);
    }
    AtShifted(end, out, i, block, e);
    IndexIs(end, out, i + e);
  }

  lemma AtShifted(pat: string, s: string, i: nat, b: string, k: nat)
    requires i + |b| <= |s| && s[i..i + |b|] == b && k + |pat| <= |b|
    ensures At(pat, s, i + k) <==> At(pat, b, k)
  {
    SliceSlice(s, i, |b|, k, |pat|);
  }

  lemma SamePrefix(start: string, end: string, text: string, block: string, i: nat, out: string)
    requires Framed(start, end, block) && Index(start, text) == Some(i)
    requires i + |block| <= |out| && out[..i] == text[..i] && out[i..i + |block|] == block
    ensures i + |start| <= |text| && text[..i + |start|] == out[..i + |start|]
  {
    var n := i + |start|;
    assert text[..n] == text[..i] + text[i..n];
    assert out[..n] == out[..i] + out[i..n];
    assert out[i..n] == out[i..i + |block|][..|start|] == start;
  }

  lemma MarkersDiffer(start: string, end: string, text: string, i: nat)
    requires |end| <= |start| && !(end <= start) && At(start, text, i)
    ensures !At(end, text, i)
  {
    SliceSlice(text, i, |start|, 0, |end|);
    assert text[i..i + |end|] == start[..|end|];
  }

  /** Regenerating a script twice is regenerating it once, if and only if its end
      marker comes after its start marker. Text before the start marker and after
      the end marker is never touched. */
  lemma ReplaceIdempotent(start: string, end: string, text: string, block: string)
    requires Framed(start, end, block)
    requires Index(start, text).Some? && Index(end, text).Some?
    ensures var i, j := Index(start, text).value, Index(end, text).value;
      var out := ReplaceBlock(start, end, text, block).value;
      && out[..i] == text[..i] && out[i..i + |block|] == block && out[i + |block|..] == text[j + |end|..]
      && (ReplaceBlock(start, end, out, block) == Some(out) <==> i < j)
  {
    hide Find, At;
    var i, j := Index(start, text).value, Index(end, text).value;
    MarkersInside(start, end, text);
    var tail := text[j + |end|..];
    var out := text[..i] + block + tail;
    Pieces(text[..i], block, tail, out);
    if i < j {
      ReplaceSettles(start, end, text, block, i, out);
    } else {
      EndBefore(start, end, text, block, i, j, out);
    }
  }

  lemma Pieces(a: string, b: string, c: string, s: string)
    requires s == a + b + c
    ensures s[..|a|] == a && s[|a|..|a| + |b|] == b && s[|a| + |b|..] == c
  {
  }

  lemma MarkersInside(start: string, end: string, text: string)
    requires 0 < |end| <= |start| && !(end <= start) && Index(start, text).Some? && Index(end, text).Some?
    ensures var i, j := Index(start, text).value, Index(end, text).value;
      i + |start| <= |text| && j + |end| <= |text| && i != j
  {
    MarkersDiffer(start, end, text, Index(start, text).value);
  }

  lemma ReplaceSettles(start: string, end: string, text: string, block: string, i: nat, out: string)
    requires Framed(start, end, block) && Index(start, text) == Some(i)
    requires Index(end, text).Some? && i < Index(end, text).value
    requires i + |block| <= |out| && out[..i] == text[..i] && out[i..i + |block|] == block
    ensures ReplaceBlock(start, end, out, block) == Some(out)
  {
    hide At, Find;
    IndexFirst(end, text);
    StartStays(start, end, text, block, i, out);
    EndStays(start, end, text, block, i, out);
    assert out == out[..i] + block + out[i + |block|..];
  }

  /** With the end marker first, every regeneration adds another block. */
  lemma EndBefore(start: string, end: string, text: string, block: string, i: nat, j: nat, out: string)
    requires Framed(start, end, block) && Index(start, text) == Some(i) && Index(end, text) == Some(j) && j < i
    requires i + |block| <= |out| && out[..i] == text[..i] && out[i..i + |block|] == block
    ensures Index(start, out) == Some(i)
    ensures ReplaceBlock(start, end, out, block).Some? && |ReplaceBlock(start, end, out, block).value| > |out|
  {
    hide Find;
    IndexFirst(end, text);
    StartStays(start, end, text, block, i, out);
    SamePrefix(start, end, text, block, i, out);
    forall k | 0 <= k <= j
      ensures At(end, out, k) <==> At(end, text, k)
    {
      AtPrefix(end, text, out, i + |start|, k);
    }
    IndexIs(end, out, j);
  }

  /** The first character of the end marker recurs in neither marker. */
  ghost predicate Apart(start: string, end: string) {
    && 0 < |end| <= |start| && !(end <= start)
    && (forall i :: 0 < i < |end| ==> end[i] != end[0])
    && (forall i :: 0 < i < |start| ==> start[i] != end[0])
  }

  lemma AtInside(pat: string, a: string, b: string, c: string, k: nat)
    requires k + |pat| <= |b|
    ensures At(pat, b, k) <==> At(pat, a + b + c, |a| + k)
  {
    var s := a + b + c;
    assert s[|a|..|a| + |b|] == b;
    AtShifted(pat, s, |a|, b, k);
  }

  /** Such markers around a body form a block if and only if the body has no end
      marker: none can stand across a seam. */
  lemma FramedExactly(start: string, end: string, body: string)
    requires Apart(start, end)
    ensures Framed(start, end, start + body + end) <==> Index(end, body).None?
  {
    hide Index, Find;
    var s, e := start + body + end, |start| + |body|;
    assert start <= s && |s| == e + |end|;
    IndexFirst(end, body);
    assert At(end, s, e);
    if Index(end, body).None? {
      forall k | 0 <= k < e
        ensures !At(end, s, k)
      {
        NoneAcross(start, end, body, k);
      }
      IndexIs(end, s, e);
    } else {
      IndexFirst(end, s);
      var k := Index(end, body).value;
      AtInside(end, start, body, end, k);
    }
  }

  lemma NoneAcross(start: string, end: string, body: string, k: nat)
    requires Apart(start, end) && Index(end, body).None? && k < |start| + |body|
    ensures !At(end, start + body + end, k)
  {
    var s, e := start + body + end, |start| + |body|;
    if |start| <= k && k + |end| <= e {
      IndexFirst(end, body);
      AtInside(end, start, body, end, k - |start|);
    } else {
      AtChars(end, s, k);
      assert s[..|end|] == start[..|end|] && s[0..|end|] == s[..|end|];
      assert s[e] == end[0];
      assert k < |start| ==> s[k] == start[k];
    }
  }

  lemma AtChars(pat: string, s: string, k: nat)
    ensures At(pat, s, k) ==> forall i :: k <= i < k + |pat| ==> s[i] == pat[i - k]
  {
    if At(pat, s, k) {
      var t := s[k..k + |pat|];
      assert forall i :: k <= i < k + |pat| ==> s[i] == t[i - k];
    }
  }

  /** The shipped markers, and a generated block between them. */
  lemma ShippedMarkers(body: string)
    ensures Framed(START, END, START + body + END) <==> Index(END, body).None?
  {
    assert START[2] == 'B' && END[2] == 'E';
    FramedExactly(START, END, body);
  }
}

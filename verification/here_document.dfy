/** Carrying YAML through an unquoted here-document: the escaping, its guards,
    and the shell that undoes it. */
module HereDocument {
  import opened Options

  // Placeholders.

  const GPUS := "${GPUS_PER_POD}"
  const MEMORY := "${WP_MEMORY}"
  const IMAGE := "${PROXY_IMAGE}"
  const CLAIM := "${CACHE_CLAIM}"
  const PLACEHOLDERS := [GPUS, MEMORY, IMAGE, CLAIM]

  /** The space class of the POSIX locale. */
  predicate IsSpace(c: char) {
    c == ' ' || '\t' <= c <= '\r'
  }

  /** One dollar, at the front; nothing else the shell would look at. */
  ghost predicate WellFormed(ph: string) {
    && |ph| > 0 && ph[0] == '$'
    && forall i :: 0 < i < |ph| ==> ph[i] != '$' && ph[i] != '\\' && ph[i] != '`' && ph[i] != '\n'
  }

  ghost predicate AllWellFormed(phs: seq<string>) {
    forall i :: 0 <= i < |phs| ==> WellFormed(phs[i])
  }

  lemma ShippedWellFormed()
    ensures AllWellFormed(PLACEHOLDERS)
  {
    assert WellFormed(GPUS);
    assert WellFormed(MEMORY);
    assert WellFormed(IMAGE);
    assert WellFormed(CLAIM);
  }

  /** The first of the placeholders that the text starts with. */
  function Match(phs: seq<string>, s: string): (m: Option<string>)
    ensures m.Some? ==> m.value in phs && m.value <= s
    ensures m.None? ==> forall i :: 0 <= i < |phs| ==> !(phs[i] <= s)
  {
    if phs == [] then None
    else if phs[0] <= s then Some(phs[0])
    else Match(phs[1..], s)
  }

  // Escaping, and the expansion of an unquoted here-document.

  /** Every backslash doubled. */
  function Double(s: string): string {
    if s == "" then "" else (if s[0] == '\\' then "\\\\" else [s[0]]) + Double(s[1..])
  }

  /** A backslash escapes a dollar, a backtick, a backslash, and a newline, which
      it removes; elsewhere it is itself. A placeholder expands to its value. Any
      other dollar or backtick starts an expansion this model does not follow. */
  function Expand(phs: seq<string>, env: string -> string, s: string): Option<string>
    requires AllWellFormed(phs)
    decreases |s|
  {
    if s == "" then Some("")
    else if s[0] == '\\' && |s| > 1 && (s[1] == '$' || s[1] == '`' || s[1] == '\\') then
      Prepend([s[1]], Expand(phs, env, s[2..]))
    else if s[0] == '\\' && |s| > 1 && s[1] == '\n' then Expand(phs, env, s[2..])
    else if s[0] == '$' then
      var m := Match(phs, s);
      if m.None? then None
      else
        assert WellFormed(m.value);
        Prepend(env(m.value), Expand(phs, env, s[|m.value|..]))
    else if s[0] == '`' then None
    else Prepend([s[0]], Expand(phs, env, s[1..]))
  }

  function Prepend(a: string, b: Option<string>): Option<string> {
    if b.None? then None else Some(a + b.value)
  }

  /** The text with its placeholders replaced by their values. */
  function Substitute(phs: seq<string>, env: string -> string, s: string): string
    requires AllWellFormed(phs)
    decreases |s|
  {
    if s == "" then ""
    else
      var m := Match(phs, s);
      if m.Some? then
        assert WellFormed(m.value);
        env(m.value) + Substitute(phs, env, s[|m.value|..])
      else [s[0]] + Substitute(phs, env, s[1..])
  }

  /** Every dollar starts a placeholder, and there is no backtick. */
  ghost predicate Clean(phs: seq<string>, s: string) {
    && (forall i :: 0 <= i < |s| && s[i] == '$' ==> Match(phs, s[i..]).Some?)
    && forall i :: 0 <= i < |s| ==> s[i] != '`'
  }

  lemma {:induction false} DoubleAppend(a: string, b: string)
    ensures Double(a + b) == Double(a) + Double(b)
  {
    if a == "" {
      assert a + b == b;
    } else {
      assert (a + b)[1..] == a[1..] + b;
      DoubleAppend(a[1..], b);
    }
  }

  lemma {:induction false} DoublePlain(a: string)
    requires forall i :: 0 <= i < |a| ==> a[i] != '\\'
    ensures Double(a) == a
  {
    if a != "" {
      DoublePlain(a[1..]);
    }
  }

  /** A text without backslashes is a prefix before doubling exactly when after. */
  lemma {:induction false} DoublePrefix(a: string, s: string)
    requires forall i :: 0 <= i < |a| ==> a[i] != '\\'
    ensures a <= Double(s) <==> a <= s
  {
    if a != "" && s != "" {
      if a[0] == s[0] {
        var d := Double(s);
        DoublePrefix(a[1..], s[1..]);
        assert d == [s[0]] + Double(s[1..]);
        assert a <= d <==> a[1..] <= Double(s[1..]) by {
          if a[1..] <= Double(s[1..]) { assert a == [a[0]] + a[1..]; }
          if a <= d { assert a[1..] == d[1..][..|a| - 1]; }
        }
        assert a <= s <==> a[1..] <= s[1..] by {
          if a[1..] <= s[1..] { assert a == [a[0]] + a[1..] && s == [s[0]] + s[1..]; }
        }
      } else {
        assert Double(s)[0] == s[0];
      }
    }
  }

  lemma {:induction false} MatchDouble(phs: seq<string>, s: string)
    requires AllWellFormed(phs)
    ensures Match(phs, Double(s)) == Match(phs, s)
  {
    if phs != [] {
      assert WellFormed(phs[0]);
      DoublePrefix(phs[0], s);
      MatchDouble(phs[1..], s);
    }
  }

  lemma CleanSuffix(phs: seq<string>, s: string, n: nat)
    requires Clean(phs, s) && n <= |s|
    ensures Clean(phs, s[n..])
  {
    forall i | 0 <= i < |s[n..]| && s[n..][i] == '$'
      ensures Match(phs, s[n..][i..]).Some?
    {
      assert s[n..][i..] == s[n + i..];
    }
  }

  /** The round trip: doubling every backslash and letting an unquoted
      here-document expand the result substitutes the placeholders and changes
      nothing else, for every clean text. */
  lemma {:induction false} HereDocumentRoundTrip(phs: seq<string>, env: string -> string, s: string)
    requires AllWellFormed(phs) && Clean(phs, s)
    ensures Expand(phs, env, Double(s)) == Some(Substitute(phs, env, s))
    decreases |s|
  {
    if s != "" {
      var d := Double(s);
      MatchDouble(phs, s);
      assert s[0..] == s;
      if s[0] == '$' {
        var ph := Match(phs, s).value;
        assert WellFormed(ph);
        var rest := s[|ph|..];
        CleanSuffix(phs, s, |ph|);
        HereDocumentRoundTrip(phs, env, rest);
        assert s == ph + rest;
        DoubleAppend(ph, rest);
        DoublePlain(ph);
        assert d[|ph|..] == Double(rest);
      } else {
        CleanSuffix(phs, s, 1);
        HereDocumentRoundTrip(phs, env, s[1..]);
        NoMatchInside(phs, s);
        if s[0] == '\\' {
          assert d[2..] == Double(s[1..]);
        } else {
          assert d[1..] == Double(s[1..]);
        }
      }
    }
  }

  /** Why the backslashes are doubled. Left single behind a text without anything the
      shell looks at, a backslash takes the line end behind it along, hides the dollar
      or backtick behind it, and swallows a second one; before anything else it
      stays. */
  lemma {:induction false} SingleBackslash(phs: seq<string>, env: string -> string, a: string, c: char, b: string)
    requires AllWellFormed(phs) && forall i :: 0 <= i < |a| ==> a[i] != '\\' && a[i] != '$' && a[i] != '`'
    ensures Expand(phs, env, a + ("\\" + ([c] + b)))
         == if c == '\n' then Prepend(a, Expand(phs, env, b))
            else if c == '$' || c == '`' || c == '\\' then Prepend(a + [c], Expand(phs, env, b))
            else Prepend(a + "\\", Expand(phs, env, [c] + b))
    decreases |a|
  {
    hide Expand, Prepend;
    var s := "\\" + ([c] + b);
    if a == "" {
      assert a + s == s && "" + [c] == [c] && "" + "\\" == "\\";
      BackslashFirst(phs, env, c, b);
      PrependNothing(Expand(phs, env, b));
    } else {
      SingleBackslash(phs, env, a[1..], c, b);
      assert a + s == [a[0]] + (a[1..] + s) && a == [a[0]] + a[1..];
      PlainFirst(phs, env, a[0], a[1..] + s);
      PrependTwice([a[0]], a[1..], Expand(phs, env, b));
      PrependTwice([a[0]], a[1..] + [c], Expand(phs, env, b));
      PrependTwice([a[0]], a[1..] + "\\", Expand(phs, env, [c] + b));
      assert [a[0]] + (a[1..] + [c]) == a + [c] && [a[0]] + (a[1..] + "\\") == a + "\\";
    }
  }

  lemma BackslashFirst(phs: seq<string>, env: string -> string, c: char, b: string)
    requires AllWellFormed(phs)
    ensures Expand(phs, env, "\\" + ([c] + b))
         == if c == '\n' then Expand(phs, env, b)
            else if c == '$' || c == '`' || c == '\\' then Prepend([c], Expand(phs, env, b))
            else Prepend("\\", Expand(phs, env, [c] + b))
  {
    var s := "\\" + ([c] + b);
    assert s[0] == '\\' && s[1] == c && s[1..] == [c] + b && s[2..] == b;
  }

  lemma PlainFirst(phs: seq<string>, env: string -> string, c: char, s: string)
    requires AllWellFormed(phs) && c != '\\' && c != '$' && c != '`'
    ensures Expand(phs, env, [c] + s) == Prepend([c], Expand(phs, env, s))
  {
    assert ([c] + s)[1..] == s;
  }

  lemma PrependNothing(b: Option<string>)
    ensures Prepend("", b) == b
  {
    if b.Some? {
      assert "" + b.value == b.value;
    }
  }

  lemma PrependTwice(x: string, y: string, b: Option<string>)
    ensures Prepend(x, Prepend(y, b)) == Prepend(x + y, b)
  {
    if b.Some? {
      assert x + (y + b.value) == x + y + b.value;
    }
  }

  lemma NoMatchInside(phs: seq<string>, s: string)
    requires AllWellFormed(phs) && s != "" && s[0] != '$'
    ensures Match(phs, s).None?
  {
    var m := Match(phs, s);
    assert m.Some? ==> WellFormed(m.value);
  }

  // Lines.

  function PutBefore(x: string, ls: seq<string>): seq<string>
    requires |ls| > 0
  {
    [x + ls[0]] + ls[1..]
  }

  function Lines(s: string): (ls: seq<string>)
    ensures |ls| > 0
  {
    if s == "" then [""]
    else
      var rest := Lines(s[1..]);
      if s[0] == '\n' then [""] + rest else PutBefore([s[0]], rest)
  }

  lemma LinesCons(c: char, s: string)
    ensures Lines([c] + s) == if c == '\n' then [""] + Lines(s) else PutBefore([c], Lines(s))
  {
    assert ([c] + s)[1..] == s;
  }

  predicate Blank(line: string) {
    forall i :: 0 <= i < |line| ==> IsSpace(line[i])
  }

  function DropBlank(ls: seq<string>): seq<string> {
    if ls == [] then [] else (if Blank(ls[0]) then [] else [ls[0]]) + DropBlank(ls[1..])
  }

  lemma {:induction false} DropNone(ls: seq<string>)
    requires forall i :: 0 <= i < |ls| ==> !Blank(ls[i])
    ensures DropBlank(ls) == ls
  {
    if ls != [] {
      DropNone(ls[1..]);
    }
  }

  /** A value that leaves no line blank and starts no new one. */
  ghost predicate Visible(v: string) {
    !Blank(v) && forall i :: 0 <= i < |v| ==> v[i] != '\n'
  }

  lemma {:induction false} LinesAppend(a: string, s: string)
    requires forall i :: 0 <= i < |a| ==> a[i] != '\n'
    ensures Lines(a + s) == PutBefore(a, Lines(s))
  {
    if a == "" {
      assert a + s == s;
      assert "" + Lines(s)[0] == Lines(s)[0];
    } else {
      assert (a + s)[1..] == a[1..] + s;
      LinesAppend(a[1..], s);
      assert [a[0]] + (a[1..] + Lines(s)[0]) == a + Lines(s)[0];
    }
  }

  /** As many lines, none of them blank that was not. */
  ghost predicate NoNewBlank(a: seq<string>, b: seq<string>) {
    |a| == |b| && forall i :: 0 <= i < |a| && Blank(b[i]) ==> Blank(a[i])
  }

  lemma NoNewBlankBefore(x: string, y: string, a: seq<string>, b: seq<string>)
    requires NoNewBlank(a, b) && |a| > 0 && (Blank(y) ==> Blank(x))
    ensures NoNewBlank(PutBefore(x, a), PutBefore(y, b))
  {
    BlankAppend(x, a[0]);
    BlankAppend(y, b[0]);
  }

  /** Substituting visible values keeps the number of lines, and a line that was
      not blank stays so: a placeholder never spans a line end. */
  lemma {:induction false} SubstituteLines(phs: seq<string>, env: string -> string, s: string)
    requires AllWellFormed(phs) && forall ph :: ph in phs ==> Visible(env(ph))
    ensures NoNewBlank(Lines(s), Lines(Substitute(phs, env, s)))
    decreases |s|
  {
    hide Blank;
    if s != "" {
      var m := Match(phs, s);
      if m.Some? {
        var ph := m.value;
        assert WellFormed(ph);
        var rest, v := s[|ph|..], env(ph);
        var sub := Substitute(phs, env, rest);
        SubstituteLines(phs, env, rest);
        assert s == ph + rest;
        LinesAppend(ph, rest);
        LinesAppend(v, sub);
        assert Visible(v);
        NoNewBlankBefore(ph, v, Lines(rest), Lines(sub));
      } else {
        var rest, c := s[1..], [s[0]];
        var sub := Substitute(phs, env, rest);
        SubstituteLines(phs, env, rest);
        assert s == c + rest && (c + sub)[1..] == sub;
        if s[0] == '\n' {
          assert Lines(s) == [""] + Lines(rest) && Lines(c + sub) == [""] + Lines(sub);
        } else {
          NoNewBlankBefore(c, c, Lines(rest), Lines(sub));
        }
      }
    }
  }

  lemma BlankAppend(a: string, b: string)
    ensures Blank(a + b) <==> Blank(a) && Blank(b)
  {
    if Blank(a + b) {
      forall i | 0 <= i < |a| ensures IsSpace(a[i]) { assert (a + b)[i] == a[i]; }
      forall i | 0 <= i < |b| ensures IsSpace(b[i]) { assert (a + b)[|a| + i] == b[i]; }
    }
  }

  /** The whole trip, through the shell that also drops blank lines: a clean text
      without blank lines arrives line for line, with its placeholders replaced. */
  lemma CarriedExactly(phs: seq<string>, env: string -> string, s: string)
    requires AllWellFormed(phs) && Clean(phs, s)
    requires forall ph :: ph in phs ==> Visible(env(ph))
    requires forall i :: 0 <= i < |Lines(s)| ==> !Blank(Lines(s)[i])
    ensures Expand(phs, env, Double(s)).Some?
    ensures DropBlank(Lines(Expand(phs, env, Double(s)).value)) == Lines(Substitute(phs, env, s))
  {
    HereDocumentRoundTrip(phs, env, s);
    SubstituteLines(phs, env, s);
    DropNone(Lines(Substitute(phs, env, s)));
  }
}

/** The Pod spec text as the generator emits it into the script, and as the
    here-document there hands it on. */
module PodSpecText {
  import opened Options
  import opened HereDocument
  import opened PlaceholderGuard

  // Lines as Python sees them.

  /** What str.strip removes. */
  predicate PySpace(c: char) {
    || c == ' ' || '\t' <= c <= '\r' || '\U{1C}' <= c <= '\U{1F}' || c == '\U{85}' || c == '\U{A0}'
    || c == '\U{1680}' || '\U{2000}' <= c <= '\U{200A}' || c == '\U{2028}' || c == '\U{2029}'
    || c == '\U{202F}' || c == '\U{205F}' || c == '\U{3000}'
  }

  /** What str.splitlines breaks at; it takes a carriage return and a newline as one. */
  predicate PyBreak(c: char) {
    || '\n' <= c <= '\r' || '\U{1C}' <= c <= '\U{1E}' || c == '\U{85}' || c == '\U{2028}' || c == '\U{2029}'
  }

  predicate PyBlank(line: string) {
    forall i :: 0 <= i < |line| ==> PySpace(line[i])
  }

  function PyPieces(s: string): (ls: seq<string>)
    ensures |ls| > 0
    decreases |s|
  {
    if s == "" then [""]
    else if s[0] == '\r' && |s| > 1 && s[1] == '\n' then [""] + PyPieces(s[2..])
    else if PyBreak(s[0]) then [""] + PyPieces(s[1..])
    else PutBefore([s[0]], PyPieces(s[1..]))
  }

  /** Without the empty piece after a final line end. */
  function DropLast(ls: seq<string>): seq<string>
    requires |ls| > 0
  {
    if ls[|ls| - 1] == "" then ls[..|ls| - 1] else ls
  }

  function PyLines(s: string): seq<string> {
    DropLast(PyPieces(s))
  }

  function TextLines(s: string): seq<string> {
    DropLast(Lines(s))
  }

  ghost predicate HasBlank(ls: seq<string>, from: nat) {
    exists i :: from <= i < |ls| && Blank(ls[i])
  }

  ghost predicate HasPyBlank(ls: seq<string>, from: nat) {
    exists i :: from <= i < |ls| && PyBlank(ls[i])
  }

  lemma {:induction false} FirstPiece(s: string)
    ensures PyPieces(s)[0] <= Lines(s)[0]
    ensures |PyPieces(s)| == 1 ==> PyPieces(s) == [s] == Lines(s)
  {
    if s != "" {
      var t := s[1..];
      assert s == [s[0]] + t;
      LinesCons(s[0], t);
      if !PyBreak(s[0]) {
        FirstPiece(t);
      }
    }
  }

  lemma DropCons(x: string, ls: seq<string>)
    requires |ls| > 0
    ensures DropLast([x] + ls) == [x] + DropLast(ls)
  {
  }

  /** Both line sequences from the second line on. */
  ghost predicate SameAfter(a: seq<string>, b: seq<string>) {
    forall k :: k > 0 ==> (k < |a| <==> k < |b|) && (k < |a| && k < |b| ==> a[k] == b[k])
  }

  lemma DropPut(x: string, ls: seq<string>)
    requires |ls| > 0
    ensures SameAfter(DropLast(PutBefore(x, ls)), DropLast(ls))
  {
  }

  lemma BlankIsPyBlank(a: string, b: string)
    requires a <= b && Blank(b)
    ensures PyBlank(a)
  {
    assert forall i :: 0 <= i < |a| ==> a[i] == b[i];
  }

  /** A line the shell would drop holds a line Python finds blank. */
  lemma {:induction false} BlankSeenAfter(s: string)
    requires HasBlank(TextLines(s), 1)
    ensures HasPyBlank(PyLines(s), 1)
    decreases |s|, 0
  {
    EmptyText();
    hide HasBlank, HasPyBlank, TextLines, PyLines;
    var c, t := s[0], s[1..];
    assert s == [c] + t;
    TextCons(c, t);
    PyTextCons(c, t);
    if c == '\n' {
      BlankSeen(t);
    } else if c == '\r' && t != "" && t[0] == '\n' {
      assert t == ['\n'] + t[1..];
      TextCons('\n', t[1..]);
      BlankSeen(t[1..]);
    } else if PyBreak(c) {
      BlankLater(t);
      BlankSeen(t);
    } else {
      BlankSeenAfter(t);
    }
  }

  lemma EmptyText()
    ensures !HasBlank(TextLines(""), 1)
  {
  }

  lemma BlankLater(s: string)
    requires HasBlank(TextLines(s), 1)
    ensures HasBlank(TextLines(s), 0)
  {
    hide TextLines, Blank;
  }

  lemma TextCons(c: char, t: string)
    requires HasBlank(TextLines([c] + t), 1)
    ensures HasBlank(TextLines(t), if c == '\n' then 0 else 1)
  {
    hide Blank, Lines, DropLast, PutBefore;
    LinesCons(c, t);
    if c == '\n' {
      DropCons("", Lines(t));
      BlankShift("", TextLines(t));
    } else {
      DropPut([c], Lines(t));
    }
  }

  lemma PyTextCons(c: char, t: string)
    ensures var later := HasPyBlank(PyLines([c] + t), 1);
      if c == '\r' && t != "" && t[0] == '\n' then HasPyBlank(PyLines(t[1..]), 0) ==> later
      else if PyBreak(c) then HasPyBlank(PyLines(t), 0) ==> later
      else HasPyBlank(PyLines(t), 1) ==> later
  {
    hide PyBlank, PyPieces, DropLast, PutBefore;
    PyCons(c, t);
    if c == '\r' && t != "" && t[0] == '\n' {
      DropCons("", PyPieces(t[1..]));
      PyBlankShift("", PyLines(t[1..]));
    } else if PyBreak(c) {
      DropCons("", PyPieces(t));
      PyBlankShift("", PyLines(t));
    } else {
      DropPut([c], PyPieces(t));
    }
  }

  lemma PyCons(c: char, t: string)
    ensures PyPieces([c] + t) ==
            if c == '\r' && t != "" && t[0] == '\n' then [""] + PyPieces(t[1..])
            else if PyBreak(c) then [""] + PyPieces(t)
            else PutBefore([c], PyPieces(t))
  {
    var s := [c] + t;
    assert s[1..] == t;
    if t != "" {
      assert s[2..] == t[1..] && s[1] == t[0];
    }
  }

  lemma BlankShift(x: string, ls: seq<string>)
    requires HasBlank([x] + ls, 1)
    ensures HasBlank(ls, 0)
  {
    var i :| 1 <= i < |[x] + ls| && Blank(([x] + ls)[i]);
    assert Blank(ls[i - 1]);
  }

  lemma PyBlankShift(x: string, ls: seq<string>)
    ensures HasPyBlank(ls, 0) ==> HasPyBlank([x] + ls, 1)
  {
    if i :| 0 <= i < |ls| && PyBlank(ls[i]) {
      assert PyBlank(([x] + ls)[i + 1]);
    }
  }

  lemma {:induction false} BlankSeen(s: string)
    requires HasBlank(TextLines(s), 0)
    ensures HasPyBlank(PyLines(s), 0)
    decreases |s|, 1
  {
    var i :| 0 <= i < |TextLines(s)| && Blank(TextLines(s)[i]);
    if i == 0 {
      FirstPiece(s);
      BlankIsPyBlank(PyPieces(s)[0], Lines(s)[0]);
      assert PyLines(s)[0] == PyPieces(s)[0];
    } else {
      BlankSeenAfter(s);
    }
  }

  /** Printable ASCII, tabs and line ends: what a dumped Pod spec is made of. */
  predicate Printable(s: string) {
    forall i :: 0 <= i < |s| ==> ' ' <= s[i] <= '~' || s[i] == '\t' || s[i] == '\n'
  }

  lemma {:induction false} PrintablePieces(s: string)
    requires Printable(s)
    ensures PyPieces(s) == Lines(s)
  {
    if s != "" {
      PrintablePieces(s[1..]);
    }
  }

  lemma PrintableBlank(line: string)
    requires Printable(line)
    ensures PyBlank(line) <==> Blank(line)
  {
    assert forall i :: 0 <= i < |line| ==> (PySpace(line[i]) <==> IsSpace(line[i]));
  }

  lemma {:induction false} PrintableLines(s: string)
    requires Printable(s)
    ensures forall i :: 0 <= i < |Lines(s)| ==> Printable(Lines(s)[i])
  {
    if s != "" {
      PrintableLines(s[1..]);
    }
  }

  /** On printable text the generator's line test and the shell's agree line by line:
      the generator refuses exactly what the shell would drop. */
  lemma PrintableRefusals(s: string)
    requires Printable(s)
    ensures PyLines(s) == TextLines(s)
    ensures forall i :: 0 <= i < |PyLines(s)| ==> (PyBlank(PyLines(s)[i]) <==> Blank(TextLines(s)[i]))
  {
    PrintablePieces(s);
    PrintableLines(s);
    hide PyPieces, Lines, PyBlank, Blank, Printable;
    forall i | 0 <= i < |PyLines(s)|
      ensures PyBlank(PyLines(s)[i]) <==> Blank(TextLines(s)[i])
    {
      assert PyLines(s)[i] == Lines(s)[i];
      PrintableBlank(Lines(s)[i]);
    }
  }

  // The generator.

  function RStrip(s: string): string {
    if s != "" && s[|s| - 1] == '\n' then RStrip(s[..|s| - 1]) else s
  }

  /** The escaped text, or a refusal: of a blank line, or of a dollar or backtick
      the placeholders do not account for. */
  function AsYaml(phs: seq<string>, text: string): Option<string>
    requires AllWellFormed(phs)
  {
    if exists i :: 0 <= i < |PyLines(text)| && PyBlank(PyLines(text)[i]) then None
    else if !Guarded(phs, Double(text)) then None
    else Some(RStrip(Double(text)))
  }

  method AsYamlLoop(phs: seq<string>, text: string) returns (out: Option<string>)
    requires AllWellFormed(phs)
    ensures out == AsYaml(phs, text)
  {
    var lines := PyLines(text);
    for i := 0 to |lines|
      invariant forall k :: 0 <= k < i ==> !PyBlank(lines[k])
    {
      if PyBlank(lines[i]) {
        return None;
      }
    }
    var escaped := Double(text);
    var scrubbed := ScrubLoop(phs, escaped);
    if '$' in scrubbed || '`' in scrubbed {
      return None;
    }
    return Some(RStrip(escaped));
  }

  // The guard looks at the escaped text.

  /** Where a character other than a backslash was before doubling. */
  lemma {:induction false} Undouble(s: string, j: nat) returns (i: nat)
    requires j < |Double(s)| && Double(s)[j] != '\\'
    ensures i < |s| && Double(s)[j..] == Double(s[i..])
  {
    if j == 0 {
      i := 0;
      assert Double(s)[0..] == Double(s) && s[0..] == s;
    } else {
      var c := if s[0] == '\\' then "\\\\" else [s[0]];
      var d, e := Double(s), Double(s[1..]);
      assert d == c + e;
      hide Double;
      Behind(c, e, j);
      i := Undouble(s[1..], j - |c|);
      assert s[1..][i..] == s[i + 1..];
      i := i + 1;
    }
  }

  lemma Behind(a: string, b: string, j: nat)
    requires |a| <= j <= |a| + |b|
    ensures (a + b)[j..] == b[j - |a|..]
  {
  }

  lemma DoubleAt(s: string, i: nat) returns (j: nat)
    requires i < |s| && s[i] != '\\'
    ensures j < |Double(s)| && Double(s)[j..] == Double(s[i..]) && Double(s)[j] == s[i]
  {
    assert s == s[..i] + s[i..];
    DoubleAppend(s[..i], s[i..]);
    j := |Double(s[..i])|;
  }

  lemma CleanDouble(phs: seq<string>, s: string)
    requires AllWellFormed(phs)
    ensures Clean(phs, Double(s)) <==> Clean(phs, s)
  {
    hide Double;
    var d := Double(s);
    if Clean(phs, s) {
      forall j | 0 <= j < |d| && d[j] != '\\'
        ensures d[j] != '`' && (d[j] == '$' ==> Match(phs, d[j..]).Some?)
      {
        var i := Undouble(s, j);
        MatchDouble(phs, s[i..]);
        DoubleFirst(s[i..]);
        assert d[j..][0] == s[i];
      }
    }
    if Clean(phs, d) {
      forall i | 0 <= i < |s| && s[i] != '\\'
        ensures s[i] != '`' && (s[i] == '$' ==> Match(phs, s[i..]).Some?)
      {
        var j := DoubleAt(s, i);
        MatchDouble(phs, s[i..]);
      }
    }
  }

  lemma DoubleFirst(s: string)
    requires s != ""
    ensures Double(s) != "" && Double(s)[0] == s[0]
  {
  }

  lemma NoSplitDouble(phs: seq<string>, s: string)
    requires AllWellFormed(phs) && NoSplit(phs, s)
    ensures NoSplit(phs, Double(s))
  {
    hide Double, WellFormed;
    var d := Double(s);
    forall j | 0 <= j <= |d|
      ensures !Splits(phs, d[j..])
    {
      if Splits(phs, d[j..]) {
        var p, q, k :| p in phs && q in phs && 0 < k < |q| && q[..k] + p <= d[j..];
        assert WellFormed(p) && WellFormed(q);
        var i := Unsplit(s, j, p, q, k);
        NotSplit(phs, s, i, p, q, k);
        assert false;
      }
    }
  }

  lemma Unsplit(s: string, j: nat, p: string, q: string, k: nat) returns (i: nat)
    requires WellFormed(p) && WellFormed(q) && 0 < k < |q| && j <= |Double(s)| && q[..k] + p <= Double(s)[j..]
    ensures i <= |s| && q[..k] + p <= s[i..]
  {
    hide Double;
    var u := q[..k] + p;
    assert Double(s)[j] == u[0];
    i := Undouble(s, j);
    DoublePrefix(u, s[i..]);
  }

  /** A text in which no placeholder splits another is refused exactly for a blank
      line or for something the shell would expand. */
  lemma AsYamlExact(phs: seq<string>, text: string)
    requires AllWellFormed(phs) && NoSplit(phs, text)
    ensures AsYaml(phs, text).Some? <==> Clean(phs, text) && forall i :: 0 <= i < |PyLines(text)| ==> !PyBlank(PyLines(text)[i])
  {
    hide NoSplit, Clean, Guarded, Double;
    NoSplitDouble(phs, text);
    GuardExact(phs, Double(text));
    CleanDouble(phs, text);
  }

  // The here-document.

  const DELIMITER := "YAML"

  /** The lines of a script up to the delimiter. */
  function Body(ls: seq<string>): seq<string> {
    if ls == [] || ls[0] == DELIMITER then [] else [ls[0]] + Body(ls[1..])
  }

  function Join(ls: seq<string>): string {
    if |ls| == 0 then "" else if |ls| == 1 then ls[0] else ls[0] + "\n" + Join(ls[1..])
  }

  /** What the shell hands on of the script after the operator: the body expanded,
      without its blank lines. */
  function HandedOn(phs: seq<string>, env: string -> string, script: seq<string>): Option<seq<string>>
    requires AllWellFormed(phs)
  {
    var e := Expand(phs, env, Join(Body(script)));
    if e.None? then None else Some(DropBlank(Lines(e.value)))
  }

  lemma {:induction false} BodyEnds(ls: seq<string>, after: seq<string>)
    ensures Body(ls + [DELIMITER] + after) == Body(ls)
  {
    var t := ls + [DELIMITER] + after;
    if ls == [] {
      assert t[0] == DELIMITER;
    } else {
      assert t[0] == ls[0] && t[1..] == ls[1..] + [DELIMITER] + after;
      BodyEnds(ls[1..], after);
    }
  }

  lemma {:induction false} BodyPrefix(ls: seq<string>)
    ensures Body(ls) <= ls && (Body(ls) == ls <==> DELIMITER !in ls)
  {
    if ls != [] {
      assert ls == [ls[0]] + ls[1..];
      BodyPrefix(ls[1..]);
    }
  }

  function DoubleAll(ls: seq<string>): seq<string> {
    if ls == [] then [] else [Double(ls[0])] + DoubleAll(ls[1..])
  }

  lemma {:induction false} LinesDouble(s: string)
    ensures Lines(Double(s)) == DoubleAll(Lines(s))
  {
    if s == "" {
      assert [""][1..] == [];
    } else {
      var rest := Lines(s[1..]);
      LinesDouble(s[1..]);
      var c := if s[0] == '\\' then "\\\\" else [s[0]];
      if s[0] == '\n' {
        assert Double(s)[1..] == Double(s[1..]);
        assert ([""] + rest)[1..] == rest;
      } else {
        LinesAppend(c, Double(s[1..]));
        DoubleCons(s[0], rest[0]);
        assert Lines(s)[1..] == rest[1..];
      }
    }
  }

  lemma DoubleCons(c: char, s: string)
    ensures Double([c] + s) == (if c == '\\' then "\\\\" else [c]) + Double(s)
  {
    assert ([c] + s)[1..] == s;
  }

  lemma {:induction false} JoinDouble(ls: seq<string>)
    ensures Join(DoubleAll(ls)) == Double(Join(ls))
  {
    if |ls| > 1 {
      JoinDouble(ls[1..]);
      var rest := ls[1..];
      var d := DoubleAll(rest);
      assert DoubleAll(ls) == [Double(ls[0])] + d && d == [Double(rest[0])] + DoubleAll(rest[1..]);
      JoinStep(ls[0], rest);
      JoinStep(Double(ls[0]), d);
      assert ls == [ls[0]] + rest;
      hide Join, Double, DoubleAll;
      DoubleCons('\n', Join(rest));
      DoubleAppend(ls[0], "\n" + Join(rest));
    }
  }

  lemma JoinStep(l: string, ls: seq<string>)
    requires ls != []
    ensures Join([l] + ls) == l + ("\n" + Join(ls))
  {
    assert ([l] + ls)[1..] == ls;
    assert l + "\n" + Join(ls) == l + ("\n" + Join(ls));
  }

  lemma DoubledDelimiter(l: string)
    ensures Double(l) == DELIMITER <==> l == DELIMITER
  {
    DoublePlain(DELIMITER);
    if Double(l) == DELIMITER {
      DoublePrefix(DELIMITER, l);
      DoubleLonger(l);
    }
  }

  lemma {:induction false} DoubleLonger(s: string)
    ensures |s| <= |Double(s)|
  {
    if s != "" {
      DoubleLonger(s[1..]);
    }
  }

  lemma {:induction false} BodyDouble(ls: seq<string>)
    ensures Body(DoubleAll(ls)) == DoubleAll(Body(ls))
  {
    if ls != [] {
      DoubledDelimiter(ls[0]);
      BodyDouble(ls[1..]);
    }
  }

  lemma {:induction false} JoinLines(s: string)
    ensures Join(Lines(s)) == s
  {
    if s != "" {
      JoinLines(s[1..]);
      var rest := Lines(s[1..]);
      assert s == [s[0]] + s[1..];
      if s[0] == '\n' {
        assert ([""] + rest)[1..] == rest;
      } else {
        JoinCons(s[0], rest);
      }
    }
  }

  lemma {:induction false} JoinCons(c: char, ls: seq<string>)
    requires |ls| > 0
    ensures Join(PutBefore([c], ls)) == [c] + Join(ls)
  {
    var p := PutBefore([c], ls);
    assert p[1..] == ls[1..];
    if |ls| > 1 {
      var t := Join(ls[1..]);
      assert [c] + ls[0] + "\n" + t == [c] + (ls[0] + "\n" + t);
    }
  }

  lemma {:induction false} LinesOneLine(s: string)
    ensures forall i :: 0 <= i < |Lines(s)| ==> '\n' !in Lines(s)[i]
  {
    if s != "" {
      LinesOneLine(s[1..]);
    }
  }

  lemma {:induction false} LinesJoin(ls: seq<string>)
    requires |ls| > 0 && forall i :: 0 <= i < |ls| ==> '\n' !in ls[i]
    ensures Lines(Join(ls)) == ls
  {
    LinesAppend(ls[0], "");
    assert ls[0] + "" == ls[0];
    if |ls| > 1 {
      var t := Join(ls[1..]);
      LinesJoin(ls[1..]);
      LinesAppend(ls[0], "\n" + t);
      assert ("\n" + t)[1..] == t;
      assert ls[0] + "\n" + t == ls[0] + ("\n" + t);
    }
  }

  /** The first lines of a text are the text up to a line end. */
  lemma {:induction false} JoinPrefix(ls: seq<string>, n: nat)
    requires 0 < n < |ls|
    ensures Join(ls[..n]) + "\n" <= Join(ls)
  {
    var a, t := ls[0] + "\n", Join(ls[1..]);
    assert Join(ls) == a + t;
    if n == 1 {
      assert Join(ls[..1]) == ls[0];
    } else {
      JoinPrefix(ls[1..], n - 1);
      assert ls[..n][1..] == ls[1..][..n - 1] && ls[..n][0] == ls[0];
      assert Join(ls[..n]) + "\n" == a + (Join(ls[1..][..n - 1]) + "\n");
    }
  }

  lemma CleanPrefix(phs: seq<string>, s: string, u: string)
    requires AllWellFormed(phs) && Clean(phs, s) && u + "\n" <= s
    ensures Clean(phs, u)
  {
    var n := |u|;
    assert u == s[..n] && s[n] == '\n' by { assert s[..n + 1] == u + "\n"; }
    forall i | 0 <= i < |u| && u[i] == '$'
      ensures Match(phs, u[i..]).Some?
    {
      var ph := Match(phs, s[i..]).value;
      assert WellFormed(ph);
      assert forall k :: 0 <= k < |ph| ==> ph[k] == s[i..][k];
      assert s[i..][n - i] == '\n';
      assert u[i..] == s[i..][..n - i];
      assert ph <= u[i..];
    }
  }

  lemma CleanRStrip(phs: seq<string>, s: string)
    requires AllWellFormed(phs) && Clean(phs, s)
    ensures Clean(phs, RStrip(s))
  {
    hide Clean;
    if s != "" && s[|s| - 1] == '\n' {
      var b := s[..|s| - 1];
      assert b + "\n" == s;
      CleanPrefix(phs, s, b);
      CleanRStrip(phs, b);
    }
  }

  lemma {:induction false} RStripDouble(s: string)
    ensures RStrip(Double(s)) == Double(RStrip(s))
  {
    if s != "" {
      var n := |s| - 1;
      assert s == s[..n] + [s[n]];
      DoubleAppend(s[..n], [s[n]]);
      assert [s[n]][1..] == "";
      var d := Double(s);
      if s[n] == '\n' {
        assert Double([s[n]]) == "\n";
        assert d[..|d| - 1] == Double(s[..n]);
        RStripDouble(s[..n]);
      } else {
        assert d[|d| - 1] != '\n';
      }
    }
  }

  lemma {:induction false} LinesEnd(s: string)
    ensures Lines(s + "\n") == Lines(s) + [""]
  {
    if s == "" {
      assert s + "\n" == "\n" && "\n"[1..] == "";
    } else {
      assert (s + "\n")[1..] == s[1..] + "\n";
      LinesEnd(s[1..]);
    }
  }

  lemma EndsBlank(b: string)
    requires b == "" || b[|b| - 1] == '\n'
    ensures Blank(Lines(b)[|Lines(b)| - 1])
  {
    if b != "" {
      var c := b[..|b| - 1];
      assert b == c + "\n";
      LinesEnd(c);
    }
  }

  /** A text whose lines are not blank loses at most one line end, and no line. */
  lemma StrippedLines(s: string)
    requires s != "" && !HasBlank(TextLines(s), 0)
    ensures Lines(RStrip(s)) == TextLines(s)
    ensures RStrip(s) != "" && RStrip(s)[|RStrip(s)| - 1] != '\n'
  {
    hide Lines, Blank, RStrip;
    var n := |s| - 1;
    if s[n] == '\n' {
      var b := s[..n];
      assert s == b + "\n";
      LinesEnd(b);
      assert TextLines(s) == Lines(b);
      if b == "" || b[|b| - 1] == '\n' {
        EndsBlank(b);
        assert false;
      }
      RStripOne(b);
    } else {
      LastLine(s);
      RStripOne(s);
    }
  }

  lemma RStripOne(b: string)
    requires b != "" && b[|b| - 1] != '\n'
    ensures RStrip(b) == RStrip(b + "\n") == b
  {
    var s := b + "\n";
    assert s[..|s| - 1] == b;
  }

  lemma {:induction false} LastLine(s: string)
    requires s != "" && s[|s| - 1] != '\n'
    ensures Lines(s)[|Lines(s)| - 1] != ""
  {
    if |s| > 1 {
      LastLine(s[1..]);
    } else {
      assert s[1..] == "";
    }
  }

  /** What the shell makes of an escaped text in front of the delimiter. */
  lemma HandedOnBody(phs: seq<string>, env: string -> string, t: string, after: seq<string>)
    requires AllWellFormed(phs) && Clean(phs, t)
    ensures HandedOn(phs, env, Lines(Double(t)) + [DELIMITER] + after) ==
            Some(DropBlank(Lines(Substitute(phs, env, Join(Body(Lines(t)))))))
  {
    hide Clean, Expand, Substitute, Double, Lines, Join, Body, DropBlank;
    var ls, b := Lines(t), Body(Lines(t));
    BodyEnds(Lines(Double(t)), after);
    LinesDouble(t);
    BodyDouble(ls);
    JoinDouble(b);
    CleanBody(phs, t);
    HereDocumentRoundTrip(phs, env, Join(b));
  }

  lemma CleanBody(phs: seq<string>, t: string)
    requires AllWellFormed(phs) && Clean(phs, t)
    ensures Clean(phs, Join(Body(Lines(t))))
  {
    hide Lines, Body;
    var ls, b := Lines(t), Body(Lines(t));
    JoinLines(t);
    BodyPrefix(ls);
    assert b == ls[..|b|];
    if 0 < |b| < |ls| {
      JoinPrefix(ls, |b|);
      CleanPrefix(phs, t, Join(b));
    }
  }

  lemma {:induction false} DropShortens(ls: seq<string>)
    ensures |DropBlank(ls)| <= |ls|
  {
    if ls != [] {
      DropShortens(ls[1..]);
    }
  }

  /** A body cut short hands on fewer lines than the text has. */
  lemma CutIsShorter(phs: seq<string>, env: string -> string, t: string)
    requires AllWellFormed(phs) && forall ph :: ph in phs ==> Visible(env(ph))
    requires DELIMITER in Lines(t)
    ensures |DropBlank(Lines(Substitute(phs, env, Join(Body(Lines(t))))))| < |Lines(t)|
  {
    hide Substitute, Lines, DropBlank;
    var ls, b := Lines(t), Body(Lines(t));
    BodyPrefix(ls);
    var u := Join(b);
    SubstituteLines(phs, env, u);
    DropShortens(Lines(Substitute(phs, env, u)));
    if |b| == 0 {
      EmptyHandsNothing(phs, env);
    } else {
      LinesOneLine(t);
      assert forall i :: 0 <= i < |b| ==> b[i] == ls[i];
      LinesJoin(b);
    }
  }

  lemma EmptyHandsNothing(phs: seq<string>, env: string -> string)
    requires AllWellFormed(phs)
    ensures Substitute(phs, env, "") == "" && DropBlank(Lines("")) == [] == TextLines("")
  {
    assert [""][1..] == [];
    assert DropBlank([""][1..]) == [];
  }

  lemma NothingBlank(text: string)
    requires forall i :: 0 <= i < |PyLines(text)| ==> !PyBlank(PyLines(text)[i])
    ensures !HasBlank(TextLines(text), 0)
  {
    hide PyLines, PyBlank, TextLines, Blank;
    if HasBlank(TextLines(text), 0) {
      BlankSeen(text);
      assert false;
    }
  }

  lemma AcceptedValue(phs: seq<string>, text: string)
    requires AllWellFormed(phs) && AsYaml(phs, text).Some?
    ensures AsYaml(phs, text).value == Double(RStrip(text))
  {
    hide Double, Guarded, PyLines;
    RStripDouble(text);
  }

  /** Replacing the placeholders of a text without blank lines makes no line blank. */
  lemma WholeLines(phs: seq<string>, env: string -> string, text: string)
    requires AllWellFormed(phs) && forall ph :: ph in phs ==> Visible(env(ph))
    requires !HasBlank(TextLines(text), 0)
    ensures var t := RStrip(text);
      var sub := Substitute(phs, env, t);
      && DropBlank(Lines(sub)) == TextLines(sub)
      && (text != "" ==> |TextLines(sub)| == |Lines(t)|)
  {
    hide Substitute, Lines, DropBlank;
    var t := RStrip(text);
    var sub := Substitute(phs, env, t);
    if text == "" {
      EmptyHandsNothing(phs, env);
    } else {
      StrippedLines(text);
      SubstituteLines(phs, env, t);
      assert forall i :: 0 <= i < |Lines(t)| ==> !Blank(TextLines(text)[i]);
      DropNone(Lines(sub));
      assert !Blank(Lines(sub)[|Lines(sub)| - 1]);
    }
  }

  lemma EmptyHasNoDelimiter()
    ensures DELIMITER !in Lines(RStrip(""))
  {
  }

  /** What the generator emits in front of the delimiter arrives exactly, as the
      lines of the text with the placeholders replaced, no line more and no line
      less, if and only if no line of the text is the delimiter. */
  lemma AsYamlCarried(phs: seq<string>, env: string -> string, text: string, after: seq<string>)
    requires AllWellFormed(phs) && NoSplit(phs, text) && AsYaml(phs, text).Some?
    requires forall ph :: ph in phs ==> Visible(env(ph))
    ensures var script := Lines(AsYaml(phs, text).value) + [DELIMITER] + after;
      HandedOn(phs, env, script) == Some(TextLines(Substitute(phs, env, RStrip(text)))) <==> DELIMITER !in Lines(RStrip(text))
  {
    hide AllWellFormed, Clean, NoSplit, AsYaml, PyLines, PyBlank, TextLines, HandedOn, Lines, RStrip, Substitute, Double, Body, Join, DropBlank;
    AsYamlExact(phs, text);
    NothingBlank(text);
    AcceptedValue(phs, text);
    var t := RStrip(text);
    CleanRStrip(phs, text);
    HandedOnBody(phs, env, t, after);
    WholeLines(phs, env, text);
    if DELIMITER in Lines(t) {
      EmptyHasNoDelimiter();
      CutIsShorter(phs, env, t);
    } else {
      BodyPrefix(Lines(t));
      JoinLines(t);
    }
  }
}

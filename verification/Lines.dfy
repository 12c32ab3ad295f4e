/** Text cut at newlines. The log tailer, the last-lines reader and the config file editor share these. */
module Lines {
  import opened Sequences

  const LF := '\n'
  const CR := '\r'

  /** A line without the carriage return it may end in. */
  function Chop(line: string): string {
    if line != [] && line[|line| - 1] == CR then line[..|line| - 1] else line
  }

  /** What a line contributes when blank lines are skipped. */
  function Piece(line: string): seq<string> { if Chop(line) == [] then [] else [Chop(line)] }

  /** Adds a raw line to the lines seen so far: its carriage return dropped, skipped if it is blank. */
  method AddLine(lines: seq<string>, raw: string) returns (r: seq<string>)
    ensures r == lines + Piece(raw)
  {
    var line := raw;
    if line != [] && line[|line| - 1] == CR { line := line[..|line| - 1]; }
    r := if line != [] then lines + [line] else lines;
  }

  /** The lines of a text that continues an unfinished one. */
  function Cut(line: string, text: string): seq<string>
    decreases |text|
  {
    if text == [] then Piece(line)
    else if text[0] == LF then Piece(line) + Cut([], text[1..])
    else Cut(line + [text[0]], text[1..])
  }

  /** The lines of a text, the unfinished last one included, without blank ones. */
  function Pieces(text: string): seq<string> { Cut([], text) }

  predicate EndsLine(text: string) { text == [] || text[|text| - 1] == LF }

  lemma {:induction false} CutSplit(line: string, a: string, b: string)
    requires a != [] && EndsLine(a)
    ensures Cut(line, a + b) == Cut(line, a) + Cut([], b)
    decreases |a|
  {
    assert (a + b)[0] == a[0] && (a + b)[1..] == a[1..] + b;
    if |a| == 1 {
      EmptySides(b);
      assert Cut(line, a) == Piece(line) + Piece([]) == Piece(line);
    } else if a[0] == LF {
      CutSplit([], a[1..], b);
      Assoc(Piece(line), Cut([], a[1..]), Cut([], b));
    } else {
      CutSplit(line + [a[0]], a[1..], b);
    }
  }

  /** Cutting after a newline cuts no line. */
  lemma PiecesSplit(a: string, b: string)
    requires EndsLine(a)
    ensures Pieces(a + b) == Pieces(a) + Pieces(b)
  {
    if a == [] {
      EmptySides(b);
      EmptySides(Pieces(b));
    } else {
      CutSplit([], a, b);
    }
  }

  lemma {:induction false} CutWithin(line: string, u: string, rest: string)
    requires LF !in u
    ensures Cut(line, u + rest) == Cut(line + u, rest)
    decreases |u|
  {
    if u == [] {
      EmptySides(rest);
      EmptySides(line);
    } else {
      assert (u + rest)[0] == u[0] && (u + rest)[1..] == u[1..] + rest;
      CutWithin(line + [u[0]], u[1..], rest);
      assert line + [u[0]] + u[1..] == line + u;
    }
  }

  // ---------------------------------------------------------------- first and last lines

  /** The index of the first newline, or the length. */
  function Find(text: string): (k: nat)
    ensures k <= |text|
  {
    if text == [] || text[0] == LF then 0 else 1 + Find(text[1..])
  }

  lemma {:induction false} FindSpec(text: string)
    ensures LF !in text[..Find(text)]
    ensures Find(text) < |text| ==> text[Find(text)] == LF
  {
    if text != [] && text[0] != LF {
      FindSpec(text[1..]);
      assert text[..Find(text)] == [text[0]] + text[1..][..Find(text[1..])];
    }
  }

  /** The lines after the first one. */
  function More(text: string): seq<string> {
    var k := Find(text);
    if k == |text| then [] else Pieces(text[k + 1..])
  }

  lemma CutFirst(line: string, text: string)
    ensures Cut(line, text) == Piece(line + text[..Find(text)]) + More(text)
  {
    var k := Find(text);
    FindSpec(text);
    assert text == text[..k] + text[k..];
    CutWithin(line, text[..k], text[k..]);
    if k == |text| {
      EmptySides(Piece(line + text[..k]));
    } else {
      assert text[k..][1..] == text[k + 1..];
    }
  }

  /** Where the unfinished last line of a text starts. */
  function LastLine(text: string): (i: nat)
    ensures i <= |text|
  {
    if EndsLine(text) then |text| else LastLine(text[..|text| - 1])
  }

  lemma {:induction false} LastLineSpec(text: string)
    ensures EndsLine(text[..LastLine(text)]) && LF !in text[LastLine(text)..]
  {
    var n, i := |text| - 1, LastLine(text);
    if EndsLine(text) {
      assert text[..|text|] == text;
    } else {
      LastLineSpec(text[..n]);
      assert text[i..] == text[..n][i..] + [text[n]] && text[..n][..i] == text[..i];
    }
  }

  lemma FromLastLine(a: string, b: string)
    ensures var i := LastLine(a); Pieces(a + b) == Pieces(a[..i]) + Cut(a[i..], b)
  {
    var i := LastLine(a);
    LastLineSpec(a);
    assert a + b == a[..i] + (a[i..] + b);
    PiecesSplit(a[..i], a[i..] + b);
    CutWithin([], a[i..], b);
    EmptySides(a[i..]);
  }

  /** Reading a text in two parts gives the same lines exactly when the cut is at a line boundary or falls
      just before the one carriage return of a line's end. */
  lemma CutIsHarmless(a: string, b: string)
    ensures var u, v := a[LastLine(a)..], b[..Find(b)];
            Pieces(a) + Pieces(b) == Pieces(a + b) <==>
            u == [] || v == [] || (v == [CR] && u[|u| - 1] != CR)
  {
    var u, v := a[LastLine(a)..], b[..Find(b)];
    FromLastLine(a, b);
    FromLastLine(a, []);
    EmptySides(a);
    CutFirst(u, b);
    CutFirst([], b);
    EmptySides(v);
    SameMiddle(Pieces(a[..LastLine(a)]), Piece(u), Piece(v), Piece(u + v), More(b));
    SplitLine(u, v);
  }

  lemma SameMiddle<T>(a: seq<T>, p: seq<T>, q: seq<T>, r: seq<T>, c: seq<T>)
    ensures (a + p) + (q + c) == a + (r + c) <==> p + q == r
  {
    var x, y := (a + p) + (q + c), a + (r + c);
    assert x == a + ((p + q) + c);
    if x == y {
      assert |p + q| == |r|;
      assert p + q == x[|a|..|a| + |r|] == y[|a|..|a| + |r|] == r;
    }
  }

  lemma ChopEnd(line: string, c: char)
    ensures Chop(line + [c]) == if c == CR then line else line + [c]
  {
    assert (line + [c])[..|line|] == line;
  }

  /** One line read in two parts. */
  lemma SplitLine(u: string, v: string)
    ensures Piece(u) + Piece(v) == Piece(u + v) <==>
            u == [] || v == [] || (v == [CR] && u[|u| - 1] != CR)
  {
    if u == [] {
      EmptySides(v);
    } else if v == [] {
      EmptySides(u);
    } else {
      var n := |v| - 1;
      assert u + v == (u + v[..n]) + [v[n]] && v == v[..n] + [v[n]];
      ChopEnd(u + v[..n], v[n]);
      ChopEnd(v[..n], v[n]);
      if v == [CR] {
        assert u + v[..n] == u;
      } else {
        assert Chop(v) != [] && |Chop(u + v)| > |Chop(v)|;
        assert |Piece(u + v)| == 1 && Piece(v) == [Chop(v)];
        if Chop(u) == [] { EmptySides(Piece(v)); }
      }
    }
  }

  /** What is cut, line by line: up to each newline a line without the carriage return it ends in, if anything is left. */
  lemma FirstPiece(line: string, rest: string)
    requires '\n' !in line
    ensures var l := if line != "" && line[|line| - 1] == '\r' then line[..|line| - 1] else line;
            var first := if l == "" then [] else [l];
            Pieces(line + ['\n'] + rest) == first + Pieces(rest) && Pieces(line) == first
  {
    EmptySides(line);
    CutWithin([], line, []);
    CutWithin([], line, ['\n'] + rest);
    Assoc(line, ['\n'], rest);
    assert (['\n'] + rest)[1..] == rest;
  }
}

/** The relay's log tailer: at each poll, what was appended since the last one is cut into lines, and the
    unfinished last line is delivered too. */
module LogTail {
  import opened Sequences
  import opened Lines

  // ---------------------------------------------------------------- one poll

  class Tail {
    var pos: nat

    constructor (size: nat)
      ensures pos == size
    {
      pos := size;
    }

    /** The lines handed to the callback, in order. A file that shrank is read from its start next time. */
    method Poll(file: string) returns (lines: seq<string>)
      modifies this
      ensures lines == Delivery(file, old(pos))
      ensures pos == if |file| < old(pos) then 0 else |file|
    {
      lines := [];
      var sz := |file|;
      if sz <= pos {
        if sz < pos { pos := 0; }
        return;
      }
      var buf := file[pos..];
      pos := sz;
      var st := 0;
      assert buf[0..0] == [] && buf[0..] == buf;
      EmptySides(Pieces(buf));
      for i := 0 to |buf|
        invariant st <= i && pos == sz
        invariant lines + Cut(buf[st..i], buf[i..]) == Pieces(buf)
      {
        assert buf[i..][1..] == buf[i + 1..];
        if buf[i] == LF {
          Assoc(lines, Piece(buf[st..i]), Pieces(buf[i + 1..]));
          lines := AddLine(lines, buf[st..i]);
          st := i + 1;
          assert buf[st..i + 1] == [];
        } else {
          assert buf[st..i] + [buf[i]] == buf[st..i + 1];
        }
      }
      assert buf[|buf|..] == [] && buf[st..|buf|] == buf[st..];
      if st < |buf| {
        lines := AddLine(lines, buf[st..]);
      } else {
        EmptySides(lines);
      }
    }
  }

  function Delivery(file: string, pos: nat): seq<string> { if |file| <= pos then [] else Pieces(file[pos..]) }

  // ---------------------------------------------------------------- runs

  /** What polls at growing sizes of one growing file deliver. */
  function Delivered(whole: string, pos: nat, sizes: seq<nat>): seq<string>
    requires Growing(whole, pos, sizes)
    decreases |sizes|
  {
    if sizes == [] then [] else Delivery(whole[..sizes[0]], pos) + Delivered(whole, sizes[0], sizes[1..])
  }

  predicate Growing(whole: string, pos: nat, sizes: seq<nat>)
    decreases |sizes|
  {
    sizes == [] || (pos <= sizes[0] <= |whole| && Growing(whole, sizes[0], sizes[1..]))
  }

  function End(pos: nat, sizes: seq<nat>): nat { if sizes == [] then pos else sizes[|sizes| - 1] }

  lemma {:induction false} EndInFile(whole: string, pos: nat, sizes: seq<nat>)
    requires Growing(whole, pos, sizes) && pos <= |whole|
    ensures pos <= End(pos, sizes) <= |whole|
    decreases |sizes|
  {
    if sizes != [] { EndInFile(whole, sizes[0], sizes[1..]); }
  }

  function Concat(lines: seq<string>): string { if lines == [] then [] else lines[0] + Concat(lines[1..]) }

  lemma {:induction false} ConcatAppend(a: seq<string>, b: seq<string>)
    ensures Concat(a + b) == Concat(a) + Concat(b)
  {
    if a == [] {
      EmptySides(b);
    } else {
      assert (a + b)[0] == a[0] && (a + b)[1..] == a[1..] + b;
      ConcatAppend(a[1..], b);
      Assoc(a[0], Concat(a[1..]), Concat(b));
    }
  }

  /** A text without its newlines and carriage returns. */
  function Strip(text: string): string {
    if text == [] then []
    else if text[0] == LF || text[0] == CR then Strip(text[1..]) else [text[0]] + Strip(text[1..])
  }

  lemma {:induction false} StripAppend(a: string, b: string)
    ensures Strip(a + b) == Strip(a) + Strip(b)
  {
    if a == [] {
      EmptySides(b);
    } else {
      assert (a + b)[0] == a[0] && (a + b)[1..] == a[1..] + b;
      StripAppend(a[1..], b);
    }
  }

  lemma {:induction false} StripClean(text: string)
    requires LF !in text && CR !in text
    ensures Strip(text) == text
  {
    if text != [] { StripClean(text[1..]); }
  }

  lemma {:induction false} StripHasNone(text: string)
    ensures LF !in Strip(text) && CR !in Strip(text)
  {
    if text != [] { StripHasNone(text[1..]); }
  }

  /** Every carriage return is followed by a newline or ends the text. */
  predicate Tidy(text: string) { forall i :: 0 <= i < |text| - 1 && text[i] == CR ==> text[i + 1] == LF }

  lemma TidyLine(line: string)
    requires LF !in line
    ensures Tidy(line) <==> forall i :: 0 <= i < |line| - 1 ==> line[i] != CR
    ensures Tidy(line) <==> CR !in Chop(line)
  {
    assert forall i :: 0 <= i < |line| ==> line[i] in line;
    if Tidy(line) {
      forall i | 0 <= i < |line| - 1 ensures line[i] != CR { assert line[i + 1] != LF; }
    }
    var c := Chop(line);
    assert forall i :: 0 <= i < |c| ==> c[i] == line[i];
    assert forall i :: 0 <= i < |line| - 1 ==> line[i] == c[i];
  }

  lemma StripOfPiece(line: string)
    requires LF !in line
    ensures Strip(Concat(Piece(line))) == Strip(line)
    ensures LF !in Concat(Piece(line))
    ensures CR !in Concat(Piece(line)) <==> Tidy(line)
  {
    var c := Chop(line);
    assert Concat([c]) == c + Concat([]) == c;
    assert Concat(Piece(line)) == c;
    TidyLine(line);
    if line != [] && line[|line| - 1] == CR {
      assert line == c + [CR];
      StripAppend(c, [CR]);
      assert Strip([CR]) == [];
    }
  }

  /** One poll: nothing but carriage returns and newlines is lost, nothing is repeated or moved, and the
      delivered text is free of carriage returns exactly when the chunk is tidy. */
  lemma PiecesKeepText(text: string)
    ensures Strip(Concat(Pieces(text))) == Strip(text)
    ensures LF !in Concat(Pieces(text))
    ensures CR !in Concat(Pieces(text)) <==> Tidy(text)
  {
    CutKeepsText([], text);
    EmptySides(text);
  }

  lemma {:induction false} CutKeepsText(line: string, text: string)
    requires LF !in line
    ensures Strip(Concat(Cut(line, text))) == Strip(line + text)
    ensures LF !in Concat(Cut(line, text))
    ensures CR !in Concat(Cut(line, text)) <==> Tidy(line + text)
    decreases |text|
  {
    StripOfPiece(line);
    if text == [] {
      EmptySides(line);
    } else if text[0] == LF {
      CutKeepsText([], text[1..]);
      EmptySides(text[1..]);
      ConcatAppend(Piece(line), Cut([], text[1..]));
      StripAppend(Concat(Piece(line)), Concat(Cut([], text[1..])));
      SplitAtNewline(line, text);
    } else {
      var next := line + [text[0]];
      assert next + text[1..] == line + text;
      CutKeepsText(next, text[1..]);
      assert Cut(next, text[1..]) == Cut(line, text);
    }
  }

  lemma SplitAtNewline(line: string, text: string)
    requires text != [] && text[0] == LF && LF !in line
    ensures Strip(line + text) == Strip(line) + Strip(text[1..])
    ensures Tidy(line + text) <==> Tidy(line) && Tidy(text[1..])
  {
    StripAppend(line, text);
    var whole, n := line + text, |line|;
    SlicesAround(line, text);
    TidyParts(whole, n);
  }

  lemma SlicesAround(line: string, text: string)
    requires text != []
    ensures (line + text)[..|line|] == line && (line + text)[|line|] == text[0]
    ensures (line + text)[|line| + 1..] == text[1..]
  {
  }

  lemma TidyParts(text: string, k: nat)
    requires k < |text| && text[k] == LF && LF !in text[..k]
    ensures Tidy(text) <==> Tidy(text[..k]) && Tidy(text[k + 1..])
  {
    var line, rest := text[..k], text[k + 1..];
    TidyLine(line);
    assert forall i :: 0 <= i < k ==> text[i] == line[i] && line[i] in line;
    assert forall i :: 0 <= i < |rest| ==> rest[i] == text[k + 1 + i];
    assert forall i :: k < i < |text| ==> text[i] == rest[i - k - 1];
  }

  /** Whatever the polling times: the delivered text is the appended text, byte for byte and in order, up to
      carriage returns and newlines. */
  lemma {:induction false} NothingLostOrRepeated(whole: string, pos: nat, sizes: seq<nat>)
    requires Growing(whole, pos, sizes) && pos <= |whole|
    ensures pos <= End(pos, sizes) <= |whole|
    ensures Strip(Concat(Delivered(whole, pos, sizes))) == Strip(whole[pos..End(pos, sizes)])
    ensures LF !in Concat(Delivered(whole, pos, sizes))
    ensures CR !in Concat(Delivered(whole, pos, sizes)) <==> TidyChunks(whole, pos, sizes)
    decreases |sizes|
  {
    EndInFile(whole, pos, sizes);
    if sizes != [] {
      var n, end := sizes[0], End(pos, sizes);
      var chunk, first, rest := whole[pos..n], Delivery(whole[..n], pos), Delivered(whole, n, sizes[1..]);
      assert whole[..n][pos..] == chunk;
      NothingLostOrRepeated(whole, n, sizes[1..]);
      FirstDelivery(whole, pos, n);
      SliceInTwo(whole, pos, n, end);
      StripAppend(chunk, whole[n..end]);
      ConcatAppend(first, rest);
      StripAppend(Concat(first), Concat(rest));
    }
  }

  lemma SliceInTwo(whole: string, i: nat, j: nat, k: nat)
    requires i <= j <= k <= |whole|
    ensures whole[i..k] == whole[i..j] + whole[j..k]
  {
  }

  lemma FirstDelivery(whole: string, pos: nat, n: nat)
    requires pos <= n <= |whole|
    ensures Delivery(whole[..n], pos) == Pieces(whole[pos..n])
    ensures Strip(Concat(Delivery(whole[..n], pos))) == Strip(whole[pos..n])
    ensures LF !in Concat(Delivery(whole[..n], pos))
    ensures CR !in Concat(Delivery(whole[..n], pos)) <==> Tidy(whole[pos..n])
  {
    assert whole[..n][pos..] == whole[pos..n];
    PiecesKeepText(whole[pos..n]);
  }

  predicate TidyChunks(whole: string, pos: nat, sizes: seq<nat>)
    requires Growing(whole, pos, sizes)
    decreases |sizes|
  {
    sizes == [] || (Tidy(whole[pos..sizes[0]]) && TidyChunks(whole, sizes[0], sizes[1..]))
  }

  /** The delivered pieces join to the appended text minus carriage returns and newlines exactly when each
      carriage return is followed by a newline or is the last byte of a poll. */
  lemma DeliveredExactly(whole: string, pos: nat, sizes: seq<nat>)
    requires Growing(whole, pos, sizes) && pos <= |whole|
    ensures pos <= End(pos, sizes) <= |whole|
    ensures Concat(Delivered(whole, pos, sizes)) == Strip(whole[pos..End(pos, sizes)]) <==>
            TidyChunks(whole, pos, sizes)
  {
    NothingLostOrRepeated(whole, pos, sizes);
    var text := Concat(Delivered(whole, pos, sizes));
    if CR !in text {
      StripClean(text);
    } else {
      StripHasNone(whole[pos..End(pos, sizes)]);
    }
  }

  predicate WholeLines(whole: string, pos: nat, sizes: seq<nat>)
    requires Growing(whole, pos, sizes)
    decreases |sizes|
  {
    sizes == [] || (EndsLine(whole[pos..sizes[0]]) && WholeLines(whole, sizes[0], sizes[1..]))
  }

  /** Polls that end at newlines deliver exactly the non-empty lines of all that was appended. */
  lemma {:induction false} WholeLinesDelivered(whole: string, pos: nat, sizes: seq<nat>)
    requires Growing(whole, pos, sizes) && pos <= |whole| && WholeLines(whole, pos, sizes)
    ensures pos <= End(pos, sizes) <= |whole|
    ensures Delivered(whole, pos, sizes) == Pieces(whole[pos..End(pos, sizes)])
    decreases |sizes|
  {
    EndInFile(whole, pos, sizes);
    if sizes == [] {
      assert whole[pos..pos] == [];
    } else {
      var n := sizes[0];
      EndInFile(whole, n, sizes[1..]);
      WholeLinesDelivered(whole, n, sizes[1..]);
      FirstDelivery(whole, pos, n);
      JoinWholeLines(whole, pos, n, End(pos, sizes));
    }
  }

  lemma JoinWholeLines(whole: string, i: nat, j: nat, k: nat)
    requires i <= j <= k <= |whole| && EndsLine(whole[i..j])
    ensures Pieces(whole[i..k]) == Pieces(whole[i..j]) + Pieces(whole[j..k])
  {
    SliceInTwo(whole, i, j, k);
    PiecesSplit(whole[i..j], whole[j..k]);
  }

  lemma OneDelivery(whole: string, pos: nat, n: nat)
    requires pos <= n <= |whole|
    ensures Growing(whole, pos, [n]) && Delivered(whole, pos, [n]) == Pieces(whole[pos..n])
  {
    assert [n][1..] == [];
    FirstDelivery(whole, pos, n);
    EmptySides(Pieces(whole[pos..n]));
  }

  /** Two consecutive polls deliver what one would have, exactly when the first ends at a line boundary, or
      nothing more of its last line follows, or only the carriage return of that line's end does. */
  lemma TornLine(whole: string, pos: nat, n: nat, m: nat)
    requires pos <= n <= m <= |whole|
    ensures var a, b := whole[pos..n], whole[n..m]; var u, v := a[LastLine(a)..], b[..Find(b)];
            Growing(whole, pos, [n, m]) && Growing(whole, pos, [m]) &&
            (Delivered(whole, pos, [n, m]) == Delivered(whole, pos, [m]) <==>
             u == [] || v == [] || (v == [CR] && u[|u| - 1] != CR))
  {
    var a, b := whole[pos..n], whole[n..m];
    assert [n, m][1..] == [m];
    SliceInTwo(whole, pos, n, m);
    FirstDelivery(whole, pos, n);
    OneDelivery(whole, n, m);
    OneDelivery(whole, pos, m);
    CutIsHarmless(a, b);
  }
}

/** The log page: the last lines of a file, read from its last 100 KB. */
module TailReader {
  import opened Sequences
  import opened Lines

  const MAX_READ := 102400
  const MAX_LINES := 200

  function Last<T>(s: seq<T>, n: nat): seq<T> { if |s| <= n then s else s[|s| - n..] }

  ghost predicate IsSuffix<T>(s: seq<T>, t: seq<T>) { |s| <= |t| && s == t[|t| - |s|..] }

  /** What is read of the file: all of it, or its end. */
  function Buffer(file: string): string { Last(file, MAX_READ) }

  /** The part of the buffer that is split: past the first newline if the buffer starts inside the file. */
  function Window(file: string): string {
    var buffer := Buffer(file);
    if |file| > MAX_READ && Find(buffer) < |buffer| then buffer[Find(buffer) + 1..] else buffer
  }

  /** std::string::find from a position. */
  method FindFrom(text: string, pos: nat) returns (nl: nat)
    requires pos <= |text|
    ensures nl == pos + Find(text[pos..])
  {
    nl := pos;
    while nl < |text| && text[nl] != LF
      invariant pos <= nl <= |text|
      invariant pos + Find(text[pos..]) == nl + Find(text[nl..])
    {
      assert text[nl..][1..] == text[nl + 1..];
      nl := nl + 1;
    }
  }

  function After(text: string, nl: nat): (next: nat)
    requires nl <= |text|
    ensures nl <= next <= |text|
  {
    if nl == |text| then nl else nl + 1
  }

  lemma NextLine(text: string, pos: nat)
    requires pos <= |text|
    ensures var nl := pos + Find(text[pos..]);
            Pieces(text[pos..]) == Piece(text[pos..nl]) + Pieces(text[After(text, nl)..])
  {
    var rest, k := text[pos..], Find(text[pos..]);
    CutFirst([], rest);
    EmptySides(rest[..k]);
    assert rest[..k] == text[pos..pos + k];
    if k < |rest| {
      assert rest[k + 1..] == text[pos + k + 1..];
    } else {
      assert text[|text|..] == [];
    }
  }

  /** The splitting loop. */
  method SplitBuffer(sv: string) returns (lines: seq<string>)
    ensures lines == Pieces(sv)
  {
    var pos := 0;
    lines := [];
    assert sv[0..] == sv;
    EmptySides(Pieces(sv));
    while pos < |sv|
      invariant pos <= |sv|
      invariant lines + Pieces(sv[pos..]) == Pieces(sv)
    {
      var nl := FindFrom(sv, pos);
      NextLine(sv, pos);
      Assoc(lines, Piece(sv[pos..nl]), Pieces(sv[After(sv, nl)..]));
      lines := AddLine(lines, sv[pos..nl]);
      pos := if nl == |sv| then |sv| else nl + 1;
    }
    assert sv[|sv|..] == [];
    EmptySides(lines);
  }

  method ReadTail(file: string) returns (logs: seq<string>)
    ensures logs == Last(Pieces(Window(file)), MAX_LINES) && |logs| <= 200
    ensures forall i :: 0 <= i < |file| && i >= |file| - 102400 && file[i] == LF ==>
              IsSuffix(Last(Pieces(file[i + 1..]), 200), logs)
    ensures |logs| == MAX_LINES || |logs| == |Pieces(Window(file))| < MAX_LINES
    ensures |file| <= MAX_READ ==> logs == Last(Pieces(file), MAX_LINES)
  {
    var readSize, startPos := |file|, 0;
    if readSize > MAX_READ {
      startPos := readSize - MAX_READ;
      readSize := MAX_READ;
    }
    var buffer := file[startPos..startPos + readSize];
    assert buffer == Buffer(file);
    var start := 0;
    if startPos > 0 {
      var nl := FindFrom(buffer, 0);
      assert buffer[0..] == buffer;
      if nl < |buffer| { start := nl + 1; }
    }
    assert buffer[start..] == Window(file);
    var lines := SplitBuffer(buffer[start..]);
    var startIdx := if |lines| < MAX_LINES then 0 else |lines| - MAX_LINES;
    logs := lines[startIdx..];
    forall i | 0 <= i < |file| && i >= |file| - 102400 && file[i] == LF
      ensures IsSuffix(Last(Pieces(file[i + 1..]), 200), logs)
    {
      ShowsLinesAfter(file, i);
    }
  }

  lemma LastOfSuffix<T>(a: seq<T>, b: seq<T>, n: nat)
    ensures IsSuffix(Last(b, n), a + b)
  {
    var s, t := Last(b, n), a + b;
    assert forall i :: 0 <= i < |s| ==> s[i] == t[|t| - |s| + i];
  }

  /** The ends of two texts: what the longer has before does not count once there are enough lines. */
  lemma EndOfLast<T>(a: seq<T>, b: seq<T>, n: nat)
    ensures IsSuffix(Last(b, n), Last(a + b, n))
    ensures |b| >= n || a == [] ==> Last(a + b, n) == Last(b, n)
  {
    var s, t := Last(b, n), Last(a + b, n);
    assert forall i :: 0 <= i < |s| ==> s[i] == t[|t| - |s| + i];
  }

  lemma FindIsFirst(text: string, k: nat)
    requires k < |text| && text[k] == LF && LF !in text[..k]
    ensures Find(text) == k
  {
    FindSpec(text);
    var f := Find(text);
    assert forall j :: 0 <= j < k ==> text[..k][j] == text[j] != LF;
    assert forall j :: 0 <= j < f ==> text[..f][j] == text[j] != LF;
  }

  /** Whatever follows a newline within the last 100 KB is shown: its last 200 lines are the end of what the page gets. */
  lemma ShowsLinesAfter(file: string, i: nat)
    requires i < |file| && file[i] == LF && i >= |file| - 102400
    ensures IsSuffix(Last(Pieces(file[i + 1..]), 200), Last(Pieces(Window(file)), MAX_LINES))
  {
    var window, buffer := Window(file), Buffer(file);
    var start := |file| - |window|;
    assert window == file[start..];
    if start <= i {
      var head := file[start..i + 1];
      assert file[start..] == head + file[i + 1..] && head[|head| - 1] == LF;
      PiecesSplit(head, file[i + 1..]);
      EndOfLast(Pieces(head), Pieces(file[i + 1..]), 200);
    } else {
      FirstInBuffer(file, i);
      EndOfLast([], Pieces(file[i + 1..]), 200);
      EmptySides(Pieces(file[i + 1..]));
    }
  }

  /** In a long file the window starts behind the buffer's first newline, so a newline before it is that one. */
  lemma FirstInBuffer(file: string, i: nat)
    requires i < |file| && file[i] == LF && i >= |file| - 102400 && i < |file| - |Window(file)|
    ensures Window(file) == file[i + 1..]
  {
    var buffer, skipped := Buffer(file), |file| - |Buffer(file)|;
    FindSpec(buffer);
    var k := i - skipped;
    assert buffer[k] == file[i];
    assert forall j :: 0 <= j < Find(buffer) ==> buffer[..Find(buffer)][j] == buffer[j] != LF;
    assert buffer[Find(buffer) + 1..] == file[skipped + Find(buffer) + 1..];
  }

  /** Exactly what the page gets: of a file of at most 100 KB everything counts, of a longer one what follows the first
      newline within its last 100 KB, or those 100 KB if they hold none; and of that the last 200 lines. */
  lemma ShowsExactly(file: string, i: nat)
    ensures |file| <= 102400 ==> Last(Pieces(Window(file)), MAX_LINES) == Last(Pieces(file), 200)
    ensures |file| > 102400 && |file| - 102400 <= i < |file| && file[i] == LF && LF !in file[|file| - 102400..i] ==>
              Last(Pieces(Window(file)), MAX_LINES) == Last(Pieces(file[i + 1..]), 200)
    ensures |file| > 102400 && LF !in file[|file| - 102400..] ==>
              Last(Pieces(Window(file)), MAX_LINES) == Last(Pieces(file[|file| - 102400..]), 200)
  {
    if |file| > 102400 {
      var skipped := |file| - 102400;
      var buffer := file[skipped..];
      FindSpec(buffer);
      if skipped <= i < |file| && file[i] == LF && LF !in file[skipped..i] {
        assert buffer[..i - skipped] == file[skipped..i];
        FindIsFirst(buffer, i - skipped);
        assert buffer[i - skipped + 1..] == file[i + 1..];
      }
    }
  }

  /** The page shows a suffix of the file's lines exactly when the file fits in the buffer, or the buffer holds
      a newline, or starts right after one; otherwise it shows the end of one line as if it were a line. */
  lemma ShowsSuffix(file: string)
    ensures IsSuffix(Last(Pieces(Window(file)), MAX_LINES), Pieces(file)) <==>
            |file| <= MAX_READ || Find(Buffer(file)) < |Buffer(file)| || file[|file| - MAX_READ - 1] == LF
  {
    var buffer, k := Buffer(file), Find(Buffer(file));
    if |file| <= MAX_READ {
      LastOfSuffix([], Pieces(file), MAX_LINES);
      EmptySides(Pieces(file));
    } else {
      var prefix := file[..|file| - MAX_READ];
      assert file == prefix + buffer;
      if k < |buffer| {
        FindSpec(buffer);
        var head := prefix + buffer[..k + 1];
        assert file == head + buffer[k + 1..] && head[|head| - 1] == LF;
        PiecesSplit(head, buffer[k + 1..]);
        LastOfSuffix(Pieces(head), Pieces(buffer[k + 1..]), MAX_LINES);
      } else if prefix[|prefix| - 1] == LF {
        PiecesSplit(prefix, buffer);
        LastOfSuffix(Pieces(prefix), Pieces(buffer), MAX_LINES);
      } else {
        TornBuffer(prefix, buffer);
      }
    }
  }

  lemma OneLineBuffer(u: string, buffer: string)
    requires |buffer| >= 2 && Find(buffer) == |buffer|
    ensures Cut(u, buffer) == [Chop(u + buffer)] && |Chop(u + buffer)| == |u| + |Chop(buffer)|
  {
    CutFirst(u, buffer);
    assert buffer[..|buffer|] == buffer;
    ChopAppend(u, buffer);
    EmptySides(Piece(u + buffer));
  }

  lemma ChopAppend(u: string, v: string)
    requires v != []
    ensures Chop(u + v) == u + Chop(v)
  {
    assert (u + v)[|u + v| - 1] == v[|v| - 1];
    assert (u + v)[..|u + v| - 1] == u + v[..|v| - 1];
  }

  lemma TornBuffer(prefix: string, buffer: string)
    requires |buffer| >= 2 && Find(buffer) == |buffer| && prefix != [] && prefix[|prefix| - 1] != LF
    ensures !IsSuffix(Last(Pieces(buffer), MAX_LINES), Pieces(prefix + buffer))
  {
    var i := LastLine(prefix);
    assert i <= |prefix| - 1;
    FromLastLine(prefix, buffer);
    OneLineBuffer(prefix[i..], buffer);
    OneLineBuffer([], buffer);
    EmptySides(buffer);
    var all := Pieces(prefix + buffer);
    assert all[|all| - 1] == Chop(prefix[i..] + buffer) != Chop(buffer);
  }
}

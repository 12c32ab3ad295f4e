/** The relay's edits of the game's config files: reserved slots, bans and admins, one entry a line. */
module ConfigFiles {
  import opened Wrappers
  import opened Sequences
  import opened Lines

  // ---------------------------------------------------------------- lines in and out

  /** The lines of a text that continues an unfinished one, blank ones kept, as getline reads them. */
  function SplitOn(line: string, text: string): seq<string>
    decreases |text|
  {
    if text == [] then (if line == [] then [] else [Chop(line)])
    else if text[0] == LF then [Chop(line)] + SplitOn([], text[1..])
    else SplitOn(line + [text[0]], text[1..])
  }

  function Split(text: string): seq<string> { SplitOn([], text) }

  method SplitLines(text: string) returns (v: seq<string>)
    ensures v == Split(text)
  {
    v := [];
    var line := [];
    for i := 0 to |text|
      invariant v + SplitOn(line, text[i..]) == Split(text)
    {
      assert text[i..][1..] == text[i + 1..];
      if text[i] == LF {
        Assoc(v, [Chop(line)], SplitOn([], text[i + 1..]));
        v := v + [Chop(line)];
        line := [];
      } else {
        line := line + [text[i]];
      }
    }
    EmptySides(v);
    if line != [] { v := v + [Chop(line)]; }
  }

  function Join(lines: seq<string>): string {
    if lines == [] then [] else Join(lines[..|lines| - 1]) + lines[|lines| - 1] + [CR, LF]
  }

  /** What every edit does to line ends. */
  function Normalise(text: string): string { Join(Split(text)) }

  predicate NoNewlines(lines: seq<string>) { forall l :: l in lines ==> LF !in l }

  lemma {:induction false} SplitHasNoNewlines(line: string, text: string)
    requires LF !in line
    ensures NoNewlines(SplitOn(line, text))
    decreases |text|
  {
    if text != [] {
      if text[0] == LF {
        SplitHasNoNewlines([], text[1..]);
      } else {
        SplitHasNoNewlines(line + [text[0]], text[1..]);
      }
    }
  }

  lemma {:induction false} SplitAcross(line: string, a: string, b: string)
    requires a != [] && EndsLine(a)
    ensures SplitOn(line, a + b) == SplitOn(line, a) + Split(b)
    decreases |a|
  {
    assert (a + b)[0] == a[0] && (a + b)[1..] == a[1..] + b;
    if |a| == 1 {
      EmptySides(b);
      EmptySides([Chop(line)]);
    } else if a[0] == LF {
      SplitAcross([], a[1..], b);
      Assoc([Chop(line)], Split(a[1..]), Split(b));
    } else {
      SplitAcross(line + [a[0]], a[1..], b);
    }
  }

  lemma {:induction false} SplitWithin(line: string, u: string, rest: string)
    requires LF !in u
    ensures SplitOn(line, u + rest) == SplitOn(line + u, rest)
    decreases |u|
  {
    if u == [] {
      EmptySides(rest);
      EmptySides(line);
    } else {
      assert (u + rest)[0] == u[0] && (u + rest)[1..] == u[1..] + rest;
      SplitWithin(line + [u[0]], u[1..], rest);
      assert line + [u[0]] + u[1..] == line + u;
    }
  }

  lemma SplitOneLine(line: string)
    requires LF !in line
    ensures Split(line + [CR, LF]) == [line]
  {
    var ended := line + [CR];
    assert line + [CR, LF] == ended + [LF];
    SplitWithin([], ended, [LF]);
    EmptySides(ended);
    ChopEnd(line, CR);
    assert SplitOn(ended, [LF]) == [Chop(ended)] + Split([]);
    EmptySides([line]);
  }

  /** A text whose lines all end in CR LF, followed by anything. */
  lemma {:induction false} SplitJoinThen(lines: seq<string>, rest: string)
    requires NoNewlines(lines)
    ensures Split(Join(lines) + rest) == lines + Split(rest)
  {
    SplitJoin(lines);
    if lines == [] {
      EmptySides(rest);
      EmptySides(Split(rest));
    } else {
      SplitAcross([], Join(lines), rest);
    }
  }

  /** Joining and splitting are inverse on lines. */
  lemma {:induction false} SplitJoin(lines: seq<string>)
    requires NoNewlines(lines)
    ensures Split(Join(lines)) == lines
  {
    if lines != [] {
      var n := |lines| - 1;
      var front, last := lines[..n], lines[n] + [CR, LF];
      SplitJoin(front);
      SplitOneLine(lines[n]);
      assert Join(lines) == Join(front) + last by { Assoc(Join(front), lines[n], [CR, LF]); }
      if front == [] {
        EmptySides(last);
      } else {
        SplitAcross([], Join(front), last);
      }
      assert lines == front + [lines[n]];
    }
  }

  /** Rewriting line ends once is enough. */
  lemma NormaliseTwice(text: string)
    ensures Normalise(Normalise(text)) == Normalise(text)
  {
    SplitHasNoNewlines([], text);
    SplitJoin(Split(text));
  }

  // ---------------------------------------------------------------- entries

  predicate Blank(c: char) { c == ' ' || c == '\t' || c == CR || c == LF }

  function TrimLeft(s: string): string { if s != [] && Blank(s[0]) then TrimLeft(s[1..]) else s }

  function TrimRight(s: string): string { if s != [] && Blank(s[|s| - 1]) then TrimRight(s[..|s| - 1]) else s }

  function Trim(s: string): string { TrimRight(TrimLeft(s)) }

  function IndexOf(s: string, c: char): (k: nat)
    ensures k <= |s|
  {
    if s == [] || s[0] == c then 0 else 1 + IndexOf(s[1..], c)
  }

  datatype File = Slots | Bans | Admins

  /** The id a line stands for: the line, what precedes its colon, or what is between its first two. Blank lines
      and comments stand for none, and every edit keeps them. */
  function Key(file: File, line: string): Option<string> {
    var t := Trim(line);
    if t == [] || t[0] == '#' then None
    else
      var cp := IndexOf(t, ':');
      match file
      case Slots => Some(t)
      case Bans => if cp < |t| then Some(t[..cp]) else None
      case Admins => if cp < |t| then Some(t[cp + 1..][..IndexOf(t[cp + 1..], ':')]) else None
  }

  predicate Has(file: File, lines: seq<string>, id: string) {
    exists i :: 0 <= i < |lines| && Key(file, lines[i]) == Some(id)
  }

  function Without(file: File, lines: seq<string>, id: string): seq<string> {
    if lines == [] then [] else
      var n := |lines| - 1;
      var rest := Without(file, lines[..n], id);
      if Key(file, lines[n]) == Some(id) then rest else rest + [lines[n]]
  }

  // ---------------------------------------------------------------- the edits

  function AdminEntry(id: string, level: string): string {
    "Admin:" + id + ":" + AdminTail(level)
  }

  function Removed(file: File, text: string, id: string): string { Join(Without(file, Split(text), id)) }

  function Added(file: File, text: string, id: string, entry: string): string {
    Normalise(text) + if Has(file, Split(text), id) then [] else entry + [CR, LF]
  }

  /** What the first `i` lines are rewritten to. */
  function Kept(file: File, lines: seq<string>, i: nat, id: string, all: bool): string
    requires i <= |lines|
  {
    Join(if all then lines[..i] else Without(file, lines[..i], id))
  }

  lemma NextEntry(file: File, lines: seq<string>, i: nat, id: string, all: bool)
    requires i < |lines|
    ensures var m := Key(file, lines[i]) == Some(id);
            && (Has(file, lines[..i + 1], id) <==> Has(file, lines[..i], id) || m)
            && Kept(file, lines, i + 1, id, all) ==
               if m && !all then Kept(file, lines, i, id, all) else Kept(file, lines, i, id, all) + lines[i] + [CR, LF]
  {
    var next, rest := lines[..i + 1], Without(file, lines[..i], id);
    assert next[..i] == lines[..i];
    assert (rest + [lines[i]])[..|rest|] == rest;
    if Has(file, lines[..i], id) {
      var j :| 0 <= j < i && Key(file, lines[..i][j]) == Some(id);
      assert Key(file, next[j]) == Some(id);
    }
    if Key(file, lines[i]) == Some(id) { assert Key(file, next[i]) == Some(id); }
    if Has(file, next, id) && Key(file, lines[i]) != Some(id) {
      var j :| 0 <= j <= i && Key(file, next[j]) == Some(id);
      assert Key(file, lines[..i][j]) == Some(id);
    }
  }

  method SyncReservedSlot(text: string, action: string, id: string) returns (nc: string)
    ensures nc == if action == "add" then Added(Slots, text, id, id)
                  else if action == "remove" then Removed(Slots, text, id) else Normalise(text)
  {
    var lines := SplitLines(text);
    nc := [];
    var found := false;
    assert lines[..0] == [];
    for i := 0 to |lines|
      invariant found <==> Has(Slots, lines[..i], id)
      invariant nc == Kept(Slots, lines, i, id, action != "remove")
    {
      var l := lines[i];
      NextEntry(Slots, lines, i, id, action != "remove");
      if Key(Slots, l) == Some(id) {
        found := true;
        if action == "remove" { continue; }
      }
      nc := nc + l + [CR, LF];
    }
    assert lines[..|lines|] == lines;
    if action == "add" && !found { nc := nc + (id + [CR, LF]); } else { EmptySides(nc); }
  }

  /** None stands for the exception: nothing is written. */
  method Unban(text: string, id: string) returns (r: Option<string>)
    ensures r == if Has(Bans, Split(text), id) then Some(Removed(Bans, text, id)) else None
  {
    var lines := SplitLines(text);
    var nc, found := [], false;
    assert lines[..0] == [];
    for i := 0 to |lines|
      invariant found <==> Has(Bans, lines[..i], id)
      invariant nc == Kept(Bans, lines, i, id, false)
    {
      var l := lines[i];
      NextEntry(Bans, lines, i, id, false);
      if Key(Bans, l) == Some(id) {
        found := true;
        continue;
      }
      nc := nc + l + [CR, LF];
    }
    assert lines[..|lines|] == lines;
    r := if found then Some(nc) else None;
  }

  datatype SyncResult = SyncResult(success: bool, already: bool, notFound: bool)

  method SyncAdmin(text: string, id: string, act: string, level: string) returns (nc: string, r: SyncResult)
    ensures nc == if act == "add" then Added(Admins, text, id, AdminEntry(id, level)) else Removed(Admins, text, id)
    ensures r == Report(text, id, act)
  {
    var lines := SplitLines(text);
    nc := [];
    var found := false;
    assert lines[..0] == [];
    for i := 0 to |lines|
      invariant found <==> Has(Admins, lines[..i], id)
      invariant nc == Kept(Admins, lines, i, id, act == "add")
    {
      var l := lines[i];
      NextEntry(Admins, lines, i, id, act == "add");
      if Key(Admins, l) == Some(id) {
        found := true;
        if act == "add" { nc := nc + l + [CR, LF]; }
        continue;
      }
      nc := nc + l + [CR, LF];
    }
    assert lines[..|lines|] == lines;
    EmptySides(nc);
    r := SyncResult(false, false, false);
    if act == "add" && !found {
      nc := nc + AdminEntry(id, level) + [CR, LF];
      Assoc(Normalise(text), AdminEntry(id, level), [CR, LF]);
      r := r.(success := true);
    } else if act == "add" && found {
      r := r.(already := true);
    } else if act == "remove" && found {
      r := r.(success := true);
    } else {
      r := r.(notFound := true);
    }
  }

  /** What a sync reports. */
  function Report(text: string, id: string, act: string): SyncResult {
    var found := Has(Admins, Split(text), id);
    if act == "add" then SyncResult(!found, found, false)
    else if act == "remove" then SyncResult(found, false, !found)
    else SyncResult(false, false, true)
  }

  // ---------------------------------------------------------------- what the edits achieve

  /** An appended entry can be found again: it stays one line and stands for the id. */
  predicate Proper(file: File, entry: string, id: string) { LF !in entry && Key(file, entry) == Some(id) }

  lemma {:induction false} TrimLeftIn(s: string)
    ensures forall c :: c in TrimLeft(s) ==> c in s
  {
    if s != [] && Blank(s[0]) { TrimLeftIn(s[1..]); }
  }

  lemma {:induction false} TrimRightIn(s: string)
    ensures forall c :: c in TrimRight(s) ==> c in s
  {
    if s != [] && Blank(s[|s| - 1]) { TrimRightIn(s[..|s| - 1]); }
  }

  lemma KeyHasNoNewline(file: File, line: string)
    requires LF !in line && Key(file, line) != None
    ensures LF !in Key(file, line).value
  {
    TrimLeftIn(line);
    TrimRightIn(TrimLeft(line));
    assert LF !in Trim(line);
  }

  lemma {:induction false} WithoutAppend(file: File, a: seq<string>, b: seq<string>, id: string)
    ensures Without(file, a + b, id) == Without(file, a, id) + Without(file, b, id)
  {
    if b == [] {
      EmptySides(a);
      EmptySides(Without(file, a, id));
    } else {
      var n := |b| - 1;
      assert (a + b)[..|a| + n] == a + b[..n];
      WithoutAppend(file, a, b[..n], id);
      Assoc(Without(file, a, id), Without(file, b[..n], id), [b[n]]);
    }
  }

  lemma {:induction false} WithoutMeaning(file: File, lines: seq<string>, id: string)
    ensures !Has(file, Without(file, lines, id), id)
    ensures Without(file, lines, id) == lines <==> !Has(file, lines, id)
    ensures |Without(file, lines, id)| <= |lines|
    ensures forall l :: l in Without(file, lines, id) ==> l in lines
  {
    if lines != [] {
      var n := |lines| - 1;
      WithoutMeaning(file, lines[..n], id);
      assert lines == lines[..n] + [lines[n]];
      HasAppend(file, lines[..n], [lines[n]], id);
      HasAppend(file, Without(file, lines[..n], id), [lines[n]], id);
      if Key(file, lines[n]) == Some(id) {
        assert |Without(file, lines, id)| < |lines|;
      } else {
        assert Without(file, lines, id)[..|Without(file, lines, id)| - 1] == Without(file, lines[..n], id);
      }
    }
  }

  lemma HasAppend(file: File, a: seq<string>, b: seq<string>, id: string)
    ensures Has(file, a + b, id) <==> Has(file, a, id) || Has(file, b, id)
  {
    var all := a + b;
    assert forall i :: 0 <= i < |a| ==> all[i] == a[i];
    assert forall i :: 0 <= i < |b| ==> all[|a| + i] == b[i];
    assert forall i :: |a| <= i < |all| ==> all[i] == b[i - |a|];
  }

  /** Removing deletes every line of the id, whatever the id, and keeps all other lines as they are, in order. */
  lemma RemoveDeletes(file: File, text: string, id: string)
    ensures Split(Removed(file, text, id)) == Without(file, Split(text), id)
    ensures !Has(file, Split(Removed(file, text, id)), id)
  {
    SplitHasNoNewlines([], text);
    WithoutMeaning(file, Split(text), id);
    SplitJoin(Without(file, Split(text), id));
  }

  /** The lines an appended entry becomes, and whether the id is among them. */
  lemma AppendedLines(file: File, text: string, id: string, entry: string)
    requires LF in entry <==> LF in id
    ensures var more := Split(entry + [CR, LF]);
            && Split(Normalise(text) + (entry + [CR, LF])) == Split(text) + more
            && NoNewlines(more) && more != []
            && (LF !in entry ==> more == [entry])
            && (Has(file, more, id) <==> Proper(file, entry, id))
  {
    var line := entry + [CR, LF];
    var more := Split(line);
    SplitHasNoNewlines([], text);
    SplitHasNoNewlines([], line);
    SplitJoinThen(Split(text), line);
    SplitNotEmpty([], line);
    if LF !in entry {
      SplitOneLine(entry);
      assert more[0] == entry;
    } else if Has(file, more, id) {
      var i :| 0 <= i < |more| && Key(file, more[i]) == Some(id);
      KeyHasNoNewline(file, more[i]);
    }
  }

  lemma SplitNotEmpty(line: string, text: string)
    requires text != []
    ensures SplitOn(line, text) != []
    decreases |text|
  {
    if text[0] != LF && |text| > 1 { SplitNotEmpty(line + [text[0]], text[1..]); }
  }

  /** After adding, the id is listed exactly when it was before or its entry is proper. */
  lemma AddThenListed(file: File, text: string, id: string, entry: string)
    requires LF in entry <==> LF in id
    ensures Has(file, Split(Added(file, text, id, entry)), id) <==> Has(file, Split(text), id) || Proper(file, entry, id)
    ensures Has(file, Split(text), id) ==> Split(Added(file, text, id, entry)) == Split(text)
    ensures !Has(file, Split(text), id) && LF !in entry ==>
              Split(Added(file, text, id, entry)) == Split(text) + [entry]
  {
    if Has(file, Split(text), id) {
      SplitHasNoNewlines([], text);
      SplitJoin(Split(text));
      EmptySides(Normalise(text));
    } else {
      AppendedLines(file, text, id, entry);
      HasAppend(file, Split(text), Split(entry + [CR, LF]), id);
    }
  }

  /** Removing what was just added gives the original with normalised line ends, exactly when the entry is proper. */
  lemma RemoveUndoesAdd(file: File, text: string, id: string, entry: string)
    requires LF in entry <==> LF in id
    requires !Has(file, Split(text), id)
    ensures Removed(file, Added(file, text, id, entry), id) == Normalise(text) <==> Proper(file, entry, id)
  {
    var lines, more := Split(text), Split(entry + [CR, LF]);
    AppendedLines(file, text, id, entry);
    WithoutAppend(file, lines, more, id);
    WithoutMeaning(file, lines, id);
    WithoutMeaning(file, more, id);
    SplitHasNoNewlines([], text);
    if Proper(file, entry, id) {
      assert [entry][..0] == [] && Without(file, [entry], id) == [];
      EmptySides(lines);
    } else {
      SplitJoin(lines);
      SplitJoin(lines + more);
      assert |lines + more| > |lines|;
    }
  }

  /** Adding twice is adding once exactly when the id was listed or its entry is proper; otherwise every call
      appends another copy. */
  lemma AddTwice(file: File, text: string, id: string, entry: string)
    requires LF in entry <==> LF in id
    ensures var once := Added(file, text, id, entry);
            Split(Added(file, once, id, entry)) == Split(once) <==> Has(file, Split(text), id) || Proper(file, entry, id)
  {
    var once := Added(file, text, id, entry);
    AddThenListed(file, text, id, entry);
    AddThenListed(file, once, id, entry);
    if !Has(file, Split(once), id) {
      AppendedLines(file, once, id, entry);
      assert |Split(once) + Split(entry + [CR, LF])| > |Split(once)|;
    }
  }

  // ---------------------------------------------------------------- which ids are proper

  lemma {:induction false} TrimRightFixed(s: string)
    ensures if s == [] || !Blank(s[|s| - 1]) then TrimRight(s) == s else |TrimRight(s)| < |s|
  {
    if s != [] && Blank(s[|s| - 1]) { TrimRightFixed(s[..|s| - 1]); }
  }

  lemma {:induction false} TrimLeftFixed(s: string)
    ensures if s == [] || !Blank(s[0]) then TrimLeft(s) == s else |TrimLeft(s)| < |s|
  {
    if s != [] && Blank(s[0]) { TrimLeftFixed(s[1..]); }
  }

  lemma TrimFixed(s: string)
    ensures Trim(s) == s <==> s == [] || (!Blank(s[0]) && !Blank(s[|s| - 1]))
  {
    TrimLeftFixed(s);
    TrimRightFixed(TrimLeft(s));
  }

  /** A reserved-slot id must be trimmed, not empty, without newline, and must not look like a comment. */
  lemma ProperSlot(id: string)
    ensures Proper(Slots, id, id) <==>
            id != [] && !Blank(id[0]) && !Blank(id[|id| - 1]) && id[0] != '#' && LF !in id
  {
    TrimFixed(id);
  }

  lemma {:induction false} IndexOfFirst(a: string, c: char, rest: string)
    ensures IndexOf(a + [c] + rest, c) <= |a|
    ensures IndexOf(a + [c] + rest, c) == |a| <==> c !in a
  {
    var s := a + [c] + rest;
    if a != [] && a[0] != c {
      assert s[0] == a[0] && s[1..] == a[1..] + [c] + rest;
      IndexOfFirst(a[1..], c, rest);
      assert a == [a[0]] + a[1..];
    }
  }

  function AdminTail(level: string): (t: string)
    ensures |t| > 0 && !Blank(t[|t| - 1]) && LF !in t
  {
    if level == "server_owner" then "Admin:cankickcanban" else "Moderator:canbalancecanrestart"
  }

  lemma AdminEntryParts(id: string, level: string)
    ensures AdminEntry(id, level) == "Admin" + [':'] + (id + [':'] + AdminTail(level))
    ensures LF in AdminEntry(id, level) <==> LF in id
  {
    var e, rest := AdminEntry(id, level), id + [':'] + AdminTail(level);
    assert e == "Admin" + [':'] + rest;
    assert LF in rest <==> LF in id;
  }

  /** An admin's id must be free of colons and newlines. */
  lemma ProperAdmin(id: string, level: string)
    ensures LF in AdminEntry(id, level) <==> LF in id
    ensures Proper(Admins, AdminEntry(id, level), id) <==> ':' !in id && LF !in id
  {
    AdminEntryParts(id, level);
    EntryKey(id, AdminTail(level));
    IndexOfFirst(id, ':', AdminTail(level));
    assert (id + [':'] + AdminTail(level))[..|id|] == id;
  }

  lemma EntryKey(id: string, tail: string)
    requires tail != [] && !Blank(tail[|tail| - 1])
    ensures var rest := id + [':'] + tail;
            Key(Admins, "Admin" + [':'] + rest) == Some(rest[..IndexOf(rest, ':')])
  {
    var rest := id + [':'] + tail;
    var e := "Admin" + [':'] + rest;
    assert e[0] == 'A' && e[|e| - 1] == tail[|tail| - 1];
    TrimFixed(e);
    IndexOfFirst("Admin", ':', rest);
    assert e[6..] == rest;
  }

  /** A ban's line is found under its id exactly when the id has no colon. */
  lemma BanKey(id: string, rest: string)
    requires id != [] && !Blank(id[0]) && id[0] != '#' && rest != [] && !Blank(rest[|rest| - 1])
    ensures Key(Bans, id + [':'] + rest) == Some(id) <==> ':' !in id
  {
    var e := id + [':'] + rest;
    TrimFixed(e);
    assert e[0] == id[0] && e[|e| - 1] == rest[|rest| - 1];
    IndexOfFirst(id, ':', rest);
    assert e[..|id|] == id;
  }

  /** A sync that says it found nothing has left all entries alone exactly when the action is "add" or "remove",
      or the id is not listed: any other action deletes the id's lines and still reports that it was not found. */
  lemma ReportIsFaithful(text: string, id: string, act: string)
    requires Report(text, id, act).notFound
    ensures Removed(Admins, text, id) == Normalise(text) <==>
            act == "add" || act == "remove" || !Has(Admins, Split(text), id)
  {
    var lines := Split(text);
    WithoutMeaning(Admins, lines, id);
    SplitHasNoNewlines([], text);
    SplitJoin(lines);
    SplitJoin(Without(Admins, lines, id));
  }

  // ---------------------------------------------------------------- in the files' own terms

  /** What is read, line by line, blank lines included, and what is written. */
  lemma FirstLine(line: string, rest: string, lines: seq<string>)
    requires '\n' !in line
    ensures var l := if line != "" && line[|line| - 1] == '\r' then line[..|line| - 1] else line;
            Split(line + ['\n'] + rest) == [l] + Split(rest) && Split(line) == if line == "" then [] else [l]
    ensures Join([]) == "" && Join(lines + [line]) == Join(lines) + line + "\r\n"
  {
    EmptySides(line);
    SplitWithin([], line, []);
    SplitWithin([], line, ['\n'] + rest);
    Assoc(line, ['\n'], rest);
    assert (['\n'] + rest)[1..] == rest;
    assert (lines + [line])[..|lines|] == lines && [CR, LF] == "\r\n";
  }

  predicate White(c: char) { c == ' ' || c == '\t' || c == '\r' || c == '\n' }

  lemma {:induction false} LeftEnd(s: string) returns (i: nat)
    ensures i <= |s| && TrimLeft(s) == s[i..]
    ensures (forall k :: 0 <= k < i ==> White(s[k])) && (i < |s| ==> !White(s[i]))
  {
    if s != [] && Blank(s[0]) {
      var j := LeftEnd(s[1..]);
      i := j + 1;
      assert s[1..][j..] == s[i..];
      assert forall k :: 0 < k < i ==> s[k] == s[1..][k - 1];
    } else {
      i := 0;
    }
  }

  lemma {:induction false} RightEnd(s: string) returns (j: nat)
    ensures j <= |s| && TrimRight(s) == s[..j]
    ensures (forall k :: j <= k < |s| ==> White(s[k])) && (j > 0 ==> !White(s[j - 1]))
  {
    if s != [] && Blank(s[|s| - 1]) {
      j := RightEnd(s[..|s| - 1]);
      assert s[..|s| - 1][..j] == s[..j];
    } else {
      j := |s|;
    }
  }

  /** Trimming cuts the white characters off both ends, and no others. */
  lemma TrimMeaning(s: string) returns (i: nat, j: nat)
    ensures i <= j <= |s| && Trim(s) == s[i..j]
    ensures forall k :: 0 <= k < i || j <= k < |s| ==> White(s[k])
    ensures i < j ==> !White(s[i]) && !White(s[j - 1])
  {
    i := LeftEnd(s);
    var rest := s[i..];
    var n := RightEnd(rest);
    j := i + n;
    assert rest[..n] == s[i..j];
    assert forall k :: j <= k < |s| ==> s[k] == rest[k - i];
    assert n > 0 ==> rest[n - 1] == s[j - 1];
  }

  lemma {:induction false} IndexOfSpec(s: string, c: char)
    ensures c !in s[..IndexOf(s, c)]
    ensures IndexOf(s, c) < |s| ==> s[IndexOf(s, c)] == c
  {
    if s != [] && s[0] != c {
      IndexOfSpec(s[1..], c);
      assert s[..IndexOf(s, c)] == [s[0]] + s[1..][..IndexOf(s[1..], c)];
    }
  }

  lemma FirstField(t: string, c: char, id: string)
    ensures t[..IndexOf(t, c)] == id <==> c !in id && id <= t && (t == id || t[|id|] == c)
  {
    IndexOfSpec(t, c);
    if c !in id && id <= t && (t == id || t[|id|] == c) {
      assert forall k :: 0 <= k < |id| ==> t[k] == id[k];
      assert forall k :: 0 <= k < IndexOf(t, c) ==> t[..IndexOf(t, c)][k] == t[k];
    }
  }

  lemma StartsWith(t: string, id: string)
    ensures id + [':'] <= t <==> id <= t && |id| < |t| && t[|id|] == ':'
  {
    if id + [':'] <= t { assert t[|id|] == (id + [':'])[|id|]; }
    if id <= t && |id| < |t| && t[|id|] == ':' { assert t[..|id| + 1] == id + [':']; }
  }

  lemma BanMeaning(t: string, id: string)
    ensures IndexOf(t, ':') < |t| && t[..IndexOf(t, ':')] == id <==> ':' !in id && id + [':'] <= t
  {
    IndexOfSpec(t, ':');
    FirstField(t, ':', id);
    StartsWith(t, id);
  }

  /** The id is the first of the fields that colons part. */
  predicate Fields(rest: string, id: string) { ':' !in id && id <= rest && (rest == id || rest[|id|] == ':') }

  /** The id is the field behind the first colon. */
  predicate SecondField(t: string, id: string) {
    exists k :: 0 <= k < |t| && t[k] == ':' && ':' !in t[..k] && Fields(t[k + 1..], id)
  }

  lemma FirstColon(t: string, k: nat)
    requires k < |t| && t[k] == ':' && ':' !in t[..k]
    ensures k == IndexOf(t, ':')
  {
    IndexOfSpec(t, ':');
    var cp := IndexOf(t, ':');
    assert forall i :: 0 <= i < k ==> t[..k][i] == t[i];
    assert forall i :: 0 <= i < cp ==> t[..cp][i] == t[i];
  }

  lemma AdminMeaning(t: string, id: string)
    ensures var cp := IndexOf(t, ':');
            cp < |t| && t[cp + 1..][..IndexOf(t[cp + 1..], ':')] == id <==> SecondField(t, id)
  {
    var cp := IndexOf(t, ':');
    IndexOfSpec(t, ':');
    if cp < |t| { FirstField(t[cp + 1..], ':', id); }
    if SecondField(t, id) {
      var k :| 0 <= k < |t| && t[k] == ':' && ':' !in t[..k] && Fields(t[k + 1..], id);
      FirstColon(t, k);
    }
  }

  /** Which lines belong to an id. Blank lines and comments belong to none. A slot's line is the id, a ban's starts with
      it and a colon, and an admin's has it behind the first colon, up to the next one or the end. */
  lemma KeyMeaning(line: string, id: string)
    ensures var t := Trim(line); var entry := t != "" && t[0] != '#';
            && (Key(Slots, line) == Some(id) <==> entry && t == id)
            && (Key(Bans, line) == Some(id) <==> entry && ':' !in id && id + [':'] <= t)
            && (Key(Admins, line) == Some(id) <==> entry && SecondField(t, id))
  {
    BanMeaning(Trim(line), id);
    AdminMeaning(Trim(line), id);
  }

  /** An admin's line: owners may kick and ban, all others may balance and restart. */
  lemma AdminLine(id: string, level: string)
    ensures AdminEntry(id, level) ==
            if level == "server_owner" then "Admin:" + id + ":Admin:cankickcanban"
            else "Admin:" + id + ":Moderator:canbalancecanrestart"
  {
    assert ":" + "Admin:cankickcanban" == ":Admin:cankickcanban";
    assert ":" + "Moderator:canbalancecanrestart" == ":Moderator:canbalancecanrestart";
  }

  /** Removal looks at each line by itself. */
  lemma OneLineWithout(file: File, line: string, id: string)
    ensures Without(file, [line], id) == if Key(file, line) == Some(id) then [] else [line]
  {
    assert [line][..0] == [];
  }

  /** A sync says it succeeded exactly if the lines are not what they were, and says one thing only. */
  lemma ReportTellsChange(text: string, id: string, act: string, level: string)
    requires act == "add" || act == "remove"
    ensures var r := Report(text, id, act);
            var edited := if act == "add" then Added(Admins, text, id, AdminEntry(id, level)) else Removed(Admins, text, id);
            && (r.success <==> Split(edited) != Split(text))
            && (r.already <==> act == "add" && !r.success) && (r.notFound <==> act == "remove" && !r.success)
  {
    var entry := AdminEntry(id, level);
    AdminEntryParts(id, level);
    RemoveDeletes(Admins, text, id);
    WithoutMeaning(Admins, Split(text), id);
    AddThenListed(Admins, text, id, entry);
    AppendedLines(Admins, text, id, entry);
  }
}

/** Team-kill records: the killer may apologise in chat until the record expires; a checker kicks those who did
    not. The plugin and the checker run on different threads and share only the table. */
module TkForgive {

  datatype Rec = Rec(serverId: int, killer: string, expiresAt: int, forgiven: bool, kicked: bool)

  /** `chat` and `check`: row ids that a chat handler and the checker have read and not yet written. */
  datatype State = State(recs: seq<Rec>, chat: seq<nat>, check: seq<nat>, now: int)

  predicate Open(r: Rec) { !r.forgiven && !r.kicked }

  predicate Pardonable(r: Rec, serverId: int, killer: string, now: int) {
    r.serverId == serverId && r.killer == killer && Open(r) && r.expiresAt > now
  }

  predicate Overdue(r: Rec, now: int) { Open(r) && r.expiresAt <= now }

  function PardonableIds(recs: seq<Rec>, serverId: int, killer: string, now: int): seq<nat> {
    if recs == [] then [] else
      var n := |recs| - 1;
      var rest := PardonableIds(recs[..n], serverId, killer, now);
      if Pardonable(recs[n], serverId, killer, now) then rest + [n] else rest
  }

  lemma {:induction false} PardonableIn(recs: seq<Rec>, serverId: int, killer: string, now: int)
    ensures forall k: nat :: k in PardonableIds(recs, serverId, killer, now) <==>
                             k < |recs| && Pardonable(recs[k], serverId, killer, now)
  {
    if recs != [] {
      var n := |recs| - 1;
      PardonableIn(recs[..n], serverId, killer, now);
      assert forall k :: 0 <= k < n ==> recs[..n][k] == recs[k];
    }
  }

  function OverdueIds(recs: seq<Rec>, now: int): seq<nat> {
    if recs == [] then [] else
      var n := |recs| - 1;
      var rest := OverdueIds(recs[..n], now);
      if Overdue(recs[n], now) then rest + [n] else rest
  }

  lemma {:induction false} OverdueIn(recs: seq<Rec>, now: int)
    ensures forall k: nat :: k in OverdueIds(recs, now) <==> k < |recs| && Overdue(recs[k], now)
  {
    if recs != [] {
      var n := |recs| - 1;
      OverdueIn(recs[..n], now);
      assert forall k :: 0 <= k < n ==> recs[..n][k] == recs[k];
    }
  }

  function Pardon(recs: seq<Rec>, serverId: int, killer: string, now: int): (r: seq<Rec>)
    ensures |r| == |recs|
    ensures forall k :: 0 <= k < |recs| ==>
      r[k] == if Pardonable(recs[k], serverId, killer, now) then recs[k].(forgiven := true) else recs[k]
  {
    seq(|recs|, k requires 0 <= k < |recs| =>
      if Pardonable(recs[k], serverId, killer, now) then recs[k].(forgiven := true) else recs[k])
  }

  // ---------------------------------------------------------------- the two threads

  class Table {
    var recs: seq<Rec>

    constructor ()
      ensures recs == []
    {
      recs := [];
    }

    /** A team kill is recorded if the killer is known. */
    method HandleKill(serverId: int, killer: string, secs: int, now: int)
      modifies this
      ensures recs == if killer == "" then old(recs) else old(recs) + [Rec(serverId, killer, now + secs, false, false)]
    {
      if killer == "" { return; }
      recs := recs + [Rec(serverId, killer, now + secs, false, false)];
    }

    /** An apology that matched a keyword: the query, then one update for each row it returned. */
    method HandleChat(serverId: int, killer: string, now: int)
      modifies this
      ensures recs == Pardon(old(recs), serverId, killer, now)
    {
      var rows := [];
      for i := 0 to |recs|
        invariant recs == old(recs)
        invariant forall k :: k in rows <==> 0 <= k < i && Pardonable(recs[k], serverId, killer, now)
      {
        if Pardonable(recs[i], serverId, killer, now) { rows := rows + [i]; }
      }
      for j := 0 to |rows|
        invariant |recs| == |old(recs)|
        invariant forall k :: 0 <= k < |recs| ==>
          recs[k] == if k in rows[..j] then old(recs)[k].(forgiven := true) else old(recs)[k]
      {
        assert rows[j] in rows;
        recs := recs[rows[j] := recs[rows[j]].(forgiven := true)];
        assert rows[..j + 1] == rows[..j] + [rows[j]];
      }
      assert rows[..|rows|] == rows;
    }

    method QueryOverdue(now: int) returns (rows: seq<nat>)
      ensures rows == OverdueIds(recs, now)
    {
      rows := [];
      for i := 0 to |recs|
        invariant rows == OverdueIds(recs[..i], now)
      {
        assert recs[..i + 1][..i] == recs[..i];
        if Overdue(recs[i], now) { rows := rows + [i]; }
      }
      assert recs[..|recs|] == recs;
    }

    method SetKicked(id: nat)
      requires id < |recs|
      modifies this
      ensures recs == Kick(old(recs), id)
    {
      recs := recs[id := recs[id].(kicked := true)];
    }
  }

  function Kick(recs: seq<Rec>, id: nat): seq<Rec>
    requires id < |recs|
  {
    recs[id := recs[id].(kicked := true)]
  }

  // ---------------------------------------------------------------- runs

  datatype Step =
    | Tick(d: nat)
    | TeamKill(serverId: int, killer: string, secs: int)
    | Apologise(serverId: int, killer: string)
    | ReadApology(serverId: int, killer: string)
    | WriteApology
    | ReadOverdue
    | WriteKick

  /** Apologise is a chat handler that runs without interruption; ReadApology and WriteApology are one whose
      updates other threads may get in between. The checker's query and its updates are always separate steps. */
  function Next(s: State, step: Step): State {
    match step
    case Tick(d) => s.(now := s.now + d)
    case TeamKill(serverId, killer, secs) =>
      if killer == "" then s else s.(recs := s.recs + [Rec(serverId, killer, s.now + secs, false, false)])
    case Apologise(serverId, killer) => s.(recs := Pardon(s.recs, serverId, killer, s.now))
    case ReadApology(serverId, killer) =>
      if s.chat != [] then s else s.(chat := PardonableIds(s.recs, serverId, killer, s.now))
    case WriteApology =>
      if s.chat == [] || s.chat[0] >= |s.recs| then s
      else s.(recs := s.recs[s.chat[0] := s.recs[s.chat[0]].(forgiven := true)], chat := s.chat[1..])
    case ReadOverdue => if s.check != [] then s else s.(check := OverdueIds(s.recs, s.now))
    case WriteKick =>
      if s.check == [] || s.check[0] >= |s.recs| then s
      else s.(recs := Kick(s.recs, s.check[0]), check := s.check[1..])
  }

  const Start := State([], [], [], 0)

  function Run(s: State, steps: seq<Step>): State {
    if steps == [] then s else Next(Run(s, steps[..|steps| - 1]), steps[|steps| - 1])
  }

  /** No record is both forgiven and kicked. */
  predicate Exclusive(recs: seq<Rec>) { forall k :: 0 <= k < |recs| ==> !(recs[k].forgiven && recs[k].kicked) }

  /** What makes it so: a record in the checker's hands has expired and is not forgiven, and so is a kicked one. */
  predicate Inv(s: State) {
    && Exclusive(s.recs)
    && (forall k :: k in s.check ==> k < |s.recs| && s.recs[k].expiresAt <= s.now && !s.recs[k].forgiven)
    && (forall k :: 0 <= k < |s.recs| && s.recs[k].kicked ==> s.recs[k].expiresAt <= s.now)
  }

  /** A late apology is safe if its record is neither kicked nor in the checker's hands. */
  predicate Safe(s: State) {
    s.chat == [] || s.chat[0] >= |s.recs| || (!s.recs[s.chat[0]].kicked && s.chat[0] !in s.check)
  }

  /** A write that lands before the record expires is safe: the checker cannot have it. */
  lemma TimelyIsSafe(s: State)
    requires Inv(s) && (s.chat != [] && s.chat[0] < |s.recs| ==> s.recs[s.chat[0]].expiresAt > s.now)
    ensures Safe(s)
  {
  }

  lemma StepKeepsInv(s: State, step: Step)
    requires Inv(s)
    ensures Inv(Next(s, step)) <==> (step == WriteApology ==> Safe(s))
  {
    var t := Next(s, step);
    OverdueIn(s.recs, s.now);
    if step == WriteApology && s.chat != [] && s.chat[0] < |s.recs| {
      var k := s.chat[0];
      assert t.recs[k] == s.recs[k].(forgiven := true);
    } else if step == WriteKick && s.check != [] {
      assert s.check[0] in s.check;
      assert forall k :: k in s.check[1..] ==> k in s.check;
    }
  }

  predicate SafeRun(steps: seq<Step>) {
    steps == [] ||
    (SafeRun(steps[..|steps| - 1]) && (steps[|steps| - 1] == WriteApology ==> Safe(Run(Start, steps[..|steps| - 1]))))
  }

  /** Over every run in which the apologies that were interrupted land safely, uninterrupted ones always do, no
      record is ever both forgiven and kicked. */
  lemma {:induction false} ForgivenOrKicked(steps: seq<Step>)
    requires SafeRun(steps)
    ensures Inv(Run(Start, steps)) && Exclusive(Run(Start, steps).recs)
  {
    if steps != [] {
      ForgivenOrKicked(steps[..|steps| - 1]);
      StepKeepsInv(Run(Start, steps[..|steps| - 1]), steps[|steps| - 1]);
    }
  }

  function Kicks(n: nat): seq<Step> { seq(n, _ => WriteKick) }

  lemma {:induction false} KickedThrough(s: State, n: nat)
    requires n <= |s.check| && forall k :: k in s.check ==> k < |s.recs|
    ensures var t := Run(s, Kicks(n));
            && t.check == s.check[n..] && |t.recs| == |s.recs| && t.now == s.now
            && (forall k :: 0 <= k < |s.recs| ==>
                 t.recs[k] == if k in s.check[..n] then s.recs[k].(kicked := true) else s.recs[k])
  {
    if n > 0 {
      KickedThrough(s, n - 1);
      assert Kicks(n)[..n - 1] == Kicks(n - 1);
      assert s.check[n - 1] in s.check;
      assert s.check[..n] == s.check[..n - 1] + [s.check[n - 1]];
    } else {
      assert s.check[0..] == s.check;
    }
  }

  /** The condition is exact: after an unsafe write, the checker going on with its batch kicks somebody who has
      been forgiven. */
  lemma UnsafeBreaks(s: State)
    requires Inv(s) && !Safe(s)
    ensures !Exclusive(Run(Next(s, WriteApology), Kicks(|s.check|)).recs)
  {
    var t, k := Next(s, WriteApology), s.chat[0];
    KickedThrough(t, |s.check|);
    assert s.check[..|s.check|] == s.check;
    assert Run(t, Kicks(|s.check|)).recs[k].forgiven;
  }

  /** It does happen: an apology read in time and written too late, five steps from the start. */
  lemma LateApology(serverId: int, killer: string)
    requires killer != ""
    ensures var killed := Next(Start, TeamKill(serverId, killer, 1));
            var late := Next(Next(killed, ReadApology(serverId, killer)), Tick(1));
            var kicked := Next(Next(late, ReadOverdue), WriteKick);
            !Safe(kicked)
  {
    ReadInTime(serverId, killer);
    WrittenTooLate(Rec(serverId, killer, 1, false, false));
  }

  lemma ReadInTime(serverId: int, killer: string)
    requires killer != ""
    ensures var killed := Next(Start, TeamKill(serverId, killer, 1));
            Next(Next(killed, ReadApology(serverId, killer)), Tick(1)) ==
            State([Rec(serverId, killer, 1, false, false)], [0], [], 1)
  {
    var r := Rec(serverId, killer, 1, false, false);
    Recorded(r);
    ReadOne(r);
  }

  lemma Recorded(r: Rec)
    requires r.killer != "" && r == Rec(r.serverId, r.killer, 1, false, false)
    ensures Next(Start, TeamKill(r.serverId, r.killer, 1)) == State([r], [], [], 0)
  {
  }

  lemma ReadOne(r: Rec)
    requires Pardonable(r, r.serverId, r.killer, 0)
    ensures Next(State([r], [], [], 0), ReadApology(r.serverId, r.killer)) == State([r], [0], [], 0)
  {
    assert PardonableIds([r][..0], r.serverId, r.killer, 0) == [];
  }

  lemma WrittenTooLate(r: Rec)
    requires Overdue(r, 1)
    ensures !Safe(Next(Next(State([r], [0], [], 1), ReadOverdue), WriteKick))
  {
    assert OverdueIds([r][..0], 1) == [];
    assert OverdueIds([r], 1) == [0];
    assert Next(State([r], [0], [], 1), ReadOverdue) == State([r], [0], [0], 1);
  }

  function Writes(n: nat): seq<Step> { seq(n, _ => WriteApology) }

  lemma {:induction false} WrittenThrough(s: State, n: nat)
    requires n <= |s.chat| && forall k :: k in s.chat ==> k < |s.recs|
    ensures var t := Run(s, Writes(n));
            && t.chat == s.chat[n..] && |t.recs| == |s.recs|
            && (forall k :: 0 <= k < |s.recs| ==>
                 t.recs[k] == if k in s.chat[..n] then s.recs[k].(forgiven := true) else s.recs[k])
  {
    if n > 0 {
      WrittenThrough(s, n - 1);
      assert Writes(n)[..n - 1] == Writes(n - 1);
      assert s.chat[n - 1] in s.chat;
      assert s.chat[..n] == s.chat[..n - 1] + [s.chat[n - 1]];
    } else {
      assert s.chat[0..] == s.chat;
    }
  }

  /** A chat handler whose updates nobody gets in between does what the uninterrupted one does. */
  lemma UninterruptedIsWhole(s: State, serverId: int, killer: string)
    requires s.chat == []
    ensures var read := Next(s, ReadApology(serverId, killer));
            Run(read, Writes(|read.chat|)).recs == Next(s, Apologise(serverId, killer)).recs
  {
    var read := Next(s, ReadApology(serverId, killer));
    PardonableIn(s.recs, serverId, killer, s.now);
    WrittenThrough(read, |read.chat|);
    assert read.chat[..|read.chat|] == read.chat;
  }

  /** Between passes, one pass of the checker leaves no overdue record undecided: each is forgiven or kicked, and
      not both. */
  lemma PassDecides(s: State)
    requires Inv(s) && s.check == []
    ensures var read := Next(s, ReadOverdue); var t := Run(read, Kicks(|read.check|));
            && t.check == [] && |t.recs| == |s.recs|
            && forall k :: 0 <= k < |s.recs| && s.recs[k].expiresAt <= s.now ==>
                 t.recs[k].forgiven != t.recs[k].kicked
  {
    var read := Next(s, ReadOverdue);
    OverdueIn(s.recs, s.now);
    KickedThrough(read, |read.check|);
    assert read.check[..|read.check|] == read.check && read.check[|read.check|..] == [];
  }

  // ---------------------------------------------------------------- who is forgiven, and why

  /** Which records an apology finds, and which ones the checker does. */
  lemma QueriesMean(recs: seq<Rec>, serverId: int, killer: string, now: int, k: nat)
    ensures k in PardonableIds(recs, serverId, killer, now) <==>
            k < |recs| && recs[k].serverId == serverId && recs[k].killer == killer &&
            !recs[k].forgiven && !recs[k].kicked && now < recs[k].expiresAt
    ensures k in OverdueIds(recs, now) <==>
            k < |recs| && !recs[k].forgiven && !recs[k].kicked && recs[k].expiresAt <= now
  {
    PardonableIn(recs, serverId, killer, now);
    OverdueIn(recs, now);
  }

  /** The step is an apology by the killer of the record, on its server, before its deadline. */
  predicate Asks(s: State, step: Step, k: nat) {
    k < |s.recs| && s.now < s.recs[k].expiresAt &&
    (step == Apologise(s.recs[k].serverId, s.recs[k].killer) || step == ReadApology(s.recs[k].serverId, s.recs[k].killer))
  }

  predicate Asked(steps: seq<Step>, k: nat) {
    steps != [] &&
    (Asked(steps[..|steps| - 1], k) || Asks(Run(Start, steps[..|steps| - 1]), steps[|steps| - 1], k))
  }

  /** The step is the checker's query, after the deadline of the record. */
  predicate Checks(s: State, step: Step, k: nat) { k < |s.recs| && s.recs[k].expiresAt <= s.now && step == ReadOverdue }

  predicate Checked(steps: seq<Step>, k: nat) {
    steps != [] &&
    (Checked(steps[..|steps| - 1], k) || Checks(Run(Start, steps[..|steps| - 1]), steps[|steps| - 1], k))
  }

  lemma StepForgives(s: State, step: Step, k: nat)
    ensures var t := Next(s, step);
            && (k in t.chat ==> k in s.chat || Asks(s, step, k))
            && (k < |t.recs| && t.recs[k].forgiven ==> (k < |s.recs| && s.recs[k].forgiven) || k in s.chat || Asks(s, step, k))
            && (k in t.check ==> k in s.check || Checks(s, step, k))
            && (k < |t.recs| && t.recs[k].kicked ==> (k < |s.recs| && s.recs[k].kicked) || k in s.check)
  {
    match step
    case ReadApology(serverId, killer) => QueriesMean(s.recs, serverId, killer, s.now, k);
    case ReadOverdue => QueriesMean(s.recs, 0, "", s.now, k);
    case _ =>
  }

  /** Over every run, a record is forgiven only if its killer apologised in time on its server, and kicked only if the
      checker found it after its deadline. */
  lemma {:induction false} ForgivenForAReason(steps: seq<Step>, k: nat)
    ensures var t := Run(Start, steps);
            && (k in t.chat || (k < |t.recs| && t.recs[k].forgiven) ==> Asked(steps, k))
            && (k in t.check || (k < |t.recs| && t.recs[k].kicked) ==> Checked(steps, k))
  {
    if steps != [] {
      var front, last := steps[..|steps| - 1], steps[|steps| - 1];
      ForgivenForAReason(front, k);
      StepForgives(Run(Start, front), last, k);
    }
  }

  /** An apology in time that nothing interrupts forgives the killer every open record on the server. */
  lemma ApologyForgives(s: State, serverId: int, killer: string, k: nat)
    requires k < |s.recs|
    ensures var t := Next(s, Apologise(serverId, killer));
            && |t.recs| == |s.recs|
            && t.recs[k].forgiven == (s.recs[k].forgiven ||
                 (s.recs[k].serverId == serverId && s.recs[k].killer == killer && !s.recs[k].kicked && s.now < s.recs[k].expiresAt))
            && t.recs[k] == s.recs[k].(forgiven := t.recs[k].forgiven)
  {
  }
}

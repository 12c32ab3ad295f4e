/** Requests and replies on one RCON connection (section "Multiple-packet Responses"): every command is
    followed by an empty command, and the reply ends when that terminator is echoed. Connections are
    values here; RconClient carries the same steps out on bytes. */
module RconProtocol {
  import opened Wrappers
  import opened Words
  import opened RconWire

  const EXEC_CAP := 64
  const PING_CAP := 4
  const EXEC_COMMAND := 2
  const AUTH := 3

  /** A command or password whose packet fits the 32-bit size field. */
  type Text = b: seq<byte> | |b| + 14 < TWO32 witness []

  /** `wire`: packets the server sent that are still unread; `sent`: what was written, whole, on the latest socket that
      came up, and is kept when the connection is given up. */
  datatype Conn = Conn(nextId: int32, connected: bool, open: bool, wire: seq<WirePacket>, sent: seq<Sendable>)

  /** How an attempt to connect goes: what the network does, what the server answers to the auth packet,
      and how many of its packets arrive in time. */
  datatype Dial = Dial(established: bool, authSent: bool, answer: seq<WirePacket>, arrivals: nat)

  /** How a request goes: the connection attempt it may need, whether the two sends work, everything the
      server sends after reading both, and how many unread packets arrive before a poll times out. */
  datatype Exchange = Exchange(dial: Dial, cmdSent: bool, termSent: bool, answer: seq<WirePacket>, arrivals: nat)

  datatype Outcome = NotConnected | SendFailed | TimedOut | CapReached | SawTerminator

  // ---------------------------------------------------------------- one reply

  datatype Collected = Collected(response: seq<byte>, used: nat, outcome: Outcome)

  /** Reading on from packet `i` until the terminator, a poll that times out, or `cap` packets in all;
      `used` counts from the start. */
  function Collect(wire: seq<WirePacket>, i: nat, arrivals: nat, cap: nat, cmdId: int32, termId: int32): (c: Collected)
    requires i <= |wire| && i <= cap
    ensures i <= c.used <= |wire|
    ensures c.outcome == TimedOut || c.outcome == CapReached || c.outcome == SawTerminator
    decreases cap - i
  {
    if i == cap then Collected([], i, CapReached)
    else if i >= arrivals || i == |wire| then Collected([], i, TimedOut)
    else if wire[i].id == termId then Collected([], i + 1, SawTerminator)
    else
      var rest := Collect(wire, i + 1, arrivals, cap, cmdId, termId);
      if wire[i].id == cmdId then rest.(response := wire[i].body + rest.response) else rest
  }

  /** The bodies sent under an id, in order: what the server said to that command. */
  function Bodies(ps: seq<WirePacket>, id: int32): seq<byte> {
    if ps == [] then [] else (if ps[0].id == id then ps[0].body else []) + Bodies(ps[1..], id)
  }

  /** The index of the first packet with an id, or the length if there is none. */
  function First(ps: seq<WirePacket>, id: int32): (k: nat)
    ensures k <= |ps|
    ensures k < |ps| ==> ps[k].id == id
    ensures forall i :: 0 <= i < k ==> ps[i].id != id
  {
    if ps == [] || ps[0].id == id then 0 else 1 + First(ps[1..], id)
  }

  lemma {:induction false} BodiesConcat(a: seq<WirePacket>, b: seq<WirePacket>, id: int32)
    ensures Bodies(a + b, id) == Bodies(a, id) + Bodies(b, id)
  {
    if a == [] {
      assert a + b == b;
    } else {
      assert (a + b)[0] == a[0] && (a + b)[1..] == a[1..] + b;
      BodiesConcat(a[1..], b, id);
    }
  }

  lemma {:induction false} NoBodies(ps: seq<WirePacket>, id: int32)
    requires forall p :: p in ps ==> p.id != id
    ensures Bodies(ps, id) == []
  {
    if ps != [] { NoBodies(ps[1..], id); }
  }

  /** What the loop reads: a prefix of the wire, whose own bodies are the response; it ends at the first
      terminator if that lies within the cap and arrives in time, and only then. */
  lemma {:induction false} CollectMeaning(wire: seq<WirePacket>, i: nat, arrivals: nat, cap: nat, cmdId: int32, termId: int32)
    requires cmdId != termId && i <= |wire| && i <= cap && i <= arrivals
    requires i <= First(wire, termId)
    ensures var c := Collect(wire, i, arrivals, cap, cmdId, termId); var k := First(wire, termId);
            && c.used <= cap && c.used <= arrivals
            && c.response == Bodies(wire[i..c.used], cmdId)
            && (c.outcome == SawTerminator <==> k < |wire| && k < cap && k < arrivals)
            && (c.outcome == SawTerminator ==> c.used == k + 1)
    decreases cap - i
  {
    var c := Collect(wire, i, arrivals, cap, cmdId, termId);
    if c.used > i {
      assert wire[i..c.used][1..] == wire[i + 1..c.used];
      if wire[i].id != termId {
        CollectMeaning(wire, i + 1, arrivals, cap, cmdId, termId);
      }
    }
  }

  // ---------------------------------------------------------------- steps

  function Closed(c: Conn): Conn { c.(connected := false, open := false, wire := []) }

  /** Gives up on the connection but keeps the socket open; the socket is never read again. */
  function Dropped(c: Conn): Conn { c.(connected := false, wire := []) }

  predicate IdsLeft(c: Conn, n: nat) { c.nextId <= 0x7fff_ffff - n }

  function Connect(c: Conn, password: Text, d: Dial): Conn
    requires IdsLeft(c, 1)
  {
    if !d.established then Closed(c)
    else
      var auth := Packet(c.nextId, AUTH, password);
      var c1 := Closed(c).(nextId := c.nextId + 1, sent := if d.authSent then [auth] else []);
      if !d.authSent || d.arrivals < 2 || |d.answer| < 2 || d.answer[1].id == -1 then c1
      else Conn(c1.nextId, true, true, d.answer[2..], [auth])
  }

  datatype Reply = Reply(conn: Conn, response: seq<byte>, outcome: Outcome)

  /** The packets of the two sends; the second is not tried if the first fails. */
  function Outgoing(id: int32, cmd: Text, x: Exchange): seq<Sendable>
    requires id < 0x7fff_ffff
  {
    var first, second := Packet(id, EXEC_COMMAND, cmd), Packet(id + 1, EXEC_COMMAND, []);
    if !x.cmdSent then [] else if !x.termSent then [first] else [first, second]
  }

  /** The two sends and the reading loop, on a connection that is up. */
  function Converse(c: Conn, cmd: Text, x: Exchange, cap: nat): Reply
    requires c.connected && IdsLeft(c, 2)
  {
    var c1 := c.(nextId := c.nextId + 2, sent := c.sent + Outgoing(c.nextId, cmd, x));
    if !x.cmdSent || !x.termSent then Reply(Dropped(c1), [], SendFailed)
    else
      var wire := c.wire + x.answer;
      var got := Collect(wire, 0, x.arrivals, cap, c.nextId, c.nextId + 1);
      if got.outcome == TimedOut then Reply(Dropped(c1), got.response, TimedOut)
      else Reply(c1.(wire := wire[got.used..]), got.response, got.outcome)
  }

  function Ready(c: Conn, password: Text, x: Exchange): Conn
    requires IdsLeft(c, 1)
  {
    if !c.connected || !c.open then Connect(c, password, x.dial) else c
  }

  function Execute(c: Conn, password: Text, cmd: Text, x: Exchange): Reply
    requires IdsLeft(c, 3)
  {
    var up := Ready(c, password, x);
    if !up.connected then Reply(up, [], NotConnected) else Converse(up, cmd, x, EXEC_CAP)
  }

  function Ping(c: Conn, x: Exchange): Reply
    requires IdsLeft(c, 3)
  {
    if !c.connected || !c.open then Reply(c, [], NotConnected) else Converse(c, [], x, PING_CAP)
  }

  // ---------------------------------------------------------------- the server

  /** An in-order server's packets after reading a command and its terminator: the command's replies come
      before the terminator's echo, any number of them, mixed with packets of older ids. Echoes may repeat. */
  predicate InOrder(answer: seq<WirePacket>, cmdId: int32, termId: int32) {
    && (forall p :: p in answer ==> p.id <= termId)
    && (forall i, j :: 0 <= i < j < |answer| && answer[i].id == termId ==> answer[j].id != cmdId)
  }

  /** The auth answer carries the auth packet's id, or -1, or an older one. */
  predicate HonestDial(c: Conn, d: Dial) { forall p :: p in d.answer ==> p.id <= c.nextId }

  /** No packet that is still unread can be mistaken for a reply to a later request. */
  predicate Settled(c: Conn) {
    && (forall p :: p in c.wire ==> p.id < c.nextId)
    && (c.connected ==> c.open)
  }

  /** How many packets of the answer are among the first `used` packets of what is read. */
  function Share(stale: seq<WirePacket>, used: nat): nat { if used <= |stale| then 0 else used - |stale| }

  /** Packets left by earlier calls add nothing to a response. */
  lemma StaleAddNothing(stale: seq<WirePacket>, answer: seq<WirePacket>, used: nat, cmdId: int32)
    requires forall p :: p in stale ==> p.id < cmdId
    requires used <= |stale + answer|
    ensures Bodies((stale + answer)[..used], cmdId) == Bodies(answer[..Share(stale, used)], cmdId)
  {
    var n := Share(stale, used);
    var past := stale[..used - n];
    assert (stale + answer)[..used] == past + answer[..n];
    BodiesConcat(past, answer[..n], cmdId);
    NoBodies(past, cmdId);
  }

  /** In an in-order answer nothing after the first echo belongs to the command. */
  lemma NothingAfterEcho(answer: seq<WirePacket>, n: nat, cmdId: int32, termId: int32)
    requires InOrder(answer, cmdId, termId) && 1 <= n <= |answer| && answer[n - 1].id == termId
    ensures Bodies(answer[..n], cmdId) == Bodies(answer, cmdId)
  {
    assert answer == answer[..n] + answer[n..];
    BodiesConcat(answer[..n], answer[n..], cmdId);
    NoBodies(answer[n..], cmdId);
  }

  lemma LeftoversAreOld(c: Conn, cmd: Text, x: Exchange, cap: nat)
    requires c.connected && IdsLeft(c, 2) && Settled(c) && InOrder(x.answer, c.nextId, c.nextId + 1)
    ensures Settled(Converse(c, cmd, x, cap).conn)
  {
    assert forall p :: p in c.wire + x.answer ==> p in c.wire || p in x.answer;
  }

  lemma TerminatedReply(c: Conn, x: Exchange, cap: nat)
    requires IdsLeft(c, 2) && Settled(c) && InOrder(x.answer, c.nextId, c.nextId + 1)
    ensures var got := Collect(c.wire + x.answer, 0, x.arrivals, cap, c.nextId, c.nextId + 1);
            got.outcome == SawTerminator ==> got.response == Bodies(x.answer, c.nextId)
  {
    var cmdId, termId, wire := c.nextId, c.nextId + 1, c.wire + x.answer;
    CollectMeaning(wire, 0, x.arrivals, cap, cmdId, termId);
    var got := Collect(wire, 0, x.arrivals, cap, cmdId, termId);
    if got.outcome == SawTerminator {
      StaleAddNothing(c.wire, x.answer, got.used, cmdId);
      assert wire[got.used - 1].id == termId;
      assert got.used > |c.wire|;
      NothingAfterEcho(x.answer, got.used - |c.wire|, cmdId, termId);
    }
  }

  /** A call that sees its terminator returns exactly what the server sent under its command's id, in order,
      whatever older packets are still unread; and every packet left behind is older than the next id. */
  lemma ConverseReturnsOwnReply(c: Conn, cmd: Text, x: Exchange, cap: nat)
    requires c.connected && IdsLeft(c, 2) && Settled(c) && InOrder(x.answer, c.nextId, c.nextId + 1)
    ensures var r := Converse(c, cmd, x, cap);
            && Settled(r.conn)
            && (r.outcome == SawTerminator ==> r.response == Bodies(x.answer, c.nextId))
  {
    LeftoversAreOld(c, cmd, x, cap);
    TerminatedReply(c, x, cap);
  }

  /** The terminator is reached exactly when the unread packets of earlier calls plus the reply up to the
      echo fit in the cap and all arrive in time. */
  lemma TerminatorReached(c: Conn, cmd: Text, x: Exchange, cap: nat)
    requires c.connected && IdsLeft(c, 2) && Settled(c) && InOrder(x.answer, c.nextId, c.nextId + 1)
    requires x.cmdSent && x.termSent
    ensures var k := First(x.answer, c.nextId + 1);
            Converse(c, cmd, x, cap).outcome == SawTerminator <==>
            k < |x.answer| && |c.wire| + k + 1 <= cap && |c.wire| + k + 1 <= x.arrivals
  {
    var termId, wire := c.nextId + 1, c.wire + x.answer;
    CollectMeaning(wire, 0, x.arrivals, cap, c.nextId, termId);
    var k, j := First(x.answer, termId), First(wire, termId);
    assert forall i :: 0 <= i < |c.wire| ==> wire[i] in c.wire;
    assert j >= |c.wire|;
    if k < |x.answer| { assert wire[|c.wire| + k] == x.answer[k]; }
    if j < |wire| { assert wire[j] == x.answer[j - |c.wire|]; }
    assert j == |c.wire| + k;
  }

  /** A call that does not see its terminator returns the bodies of a prefix of its own reply: a reply can be
      cut short, but never reordered or mixed with another command's. */
  lemma ResponseIsPrefix(c: Conn, cmd: Text, x: Exchange, cap: nat) returns (n: nat)
    requires c.connected && IdsLeft(c, 2) && Settled(c) && InOrder(x.answer, c.nextId, c.nextId + 1)
    ensures n <= |x.answer| && Converse(c, cmd, x, cap).response == Bodies(x.answer[..n], c.nextId)
  {
    var cmdId, wire := c.nextId, c.wire + x.answer;
    CollectMeaning(wire, 0, x.arrivals, cap, cmdId, cmdId + 1);
    var got := Collect(wire, 0, x.arrivals, cap, cmdId, cmdId + 1);
    StaleAddNothing(c.wire, x.answer, got.used, cmdId);
    n := if x.cmdSent && x.termSent then Share(c.wire, got.used) else 0;
  }

  // ---------------------------------------------------------------- runs

  datatype Call = CallExecute(cmd: Text, x: Exchange) | CallPing(x: Exchange)

  function Step(c: Conn, password: Text, call: Call): Reply
    requires IdsLeft(c, 3)
  {
    match call
    case CallExecute(cmd, x) => Execute(c, password, cmd, x)
    case CallPing(x) => Ping(c, x)
  }

  /** The id a call gives its command: an execute that has to reconnect spends one id on the auth packet. */
  function CommandId(c: Conn, call: Call): int {
    if call.CallExecute? && (!c.connected || !c.open) then c.nextId + 1 else c.nextId
  }

  /** Every answer along the run comes from an in-order server, and the 32-bit ids do not run out. */
  predicate HonestRun(c: Conn, password: Text, calls: seq<Call>)
    decreases |calls|
  {
    calls == [] ||
    (IdsLeft(c, 3) && HonestDial(c, calls[0].x.dial) &&
     InOrder(calls[0].x.answer, CommandId(c, calls[0]), CommandId(c, calls[0]) + 1) &&
     HonestRun(Step(c, password, calls[0]).conn, password, calls[1..]))
  }

  /** Every call of the run that sees its terminator returns its own reply, whole. */
  predicate AllOwnReplies(c: Conn, password: Text, calls: seq<Call>)
    requires HonestRun(c, password, calls)
    decreases |calls|
  {
    calls == [] ||
    (var r := Step(c, password, calls[0]);
     && (r.outcome == SawTerminator ==> r.response == Bodies(calls[0].x.answer, CommandId(c, calls[0])))
     && AllOwnReplies(r.conn, password, calls[1..]))
  }

  lemma StepSettles(c: Conn, password: Text, call: Call)
    requires Settled(c) && IdsLeft(c, 3) && HonestDial(c, call.x.dial)
    requires InOrder(call.x.answer, CommandId(c, call), CommandId(c, call) + 1)
    ensures var r := Step(c, password, call);
            && Settled(r.conn)
            && (r.outcome == SawTerminator ==> r.response == Bodies(call.x.answer, CommandId(c, call)))
  {
    match call
    case CallPing(x) =>
      if c.connected && c.open { ConverseReturnsOwnReply(c, [], x, PING_CAP); }
    case CallExecute(cmd, x) =>
      var up := Ready(c, password, x);
      assert Settled(up);
      if up.connected { ConverseReturnsOwnReply(up, cmd, x, EXEC_CAP); }
  }

  /** Safety over whole runs: from a client that was never connected, through any mix of executes, pings,
      lost connections, reconnections, capped and timed-out calls. */
  lemma {:induction false} RunReturnsOwnReplies(c: Conn, password: Text, calls: seq<Call>)
    requires Settled(c) && HonestRun(c, password, calls)
    ensures AllOwnReplies(c, password, calls)
    decreases |calls|
  {
    if calls != [] {
      StepSettles(c, password, calls[0]);
      RunReturnsOwnReplies(Step(c, password, calls[0]).conn, password, calls[1..]);
    }
  }

  // ---------------------------------------------------------------- what goes out

  /** A connection as its caller can follow it: whether it is up, the next id, and what the latest socket carried. */
  datatype Line = Line(up: bool, nextId: int, said: seq<Packet>)

  /** A command and its terminator, as far as the sends work. */
  function Pair(id: int32, cmd: seq<byte>, x: Exchange): seq<Packet>
    requires id < 0x7fff_ffff
  {
    if !x.cmdSent then [] else [Packet(id, 2, cmd)] + if x.termSent then [Packet(id + 1, 2, [])] else []
  }

  /** What a call says on the line, from its arguments and the outcome its caller sees. A new socket starts with the
      auth packet, of type 3, with the password. */
  function Tell(l: Line, password: seq<byte>, call: Call, seen: Outcome): Line
    requires 0 < l.nextId <= 0x7fff_ffff - 3
  {
    var up, id, x := seen == CapReached || seen == SawTerminator, l.nextId, call.x;
    match call
    case CallPing(_) => if !l.up then l else Line(up, id + 2, l.said + Pair(id, [], x))
    case CallExecute(cmd, _) =>
      if l.up then Line(up, id + 2, l.said + Pair(id, cmd, x))
      else if !x.dial.established then Line(false, id, l.said)
      else if !x.dial.authSent then Line(false, id + 1, [])
      else if seen == NotConnected then Line(false, id + 1, [Packet(id, 3, password)])
      else Line(up, id + 3, [Packet(id, 3, password)] + Pair(id + 1, cmd, x))
  }

  predicate Follows(c: Conn, l: Line) { l.up == c.connected && l.nextId == c.nextId && l.said == c.sent }

  /** What every socket carries: the auth packet first, then packets of type 2, with ids that rise by one; every second
      of those is a terminator. */
  predicate InSequence(said: seq<Packet>, password: seq<byte>) {
    forall i :: 0 <= i < |said| ==>
      && said[i].id == said[0].id + i
      && said[i].kind == (if i == 0 then 3 else 2)
      && (i == 0 ==> said[i].body == password)
      && (i > 0 && i % 2 == 0 ==> said[i].body == [])
  }

  /** A line that is up ends with a terminator and with the last id given out. */
  predicate Orderly(l: Line, password: seq<byte>) {
    InSequence(l.said, password) && (l.up ==> |l.said| % 2 == 1 && l.nextId == l.said[0].id + |l.said|)
  }

  lemma PairInSequence(said: seq<Packet>, password: seq<byte>, id: int32, cmd: seq<byte>, x: Exchange)
    requires InSequence(said, password) && |said| % 2 == 1 && id == said[0].id + |said| < 0x7fff_ffff
    ensures InSequence(said + Pair(id, cmd, x), password)
    ensures x.cmdSent && x.termSent ==> |said + Pair(id, cmd, x)| == |said| + 2
  {
  }

  lemma TellKeepsOrder(l: Line, password: seq<byte>, call: Call, seen: Outcome)
    requires Orderly(l, password) && 0 < l.nextId <= 0x7fff_ffff - 3
    requires (seen == CapReached || seen == SawTerminator) ==> call.x.cmdSent && call.x.termSent
    ensures Orderly(Tell(l, password, call, seen), password)
  {
    var cmd := if call.CallExecute? then call.cmd else [];
    if l.up { PairInSequence(l.said, password, l.nextId, cmd, call.x); }
    PairInSequence([Packet(l.nextId, 3, password)], password, l.nextId + 1, cmd, call.x);
  }

  lemma ConverseSpeaks(c: Conn, cmd: Text, x: Exchange, cap: nat)
    requires c.connected && IdsLeft(c, 2)
    ensures var r := Converse(c, cmd, x, cap);
            && r.conn.sent == c.sent + Pair(c.nextId, cmd, x) && r.conn.nextId == c.nextId + 2
            && r.outcome != NotConnected
            && r.conn.connected == (r.outcome == CapReached || r.outcome == SawTerminator)
            && (r.conn.connected ==> x.cmdSent && x.termSent)
  {
    assert Outgoing(c.nextId, cmd, x) == Pair(c.nextId, cmd, x);
  }

  lemma StepSpeaks(c: Conn, l: Line, password: Text, call: Call)
    requires Settled(c) && IdsLeft(c, 3) && 0 < c.nextId && Follows(c, l)
    ensures var r := Step(c, password, call);
            && Follows(r.conn, Tell(l, password, call, r.outcome))
            && (r.outcome == CapReached || r.outcome == SawTerminator ==> call.x.cmdSent && call.x.termSent)
  {
    match call
    case CallPing(x) => if l.up { ConverseSpeaks(c, [], x, PING_CAP); }
    case CallExecute(cmd, x) =>
      var up := Ready(c, password, x);
      if up.connected { ConverseSpeaks(up, cmd, x, EXEC_CAP); }
  }

  /** An execute is refused exactly if the connection is down and dialling fails: the network or the auth packet does
      not get through, fewer than two answers come, or the second denies access. A ping never dials. */
  lemma RefusedWhen(c: Conn, password: Text, call: Call)
    requires Settled(c) && IdsLeft(c, 3)
    ensures Step(c, password, call).outcome == NotConnected <==>
            !c.connected &&
            (call.CallExecute? ==>
              var d := call.x.dial; !d.established || !d.authSent || d.arrivals < 2 || |d.answer| < 2 || d.answer[1].id == -1)
  {
  }

  /** Along the run the connection says what its calls, and what their callers saw, account for, in good order. */
  predicate SaysAllAlong(c: Conn, l: Line, password: Text, calls: seq<Call>)
    requires HonestRun(c, password, calls)
    decreases |calls|
  {
    && Follows(c, l) && Orderly(l, password) && 0 < l.nextId
    && (calls == [] ||
        (var r := Step(c, password, calls[0]);
         SaysAllAlong(r.conn, Tell(l, password, calls[0], r.outcome), password, calls[1..])))
  }

  /** Over every run, calls that time out, fail half-way or reconnect included: the packets on the latest socket are the
      auth packet, then for each execute its own command and for each ping an empty one, each followed by its
      terminator, with the ids counting up. */
  lemma {:induction false} RunSaysItsCalls(c: Conn, l: Line, password: Text, calls: seq<Call>)
    requires Settled(c) && HonestRun(c, password, calls)
    requires Follows(c, l) && Orderly(l, password) && 0 < l.nextId
    ensures SaysAllAlong(c, l, password, calls)
    decreases |calls|
  {
    if calls != [] {
      var r := Step(c, password, calls[0]);
      StepSettles(c, password, calls[0]);
      StepSpeaks(c, l, password, calls[0]);
      TellKeepsOrder(l, password, calls[0], r.outcome);
      RunSaysItsCalls(r.conn, Tell(l, password, calls[0], r.outcome), password, calls[1..]);
    }
  }

  /** The reader on the other side gets exactly these packets, and nothing of one that is cut, if the bodies fit. */
  lemma OutboxReadsBack(sent: seq<WirePacket>, last: WirePacket, k: nat)
    requires k < |Frame(last)|
    ensures ReceiveAll(Frames(sent)) == sent && ReceiveAll(Frames(sent) + Frame(last)[..k]) == sent
  {
    ReceiveAllFrames(sent, last, k);
    ReceiveAllFrames(sent, last, 0);
    assert Frames(sent) + Frame(last)[..0] == Frames(sent);
  }

  lemma OneBody(p: WirePacket, id: int32)
    ensures Bodies([p], id) == if p.id == id then p.body else []
  {
    assert [p][1..] == [];
  }

  /** An execute reads at most 64 packets and a ping at most 4, stale ones included. */
  lemma ReadingCaps(c: Conn, password: Text, call: Call)
    requires c.connected && IdsLeft(c, 3) && Settled(c) && InOrder(call.x.answer, c.nextId, c.nextId + 1)
    requires call.x.cmdSent && call.x.termSent
    ensures var k := First(call.x.answer, c.nextId + 1);
            Step(c, password, call).outcome == SawTerminator <==>
            k < |call.x.answer| && |c.wire| + k + 1 <= call.x.arrivals &&
            |c.wire| + k + 1 <= if call.CallExecute? then 64 else 4
  {
    TerminatorReached(c, if call.CallExecute? then call.cmd else [], call.x, if call.CallExecute? then 64 else 4);
  }
}

/** The panel's RCON client on bytes. Its methods carry out the steps of RconProtocol: what the class keeps is
    that, while it is connected, the socket's unread bytes are the frames of the unread packets. */
module RconClient {
  import opened Wrappers
  import opened Words
  import opened Sequences
  import opened RconWire
  import P = RconProtocol

  class Client {
    const password: P.Text
    var nextId: int32
    var connected: bool
    var sockOpen: bool
    /** Bytes the server wrote that are unread, and bytes this client wrote, on the current socket. */
    var inbox: seq<byte>
    var outbox: seq<byte>
    ghost var wire: seq<WirePacket>
    ghost var sent: seq<Sendable>

    ghost predicate Valid()
      reads this
    {
      && outbox == Frames(sent)
      && (if connected then sockOpen && inbox == Frames(wire) else wire == [])
    }

    ghost function State(): P.Conn
      reads this
    {
      P.Conn(nextId, connected, sockOpen, wire, sent)
    }

    constructor (password: P.Text)
      ensures Valid() && State() == P.Conn(1, false, false, [], []) && this.password == password
    {
      this.password := password;
      nextId, connected, sockOpen := 1, false, false;
      inbox, outbox, wire, sent := [], [], [], [];
    }

    method Disconnect()
      requires Valid()
      modifies this
      ensures Valid() && State() == P.Closed(old(State()))
    {
      sockOpen := false;
      connected := false;
      wire := [];
    }

    /** `works`: whether the whole buffer goes out. */
    method SendPacket(p: Sendable, works: bool) returns (ok: bool)
      modifies this`connected, this`outbox
      ensures ok == works
      ensures ok ==> connected == old(connected) && outbox == old(outbox) + Frame(p)
      ensures !ok ==> !connected && outbox == old(outbox)
    {
      var buf := EncodePacket(p);
      if !works {
        connected := false;
        return false;
      }
      outbox := outbox + buf[..];
      return true;
    }

    method RecvPacket(sizeReady: bool, bodyReady: bool) returns (pkt: Option<Packet>)
      modifies this`inbox
      ensures Received(pkt, inbox) == Receive(old(inbox), sizeReady, bodyReady)
    {
      if !sizeReady { return None; }
      if |inbox| < 4 { inbox := []; return None; }
      var size := FromLe32(inbox[..4]);
      inbox := inbox[4..];
      if size < MIN_SIZE || size > MAX_SIZE { return None; }
      if !bodyReady { return None; }
      if |inbox| < size { inbox := []; return None; }
      var buf := inbox[..size];
      assert buf[..4] == inbox[..4] && buf[4..8] == inbox[4..8] && buf[8..size - 2] == inbox[8..size - 2];
      inbox := inbox[size..];
      return Some(Packet(Signed(FromLe32(buf[..4])), Signed(FromLe32(buf[4..8])), buf[8..size - 2]));
    }

    /** One read of a stream that holds exactly the frames of `wire`; `late` says whether the poll before the
        size is the one that times out, or the one before the body. */
    method RecvFrom(ghost ps: seq<WirePacket>, arrives: bool, late: bool) returns (pkt: Option<Packet>)
      requires inbox == Frames(ps)
      modifies this`inbox
      ensures pkt == if arrives && ps != [] then Some(ps[0]) else None
      ensures arrives && ps != [] ==> inbox == Frames(ps[1..])
    {
      if ps != [] && arrives {
        ReceiveFrame(ps[0], Frames(ps[1..]));
      }
      pkt := RecvPacket(arrives || late, arrives);
    }

    /** The two answers to the auth packet; the second says whether access is granted. */
    method AwaitAuth(d: P.Dial, late: bool) returns (ok: bool)
      requires inbox == Frames(d.answer)
      modifies this`inbox
      ensures ok == (d.arrivals >= 2 && |d.answer| >= 2 && d.answer[1].id != -1)
      ensures ok ==> inbox == Frames(d.answer[2..])
    {
      ghost var ps := d.answer;
      var resp1 := RecvFrom(ps, d.arrivals > 0, late);
      if resp1 == None { return false; }
      var resp2 := RecvFrom(ps[1..], d.arrivals > 1, late);
      if resp2 == None { return false; }
      assert ps[1..][1..] == ps[2..];
      return resp2.value.id != -1;
    }

    /** The auth packet on a new socket, and its answers. */
    method LogIn(d: P.Dial, late: bool) returns (ok: bool)
      requires d.established && P.IdsLeft(State(), 1)
      modifies this
      ensures Valid() && State() == P.Connect(old(State()), password, d) && ok == connected
    {
      sockOpen, connected := true, false;
      inbox, outbox, wire, sent := [], [], [], [];
      var auth := Packet(nextId, P.AUTH, password);
      nextId := nextId + 1;
      ok := SendPacket(auth, d.authSent);
      if ok {
        sent := [auth];
        assert Frames(sent) == Frame(sent[0]) + [];
        inbox := Frames(d.answer);
        ok := AwaitAuth(d, late);
      }
      connected, sockOpen := ok, ok;
      if ok { wire := d.answer[2..]; }
    }

    method ConnectInternal(d: P.Dial, late: bool) returns (ok: bool)
      requires Valid() && P.IdsLeft(State(), 1)
      modifies this
      ensures Valid() && State() == P.Connect(old(State()), password, d) && ok == connected
    {
      sockOpen, connected, wire := false, false, [];
      if !d.established { return false; }
      ok := LogIn(d, late);
    }

    method Connect(d: P.Dial, late: bool) returns (ok: bool)
      requires Valid() && P.IdsLeft(State(), 1)
      modifies this
      ensures Valid() && ok == connected
      ensures State() == if old(connected) then old(State()) else P.Connect(old(State()), password, d)
    {
      if connected { return true; }
      ok := ConnectInternal(d, late);
    }

    /** SendPacket on a connection that is up. */
    method Send(p: Sendable, works: bool) returns (ok: bool)
      requires Valid() && connected
      modifies this`connected, this`outbox, this`wire, this`sent
      ensures Valid() && ok == works
      ensures State() == if ok then old(State()).(sent := old(sent) + [p]) else P.Dropped(old(State()))
    {
      FramesAppend(sent, p);
      ok := SendPacket(p, works);
      if ok { sent := sent + [p]; } else { wire := []; }
    }

    /** RecvPacket on a connection that is up; a failed read gives up on the connection. */
    method Read(arrives: bool, late: bool) returns (pkt: Option<Packet>)
      requires Valid() && connected
      modifies this`connected, this`inbox, this`wire
      ensures Valid() && pkt == if arrives && old(wire) != [] then Some(old(wire)[0]) else None
      ensures State() == if pkt == None then P.Dropped(old(State())) else old(State()).(wire := old(wire)[1..])
    {
      pkt := RecvFrom(wire, arrives, late);
      if pkt == None {
        connected := false;
        wire := [];
      } else {
        wire := wire[1..];
      }
    }

    /** What the server writes lands behind what is already unread. */
    method Deliver(answer: seq<WirePacket>)
      requires Valid() && connected
      modifies this`inbox, this`wire
      ensures Valid() && State() == old(State()).(wire := old(wire) + answer)
    {
      FramesConcat(wire, answer);
      inbox := inbox + Frames(answer);
      wire := wire + answer;
    }

    /** The command and its terminator go out, and the server answers. */
    method SendBoth(cmd: P.Text, x: P.Exchange) returns (ok: bool, cmdId: int32, termId: int32)
      requires Valid() && connected && P.IdsLeft(State(), 2)
      modifies this
      ensures Valid() && ok == (x.cmdSent && x.termSent) && cmdId == old(nextId) && termId == old(nextId) + 1
      ensures var c := old(State()).(nextId := old(nextId) + 2,
                                     sent := old(sent) + P.Outgoing(old(nextId), cmd, x));
              State() == if ok then c.(wire := c.wire + x.answer) else P.Dropped(c)
    {
      ghost var said := sent;
      cmdId, termId := nextId, nextId + 1;
      nextId := nextId + 2;
      ok := Send(Packet(cmdId, P.EXEC_COMMAND, cmd), x.cmdSent);
      if ok {
        ok := Send(Packet(termId, P.EXEC_COMMAND, []), x.termSent);
        Assoc(said, [Packet(cmdId, P.EXEC_COMMAND, cmd)], [Packet(termId, P.EXEC_COMMAND, [])]);
        if ok { Deliver(x.answer); }
      }
    }

    /** The reading loop of execute. */
    method ReadReply(cmdId: int32, termId: int32, arrivals: nat, late: bool) returns (response: seq<byte>)
      requires Valid() && connected
      modifies this
      ensures Valid()
      ensures var got := P.Collect(old(wire), 0, arrivals, P.EXEC_CAP, cmdId, termId);
              && response == got.response
              && State() == if got.outcome == P.TimedOut then P.Dropped(old(State()))
                            else old(State()).(wire := old(wire)[got.used..])
    {
      ghost var c := State();
      response := [];
      var i := 0;
      while i < P.EXEC_CAP
        invariant i <= P.EXEC_CAP && i <= arrivals && i <= |c.wire|
        invariant Valid() && connected && State() == c.(wire := c.wire[i..])
        invariant var rest := P.Collect(c.wire, i, arrivals, P.EXEC_CAP, cmdId, termId);
                  P.Collect(c.wire, 0, arrivals, P.EXEC_CAP, cmdId, termId) ==
                  rest.(response := response + rest.response)
      {
        var pkt := Read(i < arrivals, late);
        if pkt == None { return; }
        i := i + 1;
        if pkt.value.id == termId { break; }
        if pkt.value.id == cmdId {
          Assoc(response, pkt.value.body, P.Collect(c.wire, i, arrivals, P.EXEC_CAP, cmdId, termId).response);
          response := response + pkt.value.body;
        }
      }
    }

    /** The reading loop of ping. */
    method AwaitEcho(cmdId: int32, termId: int32, arrivals: nat, late: bool) returns (alive: bool)
      requires Valid() && connected
      modifies this
      ensures Valid()
      ensures var got := P.Collect(old(wire), 0, arrivals, P.PING_CAP, cmdId, termId);
              && alive == (got.outcome != P.TimedOut)
              && State() == if got.outcome == P.TimedOut then P.Dropped(old(State()))
                            else old(State()).(wire := old(wire)[got.used..])
    {
      ghost var c := State();
      var i := 0;
      while i < P.PING_CAP
        invariant i <= P.PING_CAP && i <= arrivals && i <= |c.wire|
        invariant Valid() && connected && State() == c.(wire := c.wire[i..])
        invariant var rest := P.Collect(c.wire, i, arrivals, P.PING_CAP, cmdId, termId);
                  var all := P.Collect(c.wire, 0, arrivals, P.PING_CAP, cmdId, termId);
                  all.used == rest.used && all.outcome == rest.outcome
      {
        var pkt := Read(i < arrivals, late);
        if pkt == None { return false; }
        i := i + 1;
        if pkt.value.id == termId { return true; }
      }
      return true;
    }

    /** Execute on a connection that is up. */
    method Talk(cmd: P.Text, x: P.Exchange, late: bool) returns (response: seq<byte>)
      requires Valid() && connected && P.IdsLeft(State(), 2)
      modifies this
      ensures Valid()
      ensures var r := P.Converse(old(State()), cmd, x, P.EXEC_CAP); State() == r.conn && response == r.response
    {
      var ok, cmdId, termId := SendBoth(cmd, x);
      if !ok { return []; }
      response := ReadReply(cmdId, termId, x.arrivals, late);
    }

    method Execute(cmd: P.Text, x: P.Exchange, late: bool) returns (response: seq<byte>)
      requires Valid() && P.IdsLeft(State(), 3)
      modifies this
      ensures Valid()
      ensures var r := P.Execute(old(State()), password, cmd, x); State() == r.conn && response == r.response
    {
      if !connected || !sockOpen {
        var up := ConnectInternal(x.dial, late);
        if !up { return []; }
      }
      response := Talk(cmd, x, late);
    }

    /** Ping on a connection that is up. */
    method Probe(x: P.Exchange, late: bool) returns (alive: bool)
      requires Valid() && connected && P.IdsLeft(State(), 2)
      modifies this
      ensures Valid()
      ensures var r := P.Converse(old(State()), [], x, P.PING_CAP);
              State() == r.conn && (alive <==> r.outcome == P.SawTerminator || r.outcome == P.CapReached)
    {
      var ok, cmdId, termId := SendBoth([], x);
      if !ok { return false; }
      alive := AwaitEcho(cmdId, termId, x.arrivals, late);
    }

    method Ping(x: P.Exchange, late: bool) returns (alive: bool)
      requires Valid() && P.IdsLeft(State(), 3)
      modifies this
      ensures Valid()
      ensures var r := P.Ping(old(State()), x);
              State() == r.conn && (alive <==> r.outcome == P.SawTerminator || r.outcome == P.CapReached)
    {
      if !connected || !sockOpen { return false; }
      alive := Probe(x, late);
    }
  }

  lemma FramesAppend(ps: seq<Sendable>, p: Sendable)
    ensures Frames(ps + [p]) == Frames(ps) + Frame(p)
  {
    FramesConcat(ps, [p]);
    assert [p][1..] == [];
  }
}

/** The incremental player list: the panel diffs each new list against its cache and broadcasts the
    difference, and the browser patches its own keyed copy. */
module PlayerSync {
  import opened Wrappers

  datatype Player = Player(steamId: string, name: string, teamId: int, squadId: string, rconId: string)

  /** The four fields that are compared and sent. */
  datatype View = View(steamId: string, name: string, teamId: int, squadId: string)

  datatype Diff = Diff(joined: seq<Player>, left: seq<Player>, changed: seq<Player>, totalCount: nat)

  type Board = map<string, View>

  function Seen(p: Player): View { View(p.steamId, p.name, p.teamId, p.squadId) }

  predicate Unique(ps: seq<Player>) {
    forall i, j :: 0 <= i < j < |ps| ==> ps[i].steamId != ps[j].steamId
  }

  /** A list keyed by steam id; the last entry with an id wins. */
  function Keyed(ps: seq<Player>): Board {
    if ps == [] then map[] else var n := |ps| - 1; Keyed(ps[..n])[ps[n].steamId := Seen(ps[n])]
  }

  function Ids(ps: seq<Player>): set<string> { set p | p in ps :: p.steamId }

  lemma {:induction false} KeyedKeys(ps: seq<Player>)
    ensures Keyed(ps).Keys == Ids(ps)
  {
    if ps != [] {
      var n := |ps| - 1;
      KeyedKeys(ps[..n]);
      assert ps == ps[..n] + [ps[n]];
      assert Ids(ps) == Ids(ps[..n]) + {ps[n].steamId};
    }
  }

  lemma {:induction false} KeyedAt(ps: seq<Player>, i: nat)
    requires Unique(ps) && i < |ps|
    ensures Get(Keyed(ps), ps[i].steamId) == Some(Seen(ps[i]))
  {
    if i < |ps| - 1 { KeyedAt(ps[..|ps| - 1], i); }
  }

  lemma KeyedFacts(ps: seq<Player>)
    ensures Keyed(ps).Keys == Ids(ps)
    ensures Unique(ps) ==> forall p :: p in ps ==> Get(Keyed(ps), p.steamId) == Some(Seen(p))
  {
    KeyedKeys(ps);
    if Unique(ps) {
      forall i | 0 <= i < |ps| ensures Get(Keyed(ps), ps[i].steamId) == Some(Seen(ps[i])) { KeyedAt(ps, i); }
    }
  }

  /** The two questions a diff asks of a player and the other list's lookup table. */
  datatype Test = IsNew | IsChanged

  predicate Passes(test: Test, p: Player, board: Board) {
    match test
    case IsNew => p.steamId !in board
    case IsChanged => p.steamId in board && board[p.steamId] != Seen(p)
  }

  function Filter(ps: seq<Player>, test: Test, board: Board): seq<Player> {
    if ps == [] then [] else
      var n := |ps| - 1;
      Filter(ps[..n], test, board) + if Passes(test, ps[n], board) then [ps[n]] else []
  }

  lemma {:induction false} FilterIn(ps: seq<Player>, test: Test, board: Board)
    ensures forall p :: p in Filter(ps, test, board) <==> p in ps && Passes(test, p, board)
  {
    if ps != [] {
      var n := |ps| - 1;
      FilterIn(ps[..n], test, board);
      assert ps == ps[..n] + [ps[n]];
    }
  }

  lemma {:induction false} FilterUnique(ps: seq<Player>, test: Test, board: Board)
    requires Unique(ps)
    ensures Unique(Filter(ps, test, board))
  {
    if ps != [] {
      var n := |ps| - 1;
      FilterUnique(ps[..n], test, board);
      FilterIn(ps[..n], test, board);
      assert forall p :: p in ps[..n] ==> p.steamId != ps[n].steamId;
    }
  }

  // ---------------------------------------------------------------- the diff

  /** Who joined, left and changed, before the special case of an empty cache. */
  function PlainDiff(cached: seq<Player>, current: seq<Player>): Diff {
    Diff(Filter(current, IsNew, Keyed(cached)),
         Filter(cached, IsNew, Keyed(current)),
         Filter(current, IsChanged, Keyed(cached)),
         |current|)
  }

  method KeyBySteamId(ps: seq<Player>) returns (m: Board)
    ensures m == Keyed(ps)
  {
    m := map[];
    for i := 0 to |ps|
      invariant m == Keyed(ps[..i])
    {
      m := m[ps[i].steamId := Seen(ps[i])];
      assert ps[..i + 1][..i] == ps[..i];
    }
    assert ps[..|ps|] == ps;
  }

  /** Two lookups, one pass over the current list, one over the cached one, then the empty-cache branch,
      which starts the diff over with everybody as joined: it changes nothing. */
  method CalculateDiff(cached: seq<Player>, current: seq<Player>) returns (diff: Diff)
    ensures diff == PlainDiff(cached, current)
  {
    var cachedMap := KeyBySteamId(cached);
    var currentMap := KeyBySteamId(current);
    var joined, changed, left := [], [], [];
    for i := 0 to |current|
      invariant joined == Filter(current[..i], IsNew, Keyed(cached))
      invariant changed == Filter(current[..i], IsChanged, Keyed(cached))
    {
      var p := current[i];
      assert current[..i + 1][..i] == current[..i];
      if p.steamId !in cachedMap {
        joined := joined + [p];
      } else if cachedMap[p.steamId] != Seen(p) {
        changed := changed + [p];
      }
    }
    for i := 0 to |cached|
      invariant left == Filter(cached[..i], IsNew, Keyed(current))
    {
      assert cached[..i + 1][..i] == cached[..i];
      if cached[i].steamId !in currentMap { left := left + [cached[i]]; }
    }
    assert cached[..|cached|] == cached && current[..|current|] == current;
    if cached == [] && current != [] {
      EmptyCache(current);
      joined, left, changed := current, [], [];
    }
    diff := Diff(joined, left, changed, |current|);
  }

  lemma {:induction false} EmptyCache(current: seq<Player>)
    ensures PlainDiff([], current) == Diff(current, [], [], |current|)
  {
    if current != [] {
      var n := |current| - 1;
      EmptyCache(current[..n]);
      assert current == current[..n] + [current[n]];
    }
  }

  // ---------------------------------------------------------------- the patch

  /** What a browser's list becomes: leavers deleted, then joiners and changes written in order. */
  function Patch(board: Board, d: Diff): Board {
    (board - Ids(d.left)) + Keyed(d.joined + d.changed)
  }

  lemma DeleteOne(board: Board, left: seq<Player>, i: nat)
    requires i < |left|
    ensures (board - Ids(left[..i])) - {left[i].steamId} == board - Ids(left[..i + 1])
  {
    assert left[..i + 1] == left[..i] + [left[i]];
    assert Ids(left[..i + 1]) == Ids(left[..i]) + {left[i].steamId};
  }

  lemma WriteOne(board: Board, toAdd: seq<Player>, i: nat)
    requires i < |toAdd|
    ensures (board + Keyed(toAdd[..i]))[toAdd[i].steamId := Seen(toAdd[i])] == board + Keyed(toAdd[..i + 1])
  {
    assert toAdd[..i + 1][..i] == toAdd[..i];
  }

  method ApplyDiff(board: Board, d: Diff) returns (m: Board)
    ensures m == Patch(board, d)
  {
    m := board;
    for i := 0 to |d.left|
      invariant m == board - Ids(d.left[..i])
    {
      DeleteOne(board, d.left, i);
      m := m - {d.left[i].steamId};
    }
    assert d.left[..|d.left|] == d.left;
    var toAdd := d.joined + d.changed;
    for i := 0 to |toAdd|
      invariant m == (board - Ids(d.left)) + Keyed(toAdd[..i])
    {
      WriteOne(board - Ids(d.left), toAdd, i);
      m := m[toAdd[i].steamId := Seen(toAdd[i])];
    }
    assert toAdd[..|toAdd|] == toAdd;
  }

  /** The entries a diff writes: exactly the players whose view is not the cached one. */
  lemma Written(cached: seq<Player>, current: seq<Player>)
    requires Unique(current)
    ensures var d := PlainDiff(cached, current); var w := Keyed(d.joined + d.changed);
            forall id :: Get(w, id) ==
              if id in Keyed(current) && Get(Keyed(current), id) != Get(Keyed(cached), id)
              then Get(Keyed(current), id) else None
  {
    var d, was, now := PlainDiff(cached, current), Keyed(cached), Keyed(current);
    FilterUnique(current, IsNew, was);
    FilterUnique(current, IsChanged, was);
    FilterIn(current, IsNew, was);
    FilterIn(current, IsChanged, was);
    var all := d.joined + d.changed;
    assert Unique(all) by {
      forall i, j | 0 <= i < |d.joined| && 0 <= j < |d.changed| ensures d.joined[i].steamId != d.changed[j].steamId {
        assert d.joined[i] in d.joined && d.changed[j] in d.changed;
      }
    }
    KeyedFacts(all);
    KeyedFacts(current);
    assert forall p :: p in all <==> p in current && (Passes(IsNew, p, was) || Passes(IsChanged, p, was));
  }

  /** One message, one id: where the cached and the new list agree the browser keeps what it has, everywhere
      else it ends up with the new list. */
  lemma PatchPointwise(board: Board, cached: seq<Player>, current: seq<Player>, id: string)
    requires Unique(current)
    ensures Get(Patch(board, PlainDiff(cached, current)), id) ==
            if Get(Keyed(cached), id) == Get(Keyed(current), id) then Get(board, id) else Get(Keyed(current), id)
  {
    var d := PlainDiff(cached, current);
    Written(cached, current);
    KeyedFacts(cached);
    FilterIn(cached, IsNew, Keyed(current));
    assert id in Ids(d.left) <==> id in Keyed(cached) && id !in Keyed(current) by {
      if id in Ids(cached) && id !in Keyed(current) {
        var p :| p in cached && p.steamId == id;
        assert p in d.left;
      }
    }
    var w := Keyed(d.joined + d.changed);
    assert id in w <==> Get(w, id) != None;
  }

  lemma SameBoard(a: Board, b: Board)
    requires forall id :: Get(a, id) == Get(b, id)
    ensures a == b
  {
    assert forall id :: id in a <==> Get(a, id) != None;
    assert forall id :: id in b <==> Get(b, id) != None;
    assert forall id :: id in a ==> a[id] == Get(a, id).value && b[id] == Get(b, id).value;
  }

  /** A message brings a browser in step with the new list exactly when the browser differed from the cache
      only on players the message mentions. */
  lemma InStepAfter(board: Board, cached: seq<Player>, current: seq<Player>)
    requires Unique(current)
    ensures Patch(board, PlainDiff(cached, current)) == Keyed(current) <==>
            forall id :: Get(Keyed(cached), id) == Get(Keyed(current), id) ==> Get(board, id) == Get(Keyed(cached), id)
  {
    var after := Patch(board, PlainDiff(cached, current));
    forall id
      ensures Get(after, id) == Get(Keyed(current), id) <==>
              (Get(Keyed(cached), id) == Get(Keyed(current), id) ==> Get(board, id) == Get(Keyed(cached), id))
    {
      PatchPointwise(board, cached, current, id);
    }
    if forall id :: Get(after, id) == Get(Keyed(current), id) { SameBoard(after, Keyed(current)); }
  }

  /** The diff against a browser's own list turns it into the new list, whatever both lists hold. */
  lemma DiffThenPatch(cached: seq<Player>, current: seq<Player>)
    requires Unique(current)
    ensures Patch(Keyed(cached), PlainDiff(cached, current)) == Keyed(current)
  {
    InStepAfter(Keyed(cached), cached, current);
  }

  lemma DiffIds(cached: seq<Player>, current: seq<Player>)
    requires Unique(current)
    ensures var d, a, b := PlainDiff(cached, current), Keyed(cached), Keyed(current);
            && Ids(d.joined) == b.Keys - a.Keys
            && Ids(d.left) == a.Keys - b.Keys
            && Ids(d.changed) == set id | id in a.Keys * b.Keys && a[id] != b[id]
  {
    KeyedFacts(cached);
    KeyedFacts(current);
    FilterIn(current, IsNew, Keyed(cached));
    FilterIn(current, IsChanged, Keyed(cached));
    FilterIn(cached, IsNew, Keyed(current));
  }

  /** Nobody is reported twice, and every message that does the same job removes and writes at least as much. */
  lemma DiffIsMinimal(cached: seq<Player>, current: seq<Player>, other: Diff)
    requires Unique(current) && Patch(Keyed(cached), other) == Keyed(current)
    ensures var d := PlainDiff(cached, current);
            && Ids(d.joined) !! Ids(d.left) !! Ids(d.changed)
            && Ids(d.left) <= Ids(other.left)
            && Ids(d.joined) + Ids(d.changed) <= Ids(other.joined + other.changed)
  {
    DiffIds(cached, current);
    KeyedKeys(other.joined + other.changed);
    forall id | id in Keyed(current) && id !in Ids(other.joined + other.changed)
      ensures Get(Keyed(cached), id) == Get(Keyed(current), id)
    {
      assert Get(Patch(Keyed(cached), other), id) == Get(Keyed(current), id);
    }
  }

  // ---------------------------------------------------------------- field by field

  predicate SamePlayer(p: Player, q: Player) { p.steamId == q.steamId }

  /** Another name, team or squad; the RCON id is not compared. */
  predicate Differs(p: Player, q: Player) { p.name != q.name || p.teamId != q.teamId || p.squadId != q.squadId }

  lemma OnlyOne(ps: seq<Player>, p: Player, q: Player)
    requires Unique(ps) && p in ps && q in ps && SamePlayer(p, q)
    ensures p == q
  {
  }

  /** What a diff says of each player: who is listed as changed has another name, team or squad than before, and
      everyone who has is listed; joined and left go by the ids. Nobody is listed twice. */
  lemma DiffByFields(cached: seq<Player>, current: seq<Player>)
    requires Unique(cached) && Unique(current)
    ensures var d := PlainDiff(cached, current);
            && (forall q :: q in d.changed <==> q in current && exists p :: p in cached && SamePlayer(p, q) && Differs(p, q))
            && (forall q :: q in d.joined <==> q in current && forall p :: p in cached ==> !SamePlayer(p, q))
            && (forall p :: p in d.left <==> p in cached && forall q :: q in current ==> !SamePlayer(p, q))
            && Unique(d.changed) && Unique(d.joined) && Unique(d.left) && d.totalCount == |current|
  {
    FilterIn(current, IsNew, Keyed(cached));
    FilterIn(current, IsChanged, Keyed(cached));
    FilterIn(cached, IsNew, Keyed(current));
    FilterUnique(current, IsNew, Keyed(cached));
    FilterUnique(current, IsChanged, Keyed(cached));
    FilterUnique(cached, IsNew, Keyed(current));
    forall q | q in current
      ensures Passes(IsChanged, q, Keyed(cached)) <==> exists p :: p in cached && SamePlayer(p, q) && Differs(p, q)
      ensures Passes(IsNew, q, Keyed(cached)) <==> forall p :: p in cached ==> !SamePlayer(p, q)
    {
      Looked(cached, q);
    }
    forall p | p in cached ensures Passes(IsNew, p, Keyed(current)) <==> forall q :: q in current ==> !SamePlayer(p, q) {
      Looked(current, p);
    }
  }

  lemma Looked(ps: seq<Player>, q: Player)
    requires Unique(ps)
    ensures Passes(IsNew, q, Keyed(ps)) <==> forall p :: p in ps ==> !SamePlayer(p, q)
    ensures Passes(IsChanged, q, Keyed(ps)) <==> exists p :: p in ps && SamePlayer(p, q) && Differs(p, q)
  {
    KeyedFacts(ps);
    if q.steamId in Keyed(ps) {
      var p :| p in ps && p.steamId == q.steamId;
      assert Get(Keyed(ps), p.steamId) == Some(Seen(p)) && SamePlayer(p, q);
      forall o | o in ps && SamePlayer(o, q) ensures o == p { OnlyOne(ps, o, p); }
    } else {
      assert forall p :: p in ps ==> p.steamId in Ids(ps);
    }
  }

  predicate Shows(v: View, q: Player) {
    v.steamId == q.steamId && v.name == q.name && v.teamId == q.teamId && v.squadId == q.squadId
  }

  /** What the page shows once the diff is applied: exactly the current players, each with its own name, team and squad. */
  lemma PageShowsPlayers(cached: seq<Player>, current: seq<Player>)
    requires Unique(current)
    ensures var page := Patch(Keyed(cached), PlainDiff(cached, current));
            && (forall id :: id in page <==> exists q :: q in current && q.steamId == id)
            && (forall q :: q in current ==> q.steamId in page && Shows(page[q.steamId], q))
  {
    DiffThenPatch(cached, current);
    KeyedFacts(current);
    forall q | q in current ensures Get(Keyed(current), q.steamId) == Some(Seen(q)) { }
  }

  // ---------------------------------------------------------------- runs

  /** The panel's memory: the cached list and the time of the last broadcast, per server. */
  datatype Hub = Hub(cache: map<int, seq<Player>>, last: map<int, int>)

  datatype Update = Update(serverId: int, current: seq<Player>, now: int)

  function Cache(h: Hub, serverId: int): seq<Player> { if serverId in h.cache then h.cache[serverId] else [] }

  predicate Throttled(h: Hub, u: Update, interval: int) {
    u.serverId in h.last && u.now - h.last[u.serverId] < interval
  }

  function Next(h: Hub, u: Update, interval: int): Hub {
    Hub(h.cache[u.serverId := u.current],
        if Throttled(h, u, interval) then h.last else h.last[u.serverId := u.now])
  }

  function Message(h: Hub, u: Update, interval: int): Option<Diff> {
    if Throttled(h, u, interval) then None else Some(PlainDiff(Cache(h, u.serverId), u.current))
  }

  class WsHandler {
    const interval: int
    var playerCache: map<int, seq<Player>>
    var lastPlayerBroadcast: map<int, int>

    function State(): Hub
      reads this
    {
      Hub(playerCache, lastPlayerBroadcast)
    }

    constructor (interval: int)
      ensures State() == Hub(map[], map[]) && this.interval == interval
    {
      this.interval := interval;
      playerCache, lastPlayerBroadcast := map[], map[];
    }

    method BroadcastPlayerUpdate(serverId: int, current: seq<Player>, now: int) returns (msg: Option<Diff>)
      modifies this
      ensures State() == Next(old(State()), Update(serverId, current, now), interval)
      ensures msg == Message(old(State()), Update(serverId, current, now), interval)
    {
      if serverId in lastPlayerBroadcast {
        if now - lastPlayerBroadcast[serverId] < interval {
          playerCache := playerCache[serverId := current];
          return None;
        }
      }
      lastPlayerBroadcast := lastPlayerBroadcast[serverId := now];
      if serverId !in playerCache { playerCache := playerCache[serverId := []]; }
      var diff := CalculateDiff(playerCache[serverId], current);
      playerCache := playerCache[serverId := current];
      return Some(diff);
    }

    method GetPlayerSnapshot(serverId: int) returns (ps: seq<Player>)
      ensures ps == Cache(State(), serverId)
    {
      if serverId in playerCache { return playerCache[serverId]; }
      return [];
    }
  }

  /** A browser that watches one server applies that server's messages. */
  function Watch(board: Board, h: Hub, u: Update, interval: int, serverId: int): Board {
    var msg := Message(h, u, interval);
    if u.serverId == serverId && msg.Some? then Patch(board, msg.value) else board
  }

  /** The browser shows the panel's cache now and after every further update. */
  predicate AlwaysInStep(h: Hub, board: Board, run: seq<Update>, interval: int, serverId: int)
    decreases |run|
  {
    && board == Keyed(Cache(h, serverId))
    && (run == [] ||
        AlwaysInStep(Next(h, run[0], interval), Watch(board, h, run[0], interval, serverId), run[1..], interval, serverId))
  }

  /** No update that the throttle swallows changes what a browser would show. */
  predicate QuietWhenThrottled(h: Hub, run: seq<Update>, interval: int, serverId: int)
    decreases |run|
  {
    run == [] ||
    (&& (run[0].serverId == serverId && Throttled(h, run[0], interval) ==>
           Keyed(run[0].current) == Keyed(Cache(h, serverId)))
     && QuietWhenThrottled(Next(h, run[0], interval), run[1..], interval, serverId))
  }

  /** From the snapshot on, through updates of any servers at any times, a browser stays in step with the
      panel exactly when every throttled update is invisible. */
  lemma {:induction false} StaysInStep(h: Hub, board: Board, run: seq<Update>, interval: int, serverId: int)
    requires board == Keyed(Cache(h, serverId))
    requires forall u :: u in run ==> Unique(u.current)
    ensures AlwaysInStep(h, board, run, interval, serverId) <==> QuietWhenThrottled(h, run, interval, serverId)
    decreases |run|
  {
    if run != [] {
      var u := run[0];
      var h', board' := Next(h, u, interval), Watch(board, h, u, interval, serverId);
      if u.serverId == serverId && !Throttled(h, u, interval) {
        assert u in run;
        DiffThenPatch(Cache(h, serverId), u.current);
      }
      if board' == Keyed(Cache(h', serverId)) {
        StaysInStep(h', board', run[1..], interval, serverId);
      } else {
        assert !AlwaysInStep(h', board', run[1..], interval, serverId);
      }
    }
  }

  /** The browser shows the panel's cache after every message it gets. */
  predicate InStepWhenTold(h: Hub, board: Board, run: seq<Update>, interval: int, serverId: int)
    decreases |run|
  {
    run == [] ||
    (var h', board' := Next(h, run[0], interval), Watch(board, h, run[0], interval, serverId);
     && (run[0].serverId == serverId && !Throttled(h, run[0], interval) ==> board' == Keyed(Cache(h', serverId)))
     && InStepWhenTold(h', board', run[1..], interval, serverId))
  }

  /** Whatever of the last announced list the throttle let change in silence, the next message changes again. */
  ghost predicate SilenceIsUndone(h: Hub, announced: Board, run: seq<Update>, interval: int, serverId: int)
    decreases |run|
  {
    run == [] ||
    (var told := run[0].serverId == serverId && !Throttled(h, run[0], interval);
     && (told ==> Disturbed(announced, Keyed(Cache(h, serverId)), Keyed(run[0].current)))
     && SilenceIsUndone(Next(h, run[0], interval), if told then Keyed(run[0].current) else announced, run[1..], interval, serverId))
  }

  /** Where the cache has drifted from what was announced, the new list differs from the cache. */
  ghost predicate Disturbed(announced: Board, cached: Board, current: Board) {
    forall id :: Get(announced, id) != Get(cached, id) ==> Get(cached, id) != Get(current, id)
  }

  /** A throttled change is harmless as long as the page hears of it in time: a browser equals the cache after every
      message exactly when each message touches every id that changed in silence since the last, and did not change
      back. */
  lemma {:induction false} InStepWheneverTold(h: Hub, board: Board, run: seq<Update>, interval: int, serverId: int)
    requires forall u :: u in run ==> Unique(u.current)
    ensures InStepWhenTold(h, board, run, interval, serverId) <==> SilenceIsUndone(h, board, run, interval, serverId)
    decreases |run|
  {
    if run != [] {
      var u := run[0];
      var h', board' := Next(h, u, interval), Watch(board, h, u, interval, serverId);
      assert u in run;
      if u.serverId == serverId && !Throttled(h, u, interval) {
        InStepAfter(board, Cache(h, serverId), u.current);
      }
      InStepWheneverTold(h', board', run[1..], interval, serverId);
    }
  }

  lemma VisitHubs(p: Player, interval: int)
    requires interval > 1
    ensures var u0, u1, u2, u3 := Update(1, [], 0), Update(1, [p], 0), Update(1, [], 1), Update(1, [], interval);
            var h1, h2, h3 := Hub(map[1 := []], map[1 := 0]), Hub(map[1 := [p]], map[1 := 0]), Hub(map[1 := []], map[1 := 0]);
            && Next(Hub(map[], map[]), u0, interval) == h1 && Next(h1, u1, interval) == h2 && Next(h2, u2, interval) == h3
            && !Throttled(Hub(map[], map[]), u0, interval) && Throttled(h1, u1, interval) && Throttled(h2, u2, interval)
            && !Throttled(h3, u3, interval)
  {
  }

  /** A player who joins and leaves again inside the throttle window leaves no trace, neither then nor later. */
  lemma ThrottledVisitIsHarmless(p: Player, interval: int)
    requires interval > 1
    ensures var visit := [Update(1, [], 0), Update(1, [p], 0), Update(1, [], 1), Update(1, [], interval)];
            && InStepWhenTold(Hub(map[], map[]), map[], visit, interval, 1)
            && !AlwaysInStep(Hub(map[], map[]), map[], visit, interval, 1)
  {
    var h0: Hub := Hub(map[], map[]);
    var none: Board := map[];
    var visit := [Update(1, [], 0), Update(1, [p], 0), Update(1, [], 1), Update(1, [], interval)];
    assert forall u :: u in visit ==> u.current == [] || u.current == [p];
    VisitIsQuietAfterwards(p, interval);
    InStepWheneverTold(h0, none, visit, interval, 1);
    StaysInStep(h0, none, visit, interval, 1);
  }

  lemma VisitIsQuietAfterwards(p: Player, interval: int)
    requires interval > 1
    ensures var visit := [Update(1, [], 0), Update(1, [p], 0), Update(1, [], 1), Update(1, [], interval)];
            && SilenceIsUndone(Hub(map[], map[]), map[], visit, interval, 1)
            && !QuietWhenThrottled(Hub(map[], map[]), visit, interval, 1)
  {
    var u0, u1, u2, u3 := Update(1, [], 0), Update(1, [p], 0), Update(1, [], 1), Update(1, [], interval);
    var h1, h2, h3 := Hub(map[1 := []], map[1 := 0]), Hub(map[1 := [p]], map[1 := 0]), Hub(map[1 := []], map[1 := 0]);
    var none: Board := map[];
    VisitHubs(p, interval);
    assert [u0, u1, u2, u3][1..] == [u1, u2, u3] && [u1, u2, u3][1..] == [u2, u3] && [u2, u3][1..] == [u3];
    assert SilenceIsUndone(h3, none, [u3], interval, 1);
    assert SilenceIsUndone(h2, none, [u2, u3], interval, 1);
    assert SilenceIsUndone(h1, none, [u1, u2, u3], interval, 1);
    KeyedFacts([p]);
    assert p in [p] && Get(Keyed([p]), p.steamId) == Some(Seen(p));
    assert !QuietWhenThrottled(h1, [u1, u2, u3], interval, 1);
  }

  predicate NeverThrottled(h: Hub, run: seq<Update>, interval: int, serverId: int)
    decreases |run|
  {
    run == [] ||
    (&& (run[0].serverId == serverId ==> !Throttled(h, run[0], interval))
     && NeverThrottled(Next(h, run[0], interval), run[1..], interval, serverId))
  }

  /** In particular it stays in step when no update falls inside the throttle window. */
  lemma UnthrottledStaysInStep(h: Hub, run: seq<Update>, interval: int, serverId: int)
    requires NeverThrottled(h, run, interval, serverId)
    requires forall u :: u in run ==> Unique(u.current)
    ensures AlwaysInStep(h, Keyed(Cache(h, serverId)), run, interval, serverId)
  {
    UnthrottledIsQuiet(h, run, interval, serverId);
    StaysInStep(h, Keyed(Cache(h, serverId)), run, interval, serverId);
  }

  lemma {:induction false} UnthrottledIsQuiet(h: Hub, run: seq<Update>, interval: int, serverId: int)
    requires NeverThrottled(h, run, interval, serverId)
    ensures QuietWhenThrottled(h, run, interval, serverId)
    decreases |run|
  {
    if run != [] { UnthrottledIsQuiet(Next(h, run[0], interval), run[1..], interval, serverId); }
  }

  /** Drift that does not heal: a player who joins inside the throttle window is never announced. */
  lemma ThrottledJoinIsLost(p: Player, interval: int)
    requires interval > 0
    ensures var run := [Update(1, [], 0), Update(1, [p], 0), Update(1, [p], interval)];
            var h1 := Next(Hub(map[], map[]), run[0], interval);
            var h2 := Next(h1, run[1], interval);
            && Message(h1, run[1], interval) == None
            && Watch(map[], h2, run[2], interval, 1) == map[] != Keyed(Cache(Next(h2, run[2], interval), 1))
  {
    var one := [p];
    KeyedFacts(one);
    assert p in one;
    InStepAfter(map[], one, one);
    assert Get(Keyed(one), p.steamId) == Some(Seen(p));
    var after := Patch(map[], PlainDiff(one, one));
    forall id ensures Get(after, id) == None { PatchPointwise(map[], one, one, id); }
    SameBoard(after, map[]);
  }

  // ---------------------------------------------------------------- spacing

  function HubAfter(run: seq<Update>, interval: int): Hub {
    if run == [] then Hub(map[], map[]) else Next(HubAfter(run[..|run| - 1], interval), run[|run| - 1], interval)
  }

  predicate Told(run: seq<Update>, k: nat, interval: int)
    requires k < |run|
  {
    Message(HubAfter(run[..k], interval), run[k], interval).Some?
  }

  /** The update at `j` was the last of its server before `i` to be announced. */
  predicate LastTold(run: seq<Update>, j: nat, i: nat, serverId: int, interval: int)
    requires i <= |run|
  {
    && j < i && run[j].serverId == serverId && Told(run, j, interval)
    && forall k :: j < k < i && run[k].serverId == serverId ==> !Told(run, k, interval)
  }

  /** What the hub remembers of a server's broadcasts: when the last one was, if there was any. */
  ghost predicate Remembers(run: seq<Update>, i: nat, serverId: int, interval: int)
    requires i <= |run|
  {
    var last := HubAfter(run[..i], interval).last;
    if serverId in last then exists j: nat :: LastTold(run, j, i, serverId, interval) && last[serverId] == run[j].now
    else forall j :: 0 <= j < i && run[j].serverId == serverId ==> !Told(run, j, interval)
  }

  lemma LastAfter(run: seq<Update>, n: nat, serverId: int, interval: int)
    requires n < |run|
    ensures var before, after := HubAfter(run[..n], interval).last, HubAfter(run[..n + 1], interval).last;
            if run[n].serverId == serverId && Told(run, n, interval) then serverId in after && after[serverId] == run[n].now
            else Get(after, serverId) == Get(before, serverId)
  {
    assert run[..n + 1][..n] == run[..n];
  }

  lemma {:induction false} LastBroadcast(run: seq<Update>, i: nat, serverId: int, interval: int)
    requires i <= |run|
    ensures Remembers(run, i, serverId, interval)
  {
    if i > 0 {
      var n := i - 1;
      LastBroadcast(run, n, serverId, interval);
      LastAfter(run, n, serverId, interval);
      var before := HubAfter(run[..n], interval).last;
      if run[n].serverId == serverId && Told(run, n, interval) {
        assert LastTold(run, n, i, serverId, interval);
      } else if serverId in before {
        var j: nat :| LastTold(run, j, n, serverId, interval) && before[serverId] == run[j].now;
        assert LastTold(run, j, i, serverId, interval);
      }
    }
  }

  /** An update is kept from the pages exactly if the last one announced for its server is less than the interval ago. */
  lemma SilentWhenRecent(run: seq<Update>, i: nat, interval: int)
    requires i < |run|
    ensures !Told(run, i, interval) <==>
            exists j: nat :: LastTold(run, j, i, run[i].serverId, interval) && run[i].now - run[j].now < interval
  {
    var s := run[i].serverId;
    LastBroadcast(run, i, s, interval);
    forall j: nat, k: nat | LastTold(run, j, i, s, interval) && LastTold(run, k, i, s, interval) ensures j == k { }
  }
}

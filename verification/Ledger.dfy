/** The points ledger. The points service, the shared helper, the admin route, the chat commands and code
    redemption all write the same two tables, each by its own rules. */
module Ledger {
  import opened Wrappers

  /** A row of the points table; the server is absent on shared rows. */
  datatype Row = Row(serverId: Option<int>, steamId: string, balance: int, lifetime: int)

  datatype Log = Log(serverId: int, steamId: string, amount: int)

  /** `servers`: the ids that a row of the points table may refer to; an insert for any other is refused by the
      table's foreign key, which the callers do not notice. The log has no such key. */
  datatype Book = Book(rows: seq<Row>, logs: seq<Log>, servers: set<int>)

  // ---------------------------------------------------------------- queries

  function FirstRow(rows: seq<Row>, steamId: string, serverId: Option<int>): (i: nat)
    ensures i <= |rows|
    ensures i < |rows| ==> rows[i].steamId == steamId && rows[i].serverId == serverId
    ensures forall j :: 0 <= j < i ==> rows[j].steamId != steamId || rows[j].serverId != serverId
  {
    if rows == [] || (rows[0].steamId == steamId && rows[0].serverId == serverId) then 0
    else 1 + FirstRow(rows[1..], steamId, serverId)
  }

  /** The row of a player on a server: the server's own before a shared one; the length if there is neither. */
  function Select(rows: seq<Row>, steamId: string, serverId: int): (i: nat)
    ensures i <= |rows|
    ensures i < |rows| ==> rows[i].steamId == steamId && (rows[i].serverId == Some(serverId) || rows[i].serverId == None)
    ensures i == |rows| ==> forall j :: 0 <= j < |rows| && rows[j].steamId == steamId ==>
                              rows[j].serverId != Some(serverId) && rows[j].serverId != None
    ensures i < |rows| && rows[i].serverId == None ==> forall j :: 0 <= j < |rows| && rows[j].steamId == steamId ==>
                              rows[j].serverId != Some(serverId)
  {
    var own := FirstRow(rows, steamId, Some(serverId));
    if own < |rows| then own else FirstRow(rows, steamId, None)
  }

  predicate Mine(rows: seq<Row>, steamId: string, i: nat) { i < |rows| && rows[i].steamId == steamId }

  /** Any row of a player, whichever the database meets first: `pick` says which; the length if there is none. */
  function AnyRow(rows: seq<Row>, steamId: string, pick: nat): (i: nat)
    ensures i <= |rows| && (i < |rows| ==> rows[i].steamId == steamId)
    ensures i == |rows| ==> forall j :: 0 <= j < |rows| ==> rows[j].steamId != steamId
  {
    if Mine(rows, steamId, pick) then pick
    else if rows != [] && rows[0].steamId == steamId then 0
    else if rows == [] then 0 else 1 + AnyRow(rows[1..], steamId, if pick == 0 then 0 else pick - 1)
  }

  function BalanceOf(b: Book, steamId: string, serverId: int): int {
    var i := Select(b.rows, steamId, serverId);
    if i < |b.rows| then b.rows[i].balance else 0
  }

  // ---------------------------------------------------------------- operations

  function Max0(x: int): int { if x > 0 then x else 0 }

  function Update(b: Book, i: nat, amount: int, earned: int): Book
    requires i < |b.rows|
  {
    var r := b.rows[i];
    b.(rows := b.rows[i := r.(balance := r.balance + amount, lifetime := r.lifetime + earned)])
  }

  function Insert(b: Book, serverId: int, steamId: string, balance: int): Book {
    if serverId in b.servers then b.(rows := b.rows + [Row(Some(serverId), steamId, balance, Max0(balance))]) else b
  }

  /** Redemption's insert writes the value itself as what was earned. */
  function InsertGrant(b: Book, serverId: int, steamId: string, value: int): Book {
    if serverId in b.servers then b.(rows := b.rows + [Row(Some(serverId), steamId, value, value)]) else b
  }

  function Record(b: Book, serverId: int, steamId: string, amount: int): Book {
    b.(logs := b.logs + [Log(serverId, steamId, amount)])
  }

  datatype Op =
    | AddPoints(serverId: int, steamId: string, amount: int)
    | Deduct(serverId: int, steamId: string, amount: int)
    | Adjust(serverId: int, steamId: string, amount: int)
    | AdjustRoute(serverId: int, steamId: string, amount: int, pick: nat)
    | SignIn(serverId: int, steamId: string, ready: bool, reward: int)
    | Lottery(serverId: int, steamId: string, enabled: bool, ready: bool, cost: int, minR: int, maxR: int, roll: nat)
    | Redeem(serverId: int, steamId: string, hasSlot: bool, cost: int)
    | SwitchTeam(serverId: int, steamId: string, cost: int)
    | Grant(serverId: int, steamId: string, value: int)

  /** The chat commands' own update: both columns move by the amount; a new row starts at no less than 0. */
  function AddBalance(b: Book, serverId: int, steamId: string, amount: int): Book {
    var i := Select(b.rows, steamId, serverId);
    Record(if i < |b.rows| then Update(b, i, amount, amount) else Insert(b, serverId, steamId, Max0(amount)),
           serverId, steamId, amount)
  }

  function Credit(b: Book, serverId: int, steamId: string, amount: int, i: nat): Book
    requires i <= |b.rows|
  {
    Record(if i < |b.rows| then Update(b, i, amount, Max0(amount)) else Insert(b, serverId, steamId, amount),
           serverId, steamId, amount)
  }

  function OrElse(x: int, default: int): int { if x > 0 then x else default }

  /** A draw between the limits, or the lower limit if they are the wrong way round. */
  function Draw(minR: int, maxR: int, roll: nat): int {
    if maxR < minR then minR else minR + roll % (maxR - minR + 1)
  }

  function AfterDeduct(b: Book, s: int, p: string, amount: int): Book {
    var i := Select(b.rows, p, s);
    if i == |b.rows| || b.rows[i].balance < amount then b else Record(Update(b, i, -amount, 0), s, p, -amount)
  }

  /** The shared helper and the admin route, on the row each selects: neither lets a balance or a first entry be negative. */
  function AfterAdjust(b: Book, s: int, p: string, amount: int, i: nat): Book
    requires i <= |b.rows|
  {
    if (if i < |b.rows| then b.rows[i].balance + amount < 0 else amount < 0) then b else Credit(b, s, p, amount, i)
  }

  function AfterLottery(b: Book, s: int, p: string, cost: int, reward: int): Book {
    if cost > 0 && BalanceOf(b, p, s) < cost then b
    else AddBalance(if cost > 0 then AddBalance(b, s, p, -cost) else b, s, p, reward)
  }

  function AfterCharge(b: Book, s: int, p: string, price: int): Book {
    if BalanceOf(b, p, s) < price then b else AddBalance(b, s, p, -price)
  }

  function AfterGrant(b: Book, s: int, p: string, value: int): Book {
    var i := Select(b.rows, p, s);
    Record(if i < |b.rows| then Update(b, i, value, value) else InsertGrant(b, s, p, value), s, p, value)
  }

  function Next(b: Book, op: Op): Book {
    match op
    case AddPoints(s, p, amount) => Credit(b, s, p, amount, Select(b.rows, p, s))
    case Deduct(s, p, amount) => AfterDeduct(b, s, p, amount)
    case Adjust(s, p, amount) => AfterAdjust(b, s, p, amount, Select(b.rows, p, s))
    case AdjustRoute(s, p, amount, pick) =>
      if p == "" || amount == 0 then b else AfterAdjust(b, s, p, amount, AnyRow(b.rows, p, pick))
    case SignIn(s, p, ready, reward) => if !ready then b else AddBalance(b, s, p, OrElse(reward, 5))
    case Lottery(s, p, enabled, ready, cost, minR, maxR, roll) =>
      if !enabled || !ready then b else AfterLottery(b, s, p, cost, Draw(minR, maxR, roll))
    case Redeem(s, p, hasSlot, cost) => if hasSlot then b else AfterCharge(b, s, p, OrElse(cost, 50))
    case SwitchTeam(s, p, cost) => AfterCharge(b, s, p, OrElse(cost, 20))
    case Grant(s, p, value) => AfterGrant(b, s, p, value)
  }

  class Database {
    var rows: seq<Row>
    var logs: seq<Log>
    const servers: set<int>

    function State(): Book
      reads this
    {
      Book(rows, logs, servers)
    }

    constructor (servers: set<int>)
      ensures State() == Book([], [], servers)
    {
      this.servers := servers;
      rows, logs := [], [];
    }

    method ExecUpdate(i: nat, balance: int, earned: int)
      requires i < |rows|
      modifies this`rows
      ensures rows == old(rows)[i := old(rows)[i].(balance := balance, lifetime := old(rows)[i].lifetime + earned)]
    {
      rows := rows[i := rows[i].(balance := balance, lifetime := rows[i].lifetime + earned)];
    }

    method ExecInsert(serverId: int, steamId: string, balance: int, lifetime: int)
      modifies this`rows
      ensures rows == if serverId in servers then old(rows) + [Row(Some(serverId), steamId, balance, lifetime)] else old(rows)
    {
      if serverId in servers { rows := rows + [Row(Some(serverId), steamId, balance, lifetime)]; }
    }

    method ExecLog(serverId: int, steamId: string, amount: int)
      modifies this`logs
      ensures logs == old(logs) + [Log(serverId, steamId, amount)]
    {
      logs := logs + [Log(serverId, steamId, amount)];
    }

    method AddPoints(serverId: int, steamId: string, amount: int)
      modifies this
      ensures State() == Next(old(State()), Op.AddPoints(serverId, steamId, amount))
    {
      var existing := Select(rows, steamId, serverId);
      var earned := if amount > 0 then amount else 0;
      if existing < |rows| {
        ExecUpdate(existing, rows[existing].balance + amount, earned);
      } else {
        ExecInsert(serverId, steamId, amount, earned);
      }
      ExecLog(serverId, steamId, amount);
    }

    method DeductPoints(serverId: int, steamId: string, amount: int) returns (ok: bool)
      modifies this
      ensures State() == Next(old(State()), Deduct(serverId, steamId, amount))
      ensures !ok ==> State() == old(State())
    {
      var existing := Select(rows, steamId, serverId);
      if existing == |rows| { return false; }
      var balance := rows[existing].balance;
      if balance < amount { return false; }
      ExecUpdate(existing, balance - amount, 0);
      ExecLog(serverId, steamId, -amount);
      return true;
    }

    method AdjustPoints(serverId: int, steamId: string, amount: int) returns (ok: bool)
      modifies this
      ensures State() == Next(old(State()), Adjust(serverId, steamId, amount))
      ensures !ok ==> State() == old(State())
    {
      var existing := Select(rows, steamId, serverId);
      var earned := if amount > 0 then amount else 0;
      if existing < |rows| {
        var newBal := rows[existing].balance + amount;
        if newBal < 0 { return false; }
        ExecUpdate(existing, newBal, earned);
      } else {
        if amount < 0 { return false; }
        ExecInsert(serverId, steamId, amount, earned);
      }
      ExecLog(serverId, steamId, amount);
      return true;
    }

    /** The admin route; `pick` is the row the unordered query yields. */
    method PostAdjust(serverId: int, steamId: string, amount: int, pick: nat) returns (ok: bool)
      modifies this
      ensures State() == Next(old(State()), AdjustRoute(serverId, steamId, amount, pick))
      ensures !ok ==> State() == old(State())
    {
      if steamId == "" { return false; }
      if amount == 0 { return false; }
      var existing := AnyRow(rows, steamId, pick);
      var earned := if amount > 0 then amount else 0;
      if existing < |rows| {
        var newBal := rows[existing].balance + amount;
        if newBal < 0 { return false; }
        ExecUpdate(existing, newBal, earned);
      } else {
        if amount < 0 { return false; }
        ExecInsert(serverId, steamId, amount, earned);
      }
      ExecLog(serverId, steamId, amount);
      return true;
    }

    method GetBalance(steamId: string, serverId: int) returns (balance: int)
      ensures balance == BalanceOf(State(), steamId, serverId)
    {
      var i := Select(rows, steamId, serverId);
      if i == |rows| { return 0; }
      return rows[i].balance;
    }

    method ChatAddBalance(serverId: int, steamId: string, amount: int)
      modifies this
      ensures State() == AddBalance(old(State()), serverId, steamId, amount)
    {
      var existing := Select(rows, steamId, serverId);
      if existing < |rows| {
        ExecUpdate(existing, rows[existing].balance + amount, amount);
      } else {
        var start := if amount > 0 then amount else 0;
        ExecInsert(serverId, steamId, start, start);
      }
      ExecLog(serverId, steamId, amount);
    }

    /** `ready`: the cooldown since the last such command is over. */
    method DoSignIn(serverId: int, steamId: string, ready: bool, reward: int)
      modifies this
      ensures State() == Next(old(State()), SignIn(serverId, steamId, ready, reward))
    {
      if !ready { return; }
      ChatAddBalance(serverId, steamId, if reward > 0 then reward else 5);
    }

    /** The lottery's fee, if there is one and the balance covers it. */
    method ChargeFee(serverId: int, steamId: string, cost: int) returns (ok: bool)
      modifies this
      ensures ok == (cost > 0 ==> cost <= BalanceOf(old(State()), steamId, serverId))
      ensures State() == if ok && cost > 0 then AddBalance(old(State()), serverId, steamId, -cost) else old(State())
    {
      if cost > 0 {
        var balance := GetBalance(steamId, serverId);
        if balance < cost { return false; }
        ChatAddBalance(serverId, steamId, -cost);
      }
      return true;
    }

    method DoLottery(serverId: int, steamId: string, enabled: bool, ready: bool, cost: int, minR: int, maxR: int, roll: nat)
      modifies this
      ensures State() == Next(old(State()), Lottery(serverId, steamId, enabled, ready, cost, minR, maxR, roll))
    {
      if !enabled { return; }
      if !ready { return; }
      var ok := ChargeFee(serverId, steamId, cost);
      if !ok { return; }
      var hi := if maxR < minR then minR else maxR;
      assert minR + roll % (hi - minR + 1) == Draw(minR, maxR, roll);
      ChatAddBalance(serverId, steamId, minR + roll % (hi - minR + 1));
    }

    method DoRedeem(serverId: int, steamId: string, hasSlot: bool, cost: int) returns (ok: bool)
      modifies this
      ensures State() == Next(old(State()), Redeem(serverId, steamId, hasSlot, cost))
      ensures !ok ==> State() == old(State())
    {
      var price := if cost > 0 then cost else 50;
      var balance := GetBalance(steamId, serverId);
      if balance < price { return false; }
      if hasSlot { return false; }
      ChatAddBalance(serverId, steamId, -price);
      return true;
    }

    method DoSwitchTeam(serverId: int, steamId: string, cost: int) returns (ok: bool)
      modifies this
      ensures State() == Next(old(State()), Op.SwitchTeam(serverId, steamId, cost))
      ensures !ok ==> State() == old(State())
    {
      var price := if cost > 0 then cost else 20;
      var balance := GetBalance(steamId, serverId);
      if balance < price { return false; }
      ChatAddBalance(serverId, steamId, -price);
      return true;
    }

    method GrantPoints(serverId: int, steamId: string, value: int)
      modifies this
      ensures State() == Next(old(State()), Grant(serverId, steamId, value))
    {
      var existing := Select(rows, steamId, serverId);
      if existing < |rows| {
        ExecUpdate(existing, rows[existing].balance + value, value);
      } else {
        ExecInsert(serverId, steamId, value, value);
      }
      ExecLog(serverId, steamId, value);
    }
  }

  // ---------------------------------------------------------------- what each operation books

  /** The row an operation is booked on, or the length if the player needs a new one. */
  function Target(b: Book, op: Op): (i: nat)
    ensures i <= |b.rows|
  {
    if op.AdjustRoute? then AnyRow(b.rows, op.steamId, op.pick) else Select(b.rows, op.steamId, op.serverId)
  }

  /** Which requests go through, given the balance of that row, 0 without one. */
  predicate GoesThrough(b: Book, op: Op) {
    var balance := if Target(b, op) < |b.rows| then b.rows[Target(b, op)].balance else 0;
    match op
    case AddPoints(_, _, _) => true
    case Deduct(_, _, amount) => Target(b, op) < |b.rows| && amount <= balance
    case Adjust(_, _, amount) => 0 <= balance + amount
    case AdjustRoute(_, p, amount, _) => p != "" && amount != 0 && 0 <= balance + amount
    case SignIn(_, _, ready, _) => ready
    case Lottery(_, _, enabled, ready, cost, _, _, _) => enabled && ready && (cost > 0 ==> cost <= balance)
    case Redeem(_, _, hasSlot, cost) => !hasSlot && (if cost > 0 then cost else 50) <= balance
    case SwitchTeam(_, _, cost) => (if cost > 0 then cost else 20) <= balance
    case Grant(_, _, _) => true
  }

  /** The amounts that go to the log, in order. A lottery pays the fee first; its draw lies between the limits. */
  function Amounts(op: Op): seq<int> {
    match op
    case AddPoints(_, _, amount) => [amount]
    case Deduct(_, _, amount) => [-amount]
    case Adjust(_, _, amount) => [amount]
    case AdjustRoute(_, _, amount, _) => [amount]
    case SignIn(_, _, _, reward) => [if reward > 0 then reward else 5]
    case Lottery(_, _, _, _, cost, minR, maxR, roll) =>
      (if cost > 0 then [-cost] else []) + [if maxR <= minR then minR else minR + roll % (maxR - minR + 1)]
    case Redeem(_, _, _, cost) => [if cost > 0 then -cost else -50]
    case SwitchTeam(_, _, cost) => [if cost > 0 then -cost else -20]
    case Grant(_, _, value) => [value]
  }

  function Sum(xs: seq<int>): int { if xs == [] then 0 else xs[0] + Sum(xs[1..]) }

  /** How much of a sum counts as earned: the chat commands and grants count all, charges included; a deduction counts
      nothing; the others count what is paid in. */
  function Earned(op: Op, sum: int): int {
    match op
    case Deduct(_, _, _) => 0
    case AddPoints(_, _, _) => if sum > 0 then sum else 0
    case Adjust(_, _, _) => if sum > 0 then sum else 0
    case AdjustRoute(_, _, _, _) => if sum > 0 then sum else 0
    case _ => sum
  }

  /** What a new row starts with: the chat commands start no row below 0. */
  function Opening(op: Op, sum: int): int { if (op.SignIn? || op.Lottery?) && sum < 0 then 0 else sum }

  function Entries(op: Op): seq<Log> {
    seq(|Amounts(op)|, k requires 0 <= k < |Amounts(op)| => Log(op.serverId, op.steamId, Amounts(op)[k]))
  }

  /** The rows after a sum is booked: on the target row, or on a new one if the server is listed. */
  function Booked(b: Book, op: Op, i: nat, sum: int): seq<Row>
    requires i <= |b.rows|
  {
    if i < |b.rows| then
      var r := b.rows[i];
      b.rows[i := Row(r.serverId, r.steamId, r.balance + sum, r.lifetime + Earned(op, sum))]
    else if op.serverId in b.servers then
      b.rows + [Row(Some(op.serverId), op.steamId, Opening(op, sum), Earned(op, Opening(op, sum)))]
    else b.rows
  }

  lemma RefusalsKeep(b: Book, op: Op)
    requires !GoesThrough(b, op)
    ensures Next(b, op) == b
  {
  }

  lemma BooksOnce(b: Book, op: Op)
    requires GoesThrough(b, op) && !(op.Lottery? && op.cost > 0)
    ensures var sum := Amounts(op)[0];
            && Next(b, op).rows == Booked(b, op, Target(b, op), sum)
            && Next(b, op).logs == b.logs + [Log(op.serverId, op.steamId, sum)]
  {
  }

  /** Each operation either changes nothing or books its amounts on the target row, or a new one, and in the log. No
      other row changes. */
  lemma BooksExactly(b: Book, op: Op)
    ensures var t := Next(b, op);
            && (!GoesThrough(b, op) ==> t == b)
            && (GoesThrough(b, op) ==>
                  t == Book(Booked(b, op, Target(b, op), Sum(Amounts(op))), b.logs + Entries(op), b.servers))
  {
    OneOrTwo(op);
    ServersStay(b, op);
    if !GoesThrough(b, op) {
      RefusalsKeep(b, op);
    } else if op.Lottery? && op.cost > 0 {
      LotteryBooks(b, op);
    } else {
      BooksOnce(b, op);
    }
  }

  lemma OneOrTwo(op: Op)
    ensures if op.Lottery? && op.cost > 0
            then Entries(op) == [Log(op.serverId, op.steamId, Amounts(op)[0]), Log(op.serverId, op.steamId, Amounts(op)[1])]
                 && Sum(Amounts(op)) == Amounts(op)[0] + Amounts(op)[1]
            else Entries(op) == [Log(op.serverId, op.steamId, Amounts(op)[0])] && Sum(Amounts(op)) == Amounts(op)[0]
  {
    if op.Lottery? && op.cost > 0 {
      SumOfTwo(Amounts(op)[0], Amounts(op)[1]);
      assert Amounts(op) == [Amounts(op)[0], Amounts(op)[1]];
    } else {
      assert Amounts(op)[1..] == [];
    }
  }

  lemma SumOfTwo(x: int, y: int)
    ensures Sum([x, y]) == x + y
  {
    assert [x, y][1..] == [y] && [y][1..] == [];
    assert Sum([y]) == y;
  }

  lemma LotteryBooks(b: Book, op: Op)
    requires op.Lottery? && op.cost > 0 && GoesThrough(b, op)
    ensures var i, draw := Target(b, op), Draw(op.minR, op.maxR, op.roll);
            && i < |b.rows|
            && Next(b, op).rows == b.rows[i := Row(b.rows[i].serverId, b.rows[i].steamId,
                                                   b.rows[i].balance + (-op.cost + draw), b.rows[i].lifetime + (-op.cost + draw))]
            && Next(b, op).logs == b.logs + [Log(op.serverId, op.steamId, -op.cost), Log(op.serverId, op.steamId, draw)]
            && draw == Amounts(op)[1]
  {
    var i := Target(b, op);
    var r := b.rows[i];
    SelectByKeys(b.rows, i, r.(balance := r.balance - op.cost, lifetime := r.lifetime - op.cost), op.steamId, op.serverId);
    var paid := AddBalance(b, op.serverId, op.steamId, -op.cost);
    assert paid.rows == b.rows[i := r.(balance := r.balance - op.cost, lifetime := r.lifetime - op.cost)];
  }

  // ---------------------------------------------------------------- conservation

  function Held(rows: seq<Row>, steamId: string): int {
    if rows == [] then 0 else
      var n := |rows| - 1;
      Held(rows[..n], steamId) + if rows[n].steamId == steamId then rows[n].balance else 0
  }

  function Logged(logs: seq<Log>, steamId: string): int {
    if logs == [] then 0 else
      var n := |logs| - 1;
      Logged(logs[..n], steamId) + if logs[n].steamId == steamId then logs[n].amount else 0
  }

  /** What a player holds beyond what the log accounts for. */
  function Surplus(b: Book, steamId: string): int { Held(b.rows, steamId) - Logged(b.logs, steamId) }

  lemma {:induction false} HeldUpdate(rows: seq<Row>, i: nat, r: Row, steamId: string)
    requires i < |rows| && r.steamId == rows[i].steamId
    ensures Held(rows[i := r], steamId) == Held(rows, steamId) + if r.steamId == steamId then r.balance - rows[i].balance else 0
  {
    var n := |rows| - 1;
    if i == n {
      assert rows[i := r][..n] == rows[..n];
    } else {
      assert rows[i := r][..n] == rows[..n][i := r];
      HeldUpdate(rows[..n], i, r, steamId);
    }
  }

  lemma SurplusUpdate(b: Book, i: nat, amount: int, earned: int, steamId: string)
    requires i < |b.rows|
    ensures Surplus(Update(b, i, amount, earned), steamId) ==
            Surplus(b, steamId) + if b.rows[i].steamId == steamId then amount else 0
  {
    var r := b.rows[i];
    HeldUpdate(b.rows, i, r.(balance := r.balance + amount, lifetime := r.lifetime + earned), steamId);
  }

  lemma SurplusInsert(b: Book, r: Row, steamId: string)
    ensures Surplus(b.(rows := b.rows + [r]), steamId) == Surplus(b, steamId) + if r.steamId == steamId then r.balance else 0
  {
    assert (b.rows + [r])[..|b.rows|] == b.rows;
  }

  lemma SurplusRecord(b: Book, serverId: int, p: string, amount: int, steamId: string)
    ensures Surplus(Record(b, serverId, p, amount), steamId) == Surplus(b, steamId) - if p == steamId then amount else 0
  {
    assert (b.logs + [Log(serverId, p, amount)])[..|b.logs|] == b.logs;
  }

  /** A log entry that no row backs: what the failed or clamped insert leaves out. */
  function Gap(b: Book, serverId: int, amount: int, inserted: int): int {
    if serverId in b.servers then inserted - amount else -amount
  }

  lemma AddBalanceSurplus(b: Book, serverId: int, p: string, amount: int, steamId: string)
    ensures var i := Select(b.rows, p, serverId);
            Surplus(AddBalance(b, serverId, p, amount), steamId) ==
            Surplus(b, steamId) + if p == steamId && i == |b.rows| then Gap(b, serverId, amount, Max0(amount)) else 0
  {
    var i := Select(b.rows, p, serverId);
    if i < |b.rows| {
      SurplusUpdate(b, i, amount, amount, steamId);
      SurplusRecord(Update(b, i, amount, amount), serverId, p, amount, steamId);
    } else {
      SurplusInsert(b, Row(Some(serverId), p, Max0(amount), Max0(amount)), steamId);
      SurplusRecord(Insert(b, serverId, p, Max0(amount)), serverId, p, amount, steamId);
    }
  }

  lemma CreditSurplus(b: Book, serverId: int, p: string, amount: int, i: nat, steamId: string)
    requires i <= |b.rows| && (i < |b.rows| ==> b.rows[i].steamId == p)
    ensures Surplus(Credit(b, serverId, p, amount, i), steamId) ==
            Surplus(b, steamId) + if p == steamId && i == |b.rows| then Gap(b, serverId, amount, amount) else 0
  {
    if i < |b.rows| {
      SurplusUpdate(b, i, amount, Max0(amount), steamId);
      SurplusRecord(Update(b, i, amount, Max0(amount)), serverId, p, amount, steamId);
    } else {
      SurplusInsert(b, Row(Some(serverId), p, amount, Max0(amount)), steamId);
      SurplusRecord(Insert(b, serverId, p, amount), serverId, p, amount, steamId);
    }
  }

  /** The operations that log more or less than they book: all find no row of the player, and either the server
      is not in the servers table, or a lottery without a fee draws a negative reward. */
  predicate Unbacked(b: Book, op: Op) {
    var noRow := Select(b.rows, op.steamId, op.serverId) == |b.rows|;
    var foreign := op.serverId !in b.servers;
    match op
    case AddPoints(_, _, amount) => noRow && foreign && amount != 0
    case Deduct(_, _, _) => false
    case Adjust(_, _, amount) => noRow && foreign && amount > 0
    case AdjustRoute(_, p, amount, pick) => p != "" && AnyRow(b.rows, p, pick) == |b.rows| && foreign && amount > 0
    case SignIn(_, _, ready, _) => ready && noRow && foreign
    case Lottery(_, _, enabled, ready, cost, minR, maxR, roll) =>
      enabled && ready && cost <= 0 && noRow &&
      (Draw(minR, maxR, roll) < 0 || (foreign && Draw(minR, maxR, roll) > 0))
    case Redeem(_, _, _, _) => false
    case SwitchTeam(_, _, _) => false
    case Grant(_, _, value) => noRow && foreign && value != 0
  }

  lemma SelectUnmoved(b: Book, serverId: int, p: string, amount: int)
    requires Select(b.rows, p, serverId) < |b.rows|
    ensures var b' := AddBalance(b, serverId, p, amount); Select(b'.rows, p, serverId) < |b'.rows|
  {
    var i, rows := Select(b.rows, p, serverId), AddBalance(b, serverId, p, amount).rows;
    assert rows[i].steamId == p && rows[i].serverId == b.rows[i].serverId;
  }

  lemma DeductSurplus(b: Book, s: int, p: string, amount: int, steamId: string)
    ensures Surplus(AfterDeduct(b, s, p, amount), steamId) == Surplus(b, steamId)
  {
    var i := Select(b.rows, p, s);
    if i < |b.rows| {
      SurplusUpdate(b, i, -amount, 0, steamId);
      SurplusRecord(Update(b, i, -amount, 0), s, p, -amount, steamId);
    }
  }

  lemma OnKnownRow(b: Book, s: int, p: string, amount: int, steamId: string)
    requires Select(b.rows, p, s) < |b.rows|
    ensures Surplus(AddBalance(b, s, p, amount), steamId) == Surplus(b, steamId)
  {
    AddBalanceSurplus(b, s, p, amount, steamId);
  }

  lemma LotterySurplus(b: Book, s: int, p: string, cost: int, reward: int, steamId: string)
    ensures Surplus(AfterLottery(b, s, p, cost, reward), steamId) ==
            Surplus(b, steamId) +
            if p == steamId && cost <= 0 && Select(b.rows, p, s) == |b.rows| then Gap(b, s, reward, Max0(reward)) else 0
  {
    if cost <= 0 {
      AddBalanceSurplus(b, s, p, reward, steamId);
    } else if BalanceOf(b, p, s) >= cost {
      var paid := AddBalance(b, s, p, -cost);
      OnKnownRow(b, s, p, -cost, steamId);
      SelectUnmoved(b, s, p, -cost);
      OnKnownRow(paid, s, p, reward, steamId);
    }
  }

  lemma ChargeSurplus(b: Book, s: int, p: string, price: int, steamId: string)
    requires price > 0
    ensures Surplus(AfterCharge(b, s, p, price), steamId) == Surplus(b, steamId)
  {
    AddBalanceSurplus(b, s, p, -price, steamId);
  }

  lemma GrantSurplus(b: Book, s: int, p: string, value: int, steamId: string)
    ensures Surplus(AfterGrant(b, s, p, value), steamId) ==
            Surplus(b, steamId) + if p == steamId && Select(b.rows, p, s) == |b.rows| then Gap(b, s, value, value) else 0
  {
    var i := Select(b.rows, p, s);
    if i < |b.rows| {
      SurplusUpdate(b, i, value, value, steamId);
      SurplusRecord(Update(b, i, value, value), s, p, value, steamId);
    } else {
      SurplusInsert(b, Row(Some(s), p, value, value), steamId);
      SurplusRecord(InsertGrant(b, s, p, value), s, p, value, steamId);
    }
  }

  /** By how much an operation makes its player's balances outgrow the log. */
  function Drift(b: Book, op: Op): int {
    var noRow := Select(b.rows, op.steamId, op.serverId) == |b.rows|;
    match op
    case AddPoints(s, _, amount) => if noRow then Gap(b, s, amount, amount) else 0
    case Adjust(s, _, amount) => if noRow && amount >= 0 then Gap(b, s, amount, amount) else 0
    case AdjustRoute(s, p, amount, pick) =>
      if p != "" && AnyRow(b.rows, p, pick) == |b.rows| && amount > 0 then Gap(b, s, amount, amount) else 0
    case SignIn(s, _, ready, reward) =>
      if ready && noRow then Gap(b, s, OrElse(reward, 5), OrElse(reward, 5)) else 0
    case Lottery(s, _, enabled, ready, cost, minR, maxR, roll) =>
      var drawn := Draw(minR, maxR, roll);
      if enabled && ready && cost <= 0 && noRow then Gap(b, s, drawn, Max0(drawn)) else 0
    case Grant(s, _, value) => if noRow then Gap(b, s, value, value) else 0
    case _ => 0
  }

  lemma SurplusDrifts(b: Book, op: Op, steamId: string)
    ensures Surplus(Next(b, op), steamId) == Surplus(b, steamId) + if op.steamId == steamId then Drift(b, op) else 0
  {
    match op
    case AddPoints(s, p, amount) => CreditSurplus(b, s, p, amount, Select(b.rows, p, s), steamId);
    case Deduct(s, p, amount) => DeductSurplus(b, s, p, amount, steamId);
    case Adjust(s, p, amount) => CreditSurplus(b, s, p, amount, Select(b.rows, p, s), steamId);
    case AdjustRoute(s, p, amount, pick) => CreditSurplus(b, s, p, amount, AnyRow(b.rows, p, pick), steamId);
    case SignIn(s, p, ready, reward) => AddBalanceSurplus(b, s, p, OrElse(reward, 5), steamId);
    case Lottery(s, p, enabled, ready, cost, minR, maxR, roll) =>
      LotterySurplus(b, s, p, cost, Draw(minR, maxR, roll), steamId);
    case Redeem(s, p, hasSlot, cost) => ChargeSurplus(b, s, p, OrElse(cost, 50), steamId);
    case SwitchTeam(s, p, cost) => ChargeSurplus(b, s, p, OrElse(cost, 20), steamId);
    case Grant(s, p, value) => GrantSurplus(b, s, p, value, steamId);
  }

  lemma DriftsWhenUnbacked(b: Book, op: Op)
    ensures Drift(b, op) != 0 <==> Unbacked(b, op)
  {
  }

  /** Conservation, operation by operation: an operation moves a player's balances and logged amounts by the same
      sum, except for its own player when it is unbacked, and then it never does. */
  lemma ConservesUnlessUnbacked(b: Book, op: Op, steamId: string)
    ensures Surplus(Next(b, op), steamId) == Surplus(b, steamId) <==> !(steamId == op.steamId && Unbacked(b, op))
  {
    SurplusDrifts(b, op, steamId);
    DriftsWhenUnbacked(b, op);
  }

  function Run(b: Book, ops: seq<Op>): Book {
    if ops == [] then b else Next(Run(b, ops[..|ops| - 1]), ops[|ops| - 1])
  }

  predicate AllBacked(b: Book, ops: seq<Op>) {
    ops == [] || (AllBacked(b, ops[..|ops| - 1]) && !Unbacked(Run(b, ops[..|ops| - 1]), ops[|ops| - 1]))
  }

  /** Over every interleaving of backed operations, each player's balances over all rows add up to the player's
      logged amounts. */
  lemma {:induction false} RunConserves(servers: set<int>, ops: seq<Op>, steamId: string)
    requires AllBacked(Book([], [], servers), ops)
    ensures var b := Run(Book([], [], servers), ops); Held(b.rows, steamId) == Logged(b.logs, steamId)
  {
    if ops != [] {
      var n := |ops| - 1;
      RunConserves(servers, ops[..n], steamId);
      ConservesUnlessUnbacked(Run(Book([], [], servers), ops[..n]), ops[n], steamId);
    }
  }

  // ---------------------------------------------------------------- rows

  ghost predicate EarnedCovers(rows: seq<Row>) { forall r :: r in rows ==> r.lifetime >= r.balance }

  /** A deduction of a negative amount, which pays in without counting it as earned, beyond the row's slack. */
  predicate PaysInUnearned(b: Book, op: Op) {
    op.Deduct? &&
    var i := Select(b.rows, op.steamId, op.serverId);
    i < |b.rows| && b.rows[i].balance >= op.amount && b.rows[i].lifetime < b.rows[i].balance - op.amount
  }

  lemma CoversUpdate(b: Book, i: nat, amount: int, earned: int)
    requires i < |b.rows| && EarnedCovers(b.rows) && earned >= amount
    ensures EarnedCovers(Update(b, i, amount, earned).rows)
  {
    assert b.rows[i] in b.rows;
  }

  lemma CoversAddBalance(b: Book, serverId: int, p: string, amount: int)
    requires EarnedCovers(b.rows)
    ensures EarnedCovers(AddBalance(b, serverId, p, amount).rows)
  {
    var i := Select(b.rows, p, serverId);
    if i < |b.rows| { CoversUpdate(b, i, amount, amount); }
  }

  lemma CoversCredit(b: Book, serverId: int, p: string, amount: int, i: nat)
    requires EarnedCovers(b.rows) && i <= |b.rows|
    ensures EarnedCovers(Credit(b, serverId, p, amount, i).rows)
  {
    if i < |b.rows| { CoversUpdate(b, i, amount, Max0(amount)); }
  }

  lemma CoversDeduct(b: Book, s: int, p: string, amount: int)
    requires EarnedCovers(b.rows)
    ensures EarnedCovers(AfterDeduct(b, s, p, amount).rows) <==> !PaysInUnearned(b, Deduct(s, p, amount))
  {
    var i := Select(b.rows, p, s);
    if i < |b.rows| && b.rows[i].balance >= amount {
      var rows := AfterDeduct(b, s, p, amount).rows;
      assert rows[i] in rows && b.rows[i] in b.rows;
    }
  }

  lemma CoversLottery(b: Book, s: int, p: string, cost: int, reward: int)
    requires EarnedCovers(b.rows)
    ensures EarnedCovers(AfterLottery(b, s, p, cost, reward).rows)
  {
    var paid := AddBalance(b, s, p, -cost);
    CoversAddBalance(b, s, p, -cost);
    CoversAddBalance(if cost > 0 then paid else b, s, p, reward);
  }

  lemma CoversGrant(b: Book, s: int, p: string, value: int)
    requires EarnedCovers(b.rows)
    ensures EarnedCovers(AfterGrant(b, s, p, value).rows)
  {
    var i := Select(b.rows, p, s);
    if i < |b.rows| { CoversUpdate(b, i, value, value); }
  }

  /** Despite the different update rules, no row's balance ever exceeds what it has earned, exactly as long as no
      negative deduction exceeds the slack. */
  lemma EarnedCoversBalance(b: Book, op: Op)
    requires EarnedCovers(b.rows)
    ensures EarnedCovers(Next(b, op).rows) <==> !PaysInUnearned(b, op)
  {
    match op
    case AddPoints(s, p, amount) => CoversCredit(b, s, p, amount, Select(b.rows, p, s));
    case Deduct(s, p, amount) => CoversDeduct(b, s, p, amount);
    case Adjust(s, p, amount) => CoversCredit(b, s, p, amount, Select(b.rows, p, s));
    case AdjustRoute(s, p, amount, pick) => CoversCredit(b, s, p, amount, AnyRow(b.rows, p, pick));
    case SignIn(s, p, ready, reward) => CoversAddBalance(b, s, p, OrElse(reward, 5));
    case Lottery(s, p, enabled, ready, cost, minR, maxR, roll) => CoversLottery(b, s, p, cost, Draw(minR, maxR, roll));
    case Redeem(s, p, hasSlot, cost) => CoversAddBalance(b, s, p, -OrElse(cost, 50));
    case SwitchTeam(s, p, cost) => CoversAddBalance(b, s, p, -OrElse(cost, 20));
    case Grant(s, p, value) => CoversGrant(b, s, p, value);
  }

  ghost predicate NoDebt(rows: seq<Row>) { forall r :: r in rows ==> r.balance >= 0 }

  /** The operations that check a balance first, or only pay in. */
  predicate Guarded(op: Op) {
    match op
    case AddPoints(_, _, amount) => amount >= 0
    case Lottery(_, _, _, _, _, minR, maxR, roll) => Draw(minR, maxR, roll) >= 0
    case Grant(_, _, value) => value >= 0
    case _ => true
  }

  /** Booking an amount without a check takes the player below zero. */
  predicate Undercuts(b: Book, i: nat, serverId: int, amount: int) {
    if i < |b.rows| then b.rows[i].balance + amount < 0 else serverId in b.servers && amount < 0
  }

  /** The operations that leave a row below zero: only these book without checking what they book. */
  predicate Overdraws(b: Book, op: Op) {
    var i := Select(b.rows, op.steamId, op.serverId);
    match op
    case AddPoints(s, _, amount) => Undercuts(b, i, s, amount)
    case Grant(s, _, value) => Undercuts(b, i, s, value)
    case Lottery(_, _, enabled, ready, cost, minR, maxR, roll) =>
      enabled && ready && i < |b.rows| && (cost <= 0 || b.rows[i].balance >= cost) &&
      b.rows[i].balance - Max0(cost) + Draw(minR, maxR, roll) < 0
    case _ => false
  }

  lemma DebtUpdate(b: Book, i: nat, amount: int, earned: int)
    requires NoDebt(b.rows) && i < |b.rows|
    ensures NoDebt(Update(b, i, amount, earned).rows) <==> b.rows[i].balance + amount >= 0
  {
    var rows := Update(b, i, amount, earned).rows;
    assert rows[i] in rows;
  }

  lemma DebtInsert(rows: seq<Row>, r: Row)
    requires NoDebt(rows)
    ensures NoDebt(rows + [r]) <==> r.balance >= 0
  {
    assert r in rows + [r];
  }

  lemma DebtAddBalance(b: Book, serverId: int, p: string, amount: int)
    requires NoDebt(b.rows)
    ensures var i := Select(b.rows, p, serverId);
            NoDebt(AddBalance(b, serverId, p, amount).rows) <==> (i < |b.rows| ==> b.rows[i].balance + amount >= 0)
  {
    var i := Select(b.rows, p, serverId);
    if i < |b.rows| {
      DebtUpdate(b, i, amount, amount);
    } else {
      DebtInsert(b.rows, Row(Some(serverId), p, Max0(amount), Max0(amount)));
    }
  }

  lemma DebtCredit(b: Book, s: int, p: string, amount: int, i: nat)
    requires NoDebt(b.rows) && i <= |b.rows|
    ensures NoDebt(Credit(b, s, p, amount, i).rows) <==> !Undercuts(b, i, s, amount)
  {
    if i < |b.rows| {
      DebtUpdate(b, i, amount, Max0(amount));
    } else {
      DebtInsert(b.rows, Row(Some(s), p, amount, Max0(amount)));
    }
  }

  lemma NoDebtAdjust(b: Book, s: int, p: string, amount: int, i: nat)
    requires NoDebt(b.rows) && i <= |b.rows|
    ensures NoDebt(AfterAdjust(b, s, p, amount, i).rows)
  {
    DebtCredit(b, s, p, amount, i);
  }

  lemma NoDebtDeduct(b: Book, s: int, p: string, amount: int)
    requires NoDebt(b.rows)
    ensures NoDebt(AfterDeduct(b, s, p, amount).rows)
  {
    var i := Select(b.rows, p, s);
    if i < |b.rows| { DebtUpdate(b, i, -amount, 0); }
  }

  lemma SelectByKeys(rows: seq<Row>, i: nat, r: Row, p: string, s: int)
    requires i < |rows| && r.steamId == rows[i].steamId && r.serverId == rows[i].serverId
    ensures Select(rows[i := r], p, s) == Select(rows, p, s)
  {
    var rows' := rows[i := r];
    assert forall j :: 0 <= j < |rows| ==> rows'[j].steamId == rows[j].steamId && rows'[j].serverId == rows[j].serverId;
    assert FirstRow(rows', p, Some(s)) == FirstRow(rows, p, Some(s));
    assert FirstRow(rows', p, None) == FirstRow(rows, p, None);
  }

  lemma DebtLottery(b: Book, s: int, p: string, cost: int, reward: int)
    requires NoDebt(b.rows)
    ensures var i := Select(b.rows, p, s);
            NoDebt(AfterLottery(b, s, p, cost, reward).rows) <==>
            !(i < |b.rows| && (cost <= 0 || b.rows[i].balance >= cost) && b.rows[i].balance - Max0(cost) + reward < 0)
  {
    var i := Select(b.rows, p, s);
    if cost <= 0 {
      DebtAddBalance(b, s, p, reward);
    } else if i < |b.rows| && b.rows[i].balance >= cost {
      var r := b.rows[i];
      var paid := AddBalance(b, s, p, -cost);
      DebtAddBalance(b, s, p, -cost);
      SelectByKeys(b.rows, i, r.(balance := r.balance - cost, lifetime := r.lifetime - cost), p, s);
      DebtAddBalance(paid, s, p, reward);
    }
  }

  lemma NoDebtCharge(b: Book, s: int, p: string, price: int)
    requires NoDebt(b.rows)
    ensures NoDebt(AfterCharge(b, s, p, price).rows)
  {
    DebtAddBalance(b, s, p, -price);
  }

  lemma DebtGrant(b: Book, s: int, p: string, value: int)
    requires NoDebt(b.rows)
    ensures NoDebt(AfterGrant(b, s, p, value).rows) <==> !Undercuts(b, Select(b.rows, p, s), s, value)
  {
    var i := Select(b.rows, p, s);
    if i < |b.rows| {
      DebtUpdate(b, i, value, value);
    } else {
      DebtInsert(b.rows, Row(Some(s), p, value, value));
    }
  }

  /** No operation puts a player in debt, except, exactly, an unchecked award, grant or draw that is negative enough:
      wherever a balance is checked, the row checked is the row charged. */
  lemma NoDebtUnlessOverdrawn(b: Book, op: Op)
    requires NoDebt(b.rows)
    ensures NoDebt(Next(b, op).rows) <==> !Overdraws(b, op)
  {
    match op
    case AddPoints(s, p, amount) => DebtCredit(b, s, p, amount, Select(b.rows, p, s));
    case Deduct(s, p, amount) => NoDebtDeduct(b, s, p, amount);
    case Adjust(s, p, amount) => NoDebtAdjust(b, s, p, amount, Select(b.rows, p, s));
    case AdjustRoute(s, p, amount, pick) => NoDebtAdjust(b, s, p, amount, AnyRow(b.rows, p, pick));
    case SignIn(s, p, ready, reward) =>
      DebtAddBalance(b, s, p, OrElse(reward, 5));
      assert forall i :: 0 <= i < |b.rows| ==> b.rows[i] in b.rows;
    case Lottery(s, p, enabled, ready, cost, minR, maxR, roll) => DebtLottery(b, s, p, cost, Draw(minR, maxR, roll));
    case Redeem(s, p, hasSlot, cost) => NoDebtCharge(b, s, p, OrElse(cost, 50));
    case SwitchTeam(s, p, cost) => NoDebtCharge(b, s, p, OrElse(cost, 20));
    case Grant(s, p, value) => DebtGrant(b, s, p, value);
  }

  /** In particular none does that checks a balance first, or only pays in. */
  lemma GuardedKeepsNoDebt(b: Book, op: Op)
    requires NoDebt(b.rows) && Guarded(op)
    ensures NoDebt(Next(b, op).rows)
  {
    var i := Select(b.rows, op.steamId, op.serverId);
    assert i < |b.rows| ==> b.rows[i] in b.rows;
    NoDebtUnlessOverdrawn(b, op);
  }

  // ---------------------------------------------------------------- rows over runs

  ghost predicate NeverInDebt(b: Book, ops: seq<Op>) {
    NoDebt(Run(b, ops).rows) && (ops == [] || NeverInDebt(b, ops[..|ops| - 1]))
  }

  predicate NoneOverdraws(b: Book, ops: seq<Op>) {
    ops == [] || (NoneOverdraws(b, ops[..|ops| - 1]) && !Overdraws(Run(b, ops[..|ops| - 1]), ops[|ops| - 1]))
  }

  ghost predicate EarnedAllAlong(b: Book, ops: seq<Op>) {
    EarnedCovers(Run(b, ops).rows) && (ops == [] || EarnedAllAlong(b, ops[..|ops| - 1]))
  }

  predicate NonePaysInUnearned(b: Book, ops: seq<Op>) {
    ops == [] ||
    (NonePaysInUnearned(b, ops[..|ops| - 1]) && !PaysInUnearned(Run(b, ops[..|ops| - 1]), ops[|ops| - 1]))
  }

  /** Over every run from empty tables: no row is ever below zero, exactly if no operation overdraws one; and no row ever
      holds more than it earned, exactly if no negative deduction exceeds the slack. */
  lemma {:induction false} RunKeepsRowsSound(servers: set<int>, ops: seq<Op>)
    ensures NeverInDebt(Book([], [], servers), ops) <==> NoneOverdraws(Book([], [], servers), ops)
    ensures EarnedAllAlong(Book([], [], servers), ops) <==> NonePaysInUnearned(Book([], [], servers), ops)
  {
    if ops != [] {
      var front, last := ops[..|ops| - 1], ops[|ops| - 1];
      var b := Run(Book([], [], servers), front);
      RunKeepsRowsSound(servers, front);
      if NoDebt(b.rows) { NoDebtUnlessOverdrawn(b, last); }
      if EarnedCovers(b.rows) { EarnedCoversBalance(b, last); }
    }
  }

  /** Guarded operations never put anyone in debt, and deductions of nothing negative never pay in unearned. */
  lemma {:induction false} GuardedRunsAreSound(servers: set<int>, ops: seq<Op>)
    ensures (forall op :: op in ops ==> Guarded(op)) ==> NoDebt(Run(Book([], [], servers), ops).rows)
    ensures (forall op :: op in ops && op.Deduct? ==> op.amount >= 0) ==> EarnedCovers(Run(Book([], [], servers), ops).rows)
  {
    if ops != [] {
      var front, last := ops[..|ops| - 1], ops[|ops| - 1];
      var b := Run(Book([], [], servers), front);
      GuardedRunsAreSound(servers, front);
      assert last in ops && forall op :: op in front ==> op in ops;
      if NoDebt(b.rows) && Guarded(last) { GuardedKeepsNoDebt(b, last); }
      if EarnedCovers(b.rows) && (last.Deduct? ==> last.amount >= 0) {
        DeductIsEarned(b, last);
        EarnedCoversBalance(b, last);
      }
    }
  }

  lemma DeductIsEarned(b: Book, op: Op)
    requires EarnedCovers(b.rows) && (op.Deduct? ==> op.amount >= 0)
    ensures !PaysInUnearned(b, op)
  {
    if op.Deduct? {
      var i := Select(b.rows, op.steamId, op.serverId);
      assert i < |b.rows| ==> b.rows[i] in b.rows;
    }
  }

  /** On listed servers, and with no negative lottery draw, every operation is backed: balances and log agree. */
  lemma {:induction false} ListedServersConserve(servers: set<int>, ops: seq<Op>, steamId: string)
    requires forall op :: op in ops ==> op.serverId in servers && (op.Lottery? ==> Draw(op.minR, op.maxR, op.roll) >= 0)
    ensures var b := Run(Book([], [], servers), ops); Held(b.rows, steamId) == Logged(b.logs, steamId)
  {
    AllListedBacked(servers, ops);
    RunConserves(servers, ops, steamId);
  }

  lemma ServersStay(b: Book, op: Op)
    ensures Next(b, op).servers == b.servers
  {
  }

  lemma {:induction false} AllListedBacked(servers: set<int>, ops: seq<Op>)
    requires forall op :: op in ops ==> op.serverId in servers && (op.Lottery? ==> Draw(op.minR, op.maxR, op.roll) >= 0)
    ensures AllBacked(Book([], [], servers), ops) && Run(Book([], [], servers), ops).servers == servers
  {
    if ops != [] {
      var front, last := ops[..|ops| - 1], ops[|ops| - 1];
      assert last in ops && forall op :: op in front ==> op in ops;
      AllListedBacked(servers, front);
      ServersStay(Run(Book([], [], servers), front), last);
    }
  }

  // ---------------------------------------------------------------- how each of them fails

  lemma RunOne(b: Book, op: Op)
    ensures Run(b, [op]) == Next(b, op)
  {
    assert [op][..0] == [];
  }

  lemma RunTwo(b: Book, first: Op, second: Op)
    ensures Run(b, [first, second]) == Next(Next(b, first), second)
  {
    assert [first, second][..1] == [first];
    RunOne(b, first);
  }

  /** A player whose first award is a penalty starts below zero. */
  lemma PenaltyMakesDebt(p: string, penalty: int)
    requires penalty < 0
    ensures !NoDebt(Run(Book([], [], {1}), [AddPoints(1, p, penalty)]).rows)
  {
    var op := AddPoints(1, p, penalty);
    RunOne(Book([], [], {1}), op);
    NoDebtUnlessOverdrawn(Book([], [], {1}), op);
  }

  /** An award on a server that is not in the table is logged and never booked. */
  lemma UnlistedAwardIsLost(p: string, amount: int)
    requires amount != 0
    ensures var b := Run(Book([], [], {}), [AddPoints(1, p, amount)]); Held(b.rows, p) != Logged(b.logs, p)
  {
    var op := AddPoints(1, p, amount);
    RunOne(Book([], [], {}), op);
    ConservesUnlessUnbacked(Book([], [], {}), op, p);
  }

  /** A free lottery with a negative draw is logged as such, and booked as nothing. */
  lemma NegativeDrawIsLogged(p: string, draw: int)
    requires draw < 0
    ensures var b := Run(Book([], [], {1}), [Lottery(1, p, true, true, 0, draw, draw, 0)]);
            Held(b.rows, p) != Logged(b.logs, p)
  {
    var op := Lottery(1, p, true, true, 0, draw, draw, 0);
    assert Draw(draw, draw, 0) == draw;
    RunOne(Book([], [], {1}), op);
    ConservesUnlessUnbacked(Book([], [], {1}), op, p);
  }

  /** After an award, the deduction of a negative amount leaves more on the row than it ever earned. */
  lemma NegativeDeductionIsUnearned(p: string, award: int, amount: int)
    requires award >= 0 > amount
    ensures !EarnedCovers(Run(Book([], [], {1}), [AddPoints(1, p, award), Deduct(1, p, amount)]).rows)
  {
    var b0, op1, op2 := Book([], [], {1}), AddPoints(1, p, award), Deduct(1, p, amount);
    RunTwo(b0, op1, op2);
    EarnedCoversBalance(b0, op1);
    assert Next(b0, op1).rows == [Row(Some(1), p, award, award)];
    EarnedCoversBalance(Next(b0, op1), op2);
  }
}

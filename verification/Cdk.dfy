/** Activation codes: a chat line with a code grants its reward once per player, a limited number of times. */
module Cdk {
  import opened Wrappers
  import L = Ledger

  datatype Kind = PointsReward | SlotReward | OtherReward

  datatype Code = Code(kind: Kind, value: int, serverId: Option<int>, maxUses: int, usedCount: int, expiresAt: Option<int>)

  /** A row of the usage log. */
  datatype Use = Use(code: string, steamId: string, serverId: int)

  datatype Shop = Shop(codes: map<string, Code>, uses: seq<Use>, slots: set<(int, string)>, book: L.Book)

  datatype Answer = NoSuchCode | Expired | UsedUp | WrongServer | AlreadyUsed | Redeemed

  predicate Fits(c: Code, serverId: int) { c.serverId == None || c.serverId == Some(0) || c.serverId == Some(serverId) }

  predicate HasUsed(uses: seq<Use>, code: string, steamId: string) {
    exists i :: 0 <= i < |uses| && uses[i].code == code && uses[i].steamId == steamId
  }

  function Decide(s: Shop, code: string, steamId: string, serverId: int, now: int): Answer {
    if code !in s.codes then NoSuchCode
    else
      var c := s.codes[code];
      if c.expiresAt.Some? && c.expiresAt.value < now then Expired
      else if c.usedCount >= c.maxUses then UsedUp
      else if !Fits(c, serverId) then WrongServer
      else if HasUsed(s.uses, code, steamId) then AlreadyUsed
      else Redeemed
  }

  function Redeem(s: Shop, code: string, steamId: string, serverId: int, now: int): Shop {
    if Decide(s, code, steamId, serverId, now) != Redeemed then s
    else
      var c := s.codes[code];
      Shop(s.codes[code := c.(usedCount := c.usedCount + 1)],
           s.uses + [Use(code, steamId, serverId)],
           if c.kind == SlotReward then s.slots + {(serverId, steamId)} else s.slots,
           if c.kind == PointsReward then L.AfterGrant(s.book, serverId, steamId, c.value) else s.book)
  }

  class Plugin {
    const db: L.Database
    var codes: map<string, Code>
    var uses: seq<Use>
    var slots: set<(int, string)>

    function State(): Shop
      reads this, db
    {
      Shop(codes, uses, slots, db.State())
    }

    constructor (db: L.Database, codes: map<string, Code>)
      ensures this.db == db && State() == Shop(codes, [], {}, db.State())
    {
      this.db, this.codes, uses, slots := db, codes, [], {};
    }

    method Handle(code: string, steamId: string, serverId: int, now: int) returns (a: Answer)
      modifies this, db
      ensures a == Decide(old(State()), code, steamId, serverId, now)
      ensures State() == Redeem(old(State()), code, steamId, serverId, now)
    {
      if code !in codes { return NoSuchCode; }
      var cdk := codes[code];
      if cdk.expiresAt.Some? {
        if cdk.expiresAt.value < now { return Expired; }
      }
      if cdk.usedCount >= cdk.maxUses { return UsedUp; }
      if cdk.serverId.Some? && cdk.serverId != Some(0) && cdk.serverId != Some(serverId) { return WrongServer; }
      if HasUsed(uses, code, steamId) { return AlreadyUsed; }
      if cdk.kind == PointsReward {
        db.GrantPoints(serverId, steamId, cdk.value);
      } else if cdk.kind == SlotReward {
        if (serverId, steamId) !in slots { slots := slots + {(serverId, steamId)}; }
      }
      codes := codes[code := cdk.(usedCount := cdk.usedCount + 1)];
      uses := uses + [Use(code, steamId, serverId)];
      return Redeemed;
    }
  }

  // ---------------------------------------------------------------- runs

  /** Redemption attempts, interleaved with anything else that happens to the ledger. */
  datatype Step = TryCode(code: string, steamId: string, serverId: int, now: int) | Other(op: L.Op)

  function Next(s: Shop, step: Step): Shop {
    match step
    case TryCode(code, steamId, serverId, now) => Redeem(s, code, steamId, serverId, now)
    case Other(op) => s.(book := L.Next(s.book, op))
  }

  function Run(s: Shop, steps: seq<Step>): Shop {
    if steps == [] then s else Next(Run(s, steps[..|steps| - 1]), steps[|steps| - 1])
  }

  /** Who redeemed a code, in order. */
  function Redeemers(uses: seq<Use>, code: string): seq<string> {
    if uses == [] then [] else
      var n := |uses| - 1;
      if uses[n].code == code then Redeemers(uses[..n], code) + [uses[n].steamId] else Redeemers(uses[..n], code)
  }

  /** All amounts in the points log. */
  function LoggedInAll(logs: seq<L.Log>): int {
    if logs == [] then 0 else LoggedInAll(logs[..|logs| - 1]) + logs[|logs| - 1].amount
  }

  /** What a step writes to the points log if it is an attempt with the code. */
  function Paid(s: Shop, step: Step, code: string): int {
    if step.TryCode? && step.code == code then LoggedInAll(Next(s, step).book.logs) - LoggedInAll(s.book.logs) else 0
  }

  /** What `n` redemptions on some terms are worth in points. */
  function Worth(terms: Code, n: int): int { if terms.kind == PointsReward then n * terms.value else 0 }

  /** What the attempts with one code wrote to the points log. */
  function PaidOut(s: Shop, steps: seq<Step>, code: string): int {
    if steps == [] then 0 else
      var n := |steps| - 1;
      var before := Run(s, steps[..n]);
      PaidOut(s, steps[..n], code) + Paid(before, steps[n], code)
  }

  predicate Distinct(xs: seq<string>) { forall i, j :: 0 <= i < j < |xs| ==> xs[i] != xs[j] }

  predicate Fresh(s: Shop, code: string) { code in s.codes && s.codes[code].usedCount == 0 && s.uses == [] }

  /** The terms of a code, without its counter. */
  function Terms(c: Code): Code { c.(usedCount := 0) }

  lemma {:induction false} RedeemersIn(uses: seq<Use>, code: string, steamId: string)
    ensures steamId in Redeemers(uses, code) <==> HasUsed(uses, code, steamId)
  {
    if uses != [] {
      var n := |uses| - 1;
      RedeemersIn(uses[..n], code, steamId);
      if HasUsed(uses[..n], code, steamId) {
        var i :| 0 <= i < n && uses[..n][i].code == code && uses[..n][i].steamId == steamId;
        assert uses[i].code == code;
      }
      if HasUsed(uses, code, steamId) && !(uses[n].code == code && uses[n].steamId == steamId) {
        var i :| 0 <= i < |uses| && uses[i].code == code && uses[i].steamId == steamId;
        assert uses[..n][i].code == code;
      }
    }
  }

  predicate Sound(s: Shop, code: string, terms: Code) {
    && code in s.codes && Terms(s.codes[code]) == terms
    && s.codes[code].usedCount == |Redeemers(s.uses, code)|
    && (s.codes[code].usedCount == 0 || s.codes[code].usedCount <= terms.maxUses)
    && Distinct(Redeemers(s.uses, code))
  }

  lemma RedeemKeepsSound(s: Shop, code: string, terms: Code, step: Step)
    requires Sound(s, code, terms)
    ensures Sound(Next(s, step), code, terms)
    ensures var s' := Next(s, step);
            Paid(s, step, code) == Worth(terms, s'.codes[code].usedCount - s.codes[code].usedCount)
  {
    if step.TryCode? && Decide(s, step.code, step.steamId, step.serverId, step.now) == Redeemed {
      var use := Use(step.code, step.steamId, step.serverId);
      assert (s.uses + [use])[..|s.uses|] == s.uses;
      if step.code == code {
        RedeemersIn(s.uses, code, step.steamId);
        var book := L.AfterGrant(s.book, step.serverId, step.steamId, terms.value);
        assert book.logs[..|s.book.logs|] == s.book.logs;
        assert LoggedInAll(book.logs) == LoggedInAll(s.book.logs) + terms.value;
      }
    }
  }

  lemma WorthAdds(terms: Code, u: int, v: int)
    ensures Worth(terms, u) + Worth(terms, v - u) == Worth(terms, v)
  {
    assert u * terms.value + (v - u) * terms.value == v * terms.value;
  }

  lemma CountStep(s: Shop, code: string, terms: Code, step: Step, paid: int)
    requires Sound(s, code, terms) && paid == Worth(terms, s.codes[code].usedCount)
    ensures Sound(Next(s, step), code, terms)
    ensures paid + Paid(s, step, code) == Worth(terms, Next(s, step).codes[code].usedCount)
  {
    RedeemKeepsSound(s, code, terms, step);
    WorthAdds(terms, s.codes[code].usedCount, Next(s, step).codes[code].usedCount);
  }

  /** Over every run from a fresh code, whatever happens to other codes and to the ledger: the counter is the
      number of usage rows and of distinct redeemers, stays within the limit, and the points logged by
      redemptions of the code are the counter times its value. */
  lemma {:induction false} CodeIsCounted(s: Shop, steps: seq<Step>, code: string)
    requires Fresh(s, code)
    ensures var t := Run(s, steps);
            && Sound(t, code, Terms(s.codes[code]))
            && PaidOut(s, steps, code) == Worth(s.codes[code], t.codes[code].usedCount)
  {
    var terms := Terms(s.codes[code]);
    assert terms == s.codes[code];
    if steps == [] {
      WorthAdds(terms, 0, 0);
    } else {
      var front, last := steps[..|steps| - 1], steps[|steps| - 1];
      CodeIsCounted(s, front, code);
      var t := Run(s, front);
      CountStep(t, code, terms, last, PaidOut(s, front, code));
    }
  }

  /** Redeeming touches nobody's balance unless it succeeds and there is a row to book on or one can be made: without
      either the code is used up and logged, and the reward is lost. */
  lemma OnlyRedeemedPays(s: Shop, code: string, steamId: string, serverId: int, now: int, other: string)
    ensures var s' := Redeem(s, code, steamId, serverId, now);
            var pays := Decide(s, code, steamId, serverId, now) == Redeemed && s.codes[code].kind == PointsReward;
            var booked := L.Select(s.book.rows, steamId, serverId) < |s.book.rows| || serverId in s.book.servers;
            && L.Held(s'.book.rows, other) ==
               L.Held(s.book.rows, other) + (if other == steamId && pays && booked then s.codes[code].value else 0)
            && L.Logged(s'.book.logs, other) ==
               L.Logged(s.book.logs, other) + (if other == steamId && pays then s.codes[code].value else 0)
  {
    if Decide(s, code, steamId, serverId, now) == Redeemed && s.codes[code].kind == PointsReward {
      var v, i := s.codes[code].value, L.Select(s.book.rows, steamId, serverId);
      var logged := s.book.logs + [L.Log(serverId, steamId, v)];
      assert logged[..|s.book.logs|] == s.book.logs;
      if i < |s.book.rows| {
        var r := s.book.rows[i];
        L.HeldUpdate(s.book.rows, i, r.(balance := r.balance + v, lifetime := r.lifetime + v), other);
      } else {
        L.SurplusInsert(s.book, L.Row(Some(serverId), steamId, v, v), other);
      }
    }
  }

  /** A code pays out exactly if it exists, is not past its date, has uses left, is good for the server, and the player
      has not used it; otherwise the first of these that fails is what the player is told. */
  lemma DecideMeaning(s: Shop, code: string, steamId: string, serverId: int, now: int)
    ensures var a := Decide(s, code, steamId, serverId, now);
            && (a == NoSuchCode <==> code !in s.codes)
            && (code in s.codes ==>
                 var c := s.codes[code];
                 var expired := c.expiresAt.Some? && c.expiresAt.value < now;
                 var elsewhere := c.serverId.Some? && c.serverId.value != 0 && c.serverId.value != serverId;
                 var again := exists i :: 0 <= i < |s.uses| && s.uses[i].code == code && s.uses[i].steamId == steamId;
                 && (a == Expired <==> expired)
                 && (a == UsedUp <==> !expired && c.usedCount >= c.maxUses)
                 && (a == WrongServer <==> !expired && c.usedCount < c.maxUses && elsewhere)
                 && (a == AlreadyUsed <==> !expired && c.usedCount < c.maxUses && !elsewhere && again)
                 && (a == Redeemed <==> !expired && c.usedCount < c.maxUses && !elsewhere && !again))
  {
  }

  /** The attempt that a usage row records: the player's own, with this code, in time, on a server it is good for. */
  predicate Earns(terms: Code, step: Step, use: Use) {
    && step.TryCode? && step.code == use.code && step.steamId == use.steamId && step.serverId == use.serverId
    && (terms.expiresAt.Some? ==> step.now <= terms.expiresAt.value)
    && (terms.serverId.Some? && terms.serverId.value != 0 ==> step.serverId == terms.serverId.value)
  }

  lemma NewUseIsEarned(s: Shop, terms: Code, step: Step, use: Use)
    requires use.code in s.codes && Terms(s.codes[use.code]) == terms
    requires use in Next(s, step).uses && use !in s.uses
    ensures Earns(terms, step, use)
  {
    assert step.TryCode? && use == Use(step.code, step.steamId, step.serverId);
    DecideMeaning(s, step.code, step.steamId, step.serverId, step.now);
  }

  predicate WasEarned(terms: Code, steps: seq<Step>, use: Use) { exists k :: 0 <= k < |steps| && Earns(terms, steps[k], use) }

  lemma EarnedBefore(terms: Code, steps: seq<Step>, use: Use)
    requires steps != [] && (WasEarned(terms, steps[..|steps| - 1], use) || Earns(terms, steps[|steps| - 1], use))
    ensures WasEarned(terms, steps, use)
  {
    if !Earns(terms, steps[|steps| - 1], use) {
      var front := steps[..|steps| - 1];
      var k :| 0 <= k < |front| && Earns(terms, front[k], use);
      assert steps[k] == front[k];
    }
  }

  /** Over every run from a fresh code, every usage row of it records such an attempt. */
  lemma {:induction false} UsesWereEarned(s: Shop, steps: seq<Step>, code: string, use: Use)
    requires Fresh(s, code) && use in Run(s, steps).uses && use.code == code
    ensures WasEarned(Terms(s.codes[code]), steps, use)
  {
    var terms, front, last := Terms(s.codes[code]), steps[..|steps| - 1], steps[|steps| - 1];
    var t := Run(s, front);
    CodeIsCounted(s, front, code);
    if use in t.uses { UsesWereEarned(s, front, code, use); } else { NewUseIsEarned(t, terms, last, use); }
    EarnedBefore(terms, steps, use);
  }

  /** A slot code gives the player the server's slot, and nothing else gives anyone any. */
  lemma SlotsGiven(s: Shop, code: string, steamId: string, serverId: int, now: int, slot: (int, string))
    ensures slot in Redeem(s, code, steamId, serverId, now).slots <==>
            slot in s.slots ||
            (slot == (serverId, steamId) && Decide(s, code, steamId, serverId, now) == Redeemed && s.codes[code].kind == SlotReward)
  {
  }
}

/** Wound/death correlation: a wound is remembered under its victim until the death it explains, and old wounds
    are cleaned up from time to time. Lines come parsed. */
module Wounds {
  import opened Wrappers

  const NULL_ID := "00000000000000000"

  /** A wound line, and a remembered wound. */
  datatype Hit = Hit(victim: string, damage: real, controller: string, steamId: string, eosId: string, weapon: string)
  datatype Wound = Wound(hit: Hit, time: int)

  datatype Death = Death(victim: string, damage: real, controller: string, steamId: string, eosId: string, weapon: string)

  datatype Event =
    | Wounded(hit: Hit)
    | Kill(killer: string, steamId: string, eosId: string, victim: string, weapon: string, damage: real)
    | Suicide(victim: string, steamId: string, eosId: string, weapon: string, damage: real)

  datatype Limits = Limits(expiryMs: int, dedupMs: int)

  type Store = map<string, Wound>

  // ---------------------------------------------------------------- one line

  predicate Contains(s: string, part: string) {
    part <= s || (s != [] && Contains(s[1..], part))
  }

  /** The wound a death is explained by: the remembered one, unless it has expired. */
  function Credit(s: Store, victim: string, now: int, l: Limits): Option<Wound> {
    if victim in s && now - s[victim].time <= l.expiryMs then Some(s[victim]) else None
  }

  /** The event of a death. The wound's attacker replaces the line's unless it is a placeholder; whether it is a
      suicide is decided by the line alone. */
  function Resolve(d: Death, credit: Option<Wound>): Event {
    var known := credit.Some? && credit.value.hit.steamId != "" && credit.value.hit.steamId != NULL_ID;
    var steamId := if known then credit.value.hit.steamId else d.steamId;
    var eosId := if known then credit.value.hit.eosId else d.eosId;
    var controller :=
      if credit.Some? && Contains(d.controller, "PlayerController") then credit.value.hit.controller else d.controller;
    var weapon := if credit.Some? && credit.value.hit.weapon != "" then credit.value.hit.weapon else d.weapon;
    if d.steamId == NULL_ID || d.controller == "nullptr" || d.controller == "None" || d.controller == ""
    then Suicide(d.victim, steamId, eosId, weapon, d.damage)
    else Kill(controller, steamId, eosId, d.victim, weapon, d.damage)
  }

  function Expire(s: Store, now: int, l: Limits): Store {
    map v | v in s && now - s[v].time <= l.expiryMs :: s[v]
  }

  function Recent(s: Store, now: int, l: Limits): set<Hit> {
    set v | v in s && now - s[v].time < l.dedupMs :: s[v].hit
  }

  class Tracker {
    const limits: Limits
    var woundStore: Store

    constructor (limits: Limits)
      ensures woundStore == map[] && this.limits == limits
    {
      this.limits, woundStore := limits, map[];
    }

    method ProcessWound(hit: Hit, now: int) returns (e: Event)
      modifies this
      ensures woundStore == old(woundStore)[hit.victim := Wound(hit, now)] && e == Wounded(hit)
    {
      woundStore := woundStore[hit.victim := Wound(hit, now)];
      return Wounded(woundStore[hit.victim].hit);
    }

    method ProcessDie(d: Death, now: int) returns (e: Event)
      modifies this
      ensures var credit := Credit(old(woundStore), d.victim, now, limits);
              && e == Resolve(d, credit)
              && woundStore == if credit.Some? then old(woundStore) - {d.victim} else old(woundStore)
    {
      var controller, eosId, steamId, weapon := d.controller, d.eosId, d.steamId, d.weapon;
      var isNullAttacker := steamId == NULL_ID || controller == "nullptr" || controller == "None" || controller == "";
      if d.victim in woundStore {
        var w := woundStore[d.victim];
        if now - w.time <= limits.expiryMs {
          if w.hit.steamId != "" && w.hit.steamId != NULL_ID {
            steamId := w.hit.steamId;
            eosId := w.hit.eosId;
          }
          if Contains(controller, "PlayerController") { controller := w.hit.controller; }
          weapon := if w.hit.weapon == "" then weapon else w.hit.weapon;
          woundStore := woundStore - {d.victim};
        }
      }
      if isNullAttacker {
        e := Suicide(d.victim, steamId, eosId, weapon, d.damage);
      } else {
        e := Kill(controller, steamId, eosId, d.victim, weapon, d.damage);
      }
    }

    method Cleanup(now: int)
      modifies this
      ensures woundStore == Expire(old(woundStore), now, limits)
    {
      var todo := woundStore.Keys;
      while todo != {}
        invariant todo <= woundStore.Keys
        invariant forall v :: v in woundStore ==> v in old(woundStore) && woundStore[v] == old(woundStore)[v]
        invariant forall v :: v in old(woundStore) && v !in todo ==>
          (v in woundStore <==> now - old(woundStore)[v].time <= limits.expiryMs)
        decreases |todo|
      {
        var v :| v in todo;
        todo := todo - {v};
        if now - woundStore[v].time > limits.expiryMs { woundStore := woundStore - {v}; }
      }
    }

    method GetRecentWounds(now: int) returns (result: seq<Hit>)
      ensures (set h | h in result) == Recent(woundStore, now, limits)
    {
      result := [];
      var todo := woundStore.Keys;
      while todo != {}
        invariant todo <= woundStore.Keys
        invariant forall h :: h in result ==> h in Recent(woundStore, now, limits)
        invariant forall v :: v in woundStore && v !in todo && now - woundStore[v].time < limits.dedupMs ==>
          woundStore[v].hit in result
        decreases |todo|
      {
        var v :| v in todo;
        todo := todo - {v};
        if now - woundStore[v].time < limits.dedupMs { result := result + [woundStore[v].hit]; }
      }
    }
  }

  // ---------------------------------------------------------------- runs

  datatype Command = WoundLine(hit: Hit) | DieLine(death: Death) | CleanUp | AskRecent

  datatype Timed = Timed(now: int, cmd: Command)

  datatype Output = Emitted(event: Event) | Listed(recent: set<Hit>)

  function Next(s: Store, t: Timed, l: Limits): Store {
    match t.cmd
    case WoundLine(hit) => s[hit.victim := Wound(hit, t.now)]
    case DieLine(d) => if Credit(s, d.victim, t.now, l).Some? then s - {d.victim} else s
    case CleanUp => Expire(s, t.now, l)
    case AskRecent => s
  }

  function Shown(s: Store, t: Timed, l: Limits): seq<Output> {
    match t.cmd
    case WoundLine(hit) => [Emitted(Wounded(hit))]
    case DieLine(d) => [Emitted(Resolve(d, Credit(s, d.victim, t.now, l)))]
    case CleanUp => []
    case AskRecent => [Listed(Recent(s, t.now, l))]
  }

  function Outputs(s: Store, run: seq<Timed>, l: Limits): seq<Output>
    decreases |run|
  {
    if run == [] then [] else Shown(s, run[0], l) + Outputs(Next(s, run[0], l), run[1..], l)
  }

  predicate Monotone(run: seq<Timed>, since: int) {
    run == [] || (since <= run[0].now && Monotone(run[1..], run[0].now))
  }

  function NoCleanUps(run: seq<Timed>): seq<Timed> {
    if run == [] then []
    else if run[0].cmd == CleanUp then NoCleanUps(run[1..]) else [run[0]] + NoCleanUps(run[1..])
  }

  /** The two memories agree on every wound that has not expired, and hold no wound from the future. */
  ghost predicate Agree(a: Store, b: Store, now: int, l: Limits) {
    && (forall v :: Credit(a, v, now, l) == Credit(b, v, now, l))
    && (forall v :: v in a ==> a[v].time <= now)
    && (forall v :: v in b ==> b[v].time <= now)
  }

  /** Only unexpired wounds are ever listed, or none are. */
  predicate DedupWithinExpiry(l: Limits) { l.dedupMs <= l.expiryMs + 1 || l.dedupMs <= 0 }

  lemma LaterAgree(a: Store, b: Store, now: int, later: int, l: Limits)
    requires Agree(a, b, now, l) && now <= later
    ensures Agree(a, b, later, l)
  {
    forall v ensures Credit(a, v, later, l) == Credit(b, v, later, l) {
      assert Credit(a, v, now, l) == Credit(b, v, now, l);
    }
  }

  lemma AgreeRecent(a: Store, b: Store, now: int, l: Limits)
    requires Agree(a, b, now, l) && DedupWithinExpiry(l)
    ensures Recent(a, now, l) <= Recent(b, now, l)
  {
    forall v | v in a && now - a[v].time < l.dedupMs ensures v in b && b[v] == a[v] {
      assert Credit(a, v, now, l) == Credit(b, v, now, l);
    }
  }

  lemma AgreeSymmetric(a: Store, b: Store, now: int, l: Limits)
    requires Agree(a, b, now, l)
    ensures Agree(b, a, now, l)
  {
  }

  /** For any limits: memories that agree show the same of every line, and still agree after it. */
  lemma AgreeingStep(a: Store, b: Store, t: Timed, l: Limits)
    requires Agree(a, b, t.now, l)
    ensures t.cmd != AskRecent ==> Shown(a, t, l) == Shown(b, t, l)
    ensures Agree(Next(a, t, l), Next(b, t, l), t.now, l)
    ensures t.cmd == CleanUp ==> Agree(Next(a, t, l), b, t.now, l)
  {
    if t.cmd.DieLine? { assert Credit(a, t.cmd.death.victim, t.now, l) == Credit(b, t.cmd.death.victim, t.now, l); }
    forall v ensures Credit(Next(a, t, l), v, t.now, l) == Credit(Next(b, t, l), v, t.now, l) {
      assert Credit(a, v, t.now, l) == Credit(b, v, t.now, l);
    }
    if t.cmd == CleanUp {
      forall v ensures Credit(Next(a, t, l), v, t.now, l) == Credit(b, v, t.now, l) {
        assert Credit(a, v, t.now, l) == Credit(b, v, t.now, l);
      }
    }
  }

  lemma SameStep(a: Store, b: Store, t: Timed, l: Limits)
    requires Agree(a, b, t.now, l) && (t.cmd != AskRecent || DedupWithinExpiry(l))
    ensures Shown(a, t, l) == Shown(b, t, l)
    ensures Agree(Next(a, t, l), Next(b, t, l), t.now, l)
    ensures t.cmd == CleanUp ==> Agree(Next(a, t, l), b, t.now, l)
  {
    AgreeingStep(a, b, t, l);
    if t.cmd == AskRecent {
      AgreeSymmetric(a, b, t.now, l);
      AgreeRecent(a, b, t.now, l);
      AgreeRecent(b, a, t.now, l);
      assert Recent(a, t.now, l) == Recent(b, t.now, l);
    }
  }

  lemma {:induction false} SameOutputs(a: Store, b: Store, run: seq<Timed>, since: int, l: Limits)
    requires Agree(a, b, since, l) && Monotone(run, since)
    requires DedupWithinExpiry(l) || forall t :: t in run ==> t.cmd != AskRecent
    ensures Outputs(a, run, l) == Outputs(b, NoCleanUps(run), l)
    decreases |run|
  {
    if run != [] {
      var t := run[0];
      assert t in run;
      LaterAgree(a, b, since, t.now, l);
      SameStep(a, b, t, l);
      if t.cmd == CleanUp {
        SameOutputs(Next(a, t, l), b, run[1..], t.now, l);
      } else {
        SameOutputs(Next(a, t, l), Next(b, t, l), run[1..], t.now, l);
        assert NoCleanUps(run)[1..] == NoCleanUps(run[1..]);
      }
    }
  }

  /** What a run emits: its outputs without the answers to questions about recent wounds. */
  function Events(s: Store, run: seq<Timed>, l: Limits): seq<Output>
    decreases |run|
  {
    if run == [] then [] else
      (if run[0].cmd == AskRecent then [] else Shown(s, run[0], l)) + Events(Next(s, run[0], l), run[1..], l)
  }

  /** For any limits at all, the events of a run are those it has without its cleanups, whatever is asked in between. */
  lemma {:induction false} EventsNeverShowCleanup(a: Store, b: Store, run: seq<Timed>, since: int, l: Limits)
    requires Agree(a, b, since, l) && Monotone(run, since)
    ensures Events(a, run, l) == Events(b, NoCleanUps(run), l)
    decreases |run|
  {
    if run != [] {
      var t := run[0];
      LaterAgree(a, b, since, t.now, l);
      AgreeingStep(a, b, t, l);
      if t.cmd == CleanUp {
        EventsNeverShowCleanup(Next(a, t, l), b, run[1..], t.now, l);
      } else {
        EventsNeverShowCleanup(Next(a, t, l), Next(b, t, l), run[1..], t.now, l);
        assert NoCleanUps(run)[1..] == NoCleanUps(run[1..]);
      }
    }
  }

  /** From an empty memory, a run whose clock does not go back shows what it would show without its cleanups. */
  predicate Invisible(run: seq<Timed>, since: int, l: Limits) {
    var none: Store := map[];
    Monotone(run, since) ==> Outputs(none, run, l) == Outputs(none, NoCleanUps(run), l)
  }

  /** Cleaning up, anywhere in any run, is invisible exactly when the dedup window is at most one millisecond
      longer than the expiry, or is empty. */
  lemma CleanupIsInvisible(l: Limits)
    ensures DedupWithinExpiry(l) <==> forall run: seq<Timed>, since: int :: Invisible(run, since, l)
  {
    if DedupWithinExpiry(l) {
      forall run: seq<Timed>, since: int ensures Invisible(run, since, l) {
        if Monotone(run, since) { SameOutputs(map[], map[], run, since, l); }
      }
    } else {
      var hit := Hit("v", 1.0, "a", "1", "e", "w");
      VisibleCleanup(l, hit);
    }
  }

  lemma VisibleCleanup(l: Limits, hit: Hit)
    requires !DedupWithinExpiry(l)
    ensures var late := if l.expiryMs + 1 > 0 then l.expiryMs + 1 else 0;
            var run := [Timed(0, WoundLine(hit)), Timed(late, CleanUp), Timed(late, AskRecent)];
            !Invisible(run, 0, l)
  {
    var late := if l.expiryMs + 1 > 0 then l.expiryMs + 1 else 0;
    var a, b, c := Timed(0, WoundLine(hit)), Timed(late, CleanUp), Timed(late, AskRecent);
    var run := [a, b, c];
    var s1: Store := map[hit.victim := Wound(hit, 0)];
    assert run[1..] == [b, c] && [b, c][1..] == [c] && [c][1..] == [];
    assert Monotone([c], late) && Monotone([b, c], 0);
    assert Next(map[], a, l) == s1 && Next(s1, b, l) == map[];
    assert Outputs(map[], [c], l) == [Listed(Recent(map[], late, l))] + [];
    assert Outputs(s1, [c], l) == [Listed(Recent(s1, late, l))] + [];
    assert Outputs(s1, [b, c], l) == [] + Outputs(map[], [c], l);
    assert NoCleanUps([c]) == [c] + [] && NoCleanUps([b, c]) == [c];
    assert NoCleanUps(run) == [a] + [c];
    assert [a, c][1..] == [c];
    assert s1[hit.victim].hit in Recent(s1, late, l);
    assert Outputs(map[], run, l)[1] == Listed(Recent(map[], late, l));
    assert Outputs(map[], [a, c], l)[1] == Listed(Recent(s1, late, l));
  }

  // ---------------------------------------------------------------- which wound explains a death

  function StoreAfter(run: seq<Timed>, l: Limits): Store {
    if run == [] then map[] else Next(StoreAfter(run[..|run| - 1], l), run[|run| - 1], l)
  }

  predicate About(t: Timed, victim: string) {
    (t.cmd.WoundLine? && t.cmd.hit.victim == victim) || (t.cmd.DieLine? && t.cmd.death.victim == victim)
  }

  /** Where a victim was last heard of, or the length if nowhere. */
  function LastAbout(run: seq<Timed>, victim: string): (i: nat)
    ensures i <= |run|
    ensures i < |run| ==> About(run[i], victim)
    ensures forall k :: (if i < |run| then i + 1 else 0) <= k < |run| ==> !About(run[k], victim)
  {
    if run == [] then 0 else
      var n := |run| - 1;
      if About(run[n], victim) then n
      else
        var i := LastAbout(run[..n], victim);
        if i == n then |run| else i
  }

  /** The reference: a death is explained by the last line about its victim, if that is a wound not yet expired. */
  function Explanation(run: seq<Timed>, victim: string, now: int, l: Limits): Option<Wound> {
    var i := LastAbout(run, victim);
    if i < |run| && run[i].cmd.WoundLine? && now - run[i].now <= l.expiryMs then Some(Wound(run[i].cmd.hit, run[i].now))
    else None
  }

  predicate Ordered(run: seq<Timed>, end: int) {
    (forall i :: 0 <= i < |run| ==> run[i].now <= end) &&
    (forall i, j :: 0 <= i < j < |run| ==> run[i].now <= run[j].now)
  }

  lemma CreditAfterStep(s: Store, t: Timed, victim: string, now: int, l: Limits)
    requires t.now <= now
    ensures Credit(Next(s, t, l), victim, now, l) ==
            if t.cmd.WoundLine? && t.cmd.hit.victim == victim
            then (if now - t.now <= l.expiryMs then Some(Wound(t.cmd.hit, t.now)) else None)
            else if t.cmd.DieLine? && t.cmd.death.victim == victim then None
            else Credit(s, victim, now, l)
  {
  }

  lemma ExplanationAfterStep(run: seq<Timed>, victim: string, now: int, l: Limits)
    requires run != []
    ensures var n := |run| - 1;
            if About(run[n], victim) then LastAbout(run, victim) == n
            else Explanation(run, victim, now, l) == Explanation(run[..n], victim, now, l)
  {
  }

  /** In any run, with cleanups anywhere, the store explains a death as the reference does. */
  lemma {:induction false} CreditIsExplanation(run: seq<Timed>, victim: string, now: int, l: Limits)
    requires Ordered(run, now)
    ensures Credit(StoreAfter(run, l), victim, now, l) == Explanation(run, victim, now, l)
  {
    if run != [] {
      var n := |run| - 1;
      assert Ordered(run[..n], now);
      CreditIsExplanation(run[..n], victim, now, l);
      CreditAfterStep(StoreAfter(run[..n], l), run[n], victim, now, l);
      ExplanationAfterStep(run, victim, now, l);
    }
  }

  /** The line that explains the death at index `i`, if any does. */
  function ExplainedBy(run: seq<Timed>, i: nat, l: Limits): Option<nat>
    requires i < |run| && run[i].cmd.DieLine?
  {
    var k := LastAbout(run[..i], run[i].cmd.death.victim);
    if k < i && run[k].cmd.WoundLine? && run[i].now - run[k].now <= l.expiryMs then Some(k) else None
  }

  /** Each wound explains at most one death, and the death is credited with exactly that wound. */
  lemma CreditedOnce(run: seq<Timed>, i: nat, j: nat, l: Limits)
    requires i < |run| && j < |run| && run[i].cmd.DieLine? && run[j].cmd.DieLine?
    requires forall a, b :: 0 <= a < b < |run| ==> run[a].now <= run[b].now
    ensures i != j && ExplainedBy(run, i, l).Some? ==> ExplainedBy(run, i, l) != ExplainedBy(run, j, l)
    ensures Credit(StoreAfter(run[..i], l), run[i].cmd.death.victim, run[i].now, l) ==
            if ExplainedBy(run, i, l).Some?
            then var k := ExplainedBy(run, i, l).value; Some(Wound(run[k].cmd.hit, run[k].now)) else None
  {
    CreditIsExplanation(run[..i], run[i].cmd.death.victim, run[i].now, l);
    var early, late := if i < j then i else j, if i < j then j else i;
    if ExplainedBy(run, early, l).Some? && ExplainedBy(run, early, l) == ExplainedBy(run, late, l) && early < late {
      assert About(run[..late][early], run[late].cmd.death.victim);
    }
  }

  // ---------------------------------------------------------------- what a death reports

  lemma {:induction false} ContainsAt(s: string, part: string)
    ensures Contains(s, part) <==> exists k :: 0 <= k <= |s| - |part| && s[k..][..|part|] == part
  {
    if part <= s {
      assert s[0..][..|part|] == part;
    } else if s != [] {
      ContainsAt(s[1..], part);
      if Contains(s[1..], part) {
        var k :| 0 <= k <= |s[1..]| - |part| && s[1..][k..][..|part|] == part;
        assert s[k + 1..] == s[1..][k..];
      }
      forall k | 0 <= k <= |s| - |part| && s[k..][..|part|] == part ensures Contains(s, part) {
        assert k > 0 && s[1..][k - 1..] == s[k..];
      }
    }
  }

  /** The line names no attacker. */
  predicate Nobody(d: Death) {
    d.steamId == "00000000000000000" || d.controller == "nullptr" || d.controller == "None" || d.controller == ""
  }

  predicate NamesAttacker(w: Option<Wound>) {
    w.Some? && w.value.hit.steamId != "" && w.value.hit.steamId != "00000000000000000"
  }

  predicate NamesController(d: Death) {
    exists k :: 0 <= k <= |d.controller| - 16 && d.controller[k..][..16] == "PlayerController"
  }

  /** What a death says, given the wound that explains it: whether it is a suicide is the line's to say, and so are the
      victim and the damage. The ids come from a wound that names a real attacker, the weapon from one that has
      any, and the killer's name from any wound if the line's is a player controller. */
  predicate Says(e: Event, d: Death, w: Option<Wound>) {
    && !e.Wounded?
    && (e.Suicide? <==> Nobody(d))
    && e.victim == d.victim && e.damage == d.damage
    && e.steamId == (if NamesAttacker(w) then w.value.hit.steamId else d.steamId)
    && e.eosId == (if NamesAttacker(w) then w.value.hit.eosId else d.eosId)
    && e.weapon == (if w.Some? && w.value.hit.weapon != "" then w.value.hit.weapon else d.weapon)
    && (e.Kill? ==> e.killer == if w.Some? && NamesController(d) then w.value.hit.controller else d.controller)
  }

  lemma ResolveSays(d: Death, w: Option<Wound>)
    ensures Says(Resolve(d, w), d, w)
  {
    ContainsAt(d.controller, "PlayerController");
    assert |"PlayerController"| == 16;
    assert NULL_ID == "00000000000000000";
  }

  /** Over every run: a death line emits one event, which says what the line and the last unexpired wound of its victim
      account for. */
  lemma DeathSays(run: seq<Timed>, i: nat, l: Limits)
    requires i < |run| && run[i].cmd.DieLine? && Ordered(run[..i], run[i].now)
    ensures var d := run[i].cmd.death; var out := Shown(StoreAfter(run[..i], l), run[i], l);
            |out| == 1 && out[0].Emitted? && Says(out[0].event, d, Explanation(run[..i], d.victim, run[i].now, l))
  {
    var d := run[i].cmd.death;
    CreditIsExplanation(run[..i], d.victim, run[i].now, l);
    ResolveSays(d, Credit(StoreAfter(run[..i], l), d.victim, run[i].now, l));
  }

  /** A wound line emits its own hit. */
  lemma WoundSays(run: seq<Timed>, i: nat, l: Limits)
    requires i < |run| && run[i].cmd.WoundLine?
    ensures Shown(StoreAfter(run[..i], l), run[i], l) == [Emitted(Wounded(run[i].cmd.hit))]
  {
  }
}

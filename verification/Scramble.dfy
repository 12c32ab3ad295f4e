/** Team scramble: players are scored, sorted, dealt out in snake order, and moved to their new teams. */
module Scramble {
  /** One online player with the figures read from the database. */
  datatype Stats = Stats(steamId: string, playtime: real, kills: real, deaths: real, currentTeam: int)

  datatype Scored = Scored(stats: Stats, score: real)

  predicate Sane(s: Stats) { s.playtime >= 0.0 && s.kills >= 0.0 && s.deaths >= 0.0 }

  // ---------------------------------------------------------------- scores

  function Kd(s: Stats): real {
    if s.deaths > 0.0 then s.kills / s.deaths else if s.kills > 0.0 then s.kills else 0.0
  }

  /** `top` is the normalising maximum of a figure: an upper bound that somebody reaches, or 1 if nobody is above 0. */
  predicate IsTop(top: real, figures: seq<real>) {
    && top > 0.0
    && (forall x :: x in figures ==> x <= top)
    && (top in figures || (top == 1.0 && forall x :: x in figures ==> x <= 0.0))
  }

  function Playtimes(ps: seq<Stats>): seq<real> { seq(|ps|, i requires 0 <= i < |ps| => ps[i].playtime) }

  function Kds(ps: seq<Stats>): seq<real> { seq(|ps|, i requires 0 <= i < |ps| => Kd(ps[i])) }

  function Score(s: Stats, topPlaytime: real, topKd: real): real
    requires topPlaytime > 0.0 && topKd > 0.0
  {
    s.playtime / topPlaytime * 0.5 + Kd(s) / topKd * 0.5
  }

  method ScoreAll(online: seq<Stats>) returns (scored: seq<Scored>, ghost topPlaytime: real, ghost topKd: real)
    ensures IsTop(topPlaytime, Playtimes(online)) && IsTop(topKd, Kds(online))
    ensures |scored| == |online|
    ensures forall i :: 0 <= i < |online| ==> scored[i] == Scored(online[i], Score(online[i], topPlaytime, topKd))
  {
    var maxPlaytime, maxKD := 0.0, 0.0;
    for i := 0 to |online|
      invariant 0.0 <= maxPlaytime && (maxPlaytime > 0.0 ==> maxPlaytime in Playtimes(online))
      invariant 0.0 <= maxKD && (maxKD > 0.0 ==> maxKD in Kds(online))
      invariant forall j :: 0 <= j < i ==> online[j].playtime <= maxPlaytime && Kd(online[j]) <= maxKD
    {
      assert online[i].playtime == Playtimes(online)[i] && Kd(online[i]) == Kds(online)[i];
      if online[i].playtime > maxPlaytime { maxPlaytime := online[i].playtime; }
      if Kd(online[i]) > maxKD { maxKD := Kd(online[i]); }
    }
    if maxPlaytime == 0.0 { maxPlaytime := 1.0; }
    if maxKD == 0.0 { maxKD := 1.0; }
    topPlaytime, topKd := maxPlaytime, maxKD;
    scored := [];
    for i := 0 to |online|
      invariant |scored| == i
      invariant forall j :: 0 <= j < i ==> scored[j] == Scored(online[j], Score(online[j], maxPlaytime, maxKD))
    {
      var normPlaytime := online[i].playtime / maxPlaytime;
      var normKD := Kd(online[i]) / maxKD;
      scored := scored + [Scored(online[i], normPlaytime * 0.5 + normKD * 0.5)];
    }
  }

  lemma ShareAtMostOne(x: real, top: real)
    requires 0.0 <= x <= top && top > 0.0
    ensures 0.0 <= x / top <= 1.0
  {
  }

  /** Counts and playtimes are not negative, so every score lies between 0 and 1. */
  lemma ScoreBounds(online: seq<Stats>, i: nat, topPlaytime: real, topKd: real)
    requires i < |online| && Sane(online[i])
    requires IsTop(topPlaytime, Playtimes(online)) && IsTop(topKd, Kds(online))
    ensures 0.0 <= Score(online[i], topPlaytime, topKd) <= 1.0
  {
    var s := online[i];
    assert Playtimes(online)[i] in Playtimes(online) && Kds(online)[i] in Kds(online);
    if s.deaths > 0.0 { assert s.kills / s.deaths >= 0.0; }
    ShareAtMostOne(s.playtime, topPlaytime);
    ShareAtMostOne(Kd(s), topKd);
  }

  // ---------------------------------------------------------------- what a score rewards

  /** Deaths are counted. */
  predicate Counted(s: Stats) { s.deaths == 0.0 || s.deaths >= 1.0 }

  lemma Quotient(x: real, y: real, q: real)
    requires y > 0.0 && q == x / y
    ensures q * y == x
  {
  }

  /** The ratio is kills per death, and the kills of one who never died. */
  lemma KdMeaning(s: Stats)
    requires Sane(s)
    ensures s.deaths > 0.0 ==> Kd(s) * s.deaths == s.kills
    ensures s.deaths == 0.0 ==> Kd(s) == s.kills
    ensures Kd(s) >= 0.0
  {
    if s.deaths > 0.0 {
      Quotient(s.kills, s.deaths, s.kills / s.deaths);
      Cancel(0.0, s.kills / s.deaths, s.deaths);
    }
  }

  lemma Cancel(x: real, y: real, d: real)
    requires d > 0.0 && x * d <= y * d
    ensures x <= y
  {
  }

  lemma Scaled(x: real, y: real, top: real)
    requires x <= y && top > 0.0
    ensures x / top <= y / top
  {
  }

  lemma MoreDeathsLessRatio(d: real, e: real, x: real, y: real)
    requires 0.0 < d <= e && x * d == y * e >= 0.0
    ensures y <= x
  {
    Cancel(0.0, y, e);
    assert y * d <= y * e;
    Cancel(y, x, d);
  }

  lemma FewerPerDeath(a: real, b: real, d: real, p: real, q: real)
    requires d > 0.0 && p * d == a && q * d == b && a <= b
    ensures p <= q
  {
    Cancel(p, q, d);
  }

  lemma KillsAtLeastRatio(kills: real, d: real, q: real)
    requires d >= 1.0 && q * d == kills >= 0.0
    ensures q <= kills
  {
    Cancel(0.0, q, d);
    assert q * 1.0 <= q * d;
  }

  /** At least the kills and at most the deaths never make a lower ratio. */
  lemma BetterRatio(s: Stats, o: Stats)
    requires Sane(s) && Sane(o) && Counted(s) && Counted(o)
    requires s.kills >= o.kills && s.deaths <= o.deaths
    ensures Kd(s) >= Kd(o)
  {
    KdMeaning(s);
    KdMeaning(o);
    if o.deaths > 0.0 {
      var mid := s.kills / o.deaths;
      Quotient(s.kills, o.deaths, mid);
      FewerPerDeath(o.kills, s.kills, o.deaths, Kd(o), mid);
      if s.deaths > 0.0 {
        MoreDeathsLessRatio(s.deaths, o.deaths, Kd(s), mid);
      } else {
        KillsAtLeastRatio(s.kills, o.deaths, mid);
      }
    }
  }

  /** Who is at least as good in every figure never scores lower: more playtime, more kills, fewer deaths. */
  lemma BetterScores(online: seq<Stats>, dealt: seq<Scored>, topPlaytime: real, topKd: real, i: nat, j: nat)
    requires ScoredBy(online, dealt, topPlaytime, topKd) && i < |online| && j < |online|
    requires forall s :: s in online ==> Sane(s) && Counted(s)
    requires online[i].playtime >= online[j].playtime
    requires online[i].kills >= online[j].kills && online[i].deaths <= online[j].deaths
    ensures dealt[i].score >= dealt[j].score
  {
    assert online[i] in online && online[j] in online;
    BetterRatio(online[i], online[j]);
    Scaled(Kd(online[j]), Kd(online[i]), topKd);
    Scaled(online[j].playtime, online[i].playtime, topPlaytime);
  }

  lemma OnlyQuotient(x: real, d: real, p: real, q: real)
    requires d > 0.0 && p * d == x && q * d == x
    ensures p == q
  {
    Cancel(p, q, d);
    Cancel(q, p, d);
  }

  lemma WholeShare(x: real)
    requires x > 0.0
    ensures x / x == 1.0 && 0.0 / x == 0.0
  {
  }

  /** The two figures weigh the same: the best in both scores 1, the best in one with nothing in the other scores 1/2,
      and nothing in either scores 0. */
  lemma Extremes(online: seq<Stats>, dealt: seq<Scored>, topPlaytime: real, topKd: real, i: nat)
    requires ScoredBy(online, dealt, topPlaytime, topKd) && i < |online| && Sane(online[i])
    requires var s := online[i];
             && (s.playtime == topPlaytime || s.playtime == 0.0)
             && (s.kills == 0.0 || (if s.deaths > 0.0 then topKd * s.deaths == s.kills else topKd == s.kills))
    ensures var s := online[i];
            dealt[i].score == (if s.playtime == 0.0 then 0.0 else 0.5) + (if s.kills == 0.0 then 0.0 else 0.5)
  {
    var s := online[i];
    WholeShare(topPlaytime);
    WholeShare(topKd);
    KdMeaning(s);
    if s.deaths > 0.0 {
      var wanted := if s.kills == 0.0 then 0.0 else topKd;
      OnlyQuotient(s.kills, s.deaths, wanted, Kd(s));
    }
  }

  // ---------------------------------------------------------------- sorting

  predicate Descending(ps: seq<Scored>) {
    forall i, j :: 0 <= i < j < |ps| ==> ps[i].score >= ps[j].score
  }

  function Insert(p: Scored, sorted: seq<Scored>): seq<Scored> {
    if sorted == [] || p.score > sorted[0].score then [p] + sorted else [sorted[0]] + Insert(p, sorted[1..])
  }

  lemma {:induction false} InsertCounts(p: Scored, sorted: seq<Scored>)
    ensures multiset(Insert(p, sorted)) == multiset(sorted) + multiset{p}
  {
    if sorted != [] && p.score <= sorted[0].score {
      assert sorted == [sorted[0]] + sorted[1..];
      InsertCounts(p, sorted[1..]);
    }
  }

  lemma {:induction false} InsertKeeps(p: Scored, sorted: seq<Scored>)
    requires Descending(sorted)
    ensures Descending(Insert(p, sorted)) && multiset(Insert(p, sorted)) == multiset(sorted) + multiset{p}
  {
    InsertCounts(p, sorted);
    if sorted != [] && p.score <= sorted[0].score {
      var rest := Insert(p, sorted[1..]);
      InsertKeeps(p, sorted[1..]);
      forall q | q in rest ensures sorted[0].score >= q.score {
        assert q in multiset(rest);
        assert q == p || q in sorted[1..];
      }
      PrependKeeps(sorted[0], rest);
    }
  }

  lemma PrependKeeps(best: Scored, rest: seq<Scored>)
    requires Descending(rest) && forall q :: q in rest ==> best.score >= q.score
    ensures Descending([best] + rest)
  {
  }

  /** Stands for the library sort; callers learn only that the result is a descending permutation. */
  method SortByScore(ps: seq<Scored>) returns (sorted: seq<Scored>)
    ensures Descending(sorted) && multiset(sorted) == multiset(ps)
  {
    sorted := [];
    for i := 0 to |ps|
      invariant Descending(sorted) && multiset(sorted) == multiset(ps[..i])
    {
      InsertKeeps(ps[i], sorted);
      sorted := Insert(ps[i], sorted);
      assert ps[..i + 1] == ps[..i] + [ps[i]];
    }
    assert ps[..|ps|] == ps;
  }

  // ---------------------------------------------------------------- the draft

  /** Which team the i-th best player joins: 1, 2, 2, 1, 1, 2, 2, 1, ... */
  predicate PicksTeam1(i: nat) { i % 4 == 0 || i % 4 == 3 }

  /** The players among the first `n` who join a team, in order. */
  function Draft(ps: seq<Scored>, n: nat, team1: bool): seq<Scored>
    requires n <= |ps|
  {
    if n == 0 then [] else
      var rest := Draft(ps, n - 1, team1);
      if PicksTeam1(n - 1) == team1 then rest + [ps[n - 1]] else rest
  }

  lemma SnakeRule(i: nat)
    ensures PicksTeam1(i) <==> if i / 2 % 2 == 0 then i % 2 == 0 else i % 2 == 1
  {
  }

  method SnakeAssign(sorted: seq<Scored>) returns (team1: seq<Scored>, team2: seq<Scored>)
    ensures team1 == Draft(sorted, |sorted|, true) && team2 == Draft(sorted, |sorted|, false)
  {
    team1, team2 := [], [];
    for i := 0 to |sorted|
      invariant team1 == Draft(sorted, i, true) && team2 == Draft(sorted, i, false)
    {
      var group := i / 2;
      SnakeRule(i);
      var toTeam1 := if group % 2 == 0 then i % 2 == 0 else i % 2 == 1;
      if toTeam1 { team1 := team1 + [sorted[i]]; } else { team2 := team2 + [sorted[i]]; }
    }
  }

  lemma {:induction false} DraftPartitions(ps: seq<Scored>, n: nat)
    requires n <= |ps|
    ensures multiset(Draft(ps, n, true)) + multiset(Draft(ps, n, false)) == multiset(ps[..n])
  {
    if n > 0 {
      DraftPartitions(ps, n - 1);
      assert ps[..n] == ps[..n - 1] + [ps[n - 1]];
    }
  }

  /** The sizes differ by one for an odd count and not at all for an even one. */
  lemma {:induction false} DraftSizes(ps: seq<Scored>, n: nat)
    requires n <= |ps|
    ensures |Draft(ps, n, true)| + |Draft(ps, n, false)| == n
    ensures |Draft(ps, n, true)| - |Draft(ps, n, false)| == if n % 4 == 1 then 1 else if n % 4 == 3 then -1 else 0
  {
    if n > 0 {
      DraftSizes(ps, n - 1);
      assert n % 4 == if (n - 1) % 4 == 3 then 0 else (n - 1) % 4 + 1;
    }
  }

  function Total(ps: seq<Scored>): real {
    if ps == [] then 0.0 else Total(ps[..|ps| - 1]) + ps[|ps| - 1].score
  }

  /** How far team 1 is ahead after `n` picks. */
  function Lead(ps: seq<Scored>, n: nat): real
    requires n <= |ps|
  {
    if n == 0 then 0.0 else Lead(ps, n - 1) + if PicksTeam1(n - 1) then ps[n - 1].score else -ps[n - 1].score
  }

  lemma TotalAppend(ps: seq<Scored>, p: Scored)
    ensures Total(ps + [p]) == Total(ps) + p.score
  {
    assert (ps + [p])[..|ps|] == ps;
  }

  lemma {:induction false} LeadIsDifference(ps: seq<Scored>, n: nat)
    requires n <= |ps|
    ensures Lead(ps, n) == Total(Draft(ps, n, true)) - Total(Draft(ps, n, false))
  {
    if n > 0 {
      LeadIsDifference(ps, n - 1);
      var t1, t2, p := Draft(ps, n - 1, true), Draft(ps, n - 1, false), ps[n - 1];
      TotalAppend(t1, p);
      TotalAppend(t2, p);
      assert Draft(ps, n, true) == if PicksTeam1(n - 1) then t1 + [p] else t1;
      assert Draft(ps, n, false) == if PicksTeam1(n - 1) then t2 else t2 + [p];
    }
  }

  function Abs(x: real): real { if x < 0.0 then -x else x }

  lemma OppositePicks(n: nat)
    requires n >= 2 && n % 2 == 0
    ensures PicksTeam1(n - 2) != PicksTeam1(n - 1)
  {
  }

  /** Players come in pairs that go to different teams, and the gaps within pairs do not overlap. */
  lemma {:induction false} EvenLead(ps: seq<Scored>, n: nat)
    requires Descending(ps) && 2 <= n <= |ps| && n % 2 == 0
    ensures Abs(Lead(ps, n)) <= ps[0].score - ps[n - 1].score
  {
    if n > 2 { EvenLead(ps, n - 2); }
    var upper, lower := ps[n - 2].score, ps[n - 1].score;
    var step := if PicksTeam1(n - 1) then lower - upper else upper - lower;
    OppositePicks(n);
    assert Lead(ps, n) == Lead(ps, n - 2) + step;
    assert upper >= lower;
    if n > 2 { assert ps[n - 3].score >= upper; } else { assert Lead(ps, n - 2) == 0.0; }
  }

  lemma LeadBound(ps: seq<Scored>)
    requires Descending(ps) && ps != [] && ps[|ps| - 1].score >= 0.0
    ensures Abs(Lead(ps, |ps|)) <= ps[0].score - if |ps| % 2 == 0 then ps[|ps| - 1].score else 0.0
  {
    var n := |ps|;
    if n % 2 == 0 {
      EvenLead(ps, n);
    } else if n > 1 {
      EvenLead(ps, n - 1);
      assert ps[n - 2].score >= ps[n - 1].score;
    } else {
      assert Lead(ps, 0) == 0.0;
    }
  }

  /** Fairness for every number of players: the teams' totals differ by at most the best score minus the
      worst if the count is even, and by at most the best score if it is odd. */
  lemma DraftIsFair(ps: seq<Scored>)
    requires Descending(ps) && ps != [] && ps[|ps| - 1].score >= 0.0
    ensures Abs(Total(Draft(ps, |ps|, true)) - Total(Draft(ps, |ps|, false))) <=
            ps[0].score - if |ps| % 2 == 0 then ps[|ps| - 1].score else 0.0
  {
    LeadIsDifference(ps, |ps|);
    LeadBound(ps);
  }

  /** One player ahead of `n - 1` equal ones. */
  function OneAhead(a: Scored, b: Scored, n: nat): seq<Scored>
    requires n > 0
  {
    [a] + seq(n - 1, _ => b)
  }

  lemma {:induction false} LeadOfOne(a: Scored, b: Scored, n: nat, k: nat)
    requires 0 < k <= n
    ensures Lead(OneAhead(a, b, n), k) ==
            a.score - b.score + if k % 4 == 1 then b.score else if k % 4 == 3 then -b.score else 0.0
  {
    var ps := OneAhead(a, b, n);
    if k == 1 {
      assert Lead(ps, 0) == 0.0 && ps[0] == a;
    } else {
      LeadOfOne(a, b, n, k - 1);
      assert ps[k - 1] == b;
      assert k % 4 == if (k - 1) % 4 == 3 then 0 else (k - 1) % 4 + 1;
    }
  }

  lemma OneAheadDescends(a: Scored, b: Scored, n: nat)
    requires a.score >= b.score && n > 0
    ensures var ps := OneAhead(a, b, n);
            |ps| == n && Descending(ps) && ps[0] == a && ps[n - 1] == if n == 1 then a else b
  {
  }

  /** Neither bound can be improved for any number of players: an even count meets its bound for any best and worst
      score, and an odd one for any best score. */
  lemma BoundsAreMet(a: Scored, b: Scored, n: nat)
    requires a.score >= b.score >= 0.0 && n > 0
    ensures var ps := OneAhead(a, b, n);
            var apart := Abs(Total(Draft(ps, n, true)) - Total(Draft(ps, n, false)));
            && |ps| == n && Descending(ps)
            && (n % 2 == 0 ==> apart == ps[0].score - ps[n - 1].score == a.score - b.score)
            && (n % 4 == 1 || (n % 2 == 1 && b.score == 0.0) ==> apart == ps[0].score == a.score)
  {
    OneAheadDescends(a, b, n);
    LeadOfOne(a, b, n, n);
    LeadIsDifference(OneAhead(a, b, n), n);
  }

  // ---------------------------------------------------------------- switching

  function OnTeam(ps: seq<Scored>, team: int): seq<Scored> {
    if ps == [] then [] else
      var n := |ps| - 1;
      var rest := OnTeam(ps[..n], team);
      if ps[n].stats.currentTeam == team then rest + [ps[n]] else rest
  }

  method FindSwitches(team1: seq<Scored>, team2: seq<Scored>) returns (need: seq<Scored>)
    ensures need == OnTeam(team1, 2) + OnTeam(team2, 1)
  {
    need := [];
    for i := 0 to |team1|
      invariant need == OnTeam(team1[..i], 2)
    {
      if team1[i].stats.currentTeam == 2 { need := need + [team1[i]]; }
      assert team1[..i + 1][..i] == team1[..i];
    }
    assert team1[..|team1|] == team1;
    for i := 0 to |team2|
      invariant need == OnTeam(team1, 2) + OnTeam(team2[..i], 1)
    {
      if team2[i].stats.currentTeam == 1 { need := need + [team2[i]]; }
      assert team2[..i + 1][..i] == team2[..i];
    }
    assert team2[..|team2|] == team2;
  }

  /** The game's view of who plays where; the switch command moves a player to the other team. */
  type Game = map<string, int>

  function ForceTeamChange(g: Game, steamId: string): Game {
    if steamId !in g then g
    else if g[steamId] == 1 then g[steamId := 2] else if g[steamId] == 2 then g[steamId := 1] else g
  }

  function SwitchAll(g: Game, ps: seq<Scored>): Game {
    if ps == [] then g else ForceTeamChange(SwitchAll(g, ps[..|ps| - 1]), ps[|ps| - 1].stats.steamId)
  }

  predicate UniqueIds(ps: seq<Scored>) {
    forall i, j :: 0 <= i < j < |ps| ==> ps[i].stats.steamId != ps[j].stats.steamId
  }

  function Names(ps: seq<Scored>): set<string> { set p | p in ps :: p.stats.steamId }

  lemma {:induction false} OnTeamIn(ps: seq<Scored>, team: int)
    ensures forall p :: p in OnTeam(ps, team) <==> p in ps && p.stats.currentTeam == team
    ensures UniqueIds(ps) ==> UniqueIds(OnTeam(ps, team))
  {
    if ps != [] {
      var n := |ps| - 1;
      OnTeamIn(ps[..n], team);
      assert ps == ps[..n] + [ps[n]];
    }
  }

  lemma {:induction false} SwitchedOnce(g: Game, ps: seq<Scored>, id: string)
    requires UniqueIds(ps) && id in g
    ensures id in SwitchAll(g, ps)
    ensures SwitchAll(g, ps)[id] ==
            if id in Names(ps) then (if g[id] == 1 then 2 else if g[id] == 2 then 1 else g[id]) else g[id]
  {
    if ps != [] {
      var n := |ps| - 1;
      SwitchedOnce(g, ps[..n], id);
      assert ps == ps[..n] + [ps[n]];
      assert Names(ps) == Names(ps[..n]) + {ps[n].stats.steamId};
      if ps[n].stats.steamId == id {
        assert id !in Names(ps[..n]);
      }
    }
  }

  /** Toggling exactly the listed players puts everyone who is on team 1 or 2 on the assigned team, and
      leaves spectators alone. */
  lemma SwitchesReachAssignment(g: Game, team1: seq<Scored>, team2: seq<Scored>, p: Scored)
    requires UniqueIds(team1 + team2)
    requires forall q :: q in team1 + team2 ==> q.stats.steamId in g && g[q.stats.steamId] == q.stats.currentTeam
    requires p in team1 + team2
    ensures var g' := SwitchAll(g, OnTeam(team1, 2) + OnTeam(team2, 1)); var id := p.stats.steamId;
            id in g' &&
            g'[id] == if g[id] == 1 || g[id] == 2 then (if p in team1 then 1 else 2) else g[id]
  {
    var need, all := OnTeam(team1, 2) + OnTeam(team2, 1), team1 + team2;
    assert UniqueIds(team1) by { assert forall i :: 0 <= i < |team1| ==> all[i] == team1[i]; }
    assert UniqueIds(team2) by { assert forall i :: 0 <= i < |team2| ==> all[|team1| + i] == team2[i]; }
    OnTeamIn(team1, 2);
    OnTeamIn(team2, 1);
    forall a, b | a in team1 && b in team2 ensures a.stats.steamId != b.stats.steamId {
      var i :| 0 <= i < |team1| && team1[i] == a;
      var j :| 0 <= j < |team2| && team2[j] == b;
      assert all[i] == a && all[|team1| + j] == b;
    }
    assert UniqueIds(need) by {
      forall i, j | 0 <= i < |OnTeam(team1, 2)| && 0 <= j < |OnTeam(team2, 1)|
        ensures OnTeam(team1, 2)[i].stats.steamId != OnTeam(team2, 1)[j].stats.steamId
      {
        assert OnTeam(team1, 2)[i] in OnTeam(team1, 2) && OnTeam(team2, 1)[j] in OnTeam(team2, 1);
      }
    }
    var id := p.stats.steamId;
    SwitchedOnce(g, need, id);
    SameIdSamePlayer(all);
    assert forall q :: q in need ==> q in all;
    assert id in Names(need) <==> p in need;
  }

  lemma SameIdSamePlayer(ps: seq<Scored>)
    requires UniqueIds(ps)
    ensures forall a, b :: a in ps && b in ps && a.stats.steamId == b.stats.steamId ==> a == b
  {
  }

  // ---------------------------------------------------------------- the route

  datatype Assignment = TooFewPlayers | Teams(team1: seq<Scored>, team2: seq<Scored>, need: seq<Scored>)

  /** Sizes within one, and totals within the best score, less the worst one if the count is even: so within 1. */
  predicate Fair(order: seq<Scored>, team1: seq<Scored>, team2: seq<Scored>)
    requires order != []
  {
    && -1 <= |team1| - |team2| <= 1
    && Abs(Total(team1) - Total(team2)) <= order[0].score - (if |order| % 2 == 0 then order[|order| - 1].score else 0.0) <= 1.0
  }

  lemma SortedInRange(scored: seq<Scored>, sorted: seq<Scored>)
    requires multiset(sorted) == multiset(scored)
    requires forall i :: 0 <= i < |scored| ==> 0.0 <= scored[i].score <= 1.0
    ensures |sorted| == |scored| && forall i :: 0 <= i < |sorted| ==> 0.0 <= sorted[i].score <= 1.0
  {
    assert |multiset(sorted)| == |multiset(scored)|;
    forall i | 0 <= i < |sorted| ensures 0.0 <= sorted[i].score <= 1.0 {
      assert sorted[i] in multiset(scored);
    }
  }

  /** The sorted players are dealt fairly, whichever descending order the sort chose. */
  lemma FairDeal(scored: seq<Scored>, sorted: seq<Scored>)
    requires Descending(sorted) && multiset(sorted) == multiset(scored) && scored != []
    requires forall i :: 0 <= i < |scored| ==> 0.0 <= scored[i].score <= 1.0
    ensures var t1, t2 := Draft(sorted, |sorted|, true), Draft(sorted, |sorted|, false);
            sorted != [] && multiset(t1 + t2) == multiset(scored) && Fair(sorted, t1, t2)
  {
    SortedInRange(scored, sorted);
    DraftPartitions(sorted, |sorted|);
    DraftSizes(sorted, |sorted|);
    assert sorted[..|sorted|] == sorted;
    DraftIsFair(sorted);
  }

  /** Every player scored from the figures of all. */
  predicate ScoredBy(online: seq<Stats>, dealt: seq<Scored>, topPlaytime: real, topKd: real) {
    && IsTop(topPlaytime, Playtimes(online)) && IsTop(topKd, Kds(online))
    && |dealt| == |online|
    && forall i :: 0 <= i < |online| ==> dealt[i] == Scored(online[i], Score(online[i], topPlaytime, topKd))
  }

  /** The game's view of the players is the one they were read with. */
  predicate Current(g: Game, online: seq<Stats>) {
    forall s :: s in online ==> s.steamId in g && g[s.steamId] == s.currentTeam
  }

  /** The switch commands put everyone who plays on team 1 or 2 on the assigned team, and no one else anywhere. */
  predicate Settled(g: Game, team1: seq<Scored>, team2: seq<Scored>, need: seq<Scored>) {
    var g' := SwitchAll(g, need);
    forall p :: p in team1 + team2 ==>
      var id := p.stats.steamId;
      id in g && id in g' && g'[id] == if g[id] == 1 || g[id] == 2 then (if p in team1 then 1 else 2) else g[id]
  }

  predicate DistinctPlayers(online: seq<Stats>) {
    forall i, j :: 0 <= i < j < |online| ==> online[i].steamId != online[j].steamId
  }

  lemma {:induction false} UniqueCount(ps: seq<Scored>, p: Scored)
    requires UniqueIds(ps)
    ensures multiset(ps)[p] <= 1
  {
    if ps != [] {
      var n := |ps| - 1;
      UniqueCount(ps[..n], p);
      assert ps == ps[..n] + [ps[n]];
      assert forall i :: 0 <= i < n ==> ps[..n][i] != ps[n];
    }
  }

  /** Reordering keeps ids unique. */
  lemma UniqueAnyOrder(ps: seq<Scored>, qs: seq<Scored>)
    requires UniqueIds(ps) && multiset(ps) == multiset(qs)
    ensures UniqueIds(qs)
  {
    SameIdSamePlayer(ps);
    forall i, j | 0 <= i < j < |qs| ensures qs[i].stats.steamId != qs[j].stats.steamId {
      assert qs[i] in multiset(qs) && qs[j] in multiset(qs);
      UniqueCount(ps, qs[i]);
      assert qs == qs[..j] + [qs[j]] + qs[j + 1..];
      assert qs[i] in qs[..j];
    }
  }

  lemma AllSettle(g: Game, online: seq<Stats>, dealt: seq<Scored>, topPlaytime: real, topKd: real,
                  team1: seq<Scored>, team2: seq<Scored>)
    requires DistinctPlayers(online) && ScoredBy(online, dealt, topPlaytime, topKd) && Current(g, online)
    requires multiset(team1 + team2) == multiset(dealt)
    ensures Settled(g, team1, team2, OnTeam(team1, 2) + OnTeam(team2, 1))
  {
    assert UniqueIds(dealt);
    UniqueAnyOrder(dealt, team1 + team2);
    forall p | p in team1 + team2 ensures p.stats in online {
      assert p in multiset(dealt);
      var i :| 0 <= i < |dealt| && dealt[i] == p;
      assert p.stats == online[i];
    }
    forall p | p in team1 + team2
      ensures var g', id := SwitchAll(g, OnTeam(team1, 2) + OnTeam(team2, 1)), p.stats.steamId;
              id in g && id in g' && g'[id] == if g[id] == 1 || g[id] == 2 then (if p in team1 then 1 else 2) else g[id]
    {
      SwitchesReachAssignment(g, team1, team2, p);
    }
  }

  /** The whole route, from the figures of at least four players to the switch commands. `order` is the descending
      order the sort chose. */
  method ScrambleTeams(online: seq<Stats>)
      returns (r: Assignment, ghost dealt: seq<Scored>, ghost order: seq<Scored>, ghost topPlaytime: real, ghost topKd: real)
    requires forall s :: s in online ==> Sane(s)
    ensures r == TooFewPlayers <==> |online| < 4
    ensures r.Teams? ==>
      && ScoredBy(online, dealt, topPlaytime, topKd)
      && Descending(order) && multiset(order) == multiset(dealt)
      && r.team1 == Draft(order, |order|, true) && r.team2 == Draft(order, |order|, false)
      && multiset(r.team1 + r.team2) == multiset(dealt)
      && order != [] && Fair(order, r.team1, r.team2)
      && r.need == OnTeam(r.team1, 2) + OnTeam(r.team2, 1)
    ensures r.Teams? && DistinctPlayers(online) ==>
      forall g: Game :: Current(g, online) ==> Settled(g, r.team1, r.team2, r.need)
  {
    if |online| < 4 { return TooFewPlayers, [], [], 1.0, 1.0; }
    var scored;
    scored, topPlaytime, topKd := ScoreAll(online);
    forall i | 0 <= i < |online| ensures 0.0 <= scored[i].score <= 1.0 {
      ScoreBounds(online, i, topPlaytime, topKd);
    }
    var sorted := SortByScore(scored);
    FairDeal(scored, sorted);
    dealt, order := scored, sorted;
    var team1, team2 := SnakeAssign(sorted);
    var need := FindSwitches(team1, team2);
    if DistinctPlayers(online) {
      forall g: Game | Current(g, online) ensures Settled(g, team1, team2, need) {
        AllSettle(g, online, dealt, topPlaytime, topKd, team1, team2);
      }
    }
    r := Teams(team1, team2, need);
  }
}

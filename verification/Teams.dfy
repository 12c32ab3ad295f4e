/** Teams: creating, inviting, joining, leaving. Users act through routes, each taken as one step; an acting user
    has a row, since a session is only valid for one. */
module Teams {
  import opened Wrappers
  import opened PathIds

  datatype Invite = Invite(teamId: nat, code: string, usedBy: Option<nat>, expiresAt: int)

  datatype Status = Pending | Approved | Rejected

  datatype Request = Request(teamId: nat, userId: nat, status: Status)

  /** `owners` is the teams table; `users` gives each user's team. Ids are handed out in increasing order.
      `joins` records who used which invite. */
  datatype State = State(users: map<nat, Option<nat>>, owners: map<nat, nat>, invites: map<nat, Invite>,
                         requests: map<nat, Request>, nextId: nat, joins: seq<(nat, nat)>)

  datatype Step =
    | Create(name: string)
    | MakeInvite(code: string, expiresAt: int)
    | JoinByCode(code: string, now: int, pick: nat)
    | AskToJoin(teamId: nat)
    | Approve(reqId: nat)
    | Reject(reqId: nat)
    | Remove(target: PathId)
    | Revoke(inviteId: nat)

  function TeamOf(s: State, user: nat): Option<nat> { if user in s.users then s.users[user] else None }

  predicate OwnsTeam(s: State, user: nat) {
    TeamOf(s, user).Some? && TeamOf(s, user).value in s.owners && s.owners[TeamOf(s, user).value] == user
  }

  predicate Usable(i: Invite, code: string, now: int) { i.code == code && i.usedBy == None && i.expiresAt > now }

  /** What lets a request through. `pick` is the usable invite that the lookup by code yields. */
  predicate Allowed(s: State, actor: nat, step: Step) {
    match step
    case Create(name) => 0 < |name| <= 50 && TeamOf(s, actor) == None
    case MakeInvite(_, _) => OwnsTeam(s, actor)
    case JoinByCode(code, now, pick) =>
      code != "" && TeamOf(s, actor) == None && pick in s.invites && Usable(s.invites[pick], code, now)
    case AskToJoin(teamId) => TeamOf(s, actor) == None && teamId in s.owners
    case Approve(reqId) =>
      OwnsTeam(s, actor) && reqId in s.requests && Some(s.requests[reqId].teamId) == TeamOf(s, actor) &&
      s.requests[reqId].status == Pending
    case Reject(_) => OwnsTeam(s, actor)
    case Remove(target) =>
      TeamOf(s, actor).Some? && TeamOf(s, actor).value in s.owners && (OwnsTeam(s, actor) != (target == Decimal(actor)))
    case Revoke(_) => OwnsTeam(s, actor)
  }

  function SetTeam(users: map<nat, Option<nat>>, user: nat, team: Option<nat>): map<nat, Option<nat>> {
    if user in users then users[user := team] else users
  }

  /** A new request replaces the one by the same user for the same team. */
  function Asked(requests: map<nat, Request>, id: nat, teamId: nat, user: nat): map<nat, Request> {
    var kept := map r | r in requests && !(requests[r].teamId == teamId && requests[r].userId == user) :: requests[r];
    kept[id := Request(teamId, user, Pending)]
  }

  function Effect(s: State, actor: nat, step: Step): State
    requires Allowed(s, actor, step)
  {
    match step
    case Create(_) =>
      s.(owners := s.owners[s.nextId := actor], nextId := s.nextId + 1, users := SetTeam(s.users, actor, Some(s.nextId)))
    case MakeInvite(code, expiresAt) =>
      s.(invites := s.invites[s.nextId := Invite(TeamOf(s, actor).value, code, None, expiresAt)], nextId := s.nextId + 1)
    case JoinByCode(_, _, pick) =>
      var i := s.invites[pick];
      s.(invites := s.invites[pick := i.(usedBy := Some(actor))], joins := s.joins + [(pick, actor)],
         users := SetTeam(s.users, actor, Some(i.teamId)))
    case AskToJoin(teamId) =>
      s.(requests := Asked(s.requests, s.nextId, teamId, actor), nextId := s.nextId + 1)
    case Approve(reqId) =>
      var r := s.requests[reqId];
      if TeamOf(s, r.userId).Some? then s.(requests := s.requests[reqId := r.(status := Rejected)])
      else s.(requests := s.requests[reqId := r.(status := Approved)], users := SetTeam(s.users, r.userId, Some(r.teamId)))
    case Reject(reqId) =>
      if reqId in s.requests && Some(s.requests[reqId].teamId) == TeamOf(s, actor)
      then s.(requests := s.requests[reqId := s.requests[reqId].(status := Rejected)]) else s
    case Remove(target) =>
      if TeamOf(s, Number(target)) == TeamOf(s, actor) then s.(users := SetTeam(s.users, Number(target), None)) else s
    case Revoke(inviteId) =>
      if inviteId in s.invites && Some(s.invites[inviteId].teamId) == TeamOf(s, actor)
      then s.(invites := s.invites - {inviteId}) else s
  }

  function Next(s: State, actor: nat, step: Step): State {
    if Allowed(s, actor, step) then Effect(s, actor, step) else s
  }

  class Database {
    var users: map<nat, Option<nat>>
    var owners: map<nat, nat>
    var invites: map<nat, Invite>
    var requests: map<nat, Request>
    var nextId: nat
    ghost var joins: seq<(nat, nat)>

    ghost function Now(): State
      reads this
    {
      State(users, owners, invites, requests, nextId, joins)
    }

    constructor (users: set<nat>)
      ensures Now() == Start(users)
    {
      this.users := map u | u in users :: None;
      owners, invites, requests, nextId, joins := map[], map[], map[], 1, [];
    }

    method UpdateTeam(user: nat, team: Option<nat>)
      modifies this`users
      ensures users == if user in old(users) then old(users)[user := team] else old(users)
    {
      if user in users { users := users[user := team]; }
    }

    method Owned(actor: nat) returns (team: Option<nat>)
      ensures team == if OwnsTeam(Now(), actor) then TeamOf(Now(), actor) else None
    {
      if actor !in users || users[actor] == None { return None; }
      var t := users[actor].value;
      if t !in owners || owners[t] != actor { return None; }
      return Some(t);
    }

    method PostTeam(actor: nat, name: string) returns (ok: bool)
      modifies this
      ensures Now() == Next(old(Now()), actor, Create(name)) && ok == Allowed(old(Now()), actor, Create(name))
    {
      if name == "" || |name| > 50 { return false; }
      if actor in users && users[actor].Some? { return false; }
      var teamId := nextId;
      owners, nextId := owners[teamId := actor], nextId + 1;
      UpdateTeam(actor, Some(teamId));
      return true;
    }

    method PostInvite(actor: nat, code: string, expiresAt: int) returns (ok: bool)
      modifies this
      ensures Now() == Next(old(Now()), actor, MakeInvite(code, expiresAt))
      ensures ok == Allowed(old(Now()), actor, MakeInvite(code, expiresAt))
    {
      var team := Owned(actor);
      if team == None { return false; }
      invites, nextId := invites[nextId := Invite(team.value, code, None, expiresAt)], nextId + 1;
      return true;
    }

    method PostJoin(actor: nat, code: string, now: int, pick: nat) returns (ok: bool)
      modifies this
      ensures Now() == Next(old(Now()), actor, JoinByCode(code, now, pick))
      ensures ok == Allowed(old(Now()), actor, JoinByCode(code, now, pick))
    {
      if code == "" { return false; }
      if actor in users && users[actor].Some? { return false; }
      if pick !in invites || !Usable(invites[pick], code, now) { return false; }
      var team := invites[pick].teamId;
      invites := invites[pick := invites[pick].(usedBy := Some(actor))];
      joins := joins + [(pick, actor)];
      UpdateTeam(actor, Some(team));
      return true;
    }

    method PostJoinRequest(actor: nat, teamId: nat) returns (ok: bool)
      modifies this
      ensures Now() == Next(old(Now()), actor, AskToJoin(teamId)) && ok == Allowed(old(Now()), actor, AskToJoin(teamId))
    {
      if actor in users && users[actor].Some? { return false; }
      if teamId !in owners { return false; }
      requests := map r | r in requests && !(requests[r].teamId == teamId && requests[r].userId == actor) :: requests[r];
      requests, nextId := requests[nextId := Request(teamId, actor, Pending)], nextId + 1;
      return true;
    }

    method PostApprove(actor: nat, reqId: nat) returns (ok: bool)
      modifies this
      ensures Now() == Next(old(Now()), actor, Approve(reqId))
      ensures ok == (Allowed(old(Now()), actor, Approve(reqId)) &&
                     TeamOf(old(Now()), old(requests)[reqId].userId) == None)
    {
      var team := Owned(actor);
      if team == None { return false; }
      if reqId !in requests || requests[reqId].teamId != team.value { return false; }
      var req := requests[reqId];
      if req.status != Pending { return false; }
      if req.userId in users && users[req.userId].Some? {
        requests := requests[reqId := req.(status := Rejected)];
        return false;
      }
      requests := requests[reqId := req.(status := Approved)];
      UpdateTeam(req.userId, team);
      return true;
    }

    method PostReject(actor: nat, reqId: nat) returns (ok: bool)
      modifies this
      ensures Now() == Next(old(Now()), actor, Reject(reqId)) && ok == Allowed(old(Now()), actor, Reject(reqId))
    {
      var team := Owned(actor);
      if team == None { return false; }
      if reqId in requests && requests[reqId].teamId == team.value {
        requests := requests[reqId := requests[reqId].(status := Rejected)];
      }
      return true;
    }

    method MayRemove(actor: nat, target: PathId) returns (ok: bool)
      ensures ok == Allowed(Now(), actor, Remove(target))
    {
      if actor !in users || users[actor] == None { return false; }
      var t := users[actor].value;
      if t !in owners { return false; }
      var isOwner, isSelf := owners[t] == actor, target == Decimal(actor);
      if !isOwner && !isSelf { return false; }
      if isOwner && isSelf { return false; }
      return true;
    }

    method DeleteMember(actor: nat, target: PathId) returns (ok: bool)
      modifies this
      ensures Now() == Next(old(Now()), actor, Remove(target))
      ensures ok == Allowed(old(Now()), actor, Remove(target))
    {
      ok := MayRemove(actor, target);
      if !ok { return; }
      var t, id := users[actor], Number(target);
      if id in users && users[id] == t { UpdateTeam(id, None); }
    }

    method DeleteInvite(actor: nat, inviteId: nat) returns (ok: bool)
      modifies this
      ensures Now() == Next(old(Now()), actor, Revoke(inviteId)) && ok == Allowed(old(Now()), actor, Revoke(inviteId))
    {
      var team := Owned(actor);
      if team == None { return false; }
      if inviteId in invites && invites[inviteId].teamId == team.value { invites := invites - {inviteId}; }
      return true;
    }
  }

  // ---------------------------------------------------------------- runs

  function Start(users: set<nat>): State {
    var noTeam: map<nat, Option<nat>> := map u | u in users :: None;
    State(noTeam, map[], map[], map[], 1, [])
  }

  datatype Act = Act(actor: nat, step: Step)

  function Run(s: State, acts: seq<Act>): State {
    if acts == [] then s else Next(Run(s, acts[..|acts| - 1]), acts[|acts| - 1].actor, acts[|acts| - 1].step)
  }

  /** Every team's owner is a member of that team. */
  predicate OwnersBelong(s: State) { forall t :: t in s.owners ==> TeamOf(s, s.owners[t]) == Some(t) }

  predicate OnceEach(joins: seq<(nat, nat)>) { forall i, j :: 0 <= i < j < |joins| ==> joins[i].0 != joins[j].0 }

  /** What the invites say of the joins so far. */
  predicate Told(joins: seq<(nat, nat)>, invites: map<nat, Invite>) {
    forall k :: 0 <= k < |joins| && joins[k].0 in invites ==> invites[joins[k].0].usedBy == Some(joins[k].1)
  }

  /** Ids are fresh, and each invite was used at most once, by whoever it says. */
  predicate Books(s: State) {
    && (forall t :: t in s.owners ==> t < s.nextId)
    && (forall i :: i in s.invites ==> i < s.nextId)
    && (forall k :: 0 <= k < |s.joins| ==> s.joins[k].0 < s.nextId)
    && OnceEach(s.joins) && Told(s.joins, s.invites)
  }

  /** An owner names itself with leading zeros: the text differs from its id, the number does not. */
  predicate Slip(s: State, a: Act) {
    OwnsTeam(s, a.actor) && a.step.Remove? && Number(a.step.target) == a.actor && !Plain(a.step.target)
  }

  lemma StepKeepsJoins(s: State, a: Act)
    requires Books(s)
    ensures var t := Next(s, a.actor, a.step); OnceEach(t.joins) && Told(t.joins, t.invites)
  {
    var t := Next(s, a.actor, a.step);
    if t.joins != s.joins {
      var pick := a.step.pick;
      assert forall k :: 0 <= k < |s.joins| ==> s.joins[k].0 != pick;
    }
  }

  lemma SameUsers(s: State, a: Act)
    ensures Next(s, a.actor, a.step).users.Keys == s.users.Keys
  {
  }

  lemma FreshTeams(s: State, a: Act)
    ensures var t := Next(s, a.actor, a.step);
            t.owners == s.owners || (t.owners == s.owners[s.nextId := a.actor] && t.nextId > s.nextId)
  {
  }

  lemma FreshInvites(s: State, a: Act)
    ensures var t := Next(s, a.actor, a.step);
            && s.nextId <= t.nextId
            && (t.invites.Keys <= s.invites.Keys || (t.invites.Keys == s.invites.Keys + {s.nextId} && t.nextId > s.nextId))
            && (t.joins == s.joins ||
                (a.step.JoinByCode? && a.step.pick in s.invites && t.joins == s.joins + [(a.step.pick, a.actor)]))
  {
  }

  lemma StepKeepsBooks(s: State, a: Act)
    requires Books(s)
    ensures Books(Next(s, a.actor, a.step))
    ensures Next(s, a.actor, a.step).users.Keys == s.users.Keys
  {
    StepKeepsJoins(s, a);
    SameUsers(s, a);
    FreshTeams(s, a);
    FreshInvites(s, a);
  }

  lemma OthersStay(s: State, a: Act, t: nat)
    requires Books(s) && OwnersBelong(s) && t in s.owners && !Slip(s, a)
    ensures TeamOf(Next(s, a.actor, a.step), s.owners[t]) == Some(t)
  {
    var owner := s.owners[t];
    assert TeamOf(s, owner) == Some(t);
    if a.step.Remove? { TextMeansNumber(a.step.target, a.actor); }
    assert !LetsOut(s, a, owner, t);
    LeaversChange(s, a, owner, t);
  }

  lemma StepKeepsOwners(s: State, a: Act)
    requires Books(s) && OwnersBelong(s) && a.actor in s.users
    ensures OwnersBelong(Next(s, a.actor, a.step)) <==> !Slip(s, a)
  {
    var s' := Next(s, a.actor, a.step);
    FreshTeams(s, a);
    if Slip(s, a) {
      TextMeansNumber(a.step.target, a.actor);
      var t := TeamOf(s, a.actor).value;
      assert t in s'.owners && TeamOf(s', s'.owners[t]) == None;
    } else {
      forall t | t in s'.owners ensures TeamOf(s', s'.owners[t]) == Some(t) {
        if t in s.owners { OthersStay(s, a, t); } else { assert a.step.Create?; }
      }
    }
  }

  predicate Sessions(users: set<nat>, acts: seq<Act>) { forall a :: a in acts ==> a.actor in users }

  predicate BelongAllAlong(s: State, acts: seq<Act>) {
    OwnersBelong(Run(s, acts)) && (acts == [] || BelongAllAlong(s, acts[..|acts| - 1]))
  }

  predicate NoSlip(s: State, acts: seq<Act>) {
    acts == [] || (NoSlip(s, acts[..|acts| - 1]) && !Slip(Run(s, acts[..|acts| - 1]), acts[|acts| - 1]))
  }

  lemma {:induction false} RunKeepsBooks(users: set<nat>, acts: seq<Act>)
    ensures Books(Run(Start(users), acts)) && Run(Start(users), acts).users.Keys == users
  {
    if acts != [] {
      RunKeepsBooks(users, acts[..|acts| - 1]);
      StepKeepsBooks(Run(Start(users), acts[..|acts| - 1]), acts[|acts| - 1]);
    }
  }

  /** Over a run of the team routes every owner belongs to its team all along, exactly if no owner removes itself
      under a spelling of its id with leading zeros. */
  lemma {:induction false} OwnersBelongUnlessSlip(users: set<nat>, acts: seq<Act>)
    requires Sessions(users, acts)
    ensures BelongAllAlong(Start(users), acts) <==> NoSlip(Start(users), acts)
  {
    if acts != [] {
      var front, last := acts[..|acts| - 1], acts[|acts| - 1];
      assert last in acts;
      OwnersBelongUnlessSlip(users, front);
      RunKeepsBooks(users, front);
      if OwnersBelong(Run(Start(users), front)) { StepKeepsOwners(Run(Start(users), front), last); }
    }
  }

  lemma {:induction false} PlainNeverSlips(s: State, acts: seq<Act>)
    requires forall a :: a in acts && a.step.Remove? ==> Plain(a.step.target)
    ensures NoSlip(s, acts)
  {
    if acts != [] {
      assert acts[|acts| - 1] in acts;
      PlainNeverSlips(s, acts[..|acts| - 1]);
    }
  }

  /** With ids spelled plainly, each team's owner belongs to it, so nobody owns two teams, and each invite is used at
      most once. */
  lemma TeamsAreOwned(users: set<nat>, acts: seq<Act>)
    requires Sessions(users, acts)
    requires forall a :: a in acts && a.step.Remove? ==> Plain(a.step.target)
    ensures var s := Run(Start(users), acts);
            && OwnersBelong(s) && OnceEach(s.joins)
            && (forall t, u :: t in s.owners && u in s.owners && s.owners[t] == s.owners[u] ==> t == u)
  {
    PlainNeverSlips(Start(users), acts);
    OwnersBelongUnlessSlip(users, acts);
    RunKeepsBooks(users, acts);
    var s := Run(Start(users), acts);
    forall t, u | t in s.owners && u in s.owners && s.owners[t] == s.owners[u] ensures t == u {
      assert TeamOf(s, s.owners[t]) == Some(t);
    }
  }

  /** Without a row the creator cannot belong to the new team: that users act only with a row is what this rests on,
      exactly. */
  lemma CreatorNeedsARow(s: State, actor: nat, name: string)
    requires Books(s) && OwnersBelong(s) && Allowed(s, actor, Create(name))
    ensures OwnersBelong(Next(s, actor, Create(name))) <==> actor in s.users
  {
    var s' := Next(s, actor, Create(name));
    assert s.nextId in s'.owners;
    if actor in s.users { StepKeepsOwners(s, Act(actor, Create(name))); }
  }

  lemma RunTwo(s: State, first: Act, second: Act)
    ensures Run(s, [first, second]) == Next(Next(s, first.actor, first.step), second.actor, second.step)
  {
    assert [first][..0] == [];
    assert Run(s, [first]) == Next(Run(s, [first][..0]), first.actor, first.step);
    assert [first, second][..1] == [first];
    assert Run(s, [first, second]) == Next(Run(s, [first, second][..1]), second.actor, second.step);
  }

  /** Whoever creates a team can leave it without an owner in it. */
  lemma OwnerSlipsOut(owner: nat, name: string)
    requires 0 < |name| <= 50
    ensures !OwnersBelong(Run(Start({owner}), [Act(owner, Create(name)), Act(owner, Remove(Padded(owner)))]))
  {
    var create, leave := Act(owner, Create(name)), Act(owner, Remove(Padded(owner)));
    var s := Start({owner});
    var s' := Next(s, owner, create.step);
    RunTwo(s, create, leave);
    StepKeepsBooks(s, create);
    CreatorNeedsARow(s, owner, name);
    assert 1 in s'.owners && s'.owners[1] == owner;
    StepKeepsOwners(s', leave);
  }

  // ---------------------------------------------------------------- who is in, and why

  predicate Owner(s: State, user: nat, t: nat) { t in s.owners && s.owners[t] == user }

  predicate In(s: State, user: nat, t: nat) { user in s.users && s.users[user] == Some(t) }

  /** The three ways into a team: making it, an unused and unexpired invite of it with the right code, or a pending
      request of the user's own that its owner, a member, approves. */
  predicate LetsIn(s: State, a: Act, user: nat, t: nat) {
    match a.step
    case Create(name) => a.actor == user && t == s.nextId && 0 < |name| <= 50
    case JoinByCode(code, now, pick) =>
      a.actor == user && code != "" && pick in s.invites && s.invites[pick].teamId == t && s.invites[pick].code == code &&
      s.invites[pick].usedBy == None && now < s.invites[pick].expiresAt
    case Approve(reqId) =>
      Owner(s, a.actor, t) && In(s, a.actor, t) && reqId in s.requests &&
      s.requests[reqId] == Request(t, user, Pending)
    case _ => false
  }

  /** The two ways out: the owner removes somebody else, or a member leaves; ids are compared as text. */
  predicate LetsOut(s: State, a: Act, user: nat, t: nat) {
    a.step.Remove? && Number(a.step.target) == user && In(s, a.actor, t) && t in s.owners &&
    (Owner(s, a.actor, t) <==> a.step.target != Decimal(a.actor))
  }

  lemma JoinersChange(s: State, a: Act, user: nat, t: nat)
    requires user in s.users && s.users[user] == None
    ensures In(Next(s, a.actor, a.step), user, t) <==> LetsIn(s, a, user, t)
  {
  }

  lemma LeaversChange(s: State, a: Act, user: nat, t: nat)
    requires user in s.users && s.users[user].Some?
    ensures In(Next(s, a.actor, a.step), user, t) <==> In(s, user, t) && !LetsOut(s, a, user, t)
  {
  }

  /** Membership of everybody after a step, in these terms: nobody who has a team gets another. */
  lemma MembersChange(s: State, a: Act, user: nat, t: nat)
    requires user in s.users
    ensures In(Next(s, a.actor, a.step), user, t) <==>
            (In(s, user, t) && !LetsOut(s, a, user, t)) || (s.users[user] == None && LetsIn(s, a, user, t))
  {
    if s.users[user] == None { JoinersChange(s, a, user, t); } else { LeaversChange(s, a, user, t); }
  }

  /** An invite appears only by the hand of the team's owner, with its code, and a request only by the user's own. */
  lemma PapersAreTheirs(s: State, a: Act, i: nat)
    requires Books(s)
    ensures var s' := Next(s, a.actor, a.step);
            && (i in s'.invites && i !in s.invites ==>
                  a.step.MakeInvite? && Owner(s, a.actor, s'.invites[i].teamId) && In(s, a.actor, s'.invites[i].teamId) &&
                  s'.invites[i] == Invite(s'.invites[i].teamId, a.step.code, None, a.step.expiresAt))
            && (i in s'.invites && i in s.invites ==>
                  s'.invites[i] == s.invites[i] || s'.invites[i] == s.invites[i].(usedBy := Some(a.actor)))
            && (i in s'.requests && i !in s.requests ==>
                  a.step == AskToJoin(s'.requests[i].teamId) && s'.requests[i] == Request(a.step.teamId, a.actor, Pending))
  {
  }

  /** A request is only ever resolved by the owner of its team: approved if that lets its user in, else rejected. It
      goes only when its user asks again; an invite goes only by its team's owner, and is used by who joins with it. */
  lemma PapersResolve(s: State, a: Act, i: nat)
    requires Books(s)
    ensures var s' := Next(s, a.actor, a.step);
            && (i in s.requests && i in s'.requests && s'.requests[i] != s.requests[i] && i != s.nextId ==>
                  Owner(s, a.actor, s.requests[i].teamId) &&
                  (s'.requests[i] == s.requests[i].(status := Rejected) ||
                   (s'.requests[i] == s.requests[i].(status := Approved) && a.step == Approve(i) &&
                    TeamOf(s, s.requests[i].userId) == None)))
            && (i in s.requests && i !in s'.requests ==>
                  a.step == AskToJoin(s.requests[i].teamId) && s.requests[i].userId == a.actor)
            && (i in s.invites && i !in s'.invites ==> a.step == Revoke(i) && Owner(s, a.actor, s.invites[i].teamId))
            && (i in s.invites && i in s'.invites && s'.invites[i] != s.invites[i] ==>
                  a.step.JoinByCode? && a.step.pick == i && s'.users == SetTeam(s.users, a.actor, Some(s.invites[i].teamId)))
  {
  }

  predicate WasLetIn(s: State, acts: seq<Act>, user: nat, t: nat) {
    acts != [] &&
    (WasLetIn(s, acts[..|acts| - 1], user, t) || LetsIn(Run(s, acts[..|acts| - 1]), acts[|acts| - 1], user, t))
  }

  /** Over every run, whoever is in a team was let in. */
  lemma {:induction false} MembersWereLetIn(users: set<nat>, acts: seq<Act>, user: nat, t: nat)
    requires user in users && In(Run(Start(users), acts), user, t)
    ensures WasLetIn(Start(users), acts, user, t)
  {
    if acts != [] {
      var front := acts[..|acts| - 1];
      RunKeepsBooks(users, front);
      MembersChange(Run(Start(users), front), acts[|acts| - 1], user, t);
      if In(Run(Start(users), front), user, t) { MembersWereLetIn(users, front, user, t); }
    }
  }
}

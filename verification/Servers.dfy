/** Servers and their members: creating and deleting servers, adding, promoting and removing members. */
module Servers {
  import opened Wrappers
  import opened PathIds

  datatype Role = Owner | Admin | Member

  /** Members only exist for existing servers. Ids are handed out in increasing order. */
  datatype State = State(servers: set<nat>, members: map<(nat, nat), Role>, nextId: nat)

  /** `user` of AddMember is the active user of the given name, if there is one. */
  datatype Step =
    | CreateServer(complete: bool)
    | AddMember(serverId: nat, user: Option<nat>, role: Role)
    | ChangeRole(serverId: nat, target: PathId, role: Role)
    | RemoveMember(serverId: nat, target: PathId)
    | DeleteServer(serverId: nat)

  function RoleOf(s: State, serverId: nat, user: nat): Option<Role> {
    if (serverId, user) in s.members then Some(s.members[(serverId, user)]) else None
  }

  predicate Manages(r: Option<Role>) { r == Some(Owner) || r == Some(Admin) }

  predicate Allowed(s: State, actor: nat, step: Step) {
    match step
    case CreateServer(complete) => complete
    case AddMember(serverId, target, role) =>
      var mine := RoleOf(s, serverId, actor);
      && Manages(mine) && (role == Member || mine == Some(Owner))
      && target.Some? && RoleOf(s, serverId, target.value) == None
    case ChangeRole(serverId, target, _) =>
      RoleOf(s, serverId, actor) == Some(Owner) && target != Decimal(actor) &&
      RoleOf(s, serverId, Number(target)).Some?
    case RemoveMember(serverId, target) =>
      var mine := RoleOf(s, serverId, actor);
      if target == Decimal(actor) then mine != Some(Owner)
      else Manages(mine) && (Manages(RoleOf(s, serverId, Number(target))) ==> mine == Some(Owner))
    case DeleteServer(serverId) => RoleOf(s, serverId, actor) == Some(Owner)
  }

  function Next(s: State, actor: nat, step: Step): State {
    if !Allowed(s, actor, step) then s
    else
      match step
      case CreateServer(_) =>
        State(s.servers + {s.nextId},
              if (s.nextId, actor) in s.members then s.members else s.members[(s.nextId, actor) := Owner], s.nextId + 1)
      case AddMember(serverId, target, role) => s.(members := s.members[(serverId, target.value) := role])
      case ChangeRole(serverId, target, role) => s.(members := s.members[(serverId, Number(target)) := role])
      case RemoveMember(serverId, target) => s.(members := s.members - {(serverId, Number(target))})
      case DeleteServer(serverId) =>
        s.(servers := s.servers - {serverId}, members := map m | m in s.members && m.0 != serverId :: s.members[m])
  }

  class Database {
    var servers: set<nat>
    var members: map<(nat, nat), Role>
    var nextId: nat

    function Now(): State
      reads this
    {
      State(servers, members, nextId)
    }

    constructor ()
      ensures Now() == Start
    {
      servers, members, nextId := {}, map[], 1;
    }

    method GetServerRole(user: nat, serverId: nat) returns (r: Option<Role>)
      ensures r == RoleOf(Now(), serverId, user)
    {
      if (serverId, user) in members { return Some(members[(serverId, user)]); }
      return None;
    }

    /** `complete`: name and host are given, and a password where the connection mode needs one. */
    method PostServer(actor: nat, complete: bool) returns (ok: bool)
      modifies this
      ensures Now() == Next(old(Now()), actor, CreateServer(complete)) && ok == complete
    {
      if !complete { return false; }
      var id := nextId;
      servers, nextId := servers + {id}, nextId + 1;
      if (id, actor) !in members { members := members[(id, actor) := Owner]; }
      return true;
    }

    method PostMember(actor: nat, serverId: nat, target: Option<nat>, role: Role) returns (ok: bool)
      modifies this
      ensures Now() == Next(old(Now()), actor, AddMember(serverId, target, role))
      ensures ok == Allowed(old(Now()), actor, AddMember(serverId, target, role))
    {
      var mRole := GetServerRole(actor, serverId);
      if mRole != Some(Owner) && mRole != Some(Admin) { return false; }
      if (role == Owner || role == Admin) && mRole != Some(Owner) { return false; }
      if target == None { return false; }
      if (serverId, target.value) in members { return false; }
      members := members[(serverId, target.value) := role];
      return true;
    }

    method PutMember(actor: nat, serverId: nat, target: PathId, role: Role) returns (ok: bool)
      modifies this
      ensures Now() == Next(old(Now()), actor, ChangeRole(serverId, target, role))
      ensures ok == Allowed(old(Now()), actor, ChangeRole(serverId, target, role))
    {
      var mRole := GetServerRole(actor, serverId);
      if mRole != Some(Owner) { return false; }
      if target == Decimal(actor) { return false; }
      if (serverId, Number(target)) !in members { return false; }
      members := members[(serverId, Number(target)) := role];
      return true;
    }

    method DeleteMember(actor: nat, serverId: nat, target: PathId) returns (ok: bool)
      modifies this
      ensures Now() == Next(old(Now()), actor, RemoveMember(serverId, target))
      ensures ok == Allowed(old(Now()), actor, RemoveMember(serverId, target))
    {
      var mRole := GetServerRole(actor, serverId);
      if target == Decimal(actor) {
        if mRole == Some(Owner) { return false; }
        members := members - {(serverId, Number(target))};
        return true;
      }
      if mRole != Some(Owner) && mRole != Some(Admin) { return false; }
      var tRole := GetServerRole(Number(target), serverId);
      if (tRole == Some(Owner) || tRole == Some(Admin)) && mRole != Some(Owner) { return false; }
      members := members - {(serverId, Number(target))};
      return true;
    }

    method Delete(actor: nat, serverId: nat) returns (ok: bool)
      modifies this
      ensures Now() == Next(old(Now()), actor, DeleteServer(serverId))
      ensures ok == Allowed(old(Now()), actor, DeleteServer(serverId))
    {
      var mRole := GetServerRole(actor, serverId);
      if mRole != Some(Owner) { return false; }
      members := map m | m in members && m.0 != serverId :: members[m];
      servers := servers - {serverId};
      return true;
    }
  }

  // ---------------------------------------------------------------- runs

  const Start := State({}, map[], 1)

  datatype Act = Act(actor: nat, step: Step)

  function Run(acts: seq<Act>): State {
    if acts == [] then Start else Next(Run(acts[..|acts| - 1]), acts[|acts| - 1].actor, acts[|acts| - 1].step)
  }

  predicate Owns(s: State, serverId: nat, user: nat) { RoleOf(s, serverId, user) == Some(Owner) }

  ghost predicate Owned(s: State) { forall x :: x in s.servers ==> exists u :: Owns(s, x, u) }

  predicate Books(s: State) {
    (forall x :: x in s.servers ==> x < s.nextId) && (forall m :: m in s.members ==> m.0 in s.servers)
  }

  /** An owner names itself with leading zeros, which neither route takes for its own id. */
  predicate Slip(s: State, a: Act) {
    match a.step
    case ChangeRole(x, target, role) =>
      Owns(s, x, a.actor) && Number(target) == a.actor && !Plain(target) && role != Owner
    case RemoveMember(x, target) => Owns(s, x, a.actor) && Number(target) == a.actor && !Plain(target)
    case _ => false
  }

  /** What a slip costs: the server has no owner left, unless there is another. */
  ghost predicate Orphans(s: State, a: Act) {
    Slip(s, a) && forall u :: Owns(s, a.step.serverId, u) ==> u == a.actor
  }

  lemma StepKeepsBooks(s: State, a: Act)
    requires Books(s)
    ensures Books(Next(s, a.actor, a.step))
  {
  }

  /** Ownership ends only with the server, by another owner's act, or by a slip. */
  lemma OwnerStays(s: State, a: Act, serverId: nat, user: nat)
    requires Books(s) && Owns(s, serverId, user)
    ensures var t := Next(s, a.actor, a.step);
            Owns(t, serverId, user) || serverId !in t.servers ||
            (if a.actor == user then Slip(s, a) && a.step.serverId == serverId
             else Owns(s, serverId, a.actor) && Owns(t, serverId, a.actor))
  {
    assert (serverId, user) in s.members;
    if a.step.ChangeRole? || a.step.RemoveMember? { TextMeansNumber(a.step.target, a.actor); }
  }

  lemma StepKeepsOwners(s: State, a: Act)
    requires Books(s) && Owned(s)
    ensures Owned(Next(s, a.actor, a.step)) <==> !Orphans(s, a)
  {
    var t := Next(s, a.actor, a.step);
    if Orphans(s, a) {
      var x := a.step.serverId;
      TextMeansNumber(a.step.target, a.actor);
      assert (x, a.actor) in s.members;
      forall u ensures !Owns(t, x, u) {
        if u != a.actor { assert !Owns(s, x, u); }
      }
      assert x in t.servers;
    } else {
      forall x | x in t.servers ensures exists u :: Owns(t, x, u) {
        if x in s.servers {
          var u :| Owns(s, x, u);
          OwnerStays(s, a, x, u);
          if !Owns(t, x, u) && Slip(s, a) && a.step.serverId == x {
            var w :| Owns(s, x, w) && w != a.actor;
            OwnerStays(s, a, x, w);
          }
        } else {
          assert (x, a.actor) !in s.members;
          assert Owns(t, x, a.actor);
        }
      }
    }
  }

  lemma {:induction false} RunKeepsBooks(acts: seq<Act>)
    ensures Books(Run(acts))
  {
    if acts != [] {
      RunKeepsBooks(acts[..|acts| - 1]);
      StepKeepsBooks(Run(acts[..|acts| - 1]), acts[|acts| - 1]);
    }
  }

  ghost predicate OwnedAllAlong(acts: seq<Act>) {
    Owned(Run(acts)) && (acts == [] || OwnedAllAlong(acts[..|acts| - 1]))
  }

  ghost predicate NoneOrphaned(acts: seq<Act>) {
    acts == [] || (NoneOrphaned(acts[..|acts| - 1]) && !Orphans(Run(acts[..|acts| - 1]), acts[|acts| - 1]))
  }

  /** Over a run of the server and membership routes every server keeps an owner all along, exactly if no sole owner
      demotes or removes itself under a spelling of its id with leading zeros. */
  lemma {:induction false} OwnedUnlessOrphaned(acts: seq<Act>)
    ensures OwnedAllAlong(acts) <==> NoneOrphaned(acts)
  {
    if acts != [] {
      var front, last := acts[..|acts| - 1], acts[|acts| - 1];
      OwnedUnlessOrphaned(front);
      RunKeepsBooks(front);
      if Owned(Run(front)) { StepKeepsOwners(Run(front), last); }
    }
  }

  lemma {:induction false} PlainNeverOrphans(acts: seq<Act>)
    requires forall a :: a in acts && (a.step.ChangeRole? || a.step.RemoveMember?) ==> Plain(a.step.target)
    ensures NoneOrphaned(acts)
  {
    if acts != [] {
      assert acts[|acts| - 1] in acts;
      PlainNeverOrphans(acts[..|acts| - 1]);
    }
  }

  /** With ids spelled plainly, each existing server has an owner. */
  lemma ServersAreOwned(acts: seq<Act>)
    requires forall a :: a in acts && (a.step.ChangeRole? || a.step.RemoveMember?) ==> Plain(a.step.target)
    ensures Owned(Run(acts))
  {
    PlainNeverOrphans(acts);
    OwnedUnlessOrphaned(acts);
  }

  /** Whoever creates a server can leave it without an owner, by leaving or by stepping down. */
  lemma OwnerSlipsOut(owner: nat, role: Role)
    requires role != Owner
    ensures !Owned(Run([Act(owner, CreateServer(true)), Act(owner, RemoveMember(1, Padded(owner)))]))
    ensures !Owned(Run([Act(owner, CreateServer(true)), Act(owner, ChangeRole(1, Padded(owner), role))]))
  {
    SlipOrphans(owner, RemoveMember(1, Padded(owner)));
    SlipOrphans(owner, ChangeRole(1, Padded(owner), role));
  }

  lemma RunTwo(first: Act, second: Act)
    ensures Run([first, second]) == Next(Next(Start, first.actor, first.step), second.actor, second.step)
  {
    assert [first][..0] == [];
    assert Run([first]) == Next(Run([first][..0]), first.actor, first.step);
    assert [first, second][..1] == [first];
    assert Run([first, second]) == Next(Run([first, second][..1]), second.actor, second.step);
  }

  lemma SlipOrphans(owner: nat, step: Step)
    requires step == RemoveMember(1, Padded(owner)) || (step.ChangeRole? && step == ChangeRole(1, Padded(owner), step.role) && step.role != Owner)
    ensures !Owned(Run([Act(owner, CreateServer(true)), Act(owner, step)]))
  {
    var create, slip := Act(owner, CreateServer(true)), Act(owner, step);
    var s := Next(Start, owner, create.step);
    RunTwo(create, slip);
    StepKeepsBooks(Start, create);
    StepKeepsOwners(Start, create);
    assert s.members == map[(1, owner) := Owner];
    StepKeepsOwners(s, slip);
  }

  // ---------------------------------------------------------------- who has which role, and why

  predicate Has(s: State, x: nat, user: nat, role: Role) { (x, user) in s.members && s.members[(x, user)] == role }

  predicate Absent(s: State, x: nat, user: nat) { (x, user) !in s.members }

  /** How a user comes to a role: by creating the server, by being added, where only owners hand out more than plain
      membership, or by an owner's change of somebody else, by text. */
  predicate Gives(s: State, a: Act, x: nat, user: nat, role: Role) {
    match a.step
    case CreateServer(complete) => complete && x == s.nextId && user == a.actor && role == Owner && Absent(s, x, user)
    case AddMember(server, target, r) =>
      server == x && target == Some(user) && r == role && Absent(s, x, user) &&
      (Has(s, x, a.actor, Owner) || (Has(s, x, a.actor, Admin) && role == Member))
    case ChangeRole(server, target, r) =>
      server == x && Number(target) == user && target != Decimal(a.actor) && r == role && !Absent(s, x, user) &&
      Has(s, x, a.actor, Owner)
    case _ => false
  }

  /** How a user loses whatever role it has: with the server; by leaving, if not an owner; removed by an owner; or, as a
      plain member, removed by an admin. */
  predicate Takes(s: State, a: Act, x: nat, user: nat) {
    match a.step
    case DeleteServer(server) => server == x && Has(s, x, a.actor, Owner)
    case RemoveMember(server, target) =>
      server == x && Number(target) == user &&
      (if target == Decimal(a.actor) then !Has(s, x, a.actor, Owner)
       else Has(s, x, a.actor, Owner) ||
            (Has(s, x, a.actor, Admin) && !Has(s, x, user, Owner) && !Has(s, x, user, Admin)))
    case _ => false
  }

  predicate GivesAny(s: State, a: Act, x: nat, user: nat) {
    Gives(s, a, x, user, Owner) || Gives(s, a, x, user, Admin) || Gives(s, a, x, user, Member)
  }

  /** Everybody's role after a step, in these terms. */
  lemma RolesChange(s: State, a: Act, x: nat, user: nat, role: Role)
    ensures Has(Next(s, a.actor, a.step), x, user, role) <==>
            Gives(s, a, x, user, role) || (Has(s, x, user, role) && !Takes(s, a, x, user) && !GivesAny(s, a, x, user))
  {
  }

  /** A server appears with its creator and goes with its members. */
  lemma ServersChange(s: State, a: Act, x: nat)
    ensures x in Next(s, a.actor, a.step).servers <==>
            (a.step == CreateServer(true) && x == s.nextId) ||
            (x in s.servers && !(a.step == DeleteServer(x) && Has(s, x, a.actor, Owner)))
  {
  }

  predicate WasGiven(acts: seq<Act>, x: nat, user: nat, role: Role) {
    acts != [] &&
    (WasGiven(acts[..|acts| - 1], x, user, role) || Gives(Run(acts[..|acts| - 1]), acts[|acts| - 1], x, user, role))
  }

  /** Over every run, whoever has a role was given it, by someone who could. */
  lemma {:induction false} RolesWereGiven(acts: seq<Act>, x: nat, user: nat, role: Role)
    requires Has(Run(acts), x, user, role)
    ensures WasGiven(acts, x, user, role)
  {
    if acts != [] {
      var front := acts[..|acts| - 1];
      RolesChange(Run(front), acts[|acts| - 1], x, user, role);
      if Has(Run(front), x, user, role) { RolesWereGiven(front, x, user, role); }
    }
  }
}

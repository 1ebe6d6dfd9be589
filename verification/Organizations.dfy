/**
 Organisations and their members: the transactions of the store, each under a lock on its
 organisation, and the service in front of it, whose policy checks read before that lock is taken.
 */
module Organizations {
  import opened Wrappers

  datatype Role = Owner | Admin | Writer | Reader

  datatype Error = InvalidRole | InvalidMember | NotFound | InConflict | LastOwner | Forbidden

  datatype Membership = Membership(
    organization: string,
    user: string,
    role: Role,
    addedBy: string,
    updatedAt: nat)

  datatype Organization = Organization(namespaceId: string, createdBy: string)

  datatype NewOrganization = NewOrganization(
    id: string,
    namespaceId: string,
    namespaceName: string,
    createdBy: string,
    owner: Membership)

  datatype Tables = Tables(
    users: set<string>,
    namespaces: map<string, string>,
    organizations: map<string, Organization>,
    members: seq<Membership>)

  function ParseRole(value: string): Option<Role> {
    if value == "OWNER" then Some(Owner)
    else if value == "ADMIN" then Some(Admin)
    else if value == "WRITER" then Some(Writer)
    else if value == "READER" then Some(Reader)
    else None
  }

  // Queries on the membership rows

  predicate IsOf(m: Membership, organization: string, user: string) {
    m.organization == organization && m.user == user
  }

  /** The row WHERE organization_id = ? AND user_id = ?. */
  function RoleOf(members: seq<Membership>, organization: string, user: string): Option<Role> {
    if members == [] then None
    else
      var last := members[|members| - 1];
      if IsOf(last, organization, user) then Some(last.role)
      else RoleOf(members[..|members| - 1], organization, user)
  }

  /** COUNT(*) WHERE organization_id = ? AND role = 'OWNER'. */
  function Owners(members: seq<Membership>, organization: string): nat {
    if members == [] then 0
    else
      var last := members[|members| - 1];
      Owners(members[..|members| - 1], organization)
      + if last.organization == organization && last.role == Owner then 1 else 0
  }

  function WithRole(members: seq<Membership>, organization: string, user: string, role: Role, at: nat)
    : seq<Membership>
  {
    seq(|members|, i requires 0 <= i < |members| =>
      if IsOf(members[i], organization, user) then members[i].(role := role, updatedAt := at) else members[i])
  }

  function Without(members: seq<Membership>, organization: string, user: string): seq<Membership> {
    if members == [] then []
    else
      var last := members[|members| - 1];
      Without(members[..|members| - 1], organization, user)
      + if IsOf(last, organization, user) then [] else [last]
  }

  // Transactions

  function CreateStep(t: Tables, input: NewOrganization): (Tables, Result<(), Error>) {
    if input.owner.role != Owner || input.owner.organization != input.id || input.owner.user != input.createdBy
       || input.namespaceId == "" || input.namespaceName == "" then (t, Failure(InvalidRole))
    else if input.namespaceId in t.namespaces || input.namespaceName in t.namespaces.Values
            || input.id in t.organizations then (t, Failure(InConflict))
    else if input.createdBy !in t.users || input.owner.addedBy !in t.users then (t, Failure(InvalidMember))
    else if RoleOf(t.members, input.id, input.createdBy).Some? then (t, Failure(InConflict))
    else
      (t.(namespaces := t.namespaces[input.namespaceId := input.namespaceName],
          organizations := t.organizations[input.id := Organization(input.namespaceId, input.createdBy)],
          members := t.members + [input.owner]),
       Success(()))
  }

  function AddStep(t: Tables, organization: string, user: string, role: string, addedBy: string, at: nat)
    : (Tables, Result<(), Error>)
  {
    if ParseRole(role).None? then (t, Failure(InvalidRole))
    else if organization !in t.organizations then (t, Failure(NotFound))
    else if RoleOf(t.members, organization, user).Some? then (t, Failure(InConflict))
    else if user !in t.users || addedBy !in t.users then (t, Failure(InvalidMember))
    else
      (t.(members := t.members + [Membership(organization, user, ParseRole(role).value, addedBy, at)]),
       Success(()))
  }

  function ChangeStep(t: Tables, organization: string, user: string, role: string, at: nat)
    : (Tables, Result<(), Error>)
  {
    if ParseRole(role).None? then (t, Failure(InvalidRole))
    else if organization !in t.organizations then (t, Failure(NotFound))
    else
      var desired := ParseRole(role).value;
      match RoleOf(t.members, organization, user)
      case None => (t, Failure(NotFound))
      case Some(current) =>
        if current == Owner && desired != Owner && Owners(t.members, organization) <= 1 then (t, Failure(LastOwner))
        else (t.(members := WithRole(t.members, organization, user, desired, at)), Success(()))
  }

  function RemoveStep(t: Tables, organization: string, user: string): (Tables, Result<(), Error>) {
    if organization !in t.organizations then (t, Failure(NotFound))
    else
      match RoleOf(t.members, organization, user)
      case None => (t, Failure(NotFound))
      case Some(current) =>
        if current == Owner && Owners(t.members, organization) <= 1 then (t, Failure(LastOwner))
        else (t.(members := Without(t.members, organization, user)), Success(()))
  }

  // What every transaction keeps

  predicate UniqueMembers(members: seq<Membership>) {
    forall i, j | 0 <= i < j < |members| :: !IsOf(members[j], members[i].organization, members[i].user)
  }

  /** Namespaces have distinct names, and every organisation a namespace of its own. */
  predicate NamespacesOk(t: Tables) {
    (forall a, b | a in t.namespaces && b in t.namespaces && t.namespaces[a] == t.namespaces[b] :: a == b)
    && (forall id | id in t.organizations :: t.organizations[id].namespaceId in t.namespaces)
    && (forall a, b | a in t.organizations && b in t.organizations
          && t.organizations[a].namespaceId == t.organizations[b].namespaceId :: a == b)
  }

  /** At most one membership per user, every row refers to rows that exist, and nobody lacks an owner. */
  predicate TablesOk(t: Tables) {
    UniqueMembers(t.members) && NamespacesOk(t)
    && (forall m | m in t.members :: m.organization in t.organizations && m.user in t.users)
    && (forall id | id in t.organizations :: Owners(t.members, id) >= 1)
  }

  lemma {:induction false} RoleOfRow(members: seq<Membership>, organization: string, user: string)
    ensures RoleOf(members, organization, user).Some?
       <==> exists m :: m in members && IsOf(m, organization, user)
    ensures UniqueMembers(members) ==>
              forall m | m in members && IsOf(m, organization, user) ::
                RoleOf(members, organization, user) == Some(m.role)
  {
    if members != [] {
      var last := |members| - 1;
      var before := members[..last];
      RoleOfRow(before, organization, user);
      assert members == before + [members[last]];
      if UniqueMembers(members) && IsOf(members[last], organization, user) {
        forall m | m in before ensures !IsOf(m, organization, user) {
          var i :| 0 <= i < last && before[i] == m;
          assert !IsOf(members[last], members[i].organization, members[i].user);
        }
      }
    }
  }

  lemma OwnersOfNew(members: seq<Membership>, m: Membership, organization: string)
    ensures Owners(members + [m], organization)
         == Owners(members, organization) + if m.organization == organization && m.role == Owner then 1 else 0
  {
    assert (members + [m])[..|members|] == members;
  }

  /** Changing a user's row takes away the owner it was and adds the owner it becomes. */
  lemma {:induction false} OwnersAfterChange(
      members: seq<Membership>, organization: string, user: string, role: Role, at: nat, other: string)
    requires UniqueMembers(members)
    ensures Owners(WithRole(members, organization, user, role, at), other)
         == Owners(members, other)
            + (if other == organization && role == Owner && RoleOf(members, organization, user).Some? then 1 else 0)
            - (if other == organization && RoleOf(members, organization, user) == Some(Owner) then 1 else 0)
  {
    if members != [] {
      var last := |members| - 1;
      var before := members[..last];
      var after := WithRole(members, organization, user, role, at);
      assert after[..last] == WithRole(before, organization, user, role, at);
      OwnersAfterChange(before, organization, user, role, at, other);
      if IsOf(members[last], organization, user) {
        NotBefore(members, organization, user);
      }
    }
  }

  lemma NotBefore(members: seq<Membership>, organization: string, user: string)
    requires UniqueMembers(members) && members != [] && IsOf(members[|members| - 1], organization, user)
    ensures RoleOf(members[..|members| - 1], organization, user) == None
  {
    var before := members[..|members| - 1];
    RoleOfRow(before, organization, user);
    forall m | m in before ensures !IsOf(m, organization, user) {
      var i :| 0 <= i < |before| && before[i] == m;
      assert !IsOf(members[|members| - 1], members[i].organization, members[i].user);
    }
  }

  lemma {:induction false} OwnersAfterRemoval(
      members: seq<Membership>, organization: string, user: string, other: string)
    requires UniqueMembers(members)
    ensures Owners(Without(members, organization, user), other)
         == Owners(members, other)
            - if other == organization && RoleOf(members, organization, user) == Some(Owner) then 1 else 0
  {
    if members != [] {
      var last := |members| - 1;
      var before := members[..last];
      OwnersAfterRemoval(before, organization, user, other);
      if IsOf(members[last], organization, user) {
        NotBefore(members, organization, user);
        assert Without(members, organization, user) == Without(before, organization, user);
      } else {
        OwnersOfNew(Without(before, organization, user), members[last], other);
      }
    }
  }

  lemma {:induction false} RowsAfterRemoval(members: seq<Membership>, organization: string, user: string)
    ensures forall m :: m in Without(members, organization, user)
                        <==> m in members && !IsOf(m, organization, user)
  {
    if members != [] {
      var last := |members| - 1;
      RowsAfterRemoval(members[..last], organization, user);
      assert members == members[..last] + [members[last]];
    }
  }

  lemma {:induction false} RemovalKeepsUnique(members: seq<Membership>, organization: string, user: string)
    requires UniqueMembers(members)
    ensures UniqueMembers(Without(members, organization, user))
  {
    if members != [] {
      var last := |members| - 1;
      var before := members[..last];
      RemovalKeepsUnique(before, organization, user);
      RowsAfterRemoval(before, organization, user);
      var kept := Without(before, organization, user);
      forall i | 0 <= i < |kept| ensures !IsOf(members[last], kept[i].organization, kept[i].user) {
        assert kept[i] in before;
        var k :| 0 <= k < last && before[k] == kept[i];
        assert !IsOf(members[last], members[k].organization, members[k].user);
      }
    }
  }

  lemma InsertKeepsUnique(members: seq<Membership>, m: Membership)
    requires UniqueMembers(members) && RoleOf(members, m.organization, m.user).None?
    ensures UniqueMembers(members + [m])
  {
    RoleOfRow(members, m.organization, m.user);
    forall i | 0 <= i < |members| ensures !IsOf(m, members[i].organization, members[i].user) {
      assert members[i] in members;
    }
  }

  /** A new row keeps the tables, if its user has none yet and it brings an owner where one lacks. */
  lemma InsertKeeps(t: Tables, t': Tables, m: Membership)
    requires TablesOk(t) && NamespacesOk(t') && t'.members == t.members + [m] && t'.users == t.users
    requires RoleOf(t.members, m.organization, m.user).None? && m.user in t.users
    requires t.organizations.Keys <= t'.organizations.Keys && m.organization in t'.organizations
    requires forall id | id in t'.organizations && id !in t.organizations :: id == m.organization && m.role == Owner
    ensures TablesOk(t')
  {
    InsertKeepsUnique(t.members, m);
    forall id | id in t'.organizations ensures Owners(t'.members, id) >= 1 {
      OwnersOfNew(t.members, m, id);
    }
    hide UniqueMembers, NamespacesOk, Owners, RoleOf;
  }

  lemma CreateKeepsNamespaces(t: Tables, input: NewOrganization)
    requires NamespacesOk(t)
    ensures NamespacesOk(CreateStep(t, input).0)
  {
    hide RoleOf;
  }

  lemma NamespacesStay(t: Tables, members: seq<Membership>)
    ensures NamespacesOk(t.(members := members)) == NamespacesOk(t)
  {
  }

  lemma CreateKeeps(t: Tables, input: NewOrganization)
    requires TablesOk(t)
    ensures TablesOk(CreateStep(t, input).0)
  {
    assert NamespacesOk(t);
    hide TablesOk, RoleOf;
    CreateKeepsNamespaces(t, input);
    if CreateStep(t, input).1.Success? {
      InsertKeeps(t, CreateStep(t, input).0, input.owner);
    }
  }

  lemma AddKeeps(t: Tables, organization: string, user: string, role: string, addedBy: string, at: nat)
    requires TablesOk(t)
    ensures TablesOk(AddStep(t, organization, user, role, addedBy, at).0)
  {
    assert NamespacesOk(t);
    hide ParseRole, TablesOk, RoleOf;
    NamespacesStay(t, AddStep(t, organization, user, role, addedBy, at).0.members);
    if AddStep(t, organization, user, role, addedBy, at).1.Success? {
      InsertKeeps(t, AddStep(t, organization, user, role, addedBy, at).0,
                  Membership(organization, user, ParseRole(role).value, addedBy, at));
    }
  }

  lemma ChangeKeeps(t: Tables, organization: string, user: string, role: string, at: nat)
    requires TablesOk(t)
    ensures TablesOk(ChangeStep(t, organization, user, role, at).0)
  {
    hide ParseRole;
    if ChangeStep(t, organization, user, role, at).1.Success? {
      var desired := ParseRole(role).value;
      var members := WithRole(t.members, organization, user, desired, at);
      assert UniqueMembers(members);
      forall m | m in members ensures m.organization in t.organizations && m.user in t.users {
        var i :| 0 <= i < |members| && members[i] == m;
        assert t.members[i] in t.members;
      }
      forall id | id in t.organizations ensures Owners(members, id) >= 1 {
        OwnersAfterChange(t.members, organization, user, desired, at, id);
      }
      NamespacesStay(t, members);
      hide UniqueMembers, NamespacesOk, Owners, RoleOf, WithRole;
    }
  }

  lemma RemoveKeeps(t: Tables, organization: string, user: string)
    requires TablesOk(t)
    ensures TablesOk(RemoveStep(t, organization, user).0)
  {
    if RemoveStep(t, organization, user).1.Success? {
      RowsAfterRemoval(t.members, organization, user);
      RemovalKeepsUnique(t.members, organization, user);
      forall id | id in t.organizations ensures Owners(Without(t.members, organization, user), id) >= 1 {
        OwnersAfterRemoval(t.members, organization, user, id);
      }
      NamespacesStay(t, Without(t.members, organization, user));
      hide UniqueMembers, NamespacesOk, Owners, RoleOf, Without;
    }
  }

  // When the last owner is protected

  /** The user is the one owner of the organisation. */
  predicate SoleOwner(t: Tables, organization: string, user: string) {
    RoleOf(t.members, organization, user) == Some(Owner)
    && forall m | m in t.members && m.organization == organization && m.role == Owner :: m.user == user
  }

  lemma {:induction false} NoOwners(members: seq<Membership>, organization: string)
    ensures Owners(members, organization) == 0
       <==> forall m | m in members && m.organization == organization :: m.role != Owner
  {
    if members != [] {
      NoOwners(members[..|members| - 1], organization);
      assert members == members[..|members| - 1] + [members[|members| - 1]];
    }
  }

  /** The count that guards the last owner is at most one exactly for a sole owner. */
  lemma CountFindsSoleOwner(t: Tables, organization: string, user: string)
    requires TablesOk(t) && RoleOf(t.members, organization, user) == Some(Owner)
    ensures Owners(t.members, organization) <= 1 <==> SoleOwner(t, organization, user)
  {
    var rest := Without(t.members, organization, user);
    OwnersAfterRemoval(t.members, organization, user, organization);
    RowsAfterRemoval(t.members, organization, user);
    NoOwners(rest, organization);
    assert forall m | m in t.members && m.organization == organization && m.user != user :: m in rest;
    assert forall m | m in rest && m.organization == organization :: m.user != user && m in t.members;
  }

  /** Demoting or removing is refused for the last owner exactly when the user is the sole owner. */
  lemma LastOwnerIff(t: Tables, organization: string, user: string, role: string, at: nat)
    requires TablesOk(t)
    ensures ChangeStep(t, organization, user, role, at).1 == Failure(LastOwner)
       <==> ParseRole(role).Some? && ParseRole(role) != Some(Owner) && organization in t.organizations
            && SoleOwner(t, organization, user)
    ensures RemoveStep(t, organization, user).1 == Failure(LastOwner)
       <==> organization in t.organizations && SoleOwner(t, organization, user)
  {
    if RoleOf(t.members, organization, user) == Some(Owner) {
      CountFindsSoleOwner(t, organization, user);
    }
    hide ParseRole, WithRole, Without, TablesOk;
  }

  // What a committed transaction changes

  /** A new organisation has its namespace and its creator as the one member, an owner. */
  lemma CreateMakesOwner(t: Tables, input: NewOrganization, o: string, u: string)
    requires TablesOk(t) && CreateStep(t, input).1.Success?
    ensures var t' := CreateStep(t, input).0;
            input.id !in t.organizations && input.id in t'.organizations
            && t'.organizations[input.id].namespaceId in t'.namespaces
            && t'.namespaces[t'.organizations[input.id].namespaceId] == input.namespaceName
            && RoleOf(t'.members, o, u)
               == if o == input.id then (if u == input.createdBy then Some(Owner) else None)
                  else RoleOf(t.members, o, u)
  {
    RoleOfRow(t.members, input.id, u);
    assert (t.members + [input.owner])[..|t.members|] == t.members;
    assert forall m | m in t.members :: m.organization != input.id;
    hide UniqueMembers, NamespacesOk, Owners;
  }

  lemma {:induction false} RoleAfterChange(
      members: seq<Membership>, organization: string, user: string, role: Role, at: nat, o: string, u: string)
    ensures RoleOf(WithRole(members, organization, user, role, at), o, u)
         == if o == organization && u == user && RoleOf(members, o, u).Some? then Some(role) else RoleOf(members, o, u)
  {
    if members != [] {
      var last := |members| - 1;
      var after := WithRole(members, organization, user, role, at);
      assert after[..last] == WithRole(members[..last], organization, user, role, at);
      RoleAfterChange(members[..last], organization, user, role, at, o, u);
    }
  }

  lemma {:induction false} RoleAfterRemoval(
      members: seq<Membership>, organization: string, user: string, o: string, u: string)
    ensures RoleOf(Without(members, organization, user), o, u)
         == if o == organization && u == user then None else RoleOf(members, o, u)
  {
    if members != [] {
      var last := |members| - 1;
      var before := Without(members[..last], organization, user);
      RoleAfterRemoval(members[..last], organization, user, o, u);
      if IsOf(members[last], organization, user) {
        assert Without(members, organization, user) == before;
      } else {
        assert (before + [members[last]])[..|before|] == before;
      }
    }
  }

  /** Each member transaction sets one user's role in one organisation, and touches no other. */
  lemma OnlyTheMemberChanges(
      t: Tables, organization: string, user: string, role: string, addedBy: string, at: nat, o: string, u: string)
    ensures var r := AddStep(t, organization, user, role, addedBy, at);
            r.1.Success? ==> RoleOf(r.0.members, o, u)
                             == if o == organization && u == user then ParseRole(role) else RoleOf(t.members, o, u)
    ensures var r := ChangeStep(t, organization, user, role, at);
            r.1.Success? ==> RoleOf(r.0.members, o, u)
                             == if o == organization && u == user then ParseRole(role) else RoleOf(t.members, o, u)
    ensures var r := RemoveStep(t, organization, user);
            r.1.Success? ==> RoleOf(r.0.members, o, u)
                             == if o == organization && u == user then None else RoleOf(t.members, o, u)
  {
    hide ParseRole;
    if ParseRole(role).Some? {
      var m := Membership(organization, user, ParseRole(role).value, addedBy, at);
      assert (t.members + [m])[..|t.members|] == t.members;
      RoleAfterChange(t.members, organization, user, ParseRole(role).value, at, o, u);
    }
    RoleAfterRemoval(t.members, organization, user, o, u);
    hide WithRole, Without, Owners;
  }

  // The service, with policy checks on earlier reads

  datatype Request =
    | Add(organization: string, actor: string, user: string, role: string)
    | Change(organization: string, actor: string, user: string, role: string)
    | Remove(organization: string, actor: string, user: string)

  /** A request has asked, has read its actor's role, or has passed the policy. */
  datatype Pending = Asked(request: Request) | ActorRead(request: Request, actorRole: Role) | Cleared(request: Request)

  datatype Policy = Policy(
    canAssign: (Role, Role) -> bool,
    canChange: (Role, Role, Role) -> bool,
    canRemove: (Role, Role) -> bool)

  datatype Service = Service(tables: Tables, pending: map<nat, Pending>)

  datatype Event =
    | AddUser(user: string)
    | Create(input: NewOrganization)
    | Ask(id: nat, request: Request)
    | ReadActor(id: nat)
    | ReadTarget(id: nat)
    | Commit(id: nat, at: nat)

  /** What the policy says of a request, on the roles that were read. */
  predicate Permits(policy: Policy, request: Request, actorRole: Role, targetRole: Role) {
    match request
    case Add(_, _, _, role) => ParseRole(role).Some? && policy.canAssign(actorRole, ParseRole(role).value)
    case Change(_, _, _, role) =>
      ParseRole(role).Some? && policy.canChange(actorRole, targetRole, ParseRole(role).value)
    case Remove(_, _, _) => policy.canRemove(actorRole, targetRole)
  }

  /** The role the policy looks at: a request to add reads no target. */
  function TargetRole(t: Tables, request: Request): Option<Role> {
    if request.Add? then Some(Reader) else RoleOf(t.members, request.organization, request.user)
  }

  function CommitStep(t: Tables, request: Request, at: nat): (Tables, Result<(), Error>) {
    match request
    case Add(organization, actor, user, role) => AddStep(t, organization, user, role, actor, at)
    case Change(organization, _, user, role) => ChangeStep(t, organization, user, role, at)
    case Remove(organization, _, user) => RemoveStep(t, organization, user)
  }

  function Next(policy: Policy, s: Service, e: Event): Service {
    match e
    case AddUser(user) => s.(tables := s.tables.(users := s.tables.users + {user}))
    case Create(input) => s.(tables := CreateStep(s.tables, input).0)
    case Ask(id, request) => if id in s.pending then s else s.(pending := s.pending[id := Asked(request)])
    case ReadActor(id) =>
      if id in s.pending && s.pending[id].Asked? then
        var request := s.pending[id].request;
        match RoleOf(s.tables.members, request.organization, request.actor)
        case None => s.(pending := s.pending - {id})
        case Some(role) => s.(pending := s.pending[id := ActorRead(request, role)])
      else s
    case ReadTarget(id) =>
      if id in s.pending && s.pending[id].ActorRead? then
        var request := s.pending[id].request;
        var target := TargetRole(s.tables, request);
        if target.Some? && Permits(policy, request, s.pending[id].actorRole, target.value)
        then s.(pending := s.pending[id := Cleared(request)])
        else s.(pending := s.pending - {id})
      else s
    case Commit(id, at) =>
      if id in s.pending && s.pending[id].Cleared? then
        Service(CommitStep(s.tables, s.pending[id].request, at).0, s.pending - {id})
      else s
  }

  const Start := Service(Tables({}, map[], map[], []), map[])

  function Run(policy: Policy, events: seq<Event>): Service {
    if events == [] then Start
    else Next(policy, Run(policy, events[..|events| - 1]), events[|events| - 1])
  }

  lemma NextKeeps(policy: Policy, s: Service, e: Event)
    requires TablesOk(s.tables)
    ensures TablesOk(Next(policy, s, e).tables)
  {
    match e
    case AddUser(user) =>
      NamespacesStay(s.tables, s.tables.members);
      hide UniqueMembers, Owners;
    case Create(input) => CreateKeeps(s.tables, input);
    case Commit(id, at) =>
      hide TablesOk, AddStep, ChangeStep, RemoveStep;
      if id in s.pending && s.pending[id].Cleared? {
        match s.pending[id].request
        case Add(organization, actor, user, role) => AddKeeps(s.tables, organization, user, role, actor, at);
        case Change(organization, _, user, role) => ChangeKeeps(s.tables, organization, user, role, at);
        case Remove(organization, _, user) => RemoveKeeps(s.tables, organization, user);
      }
    case _ => hide TablesOk;
  }

  /** However requests interleave and whatever the policy, no organisation ever lacks an owner. */
  lemma {:induction false} ReachableTablesOk(policy: Policy, events: seq<Event>)
    ensures TablesOk(Run(policy, events).tables)
    decreases |events|
  {
    if events != [] {
      hide TablesOk, Next;
      ReachableTablesOk(policy, events[..|events| - 1]);
      NextKeeps(policy, Run(policy, events[..|events| - 1]), events[|events| - 1]);
    }
  }

  /** The actor held this role when it was read, after the first i steps of the run. */
  predicate ActorHeld(policy: Policy, events: seq<Event>, request: Request, i: nat, role: Role) {
    i <= |events|
    && RoleOf(Run(policy, events[..i]).tables.members, request.organization, request.actor) == Some(role)
  }

  /** The policy allowed the request on roles that actor and target held, one after the other. */
  predicate PermittedAt(policy: Policy, events: seq<Event>, request: Request, i: nat, j: nat, actor: Role, target: Role) {
    i <= j <= |events| && ActorHeld(policy, events, request, i, actor)
    && TargetRole(Run(policy, events[..j]).tables, request) == Some(target)
    && Permits(policy, request, actor, target)
  }

  /** What a pending request has behind it. */
  ghost predicate Backed(policy: Policy, events: seq<Event>, p: Pending) {
    match p
    case Asked(_) => true
    case ActorRead(request, role) => exists i: nat :: ActorHeld(policy, events, request, i, role)
    case Cleared(request) =>
      exists i: nat, j: nat, actor, target :: PermittedAt(policy, events, request, i, j, actor, target)
  }

  lemma StillBacked(policy: Policy, events: seq<Event>, e: Event, p: Pending)
    requires Backed(policy, events, p)
    ensures Backed(policy, events + [e], p)
  {
    hide Run, RoleOf, TargetRole, Permits;
    var after := events + [e];
    assert forall k | 0 <= k <= |events| :: after[..k] == events[..k];
    match p
    case Asked(_) =>
    case ActorRead(request, role) =>
      var i: nat :| ActorHeld(policy, events, request, i, role);
      assert ActorHeld(policy, after, request, i, role);
    case Cleared(request) =>
      var i: nat, j: nat, actor, target :| PermittedAt(policy, events, request, i, j, actor, target);
      assert PermittedAt(policy, after, request, i, j, actor, target);
  }

  /** A step of the service moves a request on only with what it reads at that moment. */
  lemma StepBacks(policy: Policy, events: seq<Event>, e: Event, id: nat)
    requires id in Run(policy, events).pending ==> Backed(policy, events, Run(policy, events).pending[id])
    requires id in Next(policy, Run(policy, events), e).pending
    ensures Backed(policy, events + [e], Next(policy, Run(policy, events), e).pending[id])
  {
    hide Run, RoleOf, TargetRole, Permits, CommitStep, CreateStep;
    var s, n := Run(policy, events), |events|;
    var after := Next(policy, s, e).pending[id];
    assert (events + [e])[..n] == events && events[..n] == events;
    if id in s.pending {
      StillBacked(policy, events, e, s.pending[id]);
      if after != s.pending[id] {
        if after.ActorRead? {
          assert ActorHeld(policy, events + [e], after.request, n, after.actorRole);
        } else if after.Cleared? {
          var actor := s.pending[id].actorRole;
          var i: nat :| ActorHeld(policy, events, after.request, i, actor);
          assert (events + [e])[..i] == events[..i];
          ClearedNow(policy, events, e, after.request, i, actor);
        }
      }
    }
  }

  lemma ClearedNow(policy: Policy, events: seq<Event>, e: Event, request: Request, i: nat, actor: Role)
    requires ActorHeld(policy, events + [e], request, i, actor)
    requires var target := TargetRole(Run(policy, events).tables, request);
             target.Some? && Permits(policy, request, actor, target.value)
    requires i <= |events|
    ensures Backed(policy, events + [e], Cleared(request))
  {
    hide Run, RoleOf, TargetRole, Permits;
    var target := TargetRole(Run(policy, events).tables, request).value;
    assert (events + [e])[..|events|] == events;
    assert PermittedAt(policy, events + [e], request, i, |events|, actor, target);
  }

  /**
   What is committed was permitted, though perhaps not on the roles of that moment: in every run
   the policy allowed it on roles that its actor and its target held at earlier points of the run.
   */
  lemma {:induction false} CommittedWasPermitted(policy: Policy, events: seq<Event>, id: nat)
    requires id in Run(policy, events).pending
    ensures Backed(policy, events, Run(policy, events).pending[id])
    decreases |events|
  {
    hide Backed, Next;
    var before, e := events[..|events| - 1], events[|events| - 1];
    assert events == before + [e];
    if id in Run(policy, before).pending {
      CommittedWasPermitted(policy, before, id);
    }
    StepBacks(policy, before, e, id);
  }

  lemma ParseRoleIff(value: string)
    ensures ParseRole(value) == Some(Owner) <==> value == "OWNER"
    ensures ParseRole(value) == Some(Admin) <==> value == "ADMIN"
    ensures ParseRole(value) == Some(Writer) <==> value == "WRITER"
    ensures ParseRole(value) == Some(Reader) <==> value == "READER"
  {
    assert "OWNER"[0] == 'O' && "ADMIN"[0] == 'A' && "WRITER"[0] == 'W' && "READER"[0] == 'R';
  }

  /** A cleared request to add: its actor held a role that the policy lets assign the desired one. */
  lemma ClearedAddWasPermitted(
      policy: Policy, events: seq<Event>, id: nat, o: string, actor: string, u: string, role: string)
    requires id in Run(policy, events).pending
    requires Run(policy, events).pending[id] == Cleared(Add(o, actor, u, role))
    ensures ParseRole(role).Some?
    ensures exists i: nat, a: Role :: i <= |events|
              && RoleOf(Run(policy, events[..i]).tables.members, o, actor) == Some(a)
              && policy.canAssign(a, ParseRole(role).value)
  {
    hide Run, RoleOf, ParseRole;
    CommittedWasPermitted(policy, events, id);
    var request := Add(o, actor, u, role);
    var i: nat, j: nat, a, b :| PermittedAt(policy, events, request, i, j, a, b);
  }

  /** A cleared change: its actor and later its target held roles on which the policy allows it. */
  lemma ClearedChangeWasPermitted(
      policy: Policy, events: seq<Event>, id: nat, o: string, actor: string, u: string, role: string)
    requires id in Run(policy, events).pending
    requires Run(policy, events).pending[id] == Cleared(Change(o, actor, u, role))
    ensures ParseRole(role).Some?
    ensures exists i: nat, j: nat, a: Role, b: Role :: i <= j <= |events|
              && RoleOf(Run(policy, events[..i]).tables.members, o, actor) == Some(a)
              && RoleOf(Run(policy, events[..j]).tables.members, o, u) == Some(b)
              && policy.canChange(a, b, ParseRole(role).value)
  {
    hide Run, RoleOf, ParseRole;
    CommittedWasPermitted(policy, events, id);
    var request := Change(o, actor, u, role);
    var i: nat, j: nat, a, b :| PermittedAt(policy, events, request, i, j, a, b);
  }

  /** A cleared removal: its actor and later its target held roles on which the policy allows it. */
  lemma ClearedRemoveWasPermitted(policy: Policy, events: seq<Event>, id: nat, o: string, actor: string, u: string)
    requires id in Run(policy, events).pending
    requires Run(policy, events).pending[id] == Cleared(Remove(o, actor, u))
    ensures exists i: nat, j: nat, a: Role, b: Role :: i <= j <= |events|
              && RoleOf(Run(policy, events[..i]).tables.members, o, actor) == Some(a)
              && RoleOf(Run(policy, events[..j]).tables.members, o, u) == Some(b)
              && policy.canRemove(a, b)
  {
    hide Run, RoleOf;
    CommittedWasPermitted(policy, events, id);
    var request := Remove(o, actor, u);
    var i: nat, j: nat, a, b :| PermittedAt(policy, events, request, i, j, a, b);
  }

  /**
   Whenever a commit changes the tables, the policy had allowed just that request, to assign, change
   or remove, on roles its actor and then its target held at earlier points of the run; and the
   commit sets the role of that target as asked, and no other membership.
   */
  lemma CommitWasPermitted(policy: Policy, events: seq<Event>, id: nat, at: nat, o: string, u: string)
    requires Next(policy, Run(policy, events), Commit(id, at)).tables != Run(policy, events).tables
    ensures id in Run(policy, events).pending && Run(policy, events).pending[id].Cleared?
    ensures var before := Run(policy, events).tables.members;
            var after := Next(policy, Run(policy, events), Commit(id, at)).tables.members;
            match Run(policy, events).pending[id].request
            case Add(organization, actor, user, role) =>
              && (exists i: nat, a: Role :: i <= |events| && ParseRole(role).Some?
                    && RoleOf(Run(policy, events[..i]).tables.members, organization, actor) == Some(a)
                    && policy.canAssign(a, ParseRole(role).value))
              && RoleOf(before, organization, user) == None
              && RoleOf(after, o, u)
                 == if o == organization && u == user then ParseRole(role) else RoleOf(before, o, u)
            case Change(organization, actor, user, role) =>
              && (exists i: nat, j: nat, a: Role, b: Role :: i <= j <= |events| && ParseRole(role).Some?
                    && RoleOf(Run(policy, events[..i]).tables.members, organization, actor) == Some(a)
                    && RoleOf(Run(policy, events[..j]).tables.members, organization, user) == Some(b)
                    && policy.canChange(a, b, ParseRole(role).value))
              && RoleOf(before, organization, user).Some?
              && RoleOf(after, o, u)
                 == if o == organization && u == user then ParseRole(role) else RoleOf(before, o, u)
            case Remove(organization, actor, user) =>
              && (exists i: nat, j: nat, a: Role, b: Role :: i <= j <= |events|
                    && RoleOf(Run(policy, events[..i]).tables.members, organization, actor) == Some(a)
                    && RoleOf(Run(policy, events[..j]).tables.members, organization, user) == Some(b)
                    && policy.canRemove(a, b))
              && RoleOf(before, organization, user).Some?
              && RoleOf(after, o, u) == if o == organization && u == user then None else RoleOf(before, o, u)
  {
    hide Run, RoleOf, ParseRole, Owners, WithRole, Without;
    var t := Run(policy, events).tables;
    match Run(policy, events).pending[id].request
    case Add(organization, actor, user, role) =>
      ClearedAddWasPermitted(policy, events, id, organization, actor, user, role);
      OnlyTheMemberChanges(t, organization, user, role, actor, at, o, u);
    case Change(organization, actor, user, role) =>
      ClearedChangeWasPermitted(policy, events, id, organization, actor, user, role);
      OnlyTheMemberChanges(t, organization, user, role, actor, at, o, u);
    case Remove(organization, actor, user) =>
      ClearedRemoveWasPermitted(policy, events, id, organization, actor, user);
      OnlyTheMemberChanges(t, organization, user, "", actor, at, o, u);
  }

  // When a transaction succeeds

  /** Adding succeeds exactly for a known role, organisation, user and adder, and a user who is no member yet. */
  lemma AddSucceedsIff(t: Tables, organization: string, user: string, role: string, addedBy: string, at: nat)
    ensures AddStep(t, organization, user, role, addedBy, at).1.Success?
       <==> ParseRole(role).Some? && organization in t.organizations && user in t.users && addedBy in t.users
            && forall m | m in t.members :: m.organization != organization || m.user != user
    ensures AddStep(t, organization, user, role, addedBy, at).1.Failure? ==>
              AddStep(t, organization, user, role, addedBy, at).0 == t
  {
    hide ParseRole;
    RoleOfRow(t.members, organization, user);
    hide RoleOf;
  }

  /** Adding fails for an unknown role, then an unknown organisation, a member already there, or an unknown user. */
  lemma AddFailsWith(t: Tables, organization: string, user: string, role: string, addedBy: string, at: nat)
    ensures var outcome := AddStep(t, organization, user, role, addedBy, at).1;
            && (outcome == Failure(InvalidRole) <==> ParseRole(role).None?)
            && (outcome == Failure(NotFound) <==> ParseRole(role).Some? && organization !in t.organizations)
            && (outcome == Failure(InConflict)
                <==> ParseRole(role).Some? && organization in t.organizations
                     && exists m :: m in t.members && m.organization == organization && m.user == user)
    ensures AddStep(t, organization, user, role, addedBy, at).1.Failure? ==>
              AddStep(t, organization, user, role, addedBy, at).1.error
              in {InvalidRole, NotFound, InConflict, InvalidMember}
  {
    hide ParseRole;
    RoleOfRow(t.members, organization, user);
    hide RoleOf;
  }

  /** A change or removal is not found exactly without the organisation or the member. */
  lemma ChangeFailsWith(t: Tables, organization: string, user: string, role: string, at: nat)
    ensures ChangeStep(t, organization, user, role, at).1 == Failure(InvalidRole) <==> ParseRole(role).None?
    ensures ChangeStep(t, organization, user, role, at).1 == Failure(NotFound)
       <==> ParseRole(role).Some?
            && (organization !in t.organizations
                || forall m | m in t.members :: m.organization != organization || m.user != user)
    ensures RemoveStep(t, organization, user).1 == Failure(NotFound)
       <==> organization !in t.organizations
            || forall m | m in t.members :: m.organization != organization || m.user != user
  {
    hide ParseRole;
    RoleOfRow(t.members, organization, user);
    hide RoleOf, Owners, WithRole, Without;
  }

  /** An organisation is created exactly by a known user as its owner, under a namespace and a name that are free. */
  lemma CreateSucceedsIff(t: Tables, input: NewOrganization)
    requires TablesOk(t)
    ensures CreateStep(t, input).1.Success?
       <==> input.owner.role == Owner && input.owner.organization == input.id
            && input.owner.user == input.createdBy && input.createdBy in t.users && input.owner.addedBy in t.users
            && input.namespaceId != "" && input.namespaceName != ""
            && input.namespaceId !in t.namespaces && input.id !in t.organizations
            && forall id | id in t.namespaces :: t.namespaces[id] != input.namespaceName
    ensures CreateStep(t, input).1 == Failure(InvalidRole)
       <==> input.owner.role != Owner || input.owner.organization != input.id
            || input.owner.user != input.createdBy || input.namespaceId == "" || input.namespaceName == ""
    ensures CreateStep(t, input).1 == Failure(InConflict) ==>
              input.namespaceId in t.namespaces || input.id in t.organizations
              || exists id :: id in t.namespaces && t.namespaces[id] == input.namespaceName
    ensures CreateStep(t, input).1.Failure? ==>
              CreateStep(t, input).0 == t && CreateStep(t, input).1.error in {InvalidRole, InConflict, InvalidMember}
  {
    RoleOfRow(t.members, input.id, input.createdBy);
    hide RoleOf, UniqueMembers, Owners, NamespacesOk;
  }

  /** A change or removal succeeds exactly for a member who is not the sole owner about to be lost. */
  lemma ChangeSucceedsIff(t: Tables, organization: string, user: string, role: string, at: nat)
    requires TablesOk(t)
    ensures ChangeStep(t, organization, user, role, at).1.Success?
       <==> ParseRole(role).Some? && organization in t.organizations
            && (exists m :: m in t.members && m.organization == organization && m.user == user)
            && (ParseRole(role) == Some(Owner) || !SoleOwner(t, organization, user))
    ensures RemoveStep(t, organization, user).1.Success?
       <==> organization in t.organizations
            && (exists m :: m in t.members && m.organization == organization && m.user == user)
            && !SoleOwner(t, organization, user)
  {
    hide ParseRole;
    RoleOfRow(t.members, organization, user);
    LastOwnerIff(t, organization, user, role, at);
    hide RoleOf, Owners, WithRole, Without, TablesOk, SoleOwner;
  }

  /** The store: each method is one transaction. */
  class OrganizationStore {
    var tables: Tables

    constructor ()
      ensures tables == Start.tables
    {
      tables := Start.tables;
    }

    method CreateWithOwner(input: NewOrganization) returns (r: Result<(), Error>)
      requires TablesOk(tables)
      modifies this
      ensures TablesOk(tables) && (tables, r) == CreateStep(old(tables), input)
    {
      CreateKeeps(tables, input);
      hide TablesOk, RoleOf;
      var owner := input.owner;
      if owner.role != Owner || owner.organization != input.id || owner.user != input.createdBy
         || input.namespaceId == "" || input.namespaceName == "" {
        return Failure(InvalidRole);
      }
      if input.namespaceId in tables.namespaces || input.namespaceName in tables.namespaces.Values
         || input.id in tables.organizations {
        return Failure(InConflict);
      }
      if input.createdBy !in tables.users || owner.addedBy !in tables.users {
        return Failure(InvalidMember);
      }
      if RoleOf(tables.members, owner.organization, owner.user).Some? {
        return Failure(InConflict);
      }
      tables := tables.(namespaces := tables.namespaces[input.namespaceId := input.namespaceName]);
      tables := tables.(organizations :=
        tables.organizations[input.id := Organization(input.namespaceId, input.createdBy)]);
      tables := tables.(members := tables.members + [owner]);
      r := Success(());
    }

    method AddMember(organization: string, user: string, role: string, addedBy: string, at: nat)
      returns (r: Result<(), Error>)
      requires TablesOk(tables)
      modifies this
      ensures TablesOk(tables) && (tables, r) == AddStep(old(tables), organization, user, role, addedBy, at)
    {
      AddKeeps(tables, organization, user, role, addedBy, at);
      hide TablesOk, RoleOf, ParseRole;
      var parsed := ParseRole(role);
      if parsed.None? {
        return Failure(InvalidRole);
      }
      if organization !in tables.organizations {
        return Failure(NotFound);
      }
      if RoleOf(tables.members, organization, user).Some? {
        return Failure(InConflict);
      }
      if user !in tables.users || addedBy !in tables.users {
        return Failure(InvalidMember);
      }
      tables := tables.(members := tables.members + [Membership(organization, user, parsed.value, addedBy, at)]);
      r := Success(());
    }

    method RequireAnotherOwner(organization: string) returns (error: Option<Error>)
      ensures error == if Owners(tables.members, organization) <= 1 then Some(LastOwner) else None
    {
      var owners := Owners(tables.members, organization);
      if owners <= 1 {
        return Some(LastOwner);
      }
      error := None;
    }

    method ChangeMemberRole(organization: string, user: string, role: string, at: nat)
      returns (r: Result<(), Error>)
      requires TablesOk(tables)
      modifies this
      ensures TablesOk(tables) && (tables, r) == ChangeStep(old(tables), organization, user, role, at)
    {
      ChangeKeeps(tables, organization, user, role, at);
      hide TablesOk, RoleOf, ParseRole, Owners, WithRole;
      var parsed := ParseRole(role);
      if parsed.None? {
        return Failure(InvalidRole);
      }
      if organization !in tables.organizations {
        return Failure(NotFound);
      }
      var current := RoleOf(tables.members, organization, user);
      if current.None? {
        return Failure(NotFound);
      }
      if current.value == Owner && parsed.value != Owner {
        var error := RequireAnotherOwner(organization);
        if error.Some? {
          return Failure(error.value);
        }
      }
      tables := tables.(members := WithRole(tables.members, organization, user, parsed.value, at));
      r := Success(());
    }

    method RemoveMember(organization: string, user: string) returns (r: Result<(), Error>)
      requires TablesOk(tables)
      modifies this
      ensures TablesOk(tables) && (tables, r) == RemoveStep(old(tables), organization, user)
    {
      RemoveKeeps(tables, organization, user);
      hide TablesOk, RoleOf, Owners, Without;
      if organization !in tables.organizations {
        return Failure(NotFound);
      }
      var current := RoleOf(tables.members, organization, user);
      if current.None? {
        return Failure(NotFound);
      }
      if current.value == Owner {
        var error := RequireAnotherOwner(organization);
        if error.Some? {
          return Failure(error.value);
        }
      }
      tables := tables.(members := Without(tables.members, organization, user));
      r := Success(());
    }
  }
}

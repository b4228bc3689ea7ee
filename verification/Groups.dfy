/**
 * Group membership and roles (internal/groups/repo.go, model.go): what each transaction does to one
 * group while it holds the group's row lock.
 */
module Groups {
  import opened Basics

  datatype Role = Admin | Moderator | Member

  /** A member_table row. */
  datatype Row = Row(role: Role, perms: seq<string>, joined: Time)

  /** A chat_groups row with its member rows. */
  datatype Group = Group(name: string, public: bool, max: int, current: int, members: map<Id, Row>)

  datatype Error =
    | NotFoundGroup | GroupFull | AlreadyMember | NotMember | NoPermission
    | KickSelf | CantRemoveAdmin | AlreadyAdmin | BadRole | SelfRole | InvalidRequest

  /** What a transaction leaves of its group. */
  datatype After = Kept(group: Group) | Gone

  const ADD_MEMBERS := "add_members"
  const REMOVE_MEMBERS := "remove_members"
  const DELETE_MESSAGES := "delete_messages"
  const EDIT_INFO := "edit_info"
  const MANAGE_INVITE := "manage_invite"
  const ALL_PERMISSIONS: seq<string> := [ADD_MEMBERS, REMOVE_MEMBERS, DELETE_MESSAGES, EDIT_INFO, MANAGE_INVITE]

  const MAX_NAME: nat := 30
  const MAX_SIZE: int := 1000

  // ---- the invariant of one group ----

  ghost predicate IsAdmin(members: map<Id, Row>, a: Id) {
    a in members && members[a].role == Admin
  }

  ghost predicate OneAdmin(members: map<Id, Row>) {
    exists a :: IsAdmin(members, a) && forall b :: IsAdmin(members, b) ==> b == a
  }

  /** Only moderators carry permissions, and only known ones. */
  ghost predicate GoodRow(r: Row) {
    (r.role != Moderator ==> r.perms == []) && forall p <- r.perms :: p in ALL_PERMISSIONS
  }

  ghost predicate GroupInv(g: Group) {
    && OneAdmin(g.members)
    && g.current == |g.members| <= g.max
    && (forall u <- g.members :: GoodRow(g.members[u]))
  }

  // ---- who takes over from a leaving admin ----

  /** ORDER BY (role = 'moderator') DESC, joined_at, member_id, for different members u and v */
  predicate Precedes(a: Row, u: Id, b: Row, v: Id) {
    if (a.role == Moderator) != (b.role == Moderator) then a.role == Moderator
    else a.joined < b.joined || (a.joined == b.joined && u < v)
  }

  predicate IsNext(members: map<Id, Row>, leaving: Id, u: Id) {
    && u in members && u != leaving
    && forall v <- members :: v != leaving && v != u ==> Precedes(members[u], u, members[v], v)
  }

  /** Moderators come first; among equals whoever joined first, and then the smaller id. */
  lemma WhoIsNext(members: map<Id, Row>, leaving: Id, u: Id)
    ensures IsNext(members, leaving, u) <==>
      && u in members && u != leaving
      && (members[u].role != Moderator ==> forall v <- members :: v == leaving || members[v].role != Moderator)
      && (forall v <- members :: v != leaving && v != u && (members[v].role == Moderator <==> members[u].role == Moderator) ==>
            members[u].joined < members[v].joined || (members[u].joined == members[v].joined && u < v))
  {
    if u in members && u != leaving && !IsNext(members, leaving, u) {
      var v :| v in members && v != leaving && v != u && !Precedes(members[u], u, members[v], v);
      assert v in members;
    }
  }

  lemma NextIsUnique(members: map<Id, Row>, leaving: Id, u: Id, v: Id)
    requires IsNext(members, leaving, u) && IsNext(members, leaving, v)
    ensures u == v
  {
  }

  /** As long as anyone else is there, someone is next. */
  lemma {:induction false} NextExists(members: map<Id, Row>, leaving: Id)
    requires exists v <- members :: v != leaving
    ensures exists u :: IsNext(members, leaving, u)
    decreases |members|
  {
    var v :| v in members && v != leaving;
    var rest := members - {v};
    assert members.Keys == rest.Keys + {v};
    if w :| w in rest && w != leaving {
      NextExists(rest, leaving);
      var u :| IsNext(rest, leaving, u);
      assert IsNext(members, leaving, if Precedes(members[v], v, members[u], u) then v else u);
    } else {
      assert IsNext(members, leaving, v);
    }
  }

  ghost function NextAdmin(members: map<Id, Row>, leaving: Id): (next: Option<Id>)
    ensures next.None? <==> forall v <- members :: v == leaving
    ensures next.Some? ==> IsNext(members, leaving, next.value)
  {
    if forall v <- members :: v == leaving then None
    else
      NextExists(members, leaving);
      var u :| IsNext(members, leaving, u);
      Some(u)
  }

  // ---- permissions ----

  /** May someone with this role and these permissions do perm ("" is admin-only)? */
  predicate Allowed(role: Role, perms: seq<string>, perm: string) {
    match role
    case Admin => true
    case Moderator => perm != "" && perm in perms
    case Member => false
  }

  /** as: the role of an actor who may do perm */
  function As(g: Group, actor: Id, perm: string): Result<Role, Error> {
    if actor !in g.members then Err(NotFoundGroup)
    else if !Allowed(g.members[actor].role, g.members[actor].perms, perm) then Err(NoPermission)
    else Ok(g.members[actor].role)
  }

  /** Who may do perm: the admin, and a moderator whose row lists it. */
  ghost predicate Entitled(members: map<Id, Row>, u: Id, perm: string) {
    && u in members
    && (members[u].role == Admin || (members[u].role == Moderator && perm != "" && perm in members[u].perms))
  }

  /** The transaction lets exactly those in; to anyone who is not a member the group does not exist. */
  lemma AsDecides(g: Group, u: Id, perm: string)
    ensures As(g, u, perm).Ok? <==> Entitled(g.members, u, perm)
    ensures Entitled(g.members, u, perm) ==> As(g, u, perm).value == g.members[u].role
    ensures u in g.members && !Entitled(g.members, u, perm) ==> As(g, u, perm) == Err(NoPermission)
    ensures u !in g.members ==> As(g, u, perm) == Err(NotFoundGroup)
  {
  }

  // ---- the statements ----

  function AddRow(g: Group, u: Id, row: Row): Group { g.(members := g.members[u := row]) }

  function SetRoleRow(g: Group, u: Id, role: Role, perms: seq<string>): Group {
    if u in g.members then g.(members := g.members[u := g.members[u].(role := role, perms := perms)]) else g
  }

  function DropRow(g: Group, u: Id): Group { g.(members := g.members - {u}) }

  function SetCount(g: Group, n: int): Group { g.(current := n) }

  // ---- the transactions ----

  function NewGroup(creator: Id, name: string, max: int, public: bool, now: Time): Group {
    Group(name, public, max, 1, map[creator := Row(Admin, [], now)])
  }

  function AddLocked(g: Group, u: Id, now: Time): Result<Group, Error> {
    if u in g.members then Err(AlreadyMember)
    else if g.current >= g.max then Err(GroupFull)
    else Ok(SetCount(AddRow(g, u, Row(Member, [], now)), g.current + 1))
  }

  function AddMember(g: Group, actor: Id, target: Id, now: Time): Result<Group, Error> {
    var role := As(g, actor, ADD_MEMBERS);
    if role.Err? then Err(role.error) else AddLocked(g, target, now)
  }

  function Removed(g: Group, u: Id): Group {
    SetCount(DropRow(g, u), Max(g.current - 1, 0))
  }

  ghost function Leave(g: Group, u: Id, successor: Id): Result<After, Error> {
    if u !in g.members then Err(NotMember)
    else if g.members[u].role != Admin then Ok(Kept(Removed(g, u)))
    else if successor == NIL then
      var next := NextAdmin(g.members, u);
      if next.None? then Ok(Gone) else Ok(Kept(Removed(SetRoleRow(g, next.value, Admin, []), u)))
    else if successor !in g.members || successor == u then Err(NotMember)
    else Ok(Kept(Removed(SetRoleRow(g, successor, Admin, []), u)))
  }

  function Kick(g: Group, actor: Id, target: Id): Result<Group, Error> {
    var role := As(g, actor, REMOVE_MEMBERS);
    if role.Err? then Err(role.error)
    else if target == actor then Err(KickSelf)
    else if target !in g.members then Err(NotMember)
    else if g.members[target].role == Admin then Err(CantRemoveAdmin)
    else if g.members[target].role == Moderator && role.value != Admin then Err(NoPermission)
    else Ok(Removed(g, target))
  }

  function Update(g: Group, actor: Id, name: Option<string>, public: Option<bool>): Result<Group, Error> {
    var role := As(g, actor, EDIT_INFO);
    if role.Err? then Err(role.error)
    else if public.Some? && role.value != Admin then Err(NoPermission)
    else Ok(g.(name := if name.Some? then name.value else g.name,
               public := if public.Some? then public.value else g.public))
  }

  function TransferAdmin(g: Group, admin: Id, target: Id): Result<Group, Error> {
    var role := As(g, admin, "");
    if role.Err? then Err(role.error)
    else if target == admin then Err(AlreadyAdmin)
    else if target !in g.members then Err(NotMember)
    else Ok(SetRoleRow(SetRoleRow(g, admin, Member, []), target, Admin, []))
  }

  function SetRole(g: Group, admin: Id, target: Id, role: Role, perms: seq<string>): Result<Group, Error> {
    var r := As(g, admin, "");
    if r.Err? then Err(r.error)
    else if target == admin then Err(SelfRole)
    else if target !in g.members then Err(NotMember)
    else Ok(SetRoleRow(g, target, role, if role == Member then [] else perms))
  }

  // ---- every transaction keeps the invariant ----

  lemma SizeAfter(a: map<Id, Row>, b: map<Id, Row>, u: Id, added: bool)
    requires b.Keys == if added then a.Keys + {u} else a.Keys - {u}
    requires added <==> u !in a
    ensures |b| == if added then |a| + 1 else |a| - 1
  {
    assert |b.Keys| == |b| && |a.Keys| == |a|;
  }

  lemma AddKeeps(g: Group, u: Id, now: Time)
    requires GroupInv(g) && AddLocked(g, u, now).Ok?
    ensures GroupInv(AddLocked(g, u, now).value)
  {
    var n := AddLocked(g, u, now).value;
    SizeAfter(g.members, n.members, u, true);
    assert GoodRow(Row(Member, [], now));
    hide GoodRow;
    var a :| IsAdmin(g.members, a) && forall b :: IsAdmin(g.members, b) ==> b == a;
    assert forall b :: IsAdmin(n.members, b) <==> IsAdmin(g.members, b);
  }

  lemma RemoveKeeps(g: Group, u: Id)
    requires GroupInv(g) && u in g.members && g.members[u].role != Admin
    ensures GroupInv(Removed(g, u))
  {
    hide GoodRow;
    var n := Removed(g, u);
    SizeAfter(g.members, n.members, u, false);
    var a :| IsAdmin(g.members, a) && forall b :: IsAdmin(g.members, b) ==> b == a;
    assert forall b :: IsAdmin(n.members, b) <==> IsAdmin(g.members, b);
  }

  /** Handing over: the next admin is promoted, then the old one goes. */
  lemma HandOverKeeps(g: Group, u: Id, next: Id)
    requires GroupInv(g) && IsAdmin(g.members, u) && next in g.members && next != u
    ensures GroupInv(Removed(SetRoleRow(g, next, Admin, []), u))
    ensures IsAdmin(Removed(SetRoleRow(g, next, Admin, []), u).members, next)
  {
    var n := Removed(SetRoleRow(g, next, Admin, []), u);
    SizeAfter(g.members, n.members, u, false);
    assert GoodRow(g.members[next].(role := Admin, perms := []));
    hide GoodRow;
    assert IsAdmin(n.members, next);
    assert forall b :: IsAdmin(n.members, b) ==> b == next || IsAdmin(g.members, b);
  }

  lemma LeaveKeeps(g: Group, u: Id, successor: Id)
    requires GroupInv(g) && Leave(g, u, successor).Ok?
    ensures Leave(g, u, successor).value.Kept? ==> GroupInv(Leave(g, u, successor).value.group)
    ensures Leave(g, u, successor).value.Gone? <==> g.members.Keys == {u}
  {
    if g.members[u].role != Admin {
      RemoveKeeps(g, u);
      var a :| IsAdmin(g.members, a);
      assert a != u;
    } else {
      assert IsAdmin(g.members, u);
      var next := if successor == NIL then NextAdmin(g.members, u) else Some(successor);
      if next.Some? { HandOverKeeps(g, u, next.value); }
    }
  }

  lemma TransferKeeps(g: Group, admin: Id, target: Id)
    requires GroupInv(g) && TransferAdmin(g, admin, target).Ok?
    ensures GroupInv(TransferAdmin(g, admin, target).value)
    ensures IsAdmin(TransferAdmin(g, admin, target).value.members, target)
  {
    var n := TransferAdmin(g, admin, target).value;
    assert n.members.Keys == g.members.Keys;
    assert GoodRow(n.members[admin]) && GoodRow(n.members[target]);
    hide GoodRow;
    assert |n.members| == |g.members|;
    assert IsAdmin(n.members, target) && IsAdmin(g.members, admin);
    assert forall b :: IsAdmin(n.members, b) ==> b == target || IsAdmin(g.members, b);
  }

  lemma SetRoleKeeps(g: Group, admin: Id, target: Id, role: Role, perms: seq<string>)
    requires GroupInv(g) && role != Admin && (forall p <- perms :: p in ALL_PERMISSIONS)
    requires SetRole(g, admin, target, role, perms).Ok?
    ensures GroupInv(SetRole(g, admin, target, role, perms).value)
    ensures IsAdmin(SetRole(g, admin, target, role, perms).value.members, admin)
  {
    var n := SetRole(g, admin, target, role, perms).value;
    assert n.members.Keys == g.members.Keys;
    assert GoodRow(n.members[target]);
    hide GoodRow;
    assert |n.members| == |g.members|;
    assert IsAdmin(g.members, admin) && IsAdmin(n.members, admin);
    assert forall b :: IsAdmin(n.members, b) ==> IsAdmin(g.members, b);
  }
}

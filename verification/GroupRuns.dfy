/**
 * All groups together: the serialised transactions of internal/groups/repo.go behind the checks of
 * internal/groups/service.go, and account deletion (internal/auth/account_repo.go).
 */
module GroupRuns {
  import opened Basics
  import opened Groups

  type Db = map<Id, Group>

  ghost predicate DbInv(db: Db) {
    forall gid <- db :: GroupInv(db[gid])
  }

  // ---- request validation ----

  /** The known permissions among `wanted`, in the order of `all`. */
  function Pick(all: seq<string>, wanted: seq<string>): seq<string> {
    if all == [] then []
    else
      var last := all[|all| - 1];
      Pick(all[..|all| - 1], wanted) + if last in wanted then [last] else []
  }

  function CleanPermissions(wanted: seq<string>): Result<seq<string>, Error> {
    if exists p <- wanted :: p !in ALL_PERMISSIONS then Err(BadRole) else Ok(Pick(ALL_PERMISSIONS, wanted))
  }

  /** What comes later in `out` comes later in `all`. */
  ghost predicate Ordered(out: seq<string>, all: seq<string>) {
    forall i, j, a, b ::
      0 <= i < |out| && 0 <= j < |out| && 0 <= a < |all| && 0 <= b < |all| && out[i] == all[a] && out[j] == all[b] ==>
        (i < j <==> a < b)
  }

  lemma {:induction false} PickIsExact(all: seq<string>, wanted: seq<string>)
    ensures forall p :: p in Pick(all, wanted) <==> p in all && p in wanted
    ensures (forall i, j :: 0 <= i < j < |all| ==> all[i] != all[j]) ==>
      forall i, j :: 0 <= i < j < |Pick(all, wanted)| ==> Pick(all, wanted)[i] != Pick(all, wanted)[j]
    ensures (forall i, j :: 0 <= i < j < |all| ==> all[i] != all[j]) ==> Ordered(Pick(all, wanted), all)
  {
    if all != [] {
      var front, last := all[..|all| - 1], all[|all| - 1];
      PickIsExact(front, wanted);
      assert all == front + [last];
    }
  }

  /** An accepted list keeps exactly what was asked for, once each; a list is refused iff it has an unknown entry. */
  lemma CleanPermissionsIsExact(wanted: seq<string>)
    ensures CleanPermissions(wanted).Err? ==> CleanPermissions(wanted).error == BadRole
    ensures CleanPermissions(wanted).Ok? <==> forall p <- wanted :: p in ALL_PERMISSIONS
    ensures CleanPermissions(wanted).Ok? ==>
      var out := CleanPermissions(wanted).value;
      && (forall p :: p in out <==> p in wanted)
      && (forall i, j :: 0 <= i < j < |out| ==> out[i] != out[j])
      && Ordered(out, ALL_PERMISSIONS)
  {
    PickIsExact(ALL_PERMISSIONS, wanted);
    var all := ALL_PERMISSIONS;
    assert |all[0]| == 11 && |all[1]| == 14 && |all[2]| == 15 && |all[3]| == 9 && |all[4]| == 13;
  }

  predicate ValidCreate(name: string, max: int) {
    0 < |name| <= MAX_NAME && 2 <= max <= MAX_SIZE
  }

  // ---- account deletion ----

  /** What deleting u's account does to one group: hand over if u led it, cascade, recount. */
  ghost function DeletedFrom(g: Group, u: Id): After {
    if u !in g.members then Kept(g)
    else if g.members[u].role != Admin then Kept(SetCount(DropRow(g, u), |DropRow(g, u).members|))
    else
      var next := NextAdmin(g.members, u);
      if next.None? then Gone
      else
        var rest := DropRow(SetRoleRow(g, next.value, Admin, []), u);
        Kept(SetCount(rest, |rest.members|))
  }

  ghost function DeleteUser(db: Db, u: Id): Db {
    map gid | gid in db && DeletedFrom(db[gid], u).Kept? :: DeletedFrom(db[gid], u).group
  }

  /** Deleting an account does to each of its groups what leaving without naming a successor does. */
  lemma DeletingIsLeaving(g: Group, u: Id)
    requires GroupInv(g) && u in g.members
    ensures Leave(g, u, NIL) == Ok(DeletedFrom(g, u))
  {
    hide GoodRow, OneAdmin;
    var left := Leave(g, u, NIL).value;
    if left.Kept? {
      assert left.group.members.Keys == g.members.Keys - {u};
      SizeAfter(g.members, left.group.members, u, false);
    }
  }

  lemma DeletedFromKeeps(g: Group, u: Id)
    requires GroupInv(g)
    ensures DeletedFrom(g, u).Kept? ==> GroupInv(DeletedFrom(g, u).group) && u !in DeletedFrom(g, u).group.members
    ensures DeletedFrom(g, u).Gone? <==> g.members.Keys == {u}
  {
    if u in g.members {
      DeletingIsLeaving(g, u);
      LeaveKeeps(g, u, NIL);
    }
  }

  /**
   * Account deletion leaves every remaining group in order and free of the user, and removes exactly
   * the groups where nobody else was left.
   */
  lemma DeleteUserKeeps(db: Db, u: Id)
    requires DbInv(db)
    ensures DbInv(DeleteUser(db, u))
    ensures forall gid <- db :: gid !in DeleteUser(db, u) <==> db[gid].members.Keys == {u}
    ensures forall gid <- DeleteUser(db, u) :: gid in db && u !in DeleteUser(db, u)[gid].members
  {
    hide GroupInv, DeletedFrom;
    forall gid <- db
      ensures DeletedFrom(db[gid], u).Kept? ==>
        GroupInv(DeletedFrom(db[gid], u).group) && u !in DeletedFrom(db[gid], u).group.members
      ensures DeletedFrom(db[gid], u).Gone? <==> db[gid].members.Keys == {u}
    {
      DeletedFromKeeps(db[gid], u);
    }
  }

  // ---- operations ----

  datatype Op =
    | OpCreate(gid: Id, creator: Id, name: string, max: int, public: bool, now: Time)
    | OpJoin(gid: Id, user: Id, now: Time)
    | OpAddMember(gid: Id, actor: Id, target: Id, now: Time)
    | OpLeave(gid: Id, user: Id, successor: Id)
    | OpKick(gid: Id, actor: Id, target: Id)
    | OpUpdate(gid: Id, actor: Id, newName: Option<string>, newPublic: Option<bool>)
    | OpTransfer(gid: Id, actor: Id, target: Id)
    | OpSetRole(gid: Id, actor: Id, target: Id, role: Role, perms: seq<string>)
    | OpDelete(gid: Id, actor: Id)
    | OpDeleteUser(user: Id)

  /** One request on an existing group, validated and then run under its row lock. */
  ghost function OnGroup(g: Group, op: Op): Result<After, Error>
    requires !op.OpCreate? && !op.OpDeleteUser?
  {
    match op
    case OpJoin(_, u, now) => Wrap(AddLocked(g, u, now))
    case OpAddMember(_, a, t, now) => Wrap(AddMember(g, a, t, now))
    case OpLeave(_, u, successor) => Leave(g, u, successor)
    case OpKick(_, a, t) => Wrap(Kick(g, a, t))
    case OpUpdate(_, a, name, public) => Wrap(Update(g, a, name, public))
    case OpTransfer(_, a, t) => Wrap(TransferAdmin(g, a, t))
    case OpSetRole(_, a, t, role, perms) =>
      var clean := CleanPermissions(perms);
      if role == Admin || clean.Err? then Err(BadRole) else Wrap(SetRole(g, a, t, role, clean.value))
    case OpDelete(_, a) =>
      var r := As(g, a, "");
      if r.Err? then Err(r.error) else Ok(Gone)
  }

  function Wrap(r: Result<Group, Error>): Result<After, Error> {
    if r.Ok? then Ok(Kept(r.value)) else Err(r.error)
  }

  function Write(db: Db, gid: Id, after: After): Db {
    match after
    case Kept(g) => db[gid := g]
    case Gone => db - {gid}
  }

  /** A refused request changes nothing. */
  ghost function Apply(db: Db, op: Op): Db {
    match op
    case OpCreate(gid, creator, name, max, public, now) =>
      if ValidCreate(name, max) && gid !in db then db[gid := NewGroup(creator, name, max, public, now)] else db
    case OpDeleteUser(u) => DeleteUser(db, u)
    case _ =>
      if op.gid !in db then db
      else
        var r := OnGroup(db[op.gid], op);
        if r.Ok? then Write(db, op.gid, r.value) else db
  }

  /** What the caller is told: the requested role is checked before the group is looked at. */
  ghost function ErrorOf(db: Db, op: Op): Option<Error>
    requires !op.OpDeleteUser?
  {
    if op.OpCreate? then
      if ValidCreate(op.name, op.max) then None else Some(InvalidRequest)
    else if op.OpSetRole? && (op.role == Admin || CleanPermissions(op.perms).Err?) then Some(BadRole)
    else if op.gid !in db then Some(NotFoundGroup)
    else if OnGroup(db[op.gid], op).Err? then Some(OnGroup(db[op.gid], op).error)
    else None
  }

  lemma OnGroupKeeps(g: Group, op: Op)
    requires GroupInv(g) && !op.OpCreate? && !op.OpDeleteUser?
    requires OnGroup(g, op).Ok? && OnGroup(g, op).value.Kept?
    ensures GroupInv(OnGroup(g, op).value.group)
  {
    match op
    case OpJoin(_, u, now) => AddKeeps(g, u, now);
    case OpAddMember(_, a, t, now) => AddKeeps(g, t, now);
    case OpLeave(_, u, successor) => LeaveKeeps(g, u, successor);
    case OpKick(_, a, t) => RemoveKeeps(g, t);
    case OpUpdate(_, a, name, public) =>
    case OpTransfer(_, a, t) => TransferKeeps(g, a, t);
    case OpSetRole(_, a, t, role, perms) =>
      CleanPermissionsIsExact(perms);
      SetRoleKeeps(g, a, t, role, CleanPermissions(perms).value);
    case OpDelete(_, a) =>
  }

  lemma NewGroupOk(creator: Id, name: string, max: int, public: bool, now: Time)
    requires ValidCreate(name, max)
    ensures GroupInv(NewGroup(creator, name, max, public, now))
  {
    var g := NewGroup(creator, name, max, public, now);
    assert GoodRow(Row(Admin, [], now));
    hide GoodRow;
    assert IsAdmin(g.members, creator);
    assert g.members.Keys == {creator} && |g.members.Keys| == 1;
  }

  lemma ApplyKeeps(db: Db, op: Op)
    requires DbInv(db)
    ensures DbInv(Apply(db, op))
  {
    hide GroupInv, OnGroup;
    match op
    case OpCreate(gid, creator, name, max, public, now) =>
      if ValidCreate(name, max) { NewGroupOk(creator, name, max, public, now); }
    case OpDeleteUser(u) => DeleteUserKeeps(db, u);
    case _ =>
      if op.gid in db && OnGroup(db[op.gid], op).Ok? && OnGroup(db[op.gid], op).value.Kept? {
        OnGroupKeeps(db[op.gid], op);
      }
  }

  ghost function Exec(ops: seq<Op>): Db {
    if ops == [] then map[] else Apply(Exec(ops[..|ops| - 1]), ops[|ops| - 1])
  }

  /**
   * After any sequence of operations every group has exactly one admin, counts its members right, is
   * within its capacity, and only its moderators carry permissions.
   */
  lemma {:induction false} GroupsStayInOrder(ops: seq<Op>)
    ensures DbInv(Exec(ops))
  {
    if ops != [] {
      GroupsStayInOrder(ops[..|ops| - 1]);
      ApplyKeeps(Exec(ops[..|ops| - 1]), ops[|ops| - 1]);
    }
  }
}

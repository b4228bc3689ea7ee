/**
 * What each transaction of internal/groups/repo.go does to the member rows of its group, for whom, and what it
 * answers otherwise: stated on the rows alone.
 */
module GroupRules {
  import opened Basics
  import opened Groups
  import opened GroupRuns

  ghost predicate Leads(g: Group, u: Id) {
    u in g.members && g.members[u].role == Admin
  }

  /** The admin, or a moderator whom the admin gave this permission. */
  ghost predicate Holds(g: Group, u: Id, perm: string) {
    u in g.members && (g.members[u].role == Admin || (g.members[u].role == Moderator && perm in g.members[u].perms))
  }

  /** The chat_groups row keeps its settings. */
  ghost predicate SameSettings(g: Group, n: Group) {
    n.name == g.name && n.public == g.public && n.max == g.max
  }

  /** Nobody's member row changed but the ones of those listed. */
  ghost predicate OthersKept(g: Group, n: Group, but: set<Id>) {
    forall v :: v !in but ==> (v in n.members <==> v in g.members) && (v in g.members ==> n.members[v] == g.members[v])
  }

  // ---- adding ----

  /** u is in now, as an ordinary member, and is counted. */
  ghost predicate Added(g: Group, r: Result<After, Error>, u: Id, now: Time) {
    && r.Ok? && r.value.Kept?
    && var n := r.value.group;
       SameSettings(g, n) && OthersKept(g, n, {u}) && n.current == g.current + 1
       && u in n.members && n.members[u] == Row(Member, [], now)
  }

  ghost predicate AddOutcome(g: Group, r: Result<After, Error>, u: Id, now: Time) {
    && (u in g.members ==> r == Err(AlreadyMember))
    && (u !in g.members && g.current >= g.max ==> r == Err(GroupFull))
    && (u !in g.members && g.current < g.max ==> Added(g, r, u, now))
  }

  /** Whoever is not in yet is in afterwards, as long as there is room. */
  lemma JoinRules(g: Group, op: Op)
    requires op.OpJoin?
    ensures AddOutcome(g, OnGroup(g, op), op.user, op.now)
  {
  }

  /** Only the admin and moderators who may add members add one. */
  lemma AddMemberRules(g: Group, op: Op)
    requires op.OpAddMember?
    ensures var r := OnGroup(g, op);
      && (op.actor !in g.members ==> r == Err(NotFoundGroup))
      && (op.actor in g.members && !Holds(g, op.actor, "add_members") ==> r == Err(NoPermission))
      && (Holds(g, op.actor, "add_members") ==> AddOutcome(g, r, op.target, op.now))
  {
    assert |ADD_MEMBERS| == 11;
  }

  // ---- leaving ----

  /** u is out, and one fewer is counted. */
  ghost predicate Out(g: Group, n: Group, u: Id) {
    SameSettings(g, n) && u !in n.members && n.current == Max(g.current - 1, 0)
  }

  /** u may leave unless the successor they name is not another member; only the admin's choice matters. */
  lemma LeaveErrors(g: Group, gid: Id, u: Id, successor: Id)
    ensures OnGroup(g, OpLeave(gid, u, successor)).Err? <==>
      || u !in g.members
      || (Leads(g, u) && successor != NIL && (successor !in g.members || successor == u))
    ensures OnGroup(g, OpLeave(gid, u, successor)).Err? ==> OnGroup(g, OpLeave(gid, u, successor)).error == NotMember
  {
  }

  /** When anyone but the admin leaves, nobody else's row changes. */
  lemma LeaveRules(g: Group, gid: Id, u: Id, successor: Id)
    requires u in g.members && !Leads(g, u)
    ensures var r := OnGroup(g, OpLeave(gid, u, successor));
      r.Ok? && r.value.Kept? && Out(g, r.value.group, u) && OthersKept(g, r.value.group, {u})
  {
  }

  /**
   * When the admin leaves, exactly one row changes: the named successor's, or else that of the one next in line;
   * its holder is the admin now, without permissions. The group goes only if nobody else is left to name.
   */
  lemma AdminLeaves(g: Group, gid: Id, u: Id, successor: Id, heir: Id)
    requires Leads(g, u)
    requires if successor != NIL then heir == successor && heir in g.members && heir != u else IsNext(g.members, u, heir)
    ensures var r := OnGroup(g, OpLeave(gid, u, successor));
      && r.Ok? && r.value.Kept? && Out(g, r.value.group, u) && OthersKept(g, r.value.group, {u, heir})
      && Leads(r.value.group, heir)
      && r.value.group.members[heir] == Row(Admin, [], g.members[heir].joined)
  {
    if successor == NIL {
      assert NextAdmin(g.members, u).Some?;
      NextIsUnique(g.members, u, heir, NextAdmin(g.members, u).value);
    }
  }

  lemma LastOneLeaves(g: Group, gid: Id, u: Id, successor: Id)
    requires Leads(g, u) && successor == NIL
    ensures OnGroup(g, OpLeave(gid, u, successor)) == Ok(Gone) <==> forall v <- g.members :: v == u
    ensures OnGroup(g, OpLeave(gid, u, successor)) != Ok(Gone) ==> exists heir :: IsNext(g.members, u, heir)
  {
  }

  // ---- removing others ----

  /** The admin removes anyone else, a moderator with that permission only ordinary members; nobody removes themselves. */
  lemma KickRules(g: Group, op: Op)
    requires op.OpKick?
    ensures var r, a, t := OnGroup(g, op), op.actor, op.target;
      && (r.Ok? <==>
            && t in g.members && t != a
            && ((Leads(g, a) && !Leads(g, t)) || (Holds(g, a, "remove_members") && g.members[t].role == Member)))
      && (r.Ok? ==> r.value.Kept? && Out(g, r.value.group, t) && OthersKept(g, r.value.group, {t}))
  {
    assert |REMOVE_MEMBERS| == 14;
  }

  lemma KickErrors(g: Group, op: Op)
    requires op.OpKick?
    ensures var r, a, t := OnGroup(g, op), op.actor, op.target;
      && (a !in g.members ==> r == Err(NotFoundGroup))
      && (a in g.members && !Holds(g, a, "remove_members") ==> r == Err(NoPermission))
      && (Holds(g, a, "remove_members") ==>
            && (t == a ==> r == Err(KickSelf))
            && (t !in g.members ==> r == Err(NotMember))
            && (t != a && Leads(g, t) ==> r == Err(CantRemoveAdmin))
            && (t != a && t in g.members && g.members[t].role == Moderator && !Leads(g, a) ==> r == Err(NoPermission)))
  {
    assert |REMOVE_MEMBERS| == 14;
  }

  // ---- settings and roles ----

  /** The admin, and moderators who may edit it, change the name; only the admin changes who can see the group. */
  lemma UpdateRules(g: Group, op: Op)
    requires op.OpUpdate?
    ensures var r := OnGroup(g, op);
      && (op.actor !in g.members ==> r == Err(NotFoundGroup))
      && (op.actor in g.members ==>
            if !Holds(g, op.actor, "edit_info") || (op.newPublic.Some? && !Leads(g, op.actor)) then r == Err(NoPermission)
            else
              && r.Ok? && r.value.Kept?
              && var n := r.value.group;
                 && n.members == g.members && n.current == g.current && n.max == g.max
                 && (op.newName.Some? ==> n.name == op.newName.value) && (op.newName.None? ==> n.name == g.name)
                 && (op.newPublic.Some? ==> n.public == op.newPublic.value) && (op.newPublic.None? ==> n.public == g.public))
  {
    assert |EDIT_INFO| == 9;
  }

  /** What only the admin may do: anyone else is told nothing of the group, or that they may not. */
  ghost predicate AdminOnly(g: Group, actor: Id, r: Result<After, Error>) {
    && (actor !in g.members ==> r == Err(NotFoundGroup))
    && (actor in g.members && !Leads(g, actor) ==> r == Err(NoPermission))
  }

  /** Only the admin hands over, to another member: the two trade places and neither carries permissions. */
  lemma TransferRules(g: Group, op: Op)
    requires op.OpTransfer?
    ensures var r, a, t := OnGroup(g, op), op.actor, op.target;
      && AdminOnly(g, a, r)
      && (Leads(g, a) && t == a ==> r == Err(AlreadyAdmin))
      && (Leads(g, a) && t !in g.members ==> r == Err(NotMember))
      && (Leads(g, a) && t != a && t in g.members ==>
            && r.Ok? && r.value.Kept?
            && var n := r.value.group;
               && SameSettings(g, n) && n.current == g.current && OthersKept(g, n, {a, t})
               && a in n.members && n.members[a] == Row(Member, [], g.members[a].joined)
               && t in n.members && n.members[t] == Row(Admin, [], g.members[t].joined))
  {
  }

  /** Only the admin gives roles, to others, and never their own; what a moderator may do is exactly what was asked for. */
  lemma SetRoleRules(g: Group, op: Op)
    requires op.OpSetRole?
    ensures var r, a, t := OnGroup(g, op), op.actor, op.target;
      var valid := op.role != Admin && forall p <- op.perms :: p in ALL_PERMISSIONS;
      && (!valid ==> r == Err(BadRole))
      && (valid ==> AdminOnly(g, a, r))
      && (valid && Leads(g, a) && t == a ==> r == Err(SelfRole))
      && (valid && Leads(g, a) && t !in g.members ==> r == Err(NotMember))
      && (valid && Leads(g, a) && t != a && t in g.members ==>
            && r.Ok? && r.value.Kept?
            && var n := r.value.group;
               && SameSettings(g, n) && n.current == g.current && OthersKept(g, n, {t})
               && t in n.members && n.members[t].role == op.role && n.members[t].joined == g.members[t].joined
               && (op.role == Member ==> n.members[t].perms == [])
               && (op.role == Moderator ==> forall p :: p in n.members[t].perms <==> p in op.perms))
  {
    CleanPermissionsIsExact(op.perms);
    hide CleanPermissions;
  }

  /** Only the admin deletes the group. */
  lemma DeleteRules(g: Group, op: Op)
    requires op.OpDelete?
    ensures var r := OnGroup(g, op); AdminOnly(g, op.actor, r) && (Leads(g, op.actor) ==> r == Ok(Gone))
  {
  }

  // ---- all groups together ----

  /** A request changes its own group only, and that exactly when it is granted; a refused one says why. */
  lemma RequestRules(db: Db, op: Op, gid: Id)
    requires !op.OpCreate? && !op.OpDeleteUser?
    ensures var after := Apply(db, op);
      && (gid != op.gid || gid !in db ==> (gid in after <==> gid in db) && (gid in db ==> after[gid] == db[gid]))
      && (gid == op.gid && gid in db ==>
            match OnGroup(db[gid], op)
            case Ok(Kept(n)) => gid in after && after[gid] == n && ErrorOf(db, op) == None
            case Ok(Gone) => gid !in after && ErrorOf(db, op) == None
            case Err(e) => gid in after && after[gid] == db[gid] && ErrorOf(db, op) == Some(e))
      && (op.gid !in db ==>
            ErrorOf(db, op) == Some(if op.OpSetRole? && (op.role == Admin || exists p <- op.perms :: p !in ALL_PERMISSIONS)
                                    then BadRole else NotFoundGroup))
  {
    if op.OpSetRole? { CleanPermissionsIsExact(op.perms); }
    hide CleanPermissions, Leave;
  }

  /** A new group has its creator, as admin, and nobody else. */
  lemma CreateRules(db: Db, op: Op)
    requires op.OpCreate? && op.gid !in db
    ensures var after := Apply(db, op);
      if 1 <= |op.name| <= 30 && 2 <= op.max <= 1000 then
        && ErrorOf(db, op) == None
        && after == db[op.gid := Group(op.name, op.public, op.max, 1, map[op.creator := Row(Admin, [], op.now)])]
      else after == db && ErrorOf(db, op) == Some(InvalidRequest)
  {
  }

  /** Deleting an account leaves the groups it was not in alone, and every other one as if the user had left. */
  lemma DeleteUserRules(db: Db, u: Id, gid: Id)
    requires DbInv(db) && gid in db
    ensures var after := DeleteUser(db, u);
      && (u !in db[gid].members ==> gid in after && after[gid] == db[gid])
      && (u in db[gid].members ==>
            Leave(db[gid], u, NIL) == Ok(if gid in after then Kept(after[gid]) else Gone))
  {
    if u in db[gid].members { DeletingIsLeaving(db[gid], u); }
  }
}

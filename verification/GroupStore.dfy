/**
 * The groups tables and the transactions on them, statement by statement (internal/groups/repo.go,
 * internal/auth/account_repo.go). A transaction that returns an error has written nothing.
 */
module GroupStore {
  import opened Basics
  import opened Groups
  import R = GroupRuns
  import opened GroupTypes = GroupRuns

  class Store {
    var groups: map<Id, Group>

    constructor ()
      ensures groups == map[]
    {
      groups := map[];
    }

    // ---- statements ----

    method AddMemberRow(gid: Id, u: Id, row: Row)
      requires gid in groups
      modifies this
      ensures groups == old(groups)[gid := AddRow(old(groups)[gid], u, row)]
    {
      groups := groups[gid := groups[gid].(members := groups[gid].members[u := row])];
    }

    method SetMemberRole(gid: Id, u: Id, role: Role, perms: seq<string>)
      requires gid in groups
      modifies this
      ensures groups == old(groups)[gid := SetRoleRow(old(groups)[gid], u, role, perms)]
    {
      var g := groups[gid];
      if u in g.members {
        groups := groups[gid := g.(members := g.members[u := g.members[u].(role := role, perms := perms)])];
      }
    }

    method DeleteMember(gid: Id, u: Id)
      requires gid in groups
      modifies this
      ensures groups == old(groups)[gid := DropRow(old(groups)[gid], u)]
    {
      groups := groups[gid := groups[gid].(members := groups[gid].members - {u})];
    }

    method SetCount(gid: Id, n: int)
      requires gid in groups
      modifies this
      ensures groups == old(groups)[gid := Groups.SetCount(old(groups)[gid], n)]
    {
      groups := groups[gid := groups[gid].(current := n)];
    }

    /** NextAdmin and EarliestOtherMember are the same query. */
    method QueryNext(gid: Id, leaving: Id) returns (next: Option<Id>)
      requires gid in groups
      ensures next == NextAdmin(groups[gid].members, leaving)
    {
      var members := groups[gid].members;
      if forall v <- members :: v == leaving {
        return None;
      }
      NextExists(members, leaving);
      var u :| u in members && IsNext(members, leaving, u);
      NextIsUnique(members, leaving, u, NextAdmin(members, leaving).value);
      return Some(u);
    }

    method QueryAs(gid: Id, actor: Id, perm: string) returns (r: Result<Role, Error>)
      requires gid in groups
      ensures r == As(groups[gid], actor, perm)
    {
      if actor !in groups[gid].members {
        return Err(NotFoundGroup);
      }
      var m := groups[gid].members[actor];
      return if Allowed(m.role, m.perms, perm) then Ok(m.role) else Err(NoPermission);
    }

    // ---- transactions ----

    method Create(gid: Id, creator: Id, name: string, max: int, public: bool, now: Time) returns (err: Option<Error>)
      requires gid !in groups
      modifies this
      ensures var op := OpCreate(gid, creator, name, max, public, now);
        groups == R.Apply(old(groups), op) && err == R.ErrorOf(old(groups), op)
    {
      if |name| == 0 || |name| > MAX_NAME || max < 2 || max > MAX_SIZE {
        return Some(InvalidRequest);
      }
      groups := groups[gid := Group(name, public, max, 1, map[])];
      AddMemberRow(gid, creator, Row(Admin, [], now));
      return None;
    }

    method AddLocked(gid: Id, u: Id, now: Time) returns (err: Option<Error>)
      requires gid in groups
      modifies this
      ensures var r := Groups.AddLocked(old(groups)[gid], u, now);
        && (r.Ok? ==> err == None && groups == old(groups)[gid := r.value])
        && (r.Err? ==> err == Some(r.error) && groups == old(groups))
    {
      var g := groups[gid];
      if u in g.members {
        return Some(AlreadyMember);
      }
      if g.current >= g.max {
        return Some(GroupFull);
      }
      AddMemberRow(gid, u, Row(Member, [], now));
      SetCount(gid, g.current + 1);
      return None;
    }

    method Join(gid: Id, u: Id, now: Time) returns (err: Option<Error>)
      modifies this
      ensures var op := OpJoin(gid, u, now);
        groups == R.Apply(old(groups), op) && err == R.ErrorOf(old(groups), op)
    {
      if gid !in groups {
        return Some(NotFoundGroup);
      }
      err := AddLocked(gid, u, now);
    }

    method AddMember(gid: Id, actor: Id, target: Id, now: Time) returns (err: Option<Error>)
      modifies this
      ensures var op := OpAddMember(gid, actor, target, now);
        groups == R.Apply(old(groups), op) && err == R.ErrorOf(old(groups), op)
    {
      if gid !in groups {
        return Some(NotFoundGroup);
      }
      var role := QueryAs(gid, actor, ADD_MEMBERS);
      if role.Err? {
        return Some(role.error);
      }
      err := AddLocked(gid, target, now);
    }

    method Leave(gid: Id, u: Id, successor: Id) returns (err: Option<Error>)
      modifies this
      ensures var op := OpLeave(gid, u, successor);
        groups == R.Apply(old(groups), op) && err == R.ErrorOf(old(groups), op)
    {
      if gid !in groups {
        return Some(NotFoundGroup);
      }
      var g := groups[gid];
      if u !in g.members {
        return Some(NotMember);
      }
      if g.members[u].role == Admin {
        var next := successor;
        if successor == NIL {
          var found := QueryNext(gid, u);
          if found.None? {
            groups := groups - {gid};
            return None;
          }
          next := found.value;
        } else if successor !in g.members || successor == u {
          return Some(NotMember);
        }
        SetMemberRole(gid, next, Admin, []);
      }
      DeleteMember(gid, u);
      SetCount(gid, Max(g.current - 1, 0));
      return None;
    }

    method Kick(gid: Id, actor: Id, target: Id) returns (err: Option<Error>)
      modifies this
      ensures var op := OpKick(gid, actor, target);
        groups == R.Apply(old(groups), op) && err == R.ErrorOf(old(groups), op)
    {
      if gid !in groups {
        return Some(NotFoundGroup);
      }
      var role := QueryAs(gid, actor, REMOVE_MEMBERS);
      if role.Err? {
        return Some(role.error);
      }
      if target == actor {
        return Some(KickSelf);
      }
      var g := groups[gid];
      if target !in g.members {
        return Some(NotMember);
      }
      if g.members[target].role == Admin {
        return Some(CantRemoveAdmin);
      }
      if g.members[target].role == Moderator && role.value != Admin {
        return Some(NoPermission);
      }
      DeleteMember(gid, target);
      SetCount(gid, Max(g.current - 1, 0));
      return None;
    }

    method TransferAdmin(gid: Id, admin: Id, target: Id) returns (err: Option<Error>)
      modifies this
      ensures var op := OpTransfer(gid, admin, target);
        groups == R.Apply(old(groups), op) && err == R.ErrorOf(old(groups), op)
    {
      if gid !in groups {
        return Some(NotFoundGroup);
      }
      var role := QueryAs(gid, admin, "");
      if role.Err? {
        return Some(role.error);
      }
      if target == admin {
        return Some(AlreadyAdmin);
      }
      if target !in groups[gid].members {
        return Some(NotMember);
      }
      SetMemberRole(gid, admin, Member, []);
      SetMemberRole(gid, target, Admin, []);
      return None;
    }

    method CleanPermissions(wanted: seq<string>) returns (r: Result<seq<string>, Error>)
      ensures r == R.CleanPermissions(wanted)
    {
      for i := 0 to |wanted|
        invariant forall p <- wanted[..i] :: p in ALL_PERMISSIONS
      {
        if wanted[i] !in ALL_PERMISSIONS {
          assert wanted[i] in wanted;
          return Err(BadRole);
        }
      }
      var out: seq<string> := [];
      for i := 0 to |ALL_PERMISSIONS|
        invariant out == R.Pick(ALL_PERMISSIONS[..i], wanted)
      {
        assert ALL_PERMISSIONS[..i + 1][..i] == ALL_PERMISSIONS[..i];
        if ALL_PERMISSIONS[i] in wanted {
          out := out + [ALL_PERMISSIONS[i]];
        }
      }
      assert ALL_PERMISSIONS[..|ALL_PERMISSIONS|] == ALL_PERMISSIONS;
      return Ok(out);
    }

    method SetRole(gid: Id, admin: Id, target: Id, role: Role, perms: seq<string>) returns (err: Option<Error>)
      modifies this
      ensures var op := OpSetRole(gid, admin, target, role, perms);
        groups == R.Apply(old(groups), op) && err == R.ErrorOf(old(groups), op)
    {
      var clean := CleanPermissions(perms);
      if role == Admin || clean.Err? {
        return Some(BadRole);
      }
      if gid !in groups {
        return Some(NotFoundGroup);
      }
      var r := QueryAs(gid, admin, "");
      if r.Err? {
        return Some(r.error);
      }
      if target == admin {
        return Some(SelfRole);
      }
      if target !in groups[gid].members {
        return Some(NotMember);
      }
      SetMemberRole(gid, target, role, if role == Member then [] else clean.value);
      return None;
    }

    method Delete(gid: Id, admin: Id) returns (err: Option<Error>)
      modifies this
      ensures var op := OpDelete(gid, admin);
        groups == R.Apply(old(groups), op) && err == R.ErrorOf(old(groups), op)
    {
      if gid !in groups {
        return Some(NotFoundGroup);
      }
      var role := QueryAs(gid, admin, "");
      if role.Err? {
        return Some(role.error);
      }
      groups := groups - {gid};
      return None;
    }
  
    method Update(gid: Id, actor: Id, name: Option<string>, public: Option<bool>) returns (err: Option<Error>)
      modifies this
      ensures var op := OpUpdate(gid, actor, name, public);
        groups == R.Apply(old(groups), op) && err == R.ErrorOf(old(groups), op)
    {
      if gid !in groups {
        return Some(NotFoundGroup);
      }
      var role := QueryAs(gid, actor, EDIT_INFO);
      if role.Err? {
        return Some(role.error);
      }
      if public.Some? && role.value != Admin {
        return Some(NoPermission);
      }
      var g := groups[gid];
      groups := groups[gid := g.(name := if name.Some? then name.value else g.name,
                                 public := if public.Some? then public.value else g.public)];
      return None;
    }

    // ---- account deletion ----

    /** The groups of u, or only those u leads, in some order. */
    method GroupsOf(u: Id, leading: bool) returns (out: seq<Id>)
      ensures forall gid :: gid in out <==> gid in groups && Concerns(groups[gid], u, leading)
      ensures forall i, j :: 0 <= i < j < |out| ==> out[i] != out[j]
    {
      out := [];
      var todo := groups.Keys;
      while todo != {}
        invariant todo <= groups.Keys
        invariant forall gid :: gid in out <==> gid in groups && gid !in todo && Concerns(groups[gid], u, leading)
        invariant forall i, j :: 0 <= i < j < |out| ==> out[i] != out[j]
        decreases |todo|
      {
        var gid :| gid in todo;
        todo := todo - {gid};
        if Concerns(groups[gid], u, leading) {
          out := out + [gid];
        }
      }
    }

    static predicate Concerns(g: Group, u: Id, leading: bool) {
      u in g.members && (leading ==> g.members[u].role == Admin)
    }

    /** One group u leads, after the hand-over loop reached it. */
    static ghost function HandedOver(g: Group, u: Id): After {
      if !Concerns(g, u, true) then Kept(g)
      else
        var next := NextAdmin(g.members, u);
        if next.None? then Gone else Kept(SetRoleRow(g, next.value, Admin, []))
    }

    static ghost function HandAll(db: map<Id, Group>, u: Id): map<Id, Group> {
      map gid | gid in db && HandedOver(db[gid], u).Kept? :: HandedOver(db[gid], u).group
    }

    method HandOver(u: Id, led: seq<Id>)
      requires forall gid :: gid in led <==> gid in groups && Concerns(groups[gid], u, true)
      requires forall i, j :: 0 <= i < j < |led| ==> led[i] != led[j]
      modifies this
      ensures groups == HandAll(old(groups), u)
    {
      ghost var was := groups;
      for i := 0 to |led|
        invariant forall gid :: gid in groups <==> gid in was && (gid in led[..i] ==> HandedOver(was[gid], u).Kept?)
        invariant forall gid <- groups ::
          groups[gid] == if gid in led[..i] then HandedOver(was[gid], u).group else was[gid]
      {
        assert led[i] !in led[..i] && led[i] in led;
        assert led[..i + 1] == led[..i] + [led[i]];
        var next := QueryNext(led[i], u);
        if next.None? {
          groups := groups - {led[i]};
        } else {
          SetMemberRole(led[i], next.value, Admin, []);
        }
      }
      assert led[..|led|] == led;
    }

    static function DropAll(db: map<Id, Group>, u: Id): map<Id, Group> {
      map gid | gid in db :: DropRow(db[gid], u)
    }

    /** DELETE FROM users: the cascade drops the user's member rows everywhere. */
    method Cascade(u: Id)
      modifies this
      ensures groups == DropAll(old(groups), u)
    {
      groups := map gid | gid in groups :: groups[gid].(members := groups[gid].members - {u});
    }

    static function Recounted(g: Group): Group {
      Groups.SetCount(g, |g.members|)
    }

    static ghost function RecountAll(db: map<Id, Group>, of: seq<Id>): map<Id, Group> {
      map gid | gid in db :: if gid in of then Recounted(db[gid]) else db[gid]
    }

    method Recount(of: seq<Id>)
      modifies this
      ensures groups == RecountAll(old(groups), of)
    {
      ghost var was := groups;
      for i := 0 to |of|
        invariant groups == RecountAll(was, of[..i])
      {
        assert of[..i + 1] == of[..i] + [of[i]];
        if of[i] in groups {
          SetCount(of[i], |groups[of[i]].members|);
        }
      }
      assert of[..|of|] == of;
    }

    /** The three passes together, seen from one group. */
    static ghost function Passes(g: Group, u: Id): After {
      var h := HandedOver(g, u);
      if h.Gone? then Gone
      else Kept(if u in g.members then Recounted(DropRow(h.group, u)) else DropRow(h.group, u))
    }

    static lemma PassesAreDeletion(g: Group, u: Id)
      ensures Passes(g, u) == R.DeletedFrom(g, u)
    {
      if u !in g.members {
        assert g.members - {u} == g.members;
      }
    }

    static lemma PassesCompose(db: map<Id, Group>, u: Id, mine: seq<Id>)
      requires forall gid :: gid in mine <==> gid in db && u in db[gid].members
      ensures RecountAll(DropAll(HandAll(db, u), u), mine) == R.DeleteUser(db, u)
    {
      forall gid <- db ensures Passes(db[gid], u) == R.DeletedFrom(db[gid], u) {
        PassesAreDeletion(db[gid], u);
      }
      hide HandedOver, R.DeletedFrom;
      var a, b := RecountAll(DropAll(HandAll(db, u), u), mine), R.DeleteUser(db, u);
      assert a.Keys == b.Keys;
      forall gid <- a ensures a[gid] == b[gid] {}
    }

    method DeleteUser(u: Id)
      modifies this
      ensures groups == R.DeleteUser(old(groups), u)
    {
      var mine := GroupsOf(u, false);
      var led := GroupsOf(u, true);
      PassesCompose(groups, u, mine);
      HandOver(u, led);
      Cascade(u);
      Recount(mine);
    }
  }
}

/**
 * Authorisation from the cached snapshot (internal/groups/service.go check, CanDeleteMessage and
 * internal/groups/repo.go Snapshot, GroupSnapshot.Role) against the check inside the transaction.
 */
module GroupAuth {
  import opened Basics
  import opened Groups
  import C = CacheRuns
  import R = GroupRuns

  /** The results of Snapshot's four queries. */
  datatype Part =
    | Info(name: string, max: int, public: bool)
    | Members(ids: set<Id>)
    | Leader(id: Id)
    | Mods(mods: map<Id, seq<string>>)

  datatype Snapshot = Snapshot(name: string, max: int, admin: Id, public: bool, members: set<Id>, mods: map<Id, seq<string>>)

  /** GetGroupLeader: some member with the admin role, NIL if there is none. */
  ghost function LeaderOf(members: map<Id, Row>): Id {
    if a: Id :| IsAdmin(members, a) then a else NIL
  }

  function ModsOf(members: map<Id, Row>): map<Id, seq<string>> {
    map u | u in members && members[u].role == Moderator :: members[u].perms
  }

  /** What the four queries find; only the first fails when the group does not exist. */
  ghost function PartsOf(g: Option<Group>): seq<Option<Part>> {
    var members := if g.Some? then g.value.members else map[];
    [if g.Some? then Some(Info(g.value.name, g.value.max, g.value.public)) else None,
     Some(Members(members.Keys)),
     Some(Leader(LeaderOf(members))),
     Some(Mods(ModsOf(members)))]
  }

  predicate WellTyped(parts: seq<Part>) {
    |parts| == 4 && parts[0].Info? && parts[1].Members? && parts[2].Leader? && parts[3].Mods?
  }

  function Assemble(parts: seq<Part>): Snapshot
    requires WellTyped(parts)
  {
    Snapshot(parts[0].name, parts[0].max, parts[2].id, parts[0].public, parts[1].ids, parts[3].mods)
  }

  /** GroupSnapshot.Role; None is "not a member". */
  function RoleIn(s: Snapshot, u: Id): Option<(Role, seq<string>)> {
    if u == s.admin then Some((Admin, []))
    else if u in s.mods then Some((Moderator, s.mods[u]))
    else if u in s.members then Some((Member, []))
    else None
  }

  function Check(s: Snapshot, u: Id, perm: string): Result<Role, Error> {
    var r := RoleIn(s, u);
    if r.None? then Err(NotFoundGroup)
    else if !Allowed(r.value.0, r.value.1, perm) then Err(NoPermission)
    else Ok(r.value.0)
  }

  ghost function Current(g: Group): Snapshot {
    Snapshot(g.name, g.max, LeaderOf(g.members), g.public, g.members.Keys, ModsOf(g.members))
  }

  lemma RoleIsCurrent(g: Group, u: Id)
    requires OneAdmin(g.members)
    ensures u in g.members ==>
      RoleIn(Current(g), u) == Some((g.members[u].role, if g.members[u].role == Moderator then g.members[u].perms else []))
    ensures u !in g.members ==> RoleIn(Current(g), u) == None
  {
    var a :| IsAdmin(g.members, a) && forall b :: IsAdmin(g.members, b) ==> b == a;
    assert IsAdmin(g.members, u) ==> u == a;
  }

  lemma AgreesWithOneAdmin(g: Group, u: Id, perm: string)
    requires OneAdmin(g.members)
    ensures Check(Current(g), u, perm) == As(g, u, perm)
  {
    RoleIsCurrent(g, u);
  }

  /** An admin who is not the one the leader query names is taken for an ordinary member. */
  lemma ShadowAdmin(g: Group, u: Id)
    requires IsAdmin(g.members, u) && u != LeaderOf(g.members)
    ensures Check(Current(g), u, "") != As(g, u, "")
  {
    var s := Current(g);
    assert u !in s.mods && u in s.members;
    assert RoleIn(s, u) == Some((Member, []));
  }

  /** Without an admin, the nil id passes for one. */
  lemma NilLeads(g: Group)
    requires LeaderOf(g.members) == NIL && !IsAdmin(g.members, NIL)
    ensures Check(Current(g), NIL, "") != As(g, NIL, "")
  {
    assert RoleIn(Current(g), NIL) == Some((Admin, []));
  }

  lemma DisagreesOtherwise(g: Group) returns (u: Id)
    requires !OneAdmin(g.members)
    ensures Check(Current(g), u, "") != As(g, u, "")
  {
    hide Check, As, Current;
    if a: Id :| IsAdmin(g.members, a) {
      var l := LeaderOf(g.members);
      assert IsAdmin(g.members, l);
      u :| IsAdmin(g.members, u) && u != l;
      ShadowAdmin(g, u);
    } else {
      u := NIL;
      NilLeads(g);
    }
  }

  /**
   * On a current snapshot the cached check and the transactional one decide alike for every user and
   * every permission, exactly when the group has one admin; and what they decide is what the member's row says.
   */
  lemma CheckAgrees(g: Group)
    ensures OneAdmin(g.members) <==> forall u, perm :: Check(Current(g), u, perm) == As(g, u, perm)
    ensures OneAdmin(g.members) ==> forall u, perm :: Check(Current(g), u, perm).Ok? <==> Entitled(g.members, u, perm)
  {
    forall u, perm ensures As(g, u, perm).Ok? <==> Entitled(g.members, u, perm) { AsDecides(g, u, perm); }
    hide Entitled;
    hide Check, As, Current, OneAdmin;
    if OneAdmin(g.members) {
      forall u, perm ensures Check(Current(g), u, perm) == As(g, u, perm) { AgreesWithOneAdmin(g, u, perm); }
    } else {
      var u := DisagreesOtherwise(g);
    }
  }

  // ---- with the cache in between ----

  /** The database states of one group, as the cache's history records them. */
  ghost predicate Recorded(s: C.Sys<Part>, groups: seq<Option<Group>>) {
    |groups| == |s.hist| && forall n :: 0 <= n < |groups| ==> s.hist[n] == PartsOf(groups[n])
  }

  /** The first query fails for a group that does not exist. */
  lemma FoundExists(g: Option<Group>)
    requires PartsOf(g)[0].Some?
    ensures g.Some?
  {
    if g.None? { assert false; }
  }

  /** When no write awaits its Invalidate, a check on what is cached decides as the transaction would. */
  lemma CachedCheckIsCurrent(
      es: seq<C.Event<Part>>, groups: seq<Option<Group>>, u: Id, perm: string)
    requires groups != [] && !C.Exec(PartsOf(groups[0]), es).reset
    requires var s := C.Exec(PartsOf(groups[0]), es);
      Recorded(s, groups) && s.cached.Some? && forall c: nat :: 0 < c < |s.hist| ==> c in s.finished
    requires forall g <- groups :: g.Some? ==> OneAdmin(g.value.members)
    ensures var s := C.Exec(PartsOf(groups[0]), es);
      && groups[|groups| - 1].Some?
      && WellTyped(s.cached.value.parts)
      && Check(Assemble(s.cached.value.parts), u, perm) == As(groups[|groups| - 1].value, u, perm)
      && (Check(Assemble(s.cached.value.parts), u, perm).Ok? <==> Entitled(groups[|groups| - 1].value.members, u, perm))
  {
    hide C.Exec, C.Inv, OneAdmin, Entitled, Check, As, Assemble, Current, ModsOf, LeaderOf;
    var first := PartsOf(groups[0]);
    var s, last := C.Exec(first, es), groups[|groups| - 1];
    C.CachedIsCurrent(first, es);
    assert last in groups && C.Last(s) == PartsOf(last);
    WholeIsCurrent(last, s.cached.value.parts);
    AgreesWithOneAdmin(last.value, u, perm);
    AsDecides(last.value, u, perm);
  }

  /** What the four queries find in one state is that state's snapshot. */
  lemma WholeIsCurrent(g: Option<Group>, parts: seq<Part>)
    requires |parts| == 4 && forall p :: 0 <= p < 4 ==> PartsOf(g)[p] == Some(parts[p])
    ensures g.Some? && WellTyped(parts) && Assemble(parts) == Current(g.value)
  {
    FoundExists(g);
    hide ModsOf, LeaderOf;
  }

  ghost predicate SameRights(a: Group, b: Group, u: Id) {
    && (u in a.members <==> u in b.members)
    && (u in a.members ==> a.members[u].role == b.members[u].role && a.members[u].perms == b.members[u].perms)
  }

  /**
   * A check whose Load began after the Invalidate of write c, with u's rights unchanged since c, decides
   * by those rights, even on a snapshot torn by other changes.
   */
  lemma NoOldRole(
      es: seq<C.Event<Part>>, groups: seq<Option<Group>>, x: C.Return<Part>, c: nat, u: Id, perm: string)
    requires groups != [] && !C.Exec(PartsOf(groups[0]), es).reset
    requires Recorded(C.Exec(PartsOf(groups[0]), es), groups)
    requires x in C.Exec(PartsOf(groups[0]), es).returned && c in x.since && c < |groups|
    requires groups[c].Some?
    requires forall n :: c <= n < |groups| ==>
      groups[n].Some? && OneAdmin(groups[n].value.members) && SameRights(groups[n].value, groups[c].value, u)
    ensures WellTyped(x.snap.parts)
    ensures Check(Assemble(x.snap.parts), u, perm) == As(groups[c].value, u, perm)
    ensures Check(Assemble(x.snap.parts), u, perm).Ok? <==> Entitled(groups[c].value.members, u, perm)
  {
    var s := C.Exec(PartsOf(groups[0]), es);
    C.ExecInv(PartsOf(groups[0]), es);
    assert C.Whole(s, x.snap) && C.AtLeast(x.snap, x.since);
    hide C.Exec, C.Inv;
    var at := x.snap.stamps;
    forall p | 0 <= p < 4 ensures c <= at[p] < |groups| && PartsOf(groups[at[p]])[p] == Some(x.snap.parts[p]) {
      assert C.Width(s) == 4;
    }
    StableRole(groups[at[1]].value, groups[at[2]].value, groups[at[3]].value, groups[c].value, x.snap.parts, u, perm);
    AsDecides(groups[c].value, u, perm);
  }

  /** Members, leader and moderators may come from three different states, as long as u's rights agree. */
  lemma StableRole(m: Group, l: Group, d: Group, now: Group, parts: seq<Part>, u: Id, perm: string)
    requires WellTyped(parts)
    requires parts[1] == Members(m.members.Keys)
    requires parts[2] == Leader(LeaderOf(l.members)) && OneAdmin(l.members)
    requires parts[3] == Mods(ModsOf(d.members))
    requires SameRights(m, now, u) && SameRights(l, now, u) && SameRights(d, now, u)
    ensures Check(Assemble(parts), u, perm) == As(now, u, perm)
  {
    var a :| IsAdmin(l.members, a) && forall b :: IsAdmin(l.members, b) ==> b == a;
    assert LeaderOf(l.members) == a;
    assert u == a <==> IsAdmin(l.members, u);
  }

  // ---- checks while rights keep changing ----

  ghost predicate Leads(g: Option<Group>, u: Id) {
    g.Some? && LeaderOf(g.value.members) == u
  }

  ghost predicate Moderates(g: Option<Group>, u: Id, perm: string) {
    && g.Some? && u in g.value.members
    && g.value.members[u].role == Moderator && perm != "" && perm in g.value.members[u].perms
  }

  /** A snapshot read from several states grants exactly what the state of its leader or of its moderators grants. */
  lemma TornDecision(parts: seq<Part>, m: Option<Group>, l: Option<Group>, d: Option<Group>, u: Id, perm: string)
    requires |parts| == 4 && parts[0].Info? && u != NIL
    requires PartsOf(m)[1] == Some(parts[1]) && PartsOf(l)[2] == Some(parts[2]) && PartsOf(d)[3] == Some(parts[3])
    ensures WellTyped(parts)
    ensures Check(Assemble(parts), u, perm).Ok? <==> Leads(l, u) || Moderates(d, u, perm)
  {
    if l.None? { NobodyLeads(); }
  }

  lemma NobodyLeads()
    ensures LeaderOf(map[]) == NIL
  {
  }

  /** Whoever leads a group may do anything in it. */
  lemma LeaderMay(g: Group, u: Id, perm: string)
    requires LeaderOf(g.members) == u && u != NIL
    ensures Entitled(g.members, u, perm)
  {
    assert IsAdmin(g.members, u);
  }

  /**
   * A check that began after the Invalidate of write c decides by two states, both no older than c: the one
   * its leader and the one its moderators were read from.
   */
  lemma CheckDecidesByNewStates(
      es: seq<C.Event<Part>>, groups: seq<Option<Group>>, x: C.Return<Part>, c: nat, u: Id, perm: string)
    requires groups != [] && u != NIL && !C.Exec(PartsOf(groups[0]), es).reset
    requires Recorded(C.Exec(PartsOf(groups[0]), es), groups)
    requires x in C.Exec(PartsOf(groups[0]), es).returned && c in x.since
    ensures WellTyped(x.snap.parts)
    ensures exists l, d ::
      && c <= l < |groups| && c <= d < |groups|
      && (Check(Assemble(x.snap.parts), u, perm).Ok? <==> Leads(groups[l], u) || Moderates(groups[d], u, perm))
  {
    var s := C.Exec(PartsOf(groups[0]), es);
    C.ExecInv(PartsOf(groups[0]), es);
    assert C.Whole(s, x.snap) && C.AtLeast(x.snap, x.since);
    hide C.Exec, C.Inv;
    var at := x.snap.stamps;
    forall p | 0 <= p < 4 ensures c <= at[p] < |groups| && PartsOf(groups[at[p]])[p] == Some(x.snap.parts[p]) {
      assert C.Width(s) == 4;
    }
    InfoFirst(groups[at[0]], x.snap.parts);
    TornDecision(x.snap.parts, groups[at[1]], groups[at[2]], groups[at[3]], u, perm);
  }

  lemma InfoFirst(g: Option<Group>, parts: seq<Part>)
    requires |parts| > 0 && PartsOf(g)[0] == Some(parts[0])
    ensures parts[0].Info?
  {
    FoundExists(g);
  }

  /**
   * However rights change meanwhile, a check that began after the Invalidate of write c grants only what the
   * member's row entitled them to, and the transaction would have granted, in some state no older than c.
   */
  lemma GrantIsBacked(
      es: seq<C.Event<Part>>, groups: seq<Option<Group>>, x: C.Return<Part>, c: nat, u: Id, perm: string)
    requires groups != [] && u != NIL && !C.Exec(PartsOf(groups[0]), es).reset
    requires Recorded(C.Exec(PartsOf(groups[0]), es), groups)
    requires x in C.Exec(PartsOf(groups[0]), es).returned && c in x.since
    ensures WellTyped(x.snap.parts)
    ensures Check(Assemble(x.snap.parts), u, perm).Ok? ==>
      exists n ::
        && c <= n < |groups| && groups[n].Some?
        && As(groups[n].value, u, perm).Ok? && Entitled(groups[n].value.members, u, perm)
  {
    CheckDecidesByNewStates(es, groups, x, c, u, perm);
    hide C.Exec, Assemble, Check;
    if Check(Assemble(x.snap.parts), u, perm).Ok? {
      var l, d :| c <= l < |groups| && c <= d < |groups| && (Leads(groups[l], u) || Moderates(groups[d], u, perm));
      if Leads(groups[l], u) {
        LeaderMay(groups[l].value, u, perm);
        AsDecides(groups[l].value, u, perm);
      } else {
        AsDecides(groups[d].value, u, perm);
      }
    }
  }

  /** What is read when the leader query runs before a change and the moderators query after it. */
  ghost function TornParts(before: Group, now: Group): seq<Part> {
    [Info(before.name, before.max, before.public), Members(before.members.Keys),
     Leader(LeaderOf(before.members)), Mods(ModsOf(now.members))]
  }

  /**
   * The converse fails: a moderator who becomes the admin between the two queries is refused, although both
   * states, before and after the transfer, would have let them.
   */
  lemma TornRefusal(before: Group, admin: Id, u: Id, perm: string)
    requires OneAdmin(before.members) && TransferAdmin(before, admin, u).Ok?
    requires u != NIL && Moderates(Some(before), u, perm)
    ensures var now := TransferAdmin(before, admin, u).value;
      && Entitled(before.members, u, perm) && Entitled(now.members, u, perm)
      && As(before, u, perm).Ok? && As(now, u, perm).Ok?
      && Check(Assemble(TornParts(before, now)), u, perm).Err?
  {
    var now := TransferAdmin(before, admin, u).value;
    assert !IsAdmin(before.members, u) && IsAdmin(before.members, admin) && IsAdmin(now.members, u);
    assert LeaderOf(before.members) == admin;
    TornDecision(TornParts(before, now), Some(before), Some(before), Some(now), u, perm);
  }

  /** Such a group: its admin hands over to the moderator who deletes messages. */
  lemma RefusalInput() returns (before: Group, admin: Id, u: Id, perm: string)
    ensures GroupInv(before) && TransferAdmin(before, admin, u).Ok? && u != NIL && Moderates(Some(before), u, perm)
  {
    admin, u, perm := 1, 2, DELETE_MESSAGES;
    var alone := NewGroup(admin, "g", 2, true, 0);
    R.NewGroupOk(admin, "g", 2, true, 0);
    assert alone.members == map[admin := Row(Admin, [], 0)];
    AddKeeps(alone, u, 0);
    var both := AddLocked(alone, u, 0).value;
    SetRoleKeeps(both, admin, u, Moderator, [perm]);
    before := SetRole(both, admin, u, Moderator, [perm]).value;
    hide GroupInv;
    assert before.members == map[admin := Row(Admin, [], 0), u := Row(Moderator, [perm], 0)];
  }

  // ---- deleting messages ----

  function CanDeleteMessage(s: Snapshot, actor: Id, sender: Id): bool {
    var r := RoleIn(s, actor);
    if r.None? then false
    else if r.value.0 == Admin then true
    else if !Allowed(r.value.0, r.value.1, DELETE_MESSAGES) then false
    else RoleIn(s, sender).None? || RoleIn(s, sender).value.0 == Member
  }

  /** The admin may delete anyone's messages, a moderator with the permission only those of ordinary people. */
  predicate MayDelete(g: Group, actor: Id, sender: Id) {
    && actor in g.members
    && (|| g.members[actor].role == Admin
        || (&& g.members[actor].role == Moderator && DELETE_MESSAGES in g.members[actor].perms
            && (sender in g.members ==> g.members[sender].role == Member)))
  }

  lemma WhoDeletesMessages(g: Group, actor: Id, sender: Id)
    requires OneAdmin(g.members)
    ensures CanDeleteMessage(Current(g), actor, sender) <==> MayDelete(g, actor, sender)
  {
    RoleIsCurrent(g, actor);
    RoleIsCurrent(g, sender);
    hide RoleIn, Current;
  }

  /** And so it is decided on any cached snapshot while no write awaits its Invalidate. */
  lemma CachedDeletionIsCurrent(es: seq<C.Event<Part>>, groups: seq<Option<Group>>, actor: Id, sender: Id)
    requires groups != [] && !C.Exec(PartsOf(groups[0]), es).reset
    requires var s := C.Exec(PartsOf(groups[0]), es);
      Recorded(s, groups) && s.cached.Some? && forall c: nat :: 0 < c < |s.hist| ==> c in s.finished
    requires forall g <- groups :: g.Some? ==> OneAdmin(g.value.members)
    ensures var s, last := C.Exec(PartsOf(groups[0]), es), groups[|groups| - 1];
      && last.Some? && WellTyped(s.cached.value.parts)
      && (CanDeleteMessage(Assemble(s.cached.value.parts), actor, sender) <==> MayDelete(last.value, actor, sender))
  {
    hide C.Exec, C.Inv, OneAdmin, CanDeleteMessage, MayDelete, Assemble, Current, ModsOf, LeaderOf;
    var first := PartsOf(groups[0]);
    var s, last := C.Exec(first, es), groups[|groups| - 1];
    C.CachedIsCurrent(first, es);
    assert last in groups && C.Last(s) == PartsOf(last);
    WholeIsCurrent(last, s.cached.value.parts);
    WhoDeletesMessages(last.value, actor, sender);
  }
}

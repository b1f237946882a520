/** What every committed database satisfies, whatever handlers ran and however they interleaved. */
module Invariant {
  import opened Wrappers
  import opened Text
  import opened Handles
  import opened UniqueHandles
  import opened Rows
  import opened Audit
  import opened Statements
  import opened Protocol

  ghost predicate GroupOk(db: Db, id: Id)
    requires id in db.groups
  {
    var g := db.groups[id];
    && g.id == id && 0 < id < db.nextGroup
    && GroupChecks(g) && IsValidHandle(g.handle)
    && g.createdById in db.users
    // the parent exists and is older
    && (g.parentId.Some? ==> g.parentId.value in db.groups && g.parentId.value < id)
  }

  ghost predicate MemberOk(db: Db, id: Id)
    requires id in db.members
  {
    var m := db.members[id];
    && m.id == id < db.nextMember
    && RoleIsValid(m.role)
    && m.groupId in db.groups && m.userId in db.users && m.inviterId in db.users
  }

  ghost predicate RowsOk(db: Db)
  {
    && 0 < db.nextGroup
    && (forall id {:trigger GroupOk(db, id)} | id in db.groups :: GroupOk(db, id))
    && (forall id {:trigger MemberOk(db, id)} | id in db.members :: MemberOk(db, id))
  }

  /** No two groups share a handle. */
  ghost predicate HandlesDistinct(groups: Groups)
  {
    forall a, b | a in groups && b in groups && groups[a].handle == groups[b].handle :: a == b
  }

  /** No two memberships share group and user. */
  ghost predicate PairsDistinct(members: Members)
  {
    forall a, b | a in members && b in members &&
      members[a].groupId == members[b].groupId && members[a].userId == members[b].userId :: a == b
  }

  /** Every group has an active admin. */
  ghost predicate Governed(db: Db)
  {
    forall g | g in db.groups :: ActiveAdmins(db.members, g) != {}
  }

  /** The log is consistent, describes the tables, and speaks only of ids already drawn. */
  ghost predicate LogOk(db: Db)
  {
    && Consistent(db.log)
    && Replay(db.log) == Tables(db.groups, db.members)
    && (forall id | Mentions(db.log, GroupsTable, id) :: id < db.nextGroup)
    && (forall id | Mentions(db.log, MembershipsTable, id) :: id < db.nextMember)
  }

  /** Everything but Governed, which creating a group breaks for a moment. */
  ghost predicate Sound(db: Db)
  {
    RowsOk(db) && HandlesDistinct(db.groups) && PairsDistinct(db.members) && LogOk(db)
  }

  ghost predicate Inv(db: Db) { Sound(db) && Governed(db) }

  // ---------------------------------------------------------------- row writes

  lemma IdsAreBelow(db: Db)
    requires RowsOk(db)
    ensures forall id | id in db.groups :: id < db.nextGroup
    ensures forall id | id in db.members :: id < db.nextMember
  {
    forall id | id in db.groups ensures id < db.nextGroup { assert GroupOk(db, id); }
    forall id | id in db.members ensures id < db.nextMember { assert MemberOk(db, id); }
  }

  lemma DrawnStaysSound(db: Db, g: nat, m: nat)
    requires Sound(db)
    ensures Sound(db.(nextGroup := db.nextGroup + g, nextMember := db.nextMember + m))
  {
    var d := db.(nextGroup := db.nextGroup + g, nextMember := db.nextMember + m);
    assert forall id | id in db.groups :: GroupOk(db, id);
    assert forall id | id in db.members :: MemberOk(db, id);
  }

  lemma GroupWriteLogged(db: Db, actor: Option<Id>, g: Group)
    requires RowsOk(db) && LogOk(db) && g.id < db.nextGroup
    requires g.id in db.groups || !Mentions(db.log, GroupsTable, g.id)
    ensures LogOk(WriteGroup(db, actor, g))
  {
    var v := WriteGroup(db, actor, g);
    var e := v.log[|v.log| - 1];
    assert v.log == db.log + [e];
    if g.id in db.groups { assert GroupOk(db, g.id); }
    Appended(db.log, e);
  }

  lemma MemberWriteLogged(db: Db, actor: Option<Id>, m: Membership)
    requires RowsOk(db) && LogOk(db) && m.id < db.nextMember
    requires m.id in db.members || !Mentions(db.log, MembershipsTable, m.id)
    ensures LogOk(WriteMember(db, actor, m))
  {
    var v := WriteMember(db, actor, m);
    var e := v.log[|v.log| - 1];
    assert v.log == db.log + [e];
    if m.id in db.members { assert MemberOk(db, m.id); }
    Appended(db.log, e);
  }

  lemma MemberDropLogged(db: Db, actor: Option<Id>, id: Id)
    requires RowsOk(db) && LogOk(db) && id in db.members
    ensures LogOk(DropMember(db, actor, id))
  {
    var v := DropMember(db, actor, id);
    var e := v.log[|v.log| - 1];
    assert v.log == db.log + [e];
    assert MemberOk(db, id);
    Appended(db.log, e);
  }

  lemma GroupUpdated(db: Db, actor: Option<Id>, g: Group)
    requires Sound(db) && g.id in db.groups && GroupChecks(g)
    requires var oldRow := db.groups[g.id];
             g.handle == oldRow.handle && g.parentId == oldRow.parentId && g.createdById == oldRow.createdById
    ensures Sound(WriteGroup(db, actor, g))
    ensures Governed(db) ==> Governed(WriteGroup(db, actor, g))
  {
    assert GroupOk(db, g.id);
    GroupWriteLogged(db, actor, g);
    var v := WriteGroup(db, actor, g);
    forall id | id in v.groups ensures GroupOk(v, id) { assert GroupOk(db, id); }
    forall id | id in v.members ensures MemberOk(v, id) { assert MemberOk(db, id); }
  }

  lemma FreeHandleStaysDistinct(groups: Groups, g: Group)
    requires HandlesDistinct(groups) && !HandleTaken(groups, g.handle)
    ensures HandlesDistinct(groups[g.id := g])
  {
    forall id | id in groups ensures groups[id].handle != g.handle {
      assert Lower(groups[id].handle) != Lower(g.handle);
    }
  }

  lemma GroupInserted(db: Db, actor: Option<Id>, g: Group)
    requires Sound(db) && g.id == db.nextGroup && GroupChecks(g) && IsValidHandle(g.handle)
    requires !HandleTaken(db.groups, g.handle) && g.createdById in db.users
    requires g.parentId.Some? ==> g.parentId.value in db.groups
    ensures Sound(WriteGroup(db.(nextGroup := g.id + 1), actor, g))
  {
    DrawnStaysSound(db, 1, 0);
    var d := db.(nextGroup := g.id + 1);
    IdsAreBelow(db);
    GroupWriteLogged(d, actor, g);
    FreeHandleStaysDistinct(db.groups, g);
    var v := WriteGroup(d, actor, g);
    forall id | id in v.groups ensures GroupOk(v, id) {
      if id != g.id { assert GroupOk(d, id); }
    }
    forall id | id in v.members ensures MemberOk(v, id) { assert MemberOk(d, id); }
  }

  lemma MemberWritten(db: Db, actor: Option<Id>, m: Membership)
    requires Sound(db) && m.id < db.nextMember && RoleIsValid(m.role)
    requires m.groupId in db.groups && m.userId in db.users && m.inviterId in db.users
    requires if m.id in db.members
             then m.groupId == db.members[m.id].groupId && m.userId == db.members[m.id].userId
             else !PairTaken(db.members, m.groupId, m.userId) && !Mentions(db.log, MembershipsTable, m.id)
    ensures Sound(WriteMember(db, actor, m))
  {
    MemberWriteLogged(db, actor, m);
    var v := WriteMember(db, actor, m);
    forall id | id in v.groups ensures GroupOk(v, id) { assert GroupOk(db, id); }
    forall id | id in v.members ensures MemberOk(v, id) { if id != m.id { assert MemberOk(db, id); } }
  }

  lemma MemberDropped(db: Db, actor: Option<Id>, id: Id)
    requires Sound(db) && id in db.members
    ensures Sound(DropMember(db, actor, id))
  {
    MemberDropLogged(db, actor, id);
    var v := DropMember(db, actor, id);
    forall k | k in v.groups ensures GroupOk(v, k) { assert GroupOk(db, k); }
    forall k | k in v.members ensures MemberOk(v, k) { assert MemberOk(db, k); }
  }

  // ---------------------------------------------------------------- the last admin

  /** Writing or dropping one membership row: an active admin of a group stays unless it is that row. */
  lemma OtherAdminsStay(members: Members, after: Members, id: Id, g: Id)
    requires forall k | k in members && k != id :: k in after && after[k] == members[k]
    ensures ActiveAdmins(members, g) - {id} <= ActiveAdmins(after, g)
  {
    forall k | k in ActiveAdmins(members, g) - {id} ensures k in ActiveAdmins(after, g) {
      assert k in members && k != id;
    }
  }

  /** What the trigger lets through keeps every group governed. */
  lemma TriggerKeepsGoverned(db: Db, oldRow: Membership, after: Members)
    requires Governed(db) && oldRow.id in db.members && db.members[oldRow.id] == oldRow
    requires forall k | k in db.members && k != oldRow.id :: k in after && after[k] == db.members[k]
    requires oldRow.id in after ==>
               after[oldRow.id].groupId == oldRow.groupId &&
               (oldRow.acceptedAt.Some? ==> after[oldRow.id].acceptedAt.Some?)
    requires !TriggerRaises(db.members, oldRow, if oldRow.id in after then Some(after[oldRow.id]) else None)
    ensures Governed(db.(members := after))
  {
    forall g | g in db.groups ensures ActiveAdmins(after, g) != {} {
      OtherAdminsStay(db.members, after, oldRow.id, g);
      if ActiveAdmins(db.members, g) - {oldRow.id} == {} {
        assert ActiveAdmins(db.members, g) == {oldRow.id};
        assert oldRow.id in ActiveAdmins(db.members, g);
        assert oldRow.id in ActiveAdmins(after, g);
      }
    }
  }

  lemma NewMemberKeepsGoverned(db: Db, actor: Option<Id>, m: Membership)
    requires Governed(db) && m.id !in db.members
    ensures Governed(WriteMember(db, actor, m))
  {
    forall g | g in db.groups ensures ActiveAdmins(WriteMember(db, actor, m).members, g) != {} {
      OtherAdminsStay(db.members, WriteMember(db, actor, m).members, m.id, g);
      assert ActiveAdmins(db.members, g) - {m.id} == ActiveAdmins(db.members, g);
    }
  }

  // ---------------------------------------------------------------- transactions

  /** What handlers put into their transactions beyond what the schema would check. */
  ghost predicate TxOk(actor: Id, tx: Tx)
  {
    tx.TxCreateGroup? ==> IsValidHandle(tx.params.handle) && tx.params.createdById == actor
  }

  lemma InsertMemberSound(db: Db, actor: Option<Id>, now: Time,
                          groupId: Id, userId: Id, role: string, inviterId: Id, acceptedAt: Option<Time>)
    requires Sound(db)
    ensures var (v, r) := InsertMember(db, actor, now, groupId, userId, role, inviterId, acceptedAt);
            var m := Membership(db.nextMember, groupId, userId, role, inviterId, acceptedAt, now, now);
            && v.nextMember == db.nextMember + 1 && v.nextGroup == db.nextGroup && v.users == db.users
            && (r.Ok? ==> Sound(v) && db.nextMember !in db.members && v.groups == db.groups &&
                          v.members == db.members[db.nextMember := m])
  {
    var id := db.nextMember;
    DrawnStaysSound(db, 0, 1);
    var drawn := db.(nextMember := id + 1);
    IdsAreBelow(db);
    if RoleIsValid(role) && !PairTaken(db.members, groupId, userId) &&
       groupId in db.groups && userId in db.users && inviterId in db.users {
      MemberWritten(drawn, actor, Membership(id, groupId, userId, role, inviterId, acceptedAt, now, now));
    }
  }

  lemma CreateGroupKeepsInv(db: Db, actor: Id, now: Time, p: GroupParams)
    requires Inv(db) && TxOk(actor, TxCreateGroup(p))
    ensures Body(db, actor, now, TxCreateGroup(p)).1.Ok? ==> Inv(Body(db, actor, now, TxCreateGroup(p)).0)
  {
    var (db1, r1) := InsertGroup(db, Some(actor), now, p);
    if r1.Ok? {
      GroupInserted(db, Some(actor), NewGroup(r1.id, p, now));
      InsertMemberSound(db1, Some(actor), now, r1.id, actor, ADMIN, actor, Some(now));
      var (v, r) := InsertMember(db1, Some(actor), now, r1.id, actor, ADMIN, actor, Some(now));
      if r.Ok? {
        FirstAdminGoverns(db, v, r1.id, db1.nextMember);
      }
    }
  }

  /** A new group is governed by its first membership, the others as before. */
  lemma FirstAdminGoverns(db: Db, v: Db, groupId: Id, id: Id)
    requires Governed(db) && v.groups.Keys == db.groups.Keys + {groupId}
    requires id !in db.members && id in v.members && v.members == db.members[id := v.members[id]]
    requires v.members[id].groupId == groupId && IsActiveAdmin(v.members[id])
    ensures Governed(v)
  {
    forall g | g in v.groups ensures ActiveAdmins(v.members, g) != {} {
      if g == groupId {
        assert id in ActiveAdmins(v.members, g);
      } else {
        OtherAdminsStay(db.members, v.members, id, g);
        assert ActiveAdmins(db.members, g) - {id} == ActiveAdmins(db.members, g);
      }
    }
  }

  lemma MemberUpdateKeepsInv(db: Db, actor: Option<Id>, m: Membership)
    requires Inv(db) && m.id in db.members && RoleIsValid(m.role)
    requires var oldRow := db.members[m.id];
             && m.groupId == oldRow.groupId && m.userId == oldRow.userId && m.inviterId == oldRow.inviterId
             && (oldRow.acceptedAt.Some? ==> m.acceptedAt.Some?)
             && !TriggerRaises(db.members, oldRow, Some(m))
    ensures Inv(WriteMember(db, actor, m))
  {
    assert MemberOk(db, m.id);
    MemberWritten(db, actor, m);
    TriggerKeepsGoverned(db, db.members[m.id], WriteMember(db, actor, m).members);
  }

  /** A transaction that commits keeps the invariant. */
  lemma BodyKeepsInv(db: Db, actor: Id, now: Time, tx: Tx)
    requires Inv(db) && TxOk(actor, tx)
    ensures Body(db, actor, now, tx).1.Ok? ==> Inv(Body(db, actor, now, tx).0)
  {
    var signer := Some(actor);
    match tx
    case TxCreateGroup(p) => CreateGroupKeepsInv(db, actor, now, p);
    case TxUpdateGroup(id, patch) =>
      if id in db.groups && GroupChecks(PatchGroup(db.groups[id], patch, now)) {
        assert GroupOk(db, id);
        GroupUpdated(db, signer, PatchGroup(db.groups[id], patch, now));
      }
    case TxSetArchived(id, archived) =>
      if id in db.groups {
        assert GroupOk(db, id);
        var g := db.groups[id].(archivedAt := if archived then Some(now) else None, updatedAt := now);
        GroupUpdated(db, signer, g);
      }
    case TxInvite(groupId, userId, role) =>
      InsertMemberSound(db, signer, now, groupId, userId, role, actor, None);
      var (v, r) := InsertMember(db, signer, now, groupId, userId, role, actor, None);
      if r.Ok? {
        NewMemberKeepsGoverned(db.(nextMember := db.nextMember + 1), signer, v.members[db.nextMember]);
      }
    case TxAccept(id) =>
      if id in db.members && AcceptMember(db, signer, now, id).1.Ok? {
        assert MemberOk(db, id);
        MemberUpdateKeepsInv(db, signer, db.members[id].(acceptedAt := Some(now), updatedAt := now));
      }
    case TxSetRole(id, role) =>
      if id in db.members && SetRole(db, signer, now, id, role).1.Ok? {
        assert MemberOk(db, id);
        MemberUpdateKeepsInv(db, signer, db.members[id].(role := role, updatedAt := now));
      }
    case TxDelete(id) =>
      if id in db.members && DeleteMember(db, signer, id).1.Ok? {
        assert MemberOk(db, id);
        MemberDropped(db, signer, id);
        TriggerKeepsGoverned(db, db.members[id], DropMember(db, signer, id).members);
      }
  }

  /** Sequences only move forward, and a failed transaction changes nothing else. */
  lemma BodyDraws(db: Db, actor: Id, now: Time, tx: Tx)
    ensures var v := Body(db, actor, now, tx).0;
            v.nextGroup >= db.nextGroup && v.nextMember >= db.nextMember && v.users == db.users
  {
  }

  lemma ExecKeepsInv(db: Db, actor: Id, now: Time, tx: Tx)
    requires Inv(db) && TxOk(actor, tx)
    ensures Inv(Exec(db, actor, now, tx).0)
  {
    BodyKeepsInv(db, actor, now, tx);
    BodyDraws(db, actor, now, tx);
    var v := Body(db, actor, now, tx).0;
    DrawnStaysSound(db, v.nextGroup - db.nextGroup, v.nextMember - db.nextMember);
  }

  // ---------------------------------------------------------------- handlers

  /** What a handler knows about its own transaction; only an update goes on after it. */
  ghost predicate FlightOk(f: Flight)
  {
    && (f.Probing? ==> SearchOk(f.req, f.base) && 1 <= f.next)
    && (f.Ready? ==> TxOk(f.actor, f.tx))
    && (f.Ready? && f.req.UpdateGroup? ==> f.tx.TxUpdateGroup? && f.tx.groupId == f.req.groupId)
    && (IsPastCommit(f) ==> f.req.UpdateGroup?)
  }

  /** A search is for a request without a handle of its own, from the base its name gives. */
  predicate SearchOk(req: Request, base: string)
  {
    && (req.CreateGroup? || req.CreateSubgroup?)
    && TrimSpace(req.handle) == "" && base == GenerateHandle(req.foldedName) != ""
  }

  lemma ProbeIsValid(req: Request, base: string, k: nat)
    requires SearchOk(req, base) && k <= MAX_SUFFIX
    ensures IsValidHandle(Probe(base, k))
  {
    GeneratedIsCanonical(req.foldedName);
    CandidateIsValid(base, k);
  }

  lemma ReadKeepsFlight(db: Db, f: Flight)
    requires FlightOk(f)
    ensures FlightOk(Read(db, f))
  {
    if f.NeedHandle? && (f.req.CreateGroup? || f.req.CreateSubgroup?) {
      if TrimSpace(f.req.handle) == "" && GenerateHandle(f.req.foldedName) != "" {
        ProbeIsValid(f.req, GenerateHandle(f.req.foldedName), 0);
      }
    } else if f.Probing? && f.next <= MAX_SUFFIX {
      ProbeIsValid(f.req, f.base, f.next);
    }
  }

  ghost predicate WorldOk(w: World)
  {
    Inv(w.db) && forall i | i in w.flights :: FlightOk(w.flights[i])
  }

  lemma SignUpKeepsInv(db: Db, userId: Id)
    requires Inv(db)
    ensures Inv(db.(users := db.users + {userId}))
  {
    var v := db.(users := db.users + {userId});
    forall id | id in v.groups ensures GroupOk(v, id) { assert GroupOk(db, id); }
    forall id | id in v.members ensures MemberOk(v, id) { assert MemberOk(db, id); }
  }

  lemma NextKeepsWorld(w: World, e: Event)
    requires WorldOk(w)
    ensures WorldOk(Next(w, e))
  {
    match e
    case Arrive(i, actor, req) =>
    case ReadStep(i) =>
      if i in w.flights { ReadKeepsFlight(w.db, w.flights[i]); }
    case CommitStep(i, now) =>
      if i in w.flights && w.flights[i].Ready? {
        ExecKeepsInv(w.db, w.flights[i].actor, now, w.flights[i].tx);
      }
    case DatabaseError(i, g, m) =>
      DrawnStaysSound(w.db, g, m);
    case SignUp(userId) =>
      SignUpKeepsInv(w.db, userId);
  }

  /** The invariant holds in every world any interleaving of handlers can reach. */
  lemma {:induction false} RunKeepsWorld(events: seq<Event>)
    ensures WorldOk(Run(START, events))
    decreases |events|
  {
    if events != [] {
      RunKeepsWorld(events[..|events| - 1]);
      NextKeepsWorld(Run(START, events[..|events| - 1]), events[|events| - 1]);
    }
  }

  /** One read on the way to the transaction. */
  lemma OneRead(db: Db, f: Flight) returns (g: Flight)
    requires !f.Ready? && !f.Done?
    ensures Rank(g) < Rank(f) && Settle(db, f) == Settle(db, g)
    ensures g.Done? || (g.actor == f.actor && g.req == f.req)
    ensures FlightOk(f) ==> FlightOk(g)
  {
    g := Read(db, f);
    ReadSettles(db, f);
    ReadKeepsActor(db, f);
    if FlightOk(f) { ReadKeepsFlight(db, f); }
  }

  lemma ReadKeepsActor(db: Db, f: Flight)
    requires !f.Done?
    ensures var g := Read(db, f); g.Done? || (g.actor == f.actor && g.req == f.req)
  {
  }

  /** Settling neither changes whose request it is nor spoils the transaction. */
  lemma {:induction false} SettleKeepsFlight(db: Db, f: Flight)
    requires FlightOk(f)
    ensures var r := Settle(db, f); FlightOk(r) && (r.Ready? ==> r.actor == f.actor && r.req == f.req)
    decreases Rank(f)
  {
    if !f.Ready? && !f.Done? {
      var g := OneRead(db, f);
      SettleKeepsFlight(db, g);
    }
  }

  lemma ServeKeepsInv(db: Db, actor: Id, req: Request, now: Time)
    requires Inv(db)
    ensures Inv(Serve(db, actor, req, now).0)
  {
    SettleKeepsFlight(db, Started(actor, req));
    var f := Settle(db, Started(actor, req));
    if f.Ready? {
      ExecKeepsInv(db, actor, now, f.tx);
    }
  }
}

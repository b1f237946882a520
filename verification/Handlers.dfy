/** The handlers of memberships.go and groups.go as straight-line code on the database, each held to
    the uninterrupted run of its small-step form. */
module Handlers {
  import opened Wrappers
  import opened Text
  import opened Handles
  import opened UniqueHandles
  import opened Rows
  import S = Statements
  import opened Authorization
  import opened Protocol
  import opened Invariant
  import opened Safety
  import D = Database

  /** All the code needs of the database: one row per pair, groups filed under their ids. Every reachable
      database is of this kind (Invariant), and stays so by ServeKeepsInv. */
  ghost predicate Usable(db: S.Db)
  {
    PairsDistinct(db.members) && forall id | id in db.groups :: db.groups[id].id == id
  }

  lemma ReachableIsUsable(events: seq<Event>)
    ensures Usable(Run(START, events).db)
  {
    RunKeepsWorld(events);
    var db := Run(START, events).db;
    forall id | id in db.groups ensures db.groups[id].id == id { assert GroupOk(db, id); }
  }

  /** The reads of the handlers that start from a group, taken together. */
  ghost function Grouped(db: S.Db, actor: Id, req: Request): Flight
    requires ReadsGroup(req)
  {
    if GroupOf(req) !in db.groups then Done(404)
    else
      var group := db.groups[GroupOf(req)];
      var f := Decide(actor, req, None, NewAuthContext(actor, group, FindMembership(db.members, group.id, actor)));
      if f.Ready? || f.Done? then f
      else if f.NeedHandle? then Resolved(actor, req, f.parent, ResolveHandle(db.groups, req.foldedName, req.handle))
      else Read(db, f)
  }

  /** The suffix search with nobody in between, from suffix k on. */
  lemma {:induction false} ProbesSettle(db: S.Db, actor: Id, req: Request, parent: Option<Group>, base: string, k: nat)
    requires (req.CreateGroup? || req.CreateSubgroup?) && 1 <= k
    ensures Settle(db, Probing(actor, req, parent, base, k))
         == Resolved(actor, req, parent, Search(base, TakenHandles(db.groups), k))
    decreases MAX_SUFFIX + 1 - k
  {
    var f := Probing(actor, req, parent, base, k);
    assert Settle(db, f) == Settle(db, Read(db, f));
    if k <= MAX_SUFFIX && Candidate(base, k) in TakenHandles(db.groups) {
      ProbesSettle(db, actor, req, parent, base, k + 1);
    }
  }

  lemma HandleSettles(db: S.Db, actor: Id, req: Request, parent: Option<Group>)
    requires req.CreateGroup? || req.CreateSubgroup?
    ensures Settle(db, NeedHandle(actor, req, parent))
         == Resolved(actor, req, parent, ResolveHandle(db.groups, req.foldedName, req.handle))
  {
    var f := NeedHandle(actor, req, parent);
    assert Settle(db, f) == Settle(db, Read(db, f));
    var base := GenerateHandle(req.foldedName);
    if TrimSpace(req.handle) == "" && base != "" && base in TakenHandles(db.groups) {
      ProbesSettle(db, actor, req, parent, base, 1);
    }
  }

  lemma SettleGrouped(db: S.Db, actor: Id, req: Request)
    requires ReadsGroup(req)
    ensures Settle(db, Started(actor, req)) == Grouped(db, actor, req)
  {
    var f1 := Read(db, Started(actor, req));
    assert Settle(db, Started(actor, req)) == Settle(db, f1);
    if f1.HaveGroup? {
      var f2 := Read(db, f1);
      assert Settle(db, f1) == Settle(db, f2);
      if f2.NeedHandle? {
        HandleSettles(db, actor, req, f2.parent);
      } else if !f2.Ready? && !f2.Done? {
        assert Settle(db, f2) == Settle(db, Read(db, f2));
      }
    }
  }

  lemma SettleCreate(db: S.Db, actor: Id, req: Request)
    requires req.CreateGroup?
    ensures Settle(db, Started(actor, req))
         == if TrimSpace(req.name) == "" then Done(422)
            else Resolved(actor, req, None, ResolveHandle(db.groups, req.foldedName, req.handle))
  {
    var f1 := Read(db, Started(actor, req));
    assert Settle(db, Started(actor, req)) == Settle(db, f1);
    if f1.NeedHandle? { HandleSettles(db, actor, req, None); }
  }

  /** A subgroup request with all its checks passed. */
  lemma SubgroupIsReady(db: S.Db, actor: Id, req: Request, parent: Group, p: S.GroupParams)
    requires req.CreateSubgroup? && req.parentId in db.groups && parent == db.groups[req.parentId]
    requires var ac := NewAuthContext(actor, parent, FindMembership(db.members, parent.id, actor));
             ac.CanCreateSubgroups() && parent.archivedAt.None?
    requires TrimSpace(req.name) != "" && p.handle != ""
    requires p.handle == ResolveHandle(db.groups, req.foldedName, req.handle)
    requires p == CreateParams(actor, req, Some(parent), p.handle)
    ensures Settle(db, Started(actor, req)) == Ready(actor, req, S.TxCreateGroup(p))
  {
    SettleGrouped(db, actor, req);
  }

  lemma SettleAccept(db: S.Db, actor: Id, req: Request)
    requires req.AcceptInvitation?
    ensures Settle(db, Started(actor, req)) == Read(db, Started(actor, req))
  {
    assert Settle(db, Started(actor, req)) == Settle(db, Read(db, Started(actor, req)));
  }

  lemma SettleUpdated(db: S.Db, actor: Id, req: Request)
    requires req.UpdateGroup?
    ensures Settle(db, Updated(actor, req))
         == Done(200, Some(Counts(S.MemberCount(db.members, req.groupId), S.AdminCount(db.members, req.groupId))))
  {
    var f := Read(db, Updated(actor, req));
    assert Settle(db, Updated(actor, req)) == Settle(db, f) == Settle(db, Read(db, f));
  }

  class MembershipHandler {
    const db: D.Database

    constructor (db: D.Database)
      ensures this.db == db
    {
      this.db := db;
    }

    method HandleInviteMember(actor: Id, groupId: Id, userId: Id, role: string, now: Time) returns (status: int)
      requires Usable(db.Snapshot())
      modifies db
      ensures (db.Snapshot(), status) == Serve(old(db.Snapshot()), actor, InviteMember(groupId, userId, role), now)
    {
      ghost var start, req := db.Snapshot(), InviteMember(groupId, userId, role);
      SettleGrouped(start, actor, req);
      var authCtx := db.NewAuthorizationContext(actor, groupId);
      if authCtx.None? {
        return 404;
      }
      if !authCtx.value.CanInviteMembers() {
        return 403;
      }
      if authCtx.value.group.archivedAt.Some? {
        return 409;
      }
      if role == ADMIN && !authCtx.value.isAdmin {
        return 403;
      }
      if userId !in db.users {
        return 404;
      }
      var granted := role;
      if granted == "" {
        granted := MEMBER;
      }
      var saved := db.Begin(actor);
      var r := db.CreateMembership(now, groupId, userId, granted, actor, None);
      db.End(saved, r);
      if r.Failed? {
        if r.fault.MembershipConflict? {
          return 409;
        }
        return 500;
      }
      return 201;
    }

    method HandleAcceptInvitation(actor: Id, memberId: Id, now: Time) returns (status: int)
      requires Usable(db.Snapshot())
      modifies db
      ensures (db.Snapshot(), status) == Serve(old(db.Snapshot()), actor, AcceptInvitation(memberId), now)
    {
      ghost var start, req := db.Snapshot(), AcceptInvitation(memberId);
      SettleAccept(start, actor, req);
      if memberId !in db.members {
        return 404;
      }
      var membership := db.members[memberId];
      if membership.userId != actor {
        return 403;
      }
      if membership.acceptedAt.Some? {
        return 409;
      }
      var saved := db.Begin(actor);
      var r := db.AcceptMembership(now, memberId);
      db.End(saved, r);
      if r.Failed? {
        return 500;
      }
      return 200;
    }

    method HandlePromoteMember(actor: Id, memberId: Id, now: Time) returns (status: int)
      requires Usable(db.Snapshot())
      modifies db
      ensures (db.Snapshot(), status) == Serve(old(db.Snapshot()), actor, PromoteMember(memberId), now)
    {
      ghost var start, req := db.Snapshot(), PromoteMember(memberId);
      SettleManaged(start, actor, req);
      if memberId !in db.members {
        return 404;
      }
      var membership := db.members[memberId];
      var authCtx := db.NewAuthorizationContext(actor, membership.groupId);
      if authCtx.None? {
        return 404;
      }
      if !authCtx.value.CanManageMembers() {
        return 403;
      }
      if authCtx.value.group.archivedAt.Some? {
        return 409;
      }
      if membership.role == ADMIN {
        return 409;
      }
      var saved := db.Begin(actor);
      var r := db.UpdateMembershipRole(now, memberId, ADMIN);
      db.End(saved, r);
      if r.Failed? {
        return 500;
      }
      return 200;
    }

    method HandleDemoteMember(actor: Id, memberId: Id, now: Time) returns (status: int)
      requires Usable(db.Snapshot())
      modifies db
      ensures (db.Snapshot(), status) == Serve(old(db.Snapshot()), actor, DemoteMember(memberId), now)
    {
      ghost var start, req := db.Snapshot(), DemoteMember(memberId);
      SettleManaged(start, actor, req);
      if memberId !in db.members {
        return 404;
      }
      var membership := db.members[memberId];
      var authCtx := db.NewAuthorizationContext(actor, membership.groupId);
      if authCtx.None? {
        return 404;
      }
      if !authCtx.value.CanManageMembers() {
        return 403;
      }
      if authCtx.value.group.archivedAt.Some? {
        return 409;
      }
      if membership.role == MEMBER {
        return 409;
      }
      var adminCount := db.CountAdminsByGroup(membership.groupId);
      if adminCount <= 1 {
        return 409;
      }
      var saved := db.Begin(actor);
      var r := db.UpdateMembershipRole(now, memberId, MEMBER);
      db.End(saved, r);
      if r.Failed? {
        if r.fault.LastAdmin? {
          return 409;
        }
        return 500;
      }
      return 200;
    }

    method HandleRemoveMember(actor: Id, memberId: Id, now: Time) returns (status: int)
      requires Usable(db.Snapshot())
      modifies db
      ensures (db.Snapshot(), status) == Serve(old(db.Snapshot()), actor, RemoveMember(memberId), now)
    {
      ghost var start, req := db.Snapshot(), RemoveMember(memberId);
      SettleManaged(start, actor, req);
      if memberId !in db.members {
        return 404;
      }
      var membership := db.members[memberId];
      var authCtx := db.NewAuthorizationContext(actor, membership.groupId);
      if authCtx.None? {
        return 404;
      }
      if !authCtx.value.CanManageMembers() {
        return 403;
      }
      if authCtx.value.group.archivedAt.Some? {
        return 409;
      }
      if membership.role == ADMIN {
        var adminCount := db.CountAdminsByGroup(membership.groupId);
        if adminCount <= 1 {
          return 409;
        }
      }
      var saved := db.Begin(actor);
      var r := db.DeleteMembership(memberId);
      db.End(saved, r);
      if r.Failed? {
        if r.fault.LastAdmin? {
          return 409;
        }
        return 500;
      }
      return 204;
    }
  }

  class GroupHandler {
    const db: D.Database

    constructor (db: D.Database)
      ensures this.db == db
    {
      this.db := db;
    }

    /** The handle a creation will use: generated when left blank, else checked; "" is a refusal. */
    method ChooseHandle(foldedName: string, requested: string) returns (handle: string)
      ensures handle == ResolveHandle(db.groups, foldedName, requested)
    {
      handle := TrimSpace(requested);
      if handle == "" {
        handle := GenerateUniqueHandle(foldedName, TakenHandles(db.groups));
      } else if !IsValidHandle(handle) {
        handle := "";
      }
    }

    /** The transaction shared by both creating handlers. */
    method CreateInTransaction(actor: Id, params: S.GroupParams, now: Time) returns (status: int, ghost r: S.Result)
      modifies db
      ensures (db.Snapshot(), r) == S.Exec(old(db.Snapshot()), actor, now, S.TxCreateGroup(params))
      ensures status == if r.Ok? then 201 else if r.fault.HandleConflict? then 409 else 500
    {
      ghost var begun := db.Snapshot();
      var saved := db.Begin(actor);
      var created := db.InsertGroup(now, params);
      if created.Failed? {
        db.End(saved, created);
        r := created;
        if created.fault.HandleConflict? {
          status := 409;
        } else {
          status := 500;
        }
        return;
      }
      var joined := db.CreateMembership(now, created.id, actor, ADMIN, actor, Some(now));
      db.End(saved, joined);
      r := joined;
      if joined.Failed? {
        status := 500;
        return;
      }
      status := 201;
    }

    method HandleCreateGroup(actor: Id, name: string, foldedName: string, handle: string,
                             description: Option<string>, now: Time)
      returns (status: int)
      requires Usable(db.Snapshot())
      modifies db
      ensures (db.Snapshot(), status)
           == Serve(old(db.Snapshot()), actor, CreateGroup(name, foldedName, handle, description), now)
    {
      ghost var start, req := db.Snapshot(), CreateGroup(name, foldedName, handle, description);
      SettleCreate(start, actor, req);
      var trimmed := TrimSpace(name);
      if trimmed == "" {
        return 422;
      }
      var chosen := ChooseHandle(foldedName, handle);
      if chosen == "" {
        return 422;
      }
      var stored := if description == Some("") then None else description;
      var params := S.GroupParams(trimmed, chosen, stored, None, actor, DEFAULT_FLAGS);
      ghost var r;
      status, r := CreateInTransaction(actor, params, now);
    }

    method HandleCreateSubgroup(actor: Id, parentId: Id, name: string, foldedName: string, handle: string,
                                description: Option<string>, inherit: bool, now: Time)
      returns (status: int)
      requires Usable(db.Snapshot())
      modifies db
      ensures (db.Snapshot(), status)
           == Serve(old(db.Snapshot()), actor,
                    CreateSubgroup(parentId, name, foldedName, handle, description, inherit), now)
    {
      ghost var start, req := db.Snapshot(), CreateSubgroup(parentId, name, foldedName, handle, description, inherit);
      SettleGrouped(start, actor, req);
      var authCtx := db.NewAuthorizationContext(actor, parentId);
      if authCtx.None? {
        return 404;
      }
      if !authCtx.value.CanCreateSubgroups() {
        return 403;
      }
      if authCtx.value.group.archivedAt.Some? {
        return 409;
      }
      var trimmed := TrimSpace(name);
      if trimmed == "" {
        return 422;
      }
      var chosen := ChooseHandle(foldedName, handle);
      if chosen == "" {
        return 422;
      }
      var stored := if description == Some("") then None else description;
      var flags := if inherit then authCtx.value.group.flags else DEFAULT_FLAGS;
      var params := S.GroupParams(trimmed, chosen, stored, Some(parentId), actor, flags);
      SubgroupIsReady(start, actor, req, authCtx.value.group, params);
      ghost var r;
      status, r := CreateInTransaction(actor, params, now);
    }

    method UpdateInTransaction(actor: Id, groupId: Id, patch: S.GroupPatch, now: Time) returns (r: S.Result)
      modifies db
      ensures (db.Snapshot(), r) == S.Exec(old(db.Snapshot()), actor, now, S.TxUpdateGroup(groupId, patch))
    {
      var saved := db.Begin(actor);
      r := db.UpdateGroup(now, groupId, patch);
      db.End(saved, r);
    }

    /** Goes on to count members and admins for the answer once the transaction is through. */
    method HandleUpdateGroup(actor: Id, groupId: Id, newName: Option<string>, newDescription: Option<string>,
                             flags: FlagPatch, now: Time)
      returns (status: int, memberCount: nat, adminCount: nat)
      requires Usable(db.Snapshot())
      modifies db
      ensures (db.Snapshot(), status)
           == Serve(old(db.Snapshot()), actor, UpdateGroup(groupId, newName, newDescription, flags), now)
      ensures var f := Finish(old(db.Snapshot()), actor, UpdateGroup(groupId, newName, newDescription, flags), now).1;
              f.counts == if status == 200 then Some(Counts(memberCount, adminCount)) else None
      ensures status == 200 ==>
                memberCount == S.MemberCount(db.members, groupId) && adminCount == S.AdminCount(db.members, groupId)
    {
      ghost var start, req := db.Snapshot(), UpdateGroup(groupId, newName, newDescription, flags);
      SettleGrouped(start, actor, req);
      var authCtx := db.NewAuthorizationContext(actor, groupId);
      if authCtx.None? {
        return 404, 0, 0;
      }
      if !authCtx.value.CanUpdateGroup() {
        return 403, 0, 0;
      }
      if authCtx.value.group.archivedAt.Some? {
        return 409, 0, 0;
      }
      var patch := S.GroupPatch(None, newDescription, flags);
      if newName.Some? {
        var trimmed := TrimSpace(newName.value);
        if trimmed == "" {
          return 422, 0, 0;
        }
        patch := patch.(name := Some(trimmed));
      }
      var r := UpdateInTransaction(actor, groupId, patch, now);
      if r.Failed? {
        return 500, 0, 0;
      }
      memberCount := db.CountGroupMembers(groupId);
      adminCount := db.CountGroupAdmins(groupId);
      SettleUpdated(db.Snapshot(), actor, req);
      status := 200;
    }

    /** handleArchiveGroup and handleUnarchiveGroup. */
    method HandleSetArchived(actor: Id, groupId: Id, archived: bool, now: Time) returns (status: int)
      requires Usable(db.Snapshot())
      modifies db
      ensures (db.Snapshot(), status)
           == Serve(old(db.Snapshot()), actor, if archived then ArchiveGroup(groupId) else UnarchiveGroup(groupId), now)
    {
      ghost var start, req := db.Snapshot(), if archived then ArchiveGroup(groupId) else UnarchiveGroup(groupId);
      SettleGrouped(start, actor, req);
      var authCtx := db.NewAuthorizationContext(actor, groupId);
      if authCtx.None? {
        return 404;
      }
      if !authCtx.value.CanArchiveGroup() {
        return 403;
      }
      var saved := db.Begin(actor);
      var r := db.SetArchived(now, groupId, archived);
      db.End(saved, r);
      if r.Failed? {
        return 500;
      }
      return 200;
    }
  }
}

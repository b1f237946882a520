/** Exactly when a request served on its own succeeds, and exactly what it then changes. */
module Outcomes {
  import opened Wrappers
  import opened Text
  import opened Handles
  import opened UniqueHandles
  import opened Rows
  import opened Statements
  import opened Authorization
  import opened Protocol
  import opened Invariant
  import opened Safety
  import opened Sequential
  import opened Handlers

  /** The context a handler builds says precisely what the memberships say. */
  lemma ContextIsExact(db: Db, userId: Id, groupId: Id)
    requires Inv(db) && groupId in db.groups
    ensures var ac := NewAuthContext(userId, db.groups[groupId], FindMembership(db.members, groupId, userId));
            (ac.isAdmin <==> IsAdmin(db, userId, groupId)) && (ac.isMember <==> IsMember(db, userId, groupId))
  {
    if IsMember(db, userId, groupId) {
      var id :| id in db.members && db.members[id].groupId == groupId && db.members[id].userId == userId &&
                db.members[id].acceptedAt.Some?;
      FindsMembership(db.members, id);
    }
    if IsAdmin(db, userId, groupId) { AdminsAreMembers(db, userId, groupId); }
  }

  lemma ManagedIs(db: Db, actor: Id, req: Request)
    requires Inv(db) && ManagesMember(req)
    ensures var f := Settle(db, Started(actor, req));
            if MayManage(db, actor, req.memberId) then
              var d := DecideMember(actor, req, db.members[req.memberId]);
              f == if d.NeedCount? then Read(db, d) else d
            else
              f == Done(if req.memberId !in db.members then 404
                        else if !IsAdmin(db, actor, db.members[req.memberId].groupId) then 403
                        else 409)
  {
    SettleManaged(db, actor, req);
    if req.memberId in db.members {
      assert MemberOk(db, req.memberId);
      var g := db.members[req.memberId].groupId;
      assert GroupOk(db, g);
      ContextIsExact(db, actor, g);
    }
  }

  /** 404 for a membership that is not there, 403 for one in a group the actor is no admin of, and
      otherwise nothing but success or 409. */
  ghost predicate IsManagingStatus(db: Db, actor: Id, id: Id, status: int)
  {
    && (status == 404 <==> id !in db.members)
    && (status == 403 <==> id in db.members && !IsAdmin(db, actor, db.members[id].groupId))
    && status in {200, 204, 403, 404, 409}
  }

  /** Promotion succeeds exactly for an admin of an open group on a row that is not admin yet, and
      changes that row's role only. */
  lemma PromoteOutcome(db: Db, actor: Id, id: Id, now: Time)
    requires Inv(db)
    ensures var (v, status) := Serve(db, actor, PromoteMember(id), now);
            && (status == 200 <==> MayManage(db, actor, id) && db.members[id].role == MEMBER)
            && (status == 200 ==>
                  v.members == db.members[id := db.members[id].(role := ADMIN, updatedAt := now)] &&
                  v.groups == db.groups)
            && (status != 200 ==> v == db)
            && IsManagingStatus(db, actor, id, status)
            && (status == 409 <==>
                  id in db.members && IsAdmin(db, actor, db.members[id].groupId) &&
                  (!IsOpen(db, db.members[id].groupId) || db.members[id].role == "admin"))
  {
    ManagedIs(db, actor, PromoteMember(id));
    if id in db.members { assert MemberOk(db, id); }
  }

  /** Demotion also needs a second active admin, whether or not the target is active itself. */
  lemma DemoteOutcome(db: Db, actor: Id, id: Id, now: Time)
    requires Inv(db)
    ensures var (v, status) := Serve(db, actor, DemoteMember(id), now);
            && (status == 200 <==>
                  MayManage(db, actor, id) && db.members[id].role == ADMIN &&
                  AdminCount(db.members, db.members[id].groupId) > 1)
            && (status == 200 ==>
                  v.members == db.members[id := db.members[id].(role := MEMBER, updatedAt := now)] &&
                  v.groups == db.groups)
            && (status != 200 ==> v == db)
            && IsManagingStatus(db, actor, id, status)
            && (status == 409 <==>
                  id in db.members && IsAdmin(db, actor, db.members[id].groupId) &&
                  (!IsOpen(db, db.members[id].groupId) || db.members[id].role == "member" ||
                   AdminCount(db.members, db.members[id].groupId) <= 1))
  {
    ManagedIs(db, actor, DemoteMember(id));
    if id in db.members {
      assert MemberOk(db, id);
      var g := db.members[id].groupId;
      if AdminCount(db.members, g) > 1 { TwoAdminsLeaveOne(db.members, g, id); }
    }
  }

  lemma RemoveOutcome(db: Db, actor: Id, id: Id, now: Time)
    requires Inv(db)
    ensures var (v, status) := Serve(db, actor, RemoveMember(id), now);
            && (status == 204 <==>
                  MayManage(db, actor, id) &&
                  (db.members[id].role == ADMIN ==> AdminCount(db.members, db.members[id].groupId) > 1))
            && (status == 204 ==> v.members == db.members - {id} && v.groups == db.groups)
            && (status != 204 ==> v == db)
            && IsManagingStatus(db, actor, id, status)
            && (status == 409 <==>
                  id in db.members && IsAdmin(db, actor, db.members[id].groupId) &&
                  (!IsOpen(db, db.members[id].groupId) ||
                   (db.members[id].role == "admin" && AdminCount(db.members, db.members[id].groupId) <= 1)))
  {
    ManagedIs(db, actor, RemoveMember(id));
    if id in db.members {
      assert MemberOk(db, id);
      var g := db.members[id].groupId;
      if AdminCount(db.members, g) > 1 { TwoAdminsLeaveOne(db.members, g, id); }
    }
  }

  /** Only the invited user accepts, and only once; the group need not be open. */
  lemma AcceptOutcome(db: Db, actor: Id, id: Id, now: Time)
    requires Inv(db)
    ensures var (v, status) := Serve(db, actor, AcceptInvitation(id), now);
            && (status == 200 <==>
                  id in db.members && db.members[id].userId == actor && db.members[id].acceptedAt.None?)
            && (status == 200 ==>
                  v.members == db.members[id := db.members[id].(acceptedAt := Some(now), updatedAt := now)] &&
                  v.groups == db.groups)
            && (status != 200 ==> v == db)
            && (status == 404 <==> id !in db.members)
            && (status == 403 <==> id in db.members && db.members[id].userId != actor)
            && (status == 409 <==>
                  id in db.members && db.members[id].userId == actor && db.members[id].acceptedAt.Some?)
            && status in {200, 403, 404, 409}
  {
    var req := AcceptInvitation(id);
    SettleAccept(db, actor, req);
    if id in db.members { assert MemberOk(db, id); }
  }

  /** The role an invitation asks for; none given means member. */
  function AskedRole(role: string): string { if role == "" then MEMBER else role }

  ghost predicate MayInvite(db: Db, actor: Id, groupId: Id, userId: Id, role: string)
  {
    && MayInviteTo(db, actor, groupId, role)
    && userId in db.users && RoleIsValid(AskedRole(role)) && !PairTaken(db.members, groupId, userId)
  }

  lemma MembersAreUsers(db: Db, userId: Id, groupId: Id)
    requires RowsOk(db) && IsMember(db, userId, groupId)
    ensures userId in db.users
  {
    var id :| id in db.members && db.members[id].groupId == groupId && db.members[id].userId == userId;
    assert MemberOk(db, id);
  }

  /** Admins invite, and members of a group that lets them. */
  ghost predicate HasInvitingRights(db: Db, actor: Id, groupId: Id)
  {
    groupId in db.groups &&
    (IsAdmin(db, actor, groupId) || (IsMember(db, actor, groupId) && db.groups[groupId].flags.membersCanAddMembers))
  }

  lemma InviteIs(db: Db, actor: Id, req: Request)
    requires Inv(db) && req.InviteMember?
    ensures var f := Settle(db, Started(actor, req));
            f == if req.groupId !in db.groups then Done(404)
                 else if !HasInvitingRights(db, actor, req.groupId) then Done(403)
                 else if !IsOpen(db, req.groupId) then Done(409)
                 else if !MayInviteTo(db, actor, req.groupId, req.role) then Done(403)
                 else if req.userId !in db.users then Done(404)
                 else Ready(actor, req, TxInvite(req.groupId, req.userId, AskedRole(req.role)))
  {
    SettleGrouped(db, actor, req);
    if req.groupId in db.groups {
      var group := db.groups[req.groupId];
      assert GroupOk(db, req.groupId);
      ContextIsExact(db, actor, req.groupId);
      var ac := NewAuthContext(actor, group, FindMembership(db.members, group.id, actor));
      assert ac.CanInviteMembers() <==> HasInvitingRights(db, actor, req.groupId);
      assert ac.isAdmin <==> IsAdmin(db, actor, req.groupId);
    }
  }

  lemma InviteExecutes(db: Db, actor: Id, now: Time, groupId: Id, userId: Id, role: string)
    requires Inv(db) && groupId in db.groups && actor in db.users && userId in db.users
    ensures var (v, r) := Exec(db, actor, now, TxInvite(groupId, userId, role));
            && (r.Ok? <==> RoleIsValid(role) && !PairTaken(db.members, groupId, userId))
            && (r.Ok? ==>
                  db.nextMember !in db.members && v.groups == db.groups &&
                  v.members == db.members[db.nextMember :=
                    Membership(db.nextMember, groupId, userId, role, actor, None, now, now)])
            && (r.Failed? ==>
                  v.groups == db.groups && v.members == db.members && v.log == db.log &&
                  r.fault == if RoleIsValid(role) then MembershipConflict else Violation)
  {
    IdsAreBelow(db);
  }

  /** Only admins hand out the admin role; a user is invited at most once; the new row is pending. Each
      refusal has its status. */
  lemma InviteOutcome(db: Db, actor: Id, groupId: Id, userId: Id, role: string, now: Time)
    requires Inv(db)
    ensures var (v, status) := Serve(db, actor, InviteMember(groupId, userId, role), now);
            && (status == 201 <==> MayInvite(db, actor, groupId, userId, role))
            && (status == 201 ==>
                  db.nextMember !in db.members && v.groups == db.groups &&
                  v.members == db.members[db.nextMember :=
                    Membership(db.nextMember, groupId, userId, AskedRole(role), actor, None, now, now)])
            && (status != 201 ==> v.groups == db.groups && v.members == db.members && v.log == db.log)
            && var admitted := MayInviteTo(db, actor, groupId, role) && userId in db.users;
               var known := role in {"", "admin", "member"};
               && (status == 404 <==>
                     groupId !in db.groups || (MayInviteTo(db, actor, groupId, role) && userId !in db.users))
               && (status == 403 <==>
                     groupId in db.groups &&
                     (!HasInvitingRights(db, actor, groupId) ||
                      (IsOpen(db, groupId) && role == "admin" && !IsAdmin(db, actor, groupId))))
               && (status == 409 <==>
                     || (HasInvitingRights(db, actor, groupId) && !IsOpen(db, groupId))
                     || (admitted && known && PairTaken(db.members, groupId, userId)))
               && (status == 500 <==> admitted && !known)
               && status in {201, 403, 404, 409, 500}
  {
    var req := InviteMember(groupId, userId, role);
    InviteIs(db, actor, req);
    if MayInviteTo(db, actor, groupId, role) && userId in db.users {
      if IsAdmin(db, actor, groupId) { AdminsAreMembers(db, actor, groupId); }
      MembersAreUsers(db, actor, groupId);
      InviteExecutes(db, actor, now, groupId, userId, AskedRole(role));
    }
  }

  /** Archiving and unarchiving need an admin and nothing else; archiving an archived group succeeds
      and moves its time stamp. */
  lemma ArchiveOutcome(db: Db, actor: Id, groupId: Id, archived: bool, now: Time)
    requires Inv(db)
    ensures var req := if archived then ArchiveGroup(groupId) else UnarchiveGroup(groupId);
            var (v, status) := Serve(db, actor, req, now);
            && (status == 200 <==> groupId in db.groups && IsAdmin(db, actor, groupId))
            && (status == 200 ==>
                  v.members == db.members &&
                  v.groups == db.groups[groupId :=
                    db.groups[groupId].(archivedAt := if archived then Some(now) else None, updatedAt := now)])
            && (status != 200 ==> v == db)
            && (status == 404 <==> groupId !in db.groups)
            && (status == 403 <==> groupId in db.groups && !IsAdmin(db, actor, groupId))
            && status in {200, 403, 404}
  {
    var req := if archived then ArchiveGroup(groupId) else UnarchiveGroup(groupId);
    SettleGrouped(db, actor, req);
    if groupId in db.groups {
      assert GroupOk(db, groupId);
      ContextIsExact(db, actor, groupId);
    }
  }

  /** A patch that names every flag sets exactly those flags, one that names none keeps them all. */
  function NamingAll(f: Flags): FlagPatch
  {
    FlagPatch(Some(f.membersCanAddMembers), Some(f.membersCanAddGuests), Some(f.membersCanStartDiscussions),
              Some(f.membersCanRaiseMotions), Some(f.membersCanEditDiscussions), Some(f.membersCanEditComments),
              Some(f.membersCanDeleteComments), Some(f.membersCanAnnounce), Some(f.membersCanCreateSubgroups),
              Some(f.adminsCanEditUserContent), Some(f.parentMembersCanSeeDiscussions))
  }

  const NAMING_NONE := FlagPatch(None, None, None, None, None, None, None, None, None, None, None)

  lemma FlagPatches(f: Flags, g: Flags)
    ensures PatchFlags(NamingAll(f), g) == f
    ensures PatchFlags(NAMING_NONE, g) == g
  {
  }

  function Trimmed(name: Option<string>): Option<string>
  {
    if name.Some? then Some(TrimSpace(name.value)) else None
  }

  /** A patched group differs in nothing but what the patch names and its time stamp. */
  lemma PatchedGroup(g: Group, p: GroupPatch, now: Time)
    ensures var h := PatchGroup(g, p, now);
            && (p.name.Some? ==> h.name == p.name.value) && (p.name.None? ==> h.name == g.name)
            && (p.description.Some? ==> h.description == p.description)
            && (p.description.None? ==> h.description == g.description)
            && (p.flags == NAMING_NONE ==> h.flags == g.flags)
            && (forall f: Flags :: p.flags == NamingAll(f) ==> h.flags == f)
            && h == g.(name := h.name, description := h.description, flags := h.flags, updatedAt := now)
  {
  }

  lemma UpdateIs(db: Db, actor: Id, req: Request)
    requires Inv(db) && req.UpdateGroup?
    ensures var f := Settle(db, Started(actor, req));
            var patch := GroupPatch(Trimmed(req.newName), req.newDescription, req.flags);
            if IsOpen(db, req.groupId) && IsAdmin(db, actor, req.groupId) && patch.name != Some("") then
              f == Ready(actor, req, TxUpdateGroup(req.groupId, patch))
            else
              f == Done(if req.groupId !in db.groups then 404
                        else if !IsAdmin(db, actor, req.groupId) then 403
                        else if !IsOpen(db, req.groupId) then 409
                        else 422)
  {
    SettleGrouped(db, actor, req);
    if req.groupId in db.groups {
      assert GroupOk(db, req.groupId);
      ContextIsExact(db, actor, req.groupId);
    }
  }

  lemma UpdateExecutes(db: Db, actor: Id, now: Time, id: Id, patch: GroupPatch)
    requires Inv(db) && id in db.groups
    ensures var (v, r) := Exec(db, actor, now, TxUpdateGroup(id, patch));
            && (r.Ok? <==> patch.name.Some? ==> 1 <= |patch.name.value| <= 255)
            && (r.Ok? ==> v.members == db.members && v.groups == db.groups[id := PatchGroup(db.groups[id], patch, now)])
            && (r.Failed? ==> v == db && r.fault == Violation)
  {
    assert GroupOk(db, id);
  }

  /** Settings change exactly for an admin of an open group, under a name that is not blank or too long. */
  lemma UpdateOutcome(db: Db, actor: Id, groupId: Id, name: Option<string>, description: Option<string>,
                      flags: FlagPatch, now: Time)
    requires Inv(db)
    ensures var (v, status) := Serve(db, actor, UpdateGroup(groupId, name, description, flags), now);
            var patch := GroupPatch(Trimmed(name), description, flags);
            && (status == 200 <==>
                  IsOpen(db, groupId) && IsAdmin(db, actor, groupId) &&
                  (name.Some? ==> 1 <= |TrimSpace(name.value)| <= 255))
            && (status == 200 ==>
                  v.members == db.members &&
                  v.groups == db.groups[groupId := PatchGroup(db.groups[groupId], patch, now)])
            && (status != 200 ==> v == db)
            && (status == 404 <==> groupId !in db.groups)
            && (status == 403 <==> groupId in db.groups && !IsAdmin(db, actor, groupId))
            && (status == 409 <==> groupId in db.groups && IsAdmin(db, actor, groupId) && !IsOpen(db, groupId))
            && (status == 422 <==>
                  IsOpen(db, groupId) && IsAdmin(db, actor, groupId) && name.Some? && TrimSpace(name.value) == "")
            && (status == 500 <==>
                  IsOpen(db, groupId) && IsAdmin(db, actor, groupId) && name.Some? && |TrimSpace(name.value)| > 255)
            && status in {200, 403, 404, 409, 422, 500}
  {
    var req := UpdateGroup(groupId, name, description, flags);
    UpdateIs(db, actor, req);
    var f := Settle(db, Started(actor, req));
    if f.Ready? {
      UpdateExecutes(db, actor, now, groupId, f.tx.patch);
      SettleUpdated(Commit(db, f, now).0, actor, req);
    }
  }

  /** Column by column: what the patch names is stored, the name trimmed; every other column, row and
      membership stays. */
  lemma UpdateStores(db: Db, actor: Id, groupId: Id, name: Option<string>, trimmed: string,
                     description: Option<string>, p: FlagPatch, now: Time)
    requires Inv(db) && Serve(db, actor, UpdateGroup(groupId, name, description, p), now).1 == 200
    requires name.Some? ==> IsTrimOf(name.value, trimmed)
    ensures var v := Serve(db, actor, UpdateGroup(groupId, name, description, p), now).0;
            && v.members == db.members && v.groups.Keys == db.groups.Keys && groupId in db.groups
            && (forall id | id in db.groups && id != groupId :: v.groups[id] == db.groups[id])
            && var g, h := db.groups[groupId], v.groups[groupId];
               && h.name == (if name.Some? then trimmed else g.name)
               && h.description == (if description.Some? then description else g.description)
               && h.id == g.id && h.handle == g.handle && h.parentId == g.parentId && h.createdById == g.createdById
               && h.archivedAt == g.archivedAt && h.createdAt == g.createdAt && h.updatedAt == now
    ensures var g, h := db.groups[groupId].flags,
                        Serve(db, actor, UpdateGroup(groupId, name, description, p), now).0.groups[groupId].flags;
            && h.membersCanAddMembers == (if p.membersCanAddMembers.Some? then p.membersCanAddMembers.value
                                          else g.membersCanAddMembers)
            && h.membersCanAddGuests == (if p.membersCanAddGuests.Some? then p.membersCanAddGuests.value
                                         else g.membersCanAddGuests)
            && h.membersCanStartDiscussions == (if p.membersCanStartDiscussions.Some?
                                                then p.membersCanStartDiscussions.value
                                                else g.membersCanStartDiscussions)
            && h.membersCanRaiseMotions == (if p.membersCanRaiseMotions.Some? then p.membersCanRaiseMotions.value
                                            else g.membersCanRaiseMotions)
            && h.membersCanEditDiscussions == (if p.membersCanEditDiscussions.Some?
                                               then p.membersCanEditDiscussions.value
                                               else g.membersCanEditDiscussions)
            && h.membersCanEditComments == (if p.membersCanEditComments.Some? then p.membersCanEditComments.value
                                            else g.membersCanEditComments)
            && h.membersCanDeleteComments == (if p.membersCanDeleteComments.Some?
                                              then p.membersCanDeleteComments.value
                                              else g.membersCanDeleteComments)
            && h.membersCanAnnounce == (if p.membersCanAnnounce.Some? then p.membersCanAnnounce.value
                                        else g.membersCanAnnounce)
            && h.membersCanCreateSubgroups == (if p.membersCanCreateSubgroups.Some?
                                               then p.membersCanCreateSubgroups.value
                                               else g.membersCanCreateSubgroups)
            && h.adminsCanEditUserContent == (if p.adminsCanEditUserContent.Some?
                                              then p.adminsCanEditUserContent.value
                                              else g.adminsCanEditUserContent)
            && h.parentMembersCanSeeDiscussions == (if p.parentMembersCanSeeDiscussions.Some?
                                                    then p.parentMembersCanSeeDiscussions.value
                                                    else g.parentMembersCanSeeDiscussions)
  {
    UpdateOutcome(db, actor, groupId, name, description, p, now);
    if name.Some? { TrimSpaceIs(name.value, trimmed); }
    assert GroupOk(db, groupId);
  }

  /** An update that will succeed comes out of its transaction with the counting still to do. */
  lemma UpdateCommits(db: Db, actor: Id, req: Request, now: Time)
    requires Inv(db) && req.UpdateGroup? && IsOpen(db, req.groupId) && IsAdmin(db, actor, req.groupId)
    requires req.newName.Some? ==> 1 <= |TrimSpace(req.newName.value)| <= 255
    ensures var f := Settle(db, Started(actor, req));
            f.Ready? && Commit(db, f, now) == (Serve(db, actor, req, now).0, Updated(actor, req))
  {
    UpdateIs(db, actor, req);
    UpdateExecutes(db, actor, now, req.groupId, Settle(db, Started(actor, req)).tx.patch);
  }

  // ---------------------------------------------------------------- creation

  /** The creator's own membership: admin, invited by nobody else, accepted from the start. */
  function Founder(id: Id, groupId: Id, userId: Id, now: Time): Membership
  {
    Membership(id, groupId, userId, ADMIN, userId, Some(now), now, now)
  }

  lemma CreatedGroup(db: Db, actor: Id, now: Time, p: GroupParams)
    requires Inv(db) && TxOk(actor, TxCreateGroup(p))
    ensures var (v, r) := Exec(db, actor, now, TxCreateGroup(p));
            var id := db.nextGroup;
            r.Ok? ==>
              && id !in db.groups && v.groups == db.groups[id := NewGroup(id, p, now)]
              && db.nextMember !in db.members
              && v.members == db.members[db.nextMember := Founder(db.nextMember, id, actor, now)]
              && MemberCount(v.members, id) == AdminCount(v.members, id) == 1 && IsAdmin(v, actor, id)
  {
    IdsAreBelow(db);
    var (v, r) := Exec(db, actor, now, TxCreateGroup(p));
    var id, m := db.nextGroup, db.nextMember;
    if r.Ok? {
      forall k | k in db.members ensures db.members[k].groupId != id { assert MemberOk(db, k); }
      assert ActiveMembers(v.members, id) == {m};
      assert ActiveAdmins(v.members, id) == {m};
    }
  }

  lemma CreationSucceedsIff(db: Db, actor: Id, now: Time, p: GroupParams)
    requires Inv(db) && TxOk(actor, TxCreateGroup(p)) && (p.parentId.Some? ==> p.parentId.value in db.groups)
    ensures Exec(db, actor, now, TxCreateGroup(p)).1.Ok? <==>
              actor in db.users && 1 <= |p.name| <= 255 && !HandleTaken(db.groups, p.handle)
    ensures Exec(db, actor, now, TxCreateGroup(p)).1 == Failed(HandleConflict) <==>
              1 <= |p.name| <= 255 && HandleTaken(db.groups, p.handle)
  {
    IdsAreBelow(db);
    LowerKeepsHandles(p.handle);
    forall id | id in db.members ensures db.members[id].groupId != db.nextGroup { assert MemberOk(db, id); }
  }

  /** The part of a creation that the request itself decides. */
  ghost predicate MayCreate(db: Db, actor: Id, name: string, handle: string)
  {
    actor in db.users && 1 <= |TrimSpace(name)| <= 255 && handle != "" && !HandleTaken(db.groups, handle)
  }

  function Described(description: Option<string>): Option<string>
  {
    if description == Some("") then None else description
  }

  lemma CreationGetsReady(db: Db, actor: Id, req: Request)
    requires Inv(db) && (req.CreateGroup? || req.CreateSubgroup?)
    requires Settle(db, Started(actor, req)).Ready?
    ensures var f := Settle(db, Started(actor, req));
            && f.actor == actor && f.req == req && f.tx.TxCreateGroup? && TxOk(actor, f.tx)
            && (f.tx.params.parentId.Some? ==> f.tx.params.parentId.value in db.groups)
  {
    if req.CreateGroup? { SettleCreate(db, actor, req); } else { SettleGrouped(db, actor, req); }
    ServedIsAuthorised(db, actor, req);
  }

  lemma RefusedCreation(db: Db, actor: Id, now: Time, p: GroupParams)
    ensures var (v, r) := Exec(db, actor, now, TxCreateGroup(p));
            r.Failed? ==> v.groups == db.groups && v.members == db.members && v.log == db.log
  {
  }

  /** What serving a creation that got to its transaction amounts to. */
  lemma CreationServed(db: Db, actor: Id, req: Request, now: Time)
    requires Inv(db) && (req.CreateGroup? || req.CreateSubgroup?)
    requires Settle(db, Started(actor, req)).Ready?
    ensures Settle(db, Started(actor, req)).tx.TxCreateGroup?
    ensures var (v, status) := Serve(db, actor, req, now);
            var p, id := Settle(db, Started(actor, req)).tx.params, db.nextGroup;
            && (status == 201 <==> actor in db.users && 1 <= |p.name| <= 255 && !HandleTaken(db.groups, p.handle))
            && (status == 201 ==>
                  && v.groups == db.groups[id := NewGroup(id, p, now)]
                  && v.members == db.members[db.nextMember := Founder(db.nextMember, id, actor, now)]
                  && MemberCount(v.members, id) == AdminCount(v.members, id) == 1 && IsAdmin(v, actor, id))
            && (status != 201 ==> v.groups == db.groups && v.members == db.members && v.log == db.log)
            && (status == 409 <==> 1 <= |p.name| <= 255 && HandleTaken(db.groups, p.handle))
            && status in {201, 409, 500}
  {
    CreationGetsReady(db, actor, req);
    var p := Settle(db, Started(actor, req)).tx.params;
    CreationSucceedsIff(db, actor, now, p);
    CreatedGroup(db, actor, now, p);
    RefusedCreation(db, actor, now, p);
  }

  /** A group is created exactly for a signed-up user with a usable name and a handle that is well
      formed, or could be generated, and free; the row says what was asked for. */
  lemma CreateOutcome(db: Db, actor: Id, name: string, foldedName: string, handle: string,
                      description: Option<string>, now: Time)
    requires Inv(db)
    ensures var (v, status) := Serve(db, actor, CreateGroup(name, foldedName, handle, description), now);
            var chosen, id := ResolveHandle(db.groups, foldedName, handle), db.nextGroup;
            && (status == 201 <==> MayCreate(db, actor, name, chosen))
            && (status == 201 ==>
                  && v.groups == db.groups[id :=
                       Group(id, TrimSpace(name), chosen, Described(description), None, actor, None,
                             DEFAULT_FLAGS, now, now)]
                  && v.members == db.members[db.nextMember := Founder(db.nextMember, id, actor, now)]
                  && MemberCount(v.members, id) == AdminCount(v.members, id) == 1 && IsAdmin(v, actor, id))
            && (status != 201 ==> v.groups == db.groups && v.members == db.members && v.log == db.log)
            && (status == 422 <==> TrimSpace(name) == "" || chosen == "")
            && (status == 409 <==> 1 <= |TrimSpace(name)| <= 255 && chosen != "" && HandleTaken(db.groups, chosen))
            && status in {201, 409, 422, 500}
  {
    var req := CreateGroup(name, foldedName, handle, description);
    SettleCreate(db, actor, req);
    if Settle(db, Started(actor, req)).Ready? { CreationServed(db, actor, req, now); }
  }

  /** Admins create subgroups, and members of a group that lets them. */
  ghost predicate HasSubgroupRights(db: Db, actor: Id, parentId: Id)
  {
    parentId in db.groups &&
    (IsAdmin(db, actor, parentId) ||
     (IsMember(db, actor, parentId) && db.groups[parentId].flags.membersCanCreateSubgroups))
  }

  /** The handle a creation asks for: the requested one if any, which must be well formed, else the first
      free candidate from the name. */
  ghost predicate Asks(db: Db, foldedName: string, requested: string, chosen: string)
  {
    if requested == "" then chosen != "" && chosen == UniqueHandle(foldedName, TakenHandles(db.groups))
    else chosen == requested && IsValidHandle(requested)
  }

  lemma AskedIsResolved(db: Db, foldedName: string, handle: string, requested: string, chosen: string)
    requires IsTrimOf(handle, requested)
    ensures Asks(db, foldedName, requested, chosen) <==>
              chosen == ResolveHandle(db.groups, foldedName, handle) && chosen != ""
  {
    TrimSpaceIs(handle, requested);
  }

  /** The same by what is given and what is stored: name and handle go in without the white space around
      them, and a handle that is all white space counts as none. */
  lemma CreateStores(db: Db, actor: Id, name: string, trimmed: string, foldedName: string,
                     handle: string, requested: string, chosen: string, description: Option<string>, now: Time)
    requires Inv(db) && IsTrimOf(name, trimmed) && IsTrimOf(handle, requested)
    requires Asks(db, foldedName, requested, chosen)
    ensures var (v, status) := Serve(db, actor, CreateGroup(name, foldedName, handle, description), now);
            && (status == 201 <==> actor in db.users && 1 <= |trimmed| <= 255 && !HandleTaken(db.groups, chosen))
            && (status == 201 ==>
                  v.groups == db.groups[db.nextGroup :=
                    Group(db.nextGroup, trimmed, chosen, if description == Some("") then None else description,
                          None, actor, None, DEFAULT_FLAGS, now, now)])
            && (status == 422 <==> trimmed == "")
  {
    CreateOutcome(db, actor, name, foldedName, handle, description, now);
    TrimSpaceIs(name, trimmed);
    AskedIsResolved(db, foldedName, handle, requested, chosen);
  }

  /** Without a usable handle a creation is refused with 422. */
  lemma CreateRefuses(db: Db, actor: Id, name: string, foldedName: string,
                      handle: string, requested: string, description: Option<string>, now: Time)
    requires Inv(db) && IsTrimOf(handle, requested)
    requires forall h :: !Asks(db, foldedName, requested, h)
    ensures Serve(db, actor, CreateGroup(name, foldedName, handle, description), now).1 == 422
  {
    CreateOutcome(db, actor, name, foldedName, handle, description, now);
    AskedIsResolved(db, foldedName, handle, requested, ResolveHandle(db.groups, foldedName, handle));
  }

  lemma SubgroupIs(db: Db, actor: Id, req: Request)
    requires Inv(db) && req.CreateSubgroup?
    ensures var f := Settle(db, Started(actor, req));
            var chosen := ResolveHandle(db.groups, req.foldedName, req.handle);
            if MayHangUnder(db, actor, req.parentId) && TrimSpace(req.name) != "" && chosen != "" then
              f == Ready(actor, req, TxCreateGroup(CreateParams(actor, req, Some(db.groups[req.parentId]), chosen)))
            else
              f == Done(if req.parentId !in db.groups then 404
                        else if !HasSubgroupRights(db, actor, req.parentId) then 403
                        else if !IsOpen(db, req.parentId) then 409
                        else 422)
  {
    SettleGrouped(db, actor, req);
    if req.parentId in db.groups {
      var group := db.groups[req.parentId];
      assert GroupOk(db, req.parentId);
      ContextIsExact(db, actor, req.parentId);
      var ac := NewAuthContext(actor, group, FindMembership(db.members, group.id, actor));
      assert ac.CanCreateSubgroups() <==> HasSubgroupRights(db, actor, req.parentId);
    }
  }

  /** A new group has its creator as its one member and admin; a subgroup hangs under its parent and
      takes over the parent's flags when asked to, the defaults otherwise. */
  lemma SubgroupOutcome(db: Db, actor: Id, parentId: Id, name: string, foldedName: string, handle: string,
                        description: Option<string>, inherit: bool, now: Time)
    requires Inv(db)
    ensures var req := CreateSubgroup(parentId, name, foldedName, handle, description, inherit);
            var (v, status) := Serve(db, actor, req, now);
            var chosen, id := ResolveHandle(db.groups, foldedName, handle), db.nextGroup;
            && (status == 201 <==> MayHangUnder(db, actor, parentId) && MayCreate(db, actor, name, chosen))
            && (status == 201 ==>
                  && v.groups == db.groups[id :=
                       Group(id, TrimSpace(name), chosen, Described(description), Some(parentId), actor, None,
                             if inherit then db.groups[parentId].flags else DEFAULT_FLAGS, now, now)]
                  && v.members == db.members[db.nextMember := Founder(db.nextMember, id, actor, now)]
                  && MemberCount(v.members, id) == AdminCount(v.members, id) == 1 && IsAdmin(v, actor, id))
            && (status != 201 ==> v.groups == db.groups && v.members == db.members && v.log == db.log)
            && var usable := 1 <= |TrimSpace(name)| <= 255 && chosen != "";
               && (status == 404 <==> parentId !in db.groups)
               && (status == 403 <==> parentId in db.groups && !HasSubgroupRights(db, actor, parentId))
               && (status == 409 <==>
                     || (HasSubgroupRights(db, actor, parentId) && !IsOpen(db, parentId))
                     || (MayHangUnder(db, actor, parentId) && usable && HandleTaken(db.groups, chosen)))
               && (status == 422 <==> MayHangUnder(db, actor, parentId) && (TrimSpace(name) == "" || chosen == ""))
               && status in {201, 403, 404, 409, 422, 500}
  {
    var req := CreateSubgroup(parentId, name, foldedName, handle, description, inherit);
    SubgroupIs(db, actor, req);
    if Settle(db, Started(actor, req)).Ready? {
      CreationServed(db, actor, req, now);
    } else {
      assert Serve(db, actor, req, now) == (db, Settle(db, Started(actor, req)).status);
    }
  }

  lemma SubgroupStores(db: Db, actor: Id, parentId: Id, name: string, trimmed: string, foldedName: string,
                       handle: string, requested: string, chosen: string,
                       description: Option<string>, inherit: bool, now: Time)
    requires Inv(db) && IsTrimOf(name, trimmed) && IsTrimOf(handle, requested)
    requires Asks(db, foldedName, requested, chosen)
    ensures var req := CreateSubgroup(parentId, name, foldedName, handle, description, inherit);
            var (v, status) := Serve(db, actor, req, now);
            && (status == 201 <==>
                  MayHangUnder(db, actor, parentId) && 1 <= |trimmed| <= 255 && !HandleTaken(db.groups, chosen))
            && (status == 201 ==>
                  v.groups == db.groups[db.nextGroup :=
                    Group(db.nextGroup, trimmed, chosen, if description == Some("") then None else description,
                          Some(parentId), actor, None,
                          if inherit then db.groups[parentId].flags else DEFAULT_FLAGS, now, now)])
  {
    SubgroupOutcome(db, actor, parentId, name, foldedName, handle, description, inherit, now);
    TrimSpaceIs(name, trimmed);
    AskedIsResolved(db, foldedName, handle, requested, chosen);
    if MayHangUnder(db, actor, parentId) {
      if IsAdmin(db, actor, parentId) { AdminsAreMembers(db, actor, parentId); }
      MembersAreUsers(db, actor, parentId);
    }
  }

  /** End to end: with fewer than 1000 groups, a signed-up user who names a group usably and leaves the
      handle blank gets it created. */
  lemma BlankHandleSucceeds(db: Db, actor: Id, name: string, foldedName: string, handle: string,
                            description: Option<string>, now: Time)
    requires Inv(db) && actor in db.users && |db.groups| < 1000
    requires 1 <= |TrimSpace(name)| <= 255 && GenerateHandle(foldedName) != "" && TrimSpace(handle) == ""
    ensures Serve(db, actor, CreateGroup(name, foldedName, handle, description), now).1 == 201
  {
    var taken := TakenHandles(db.groups);
    TakenAreFew(db.groups);
    SearchIsComplete(foldedName, taken);
    UniqueHandleMeaning(foldedName, taken);
    var h := UniqueHandle(foldedName, taken);
    LowerKeepsHandles(h);
    forall id | id in db.groups ensures Lower(db.groups[id].handle) != Lower(h) {
      assert Lower(db.groups[id].handle) in taken;
    }
    CreateOutcome(db, actor, name, foldedName, handle, description, now);
  }

  lemma {:induction false} TakenAreFew(groups: Groups)
    ensures |TakenHandles(groups)| <= |groups|
    decreases |groups|
  {
    if groups == map[] {
      assert TakenHandles(groups) == {};
    } else {
      SomeElement(groups.Keys);
      var id :| id in groups;
      var rest := groups - {id};
      assert groups.Keys == rest.Keys + {id};
      TakenAreFew(rest);
      assert TakenHandles(groups) == TakenHandles(rest) + {Lower(groups[id].handle)};
    }
  }
}

/** The database as handlers meet it: rows updated in place, statements that set off the triggers, and
    transactions. Each method is held to its function in Statements. */
module Database {
  import opened Wrappers
  import opened Rows
  import opened Audit
  import S = Statements
  import opened Authorization
  import opened Invariant
  import opened Sequential

  /** What a transaction can be rolled back to. */
  datatype Saved = Saved(groups: Groups, members: Members, log: seq<Entry>)

  datatype ListingRow = ListingRow(group: Group, role: string, memberCount: nat, adminCount: nat)

  class Database {
    var users: set<Id>
    var groups: Groups
    var members: Members
    var log: seq<Entry>
    var nextGroup: Id
    var nextMember: Id
    var currentUser: Option<Id>    // app.current_user_id, set for one transaction

    ghost function Snapshot(): S.Db
      reads this
    {
      S.Db(users, groups, members, log, nextGroup, nextMember)
    }

    constructor ()
      ensures Snapshot() == S.Db({}, map[], map[], [], 1, 1) && currentUser == None
    {
      users, groups, members, log, nextGroup, nextMember, currentUser := {}, map[], map[], [], 1, 1, None;
    }

    // -------------------------------------------------------------- triggers

    /** audit.insert_update_delete_trigger */
    method RecordVersion(op: Op, table: Table, oldRow: Option<Row>, newRow: Option<Row>)
      modifies this`log
      ensures log == old(log) + [TriggerEntry(op, table, oldRow, newRow, currentUser)]
    {
      var record, oldRecord: Option<Row> := None, None;
      var recordId, oldRecordId: Option<Id> := None, None;
      if op != DELETE {
        record := newRow;
        if record.Some? { recordId := Some(RowId(record.value)); }
      }
      if op != INSERT {
        oldRecord := oldRow;
        if oldRecord.Some? { oldRecordId := Some(RowId(oldRecord.value)); }
      }
      log := log + [Entry(recordId, oldRecordId, op, table, record, oldRecord, currentUser)];
    }

    /** prevent_last_admin_removal; a deletion has no new row. */
    method PreventLastAdminRemoval(oldRow: Membership, newRow: Option<Membership>) returns (raised: bool)
      ensures raised == S.TriggerRaises(members, oldRow, newRow)
    {
      if (newRow.None? && oldRow.role == ADMIN && oldRow.acceptedAt.Some?) ||
         (newRow.Some? && oldRow.role == ADMIN && newRow.value.role != ADMIN && oldRow.acceptedAt.Some?) {
        var adminCount := 0;
        var rest := members.Keys;
        ghost var met: set<Id> := {};
        while rest != {}
          invariant rest <= members.Keys
          invariant met == S.ActiveAdmins(members, oldRow.groupId) - {oldRow.id} - rest
          invariant adminCount == |met|
        {
          SomeElement(rest);
          var id :| id in rest;
          rest := rest - {id};
          if members[id].groupId == oldRow.groupId && members[id].role == ADMIN && members[id].acceptedAt.Some? &&
             id != oldRow.id {
            adminCount := adminCount + 1;
            met := met + {id};
          }
        }
        if adminCount == 0 {
          return true;
        }
      }
      return false;
    }

    // -------------------------------------------------------------- queries

    /** CountGroupMembershipStats: members and admins of a group in one pass over the rows. */
    method CountGroupMembershipStats(groupId: Id) returns (memberCount: nat, adminCount: nat)
      ensures memberCount == S.MemberCount(members, groupId) && adminCount == S.AdminCount(members, groupId)
    {
      memberCount, adminCount := 0, 0;
      var rest := members.Keys;
      ghost var accepted: set<Id>, admins: set<Id> := {}, {};
      while rest != {}
        invariant rest <= members.Keys
        invariant accepted == S.ActiveMembers(members, groupId) - rest && memberCount == |accepted|
        invariant admins == S.ActiveAdmins(members, groupId) - rest && adminCount == |admins|
      {
        SomeElement(rest);
        var id :| id in rest;
        rest := rest - {id};
        if members[id].groupId == groupId && members[id].acceptedAt.Some? {
          memberCount := memberCount + 1;
          accepted := accepted + {id};
          if members[id].role == ADMIN {
            adminCount := adminCount + 1;
            admins := admins + {id};
          }
        }
      }
    }

    method CountGroupMembers(groupId: Id) returns (n: nat)
      ensures n == S.MemberCount(members, groupId)
    {
      n := 0;
      var rest := members.Keys;
      ghost var met: set<Id> := {};
      while rest != {}
        invariant rest <= members.Keys
        invariant met == S.ActiveMembers(members, groupId) - rest && n == |met|
      {
        SomeElement(rest);
        var id :| id in rest;
        rest := rest - {id};
        if members[id].groupId == groupId && members[id].acceptedAt.Some? {
          n := n + 1;
          met := met + {id};
        }
      }
    }

    /** The same query as CountAdminsByGroup under another name. */
    method CountGroupAdmins(groupId: Id) returns (n: nat)
      ensures n == S.AdminCount(members, groupId)
    {
      n := CountAdminsByGroup(groupId);
    }

    method CountAdminsByGroup(groupId: Id) returns (n: nat)
      ensures n == S.AdminCount(members, groupId)
    {
      n := 0;
      var rest := members.Keys;
      ghost var met: set<Id> := {};
      while rest != {}
        invariant rest <= members.Keys
        invariant met == S.ActiveAdmins(members, groupId) - rest && n == |met|
      {
        SomeElement(rest);
        var id :| id in rest;
        rest := rest - {id};
        if members[id].groupId == groupId && members[id].role == ADMIN && members[id].acceptedAt.Some? {
          n := n + 1;
          met := met + {id};
        }
      }
    }

    method GetMembershipByGroupAndUser(groupId: Id, userId: Id) returns (r: Option<Membership>)
      requires PairsDistinct(members)
      ensures r == FindMembership(members, groupId, userId)
    {
      var rest := members.Keys;
      while rest != {}
        invariant rest <= members.Keys
        invariant forall id | id in members && id !in rest ::
                    members[id].groupId != groupId || members[id].userId != userId
      {
        SomeElement(rest);
        var id :| id in rest;
        rest := rest - {id};
        if members[id].groupId == groupId && members[id].userId == userId {
          return Some(members[id]);
        }
      }
      return None;
    }

    /** NewAuthorizationContext: group first, then the user's membership in it. */
    method NewAuthorizationContext(userId: Id, groupId: Id) returns (r: Option<AuthContext>)
      requires PairsDistinct(members)
      ensures r.Some? <==> groupId in groups
      ensures r.Some? ==> r.value == NewAuthContext(userId, groups[groupId], FindMembership(members, groupId, userId))
    {
      if groupId !in groups {
        return None;
      }
      var found := GetMembershipByGroupAndUser(groupId, userId);
      var isMember, isAdmin := false, false;
      var membership: Option<Membership> := None;
      if found.Some? && found.value.acceptedAt.Some? {
        membership := found;
        isMember := true;
        isAdmin := found.value.role == ADMIN;
      }
      return Some(AuthContext(userId, membership, groups[groupId], isAdmin, isMember));
    }

    /** ListGroupsByUserWithCounts, in no particular order. */
    method ListGroupsByUserWithCounts(userId: Id, includeArchived: bool) returns (rows: seq<ListingRow>)
      requires Inv(Snapshot())
      ensures IsListing(userId, includeArchived, rows)
    {
      MembersHaveGroups();
      ghost var source;
      rows, source := JoinGroups(userId, includeArchived);
      ListingIsRight(userId, includeArchived, rows, source);
    }

    /** The join itself; source names the membership each row came from. */
    method JoinGroups(userId: Id, includeArchived: bool) returns (rows: seq<ListingRow>, ghost source: seq<Id>)
      requires forall m | m in members :: members[m].groupId in groups
      ensures |source| == |rows|
      ensures forall i | 0 <= i < |rows| :: IsJoined(userId, includeArchived, source[i], rows[i])
      ensures forall i, j | 0 <= i < j < |rows| :: source[i] != source[j]
      ensures forall m | IsListed(Snapshot(), userId, includeArchived, m) :: m in source
    {
      rows, source := [], [];
      var rest := members.Keys;
      while rest != {}
        invariant rest <= members.Keys && |source| == |rows|
        invariant forall i | 0 <= i < |rows| ::
                    IsJoined(userId, includeArchived, source[i], rows[i]) && source[i] !in rest
        invariant forall i, j | 0 <= i < j < |rows| :: source[i] != source[j]
        invariant forall m | m in members && m !in rest && IsListed(Snapshot(), userId, includeArchived, m) ::
                    m in source
      {
        SomeElement(rest);
        var m :| m in rest;
        rest := rest - {m};
        var groupId := members[m].groupId;
        if members[m].userId == userId && members[m].acceptedAt.Some? &&
           (includeArchived || groups[groupId].archivedAt.None?) {
          var memberCount, adminCount := CountGroupMembershipStats(groupId);
          rows := rows + [ListingRow(groups[groupId], members[m].role, memberCount, adminCount)];
          source := source + [m];
        }
      }
    }

    /** Each group the user is an active member of (open ones only, unless asked), once, with the user's
        role and the counts. */
    ghost predicate IsListing(userId: Id, includeArchived: bool, rows: seq<ListingRow>)
      reads this
    {
      && (forall i, j | 0 <= i < j < |rows| :: rows[i].group.id != rows[j].group.id)
      && (forall i | 0 <= i < |rows| ::
            var g := rows[i].group.id;
            && IsMember(Snapshot(), userId, g) && (includeArchived || S.IsOpen(Snapshot(), g))
            && g in groups && rows[i].group == groups[g]
            && (rows[i].role == ADMIN <==> IsAdmin(Snapshot(), userId, g))
            && rows[i].memberCount == S.MemberCount(members, g) && rows[i].adminCount == S.AdminCount(members, g))
      && (forall g | IsMember(Snapshot(), userId, g) && (includeArchived || S.IsOpen(Snapshot(), g)) ::
            exists i :: 0 <= i < |rows| && rows[i].group.id == g)
    }

    ghost predicate IsJoined(userId: Id, includeArchived: bool, m: Id, row: ListingRow)
      reads this
    {
      && IsListed(Snapshot(), userId, includeArchived, m)
      && var g := members[m].groupId;
         row == ListingRow(groups[g], members[m].role, S.MemberCount(members, g), S.AdminCount(members, g))
    }

    lemma MembersHaveGroups()
      requires Inv(Snapshot())
      ensures forall m | m in members :: members[m].groupId in groups
    {
      forall m | m in members ensures members[m].groupId in groups { assert MemberOk(Snapshot(), m); }
    }

    lemma ListingIsRight(userId: Id, includeArchived: bool, rows: seq<ListingRow>, source: seq<Id>)
      requires Inv(Snapshot()) && |source| == |rows|
      requires forall i | 0 <= i < |rows| :: IsJoined(userId, includeArchived, source[i], rows[i])
      requires forall i, j | 0 <= i < j < |rows| :: source[i] != source[j]
      requires forall m | IsListed(Snapshot(), userId, includeArchived, m) :: m in source
      ensures IsListing(userId, includeArchived, rows)
    {
      forall i | 0 <= i < |rows| ensures rows[i].group.id == members[source[i]].groupId {
        assert IsJoined(userId, includeArchived, source[i], rows[i]);
        assert GroupOk(Snapshot(), members[source[i]].groupId);
      }
      forall i, j | 0 <= i < j < |rows| ensures rows[i].group.id != rows[j].group.id {
        assert IsJoined(userId, includeArchived, source[i], rows[i]);
        assert IsJoined(userId, includeArchived, source[j], rows[j]);
        assert source[i] != source[j];
      }
      forall g | IsMember(Snapshot(), userId, g) && (includeArchived || S.IsOpen(Snapshot(), g))
        ensures exists i :: 0 <= i < |rows| && rows[i].group.id == g
      {
        var m :| m in members && members[m].groupId == g && members[m].userId == userId && members[m].acceptedAt.Some?;
        assert MemberOk(Snapshot(), m);
        assert IsListed(Snapshot(), userId, includeArchived, m);
        var i :| 0 <= i < |source| && source[i] == m;
        assert rows[i].group.id == g;
      }
    }

    // -------------------------------------------------------------- statements

    method InsertGroup(now: Time, p: S.GroupParams) returns (r: S.Result)
      modifies this`groups, this`log, this`nextGroup
      ensures (Snapshot(), r) == S.InsertGroup(old(Snapshot()), currentUser, now, p)
    {
      var id := nextGroup;
      nextGroup := nextGroup + 1;
      var g := Group(id, p.name, p.handle, p.description, p.parentId, p.createdById, None, p.flags, now, now);
      if !GroupChecks(g) {
        return S.Failed(S.Violation);
      }
      if HandleTaken(groups, p.handle) {
        return S.Failed(S.HandleConflict);
      }
      if (p.parentId.Some? && p.parentId.value !in groups) || p.createdById !in users {
        return S.Failed(S.Violation);
      }
      WriteGroup(g);
      return S.Ok(id);
    }

    method WriteGroup(g: Group)
      modifies this`groups, this`log
      ensures Snapshot() == S.WriteGroup(old(Snapshot()), currentUser, g)
    {
      var before := if g.id in groups then Some(GroupRow(groups[g.id])) else None;
      groups := groups[g.id := g];
      RecordVersion(if before.Some? then UPDATE else INSERT, GroupsTable, before, Some(GroupRow(g)));
    }

    method WriteMember(m: Membership)
      modifies this`members, this`log
      ensures Snapshot() == S.WriteMember(old(Snapshot()), currentUser, m)
    {
      var before := if m.id in members then Some(MemberRow(members[m.id])) else None;
      members := members[m.id := m];
      RecordVersion(if before.Some? then UPDATE else INSERT, MembershipsTable, before, Some(MemberRow(m)));
    }

    method CreateMembership(now: Time, groupId: Id, userId: Id, role: string, inviterId: Id, acceptedAt: Option<Time>)
      returns (r: S.Result)
      modifies this`members, this`log, this`nextMember
      ensures (Snapshot(), r)
           == S.InsertMember(old(Snapshot()), currentUser, now, groupId, userId, role, inviterId, acceptedAt)
    {
      var id := nextMember;
      nextMember := nextMember + 1;
      if !RoleIsValid(role) {
        return S.Failed(S.Violation);
      }
      if PairTaken(members, groupId, userId) {
        return S.Failed(S.MembershipConflict);
      }
      if groupId !in groups || userId !in users || inviterId !in users {
        return S.Failed(S.Violation);
      }
      WriteMember(Membership(id, groupId, userId, role, inviterId, acceptedAt, now, now));
      return S.Ok(id);
    }

    method AcceptMembership(now: Time, id: Id) returns (r: S.Result)
      modifies this`members, this`log
      ensures (Snapshot(), r) == S.AcceptMember(old(Snapshot()), currentUser, now, id)
    {
      if id !in members {
        return S.Failed(S.NoRows);
      }
      var row := members[id].(acceptedAt := Some(now), updatedAt := now);
      var raised := PreventLastAdminRemoval(members[id], Some(row));
      if raised {
        return S.Failed(S.LastAdmin);
      }
      WriteMember(row);
      return S.Ok(id);
    }

    method UpdateMembershipRole(now: Time, id: Id, role: string) returns (r: S.Result)
      modifies this`members, this`log
      ensures (Snapshot(), r) == S.SetRole(old(Snapshot()), currentUser, now, id, role)
    {
      if id !in members {
        return S.Failed(S.NoRows);
      }
      var row := members[id].(role := role, updatedAt := now);
      var raised := PreventLastAdminRemoval(members[id], Some(row));
      if raised {
        return S.Failed(S.LastAdmin);
      }
      if !RoleIsValid(role) {
        return S.Failed(S.Violation);
      }
      WriteMember(row);
      return S.Ok(id);
    }

    method DeleteMembership(id: Id) returns (r: S.Result)
      modifies this`members, this`log
      ensures (Snapshot(), r) == S.DeleteMember(old(Snapshot()), currentUser, id)
    {
      if id in members {
        var row := members[id];
        var raised := PreventLastAdminRemoval(row, None);
        if raised {
          return S.Failed(S.LastAdmin);
        }
        members := members - {id};
        RecordVersion(DELETE, MembershipsTable, Some(MemberRow(row)), None);
      }
      return S.Ok(id);
    }

    method UpdateGroup(now: Time, id: Id, patch: S.GroupPatch) returns (r: S.Result)
      modifies this`groups, this`log
      ensures (Snapshot(), r) == S.UpdateGroup(old(Snapshot()), currentUser, now, id, patch)
    {
      if id !in groups {
        return S.Failed(S.NoRows);
      }
      var g := S.PatchGroup(groups[id], patch, now);
      if !GroupChecks(g) {
        return S.Failed(S.Violation);
      }
      WriteGroup(g);
      return S.Ok(id);
    }

    /** ArchiveGroup and UnarchiveGroup. */
    method SetArchived(now: Time, id: Id, archived: bool) returns (r: S.Result)
      modifies this`groups, this`log
      ensures (Snapshot(), r) == S.SetArchived(old(Snapshot()), currentUser, now, id, archived)
    {
      if id !in groups {
        return S.Failed(S.NoRows);
      }
      var g := groups[id].(archivedAt := if archived then Some(now) else None, updatedAt := now);
      if !GroupChecks(g) {
        return S.Failed(S.Violation);
      }
      WriteGroup(g);
      return S.Ok(id);
    }

    // -------------------------------------------------------------- transactions

    /** Opens a transaction and sets its audit context. */
    method Begin(actor: Id) returns (saved: Saved)
      modifies this`currentUser
      ensures currentUser == Some(actor) && saved == Saved(groups, members, log)
    {
      saved := Saved(groups, members, log);
      currentUser := Some(actor);
    }

    /** Commits after success and rolls back after failure; the audit context ends either way. */
    method End(saved: Saved, r: S.Result)
      modifies this`groups, this`members, this`log, this`currentUser
      ensures currentUser == None
      ensures r.Ok? ==> Snapshot() == old(Snapshot())
      ensures r.Failed? ==>
                Snapshot() == old(Snapshot()).(groups := saved.groups, members := saved.members, log := saved.log)
    {
      if r.Failed? {
        groups, members, log := saved.groups, saved.members, saved.log;
      }
      currentUser := None;
    }
  }
}

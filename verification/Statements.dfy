/** The SQL statements of internal/db as functions on a database value, with the constraints, the
    last-admin trigger and the audit trigger they set off, and the transactions made of them. */
module Statements {
  import opened Wrappers
  import opened Rows
  import opened Audit

  /** Sequences stand outside transactions: a rollback does not give numbers back. */
  datatype Db = Db(
    users: set<Id>,
    groups: Groups,
    members: Members,
    log: seq<Entry>,
    nextGroup: Id,
    nextMember: Id)

  /** The group exists and is not archived. */
  predicate IsOpen(db: Db, groupId: Id) { groupId in db.groups && db.groups[groupId].archivedAt.None? }

  datatype Fault =
    | HandleConflict        // unique violation on groups_handle_key
    | MembershipConflict    // unique violation on memberships_unique_user_group
    | LastAdmin             // raised by prevent_last_admin_removal
    | NoRows                // the statement returned no row
    | Violation             // any other constraint

  datatype Result = Ok(id: Id) | Failed(fault: Fault)

  // ---------------------------------------------------------------- counting

  function ActiveAdmins(members: Members, groupId: Id): set<Id>
  {
    set id | id in members && members[id].groupId == groupId && IsActiveAdmin(members[id])
  }

  function ActiveMembers(members: Members, groupId: Id): set<Id>
  {
    set id | id in members && members[id].groupId == groupId && members[id].acceptedAt.Some?
  }

  /** CountAdminsByGroup, CountGroupAdmins. */
  function AdminCount(members: Members, groupId: Id): nat { |ActiveAdmins(members, groupId)| }

  /** CountGroupMembers. */
  function MemberCount(members: Members, groupId: Id): nat { |ActiveMembers(members, groupId)| }

  // ---------------------------------------------------------------- row writes with their audit entry

  function WriteGroup(db: Db, actor: Option<Id>, g: Group): Db
  {
    var oldRow := if g.id in db.groups then Some(GroupRow(db.groups[g.id])) else None;
    var op := if oldRow.Some? then UPDATE else INSERT;
    db.(groups := db.groups[g.id := g],
        log := db.log + [TriggerEntry(op, GroupsTable, oldRow, Some(GroupRow(g)), actor)])
  }

  function WriteMember(db: Db, actor: Option<Id>, m: Membership): Db
  {
    var oldRow := if m.id in db.members then Some(MemberRow(db.members[m.id])) else None;
    var op := if oldRow.Some? then UPDATE else INSERT;
    db.(members := db.members[m.id := m],
        log := db.log + [TriggerEntry(op, MembershipsTable, oldRow, Some(MemberRow(m)), actor)])
  }

  function DropMember(db: Db, actor: Option<Id>, id: Id): Db
    requires id in db.members
  {
    db.(members := db.members - {id},
        log := db.log + [TriggerEntry(DELETE, MembershipsTable, Some(MemberRow(db.members[id])), None, actor)])
  }

  /** prevent_last_admin_removal: raises when an active admin goes, or stops being one, and no other
      active admin of the group is left. */
  predicate TriggerRaises(members: Members, oldRow: Membership, newRow: Option<Membership>)
  {
    && IsActiveAdmin(oldRow)
    && (newRow.None? || newRow.value.role != ADMIN)
    && ActiveAdmins(members, oldRow.groupId) - {oldRow.id} == {}
  }

  // ---------------------------------------------------------------- statements

  datatype GroupParams = GroupParams(
    name: string, handle: string, description: Option<string>, parentId: Option<Id>, createdById: Id, flags: Flags)

  function NewGroup(id: Id, p: GroupParams, now: Time): Group
  {
    Group(id, p.name, p.handle, p.description, p.parentId, p.createdById, None, p.flags, now, now)
  }

  ghost function InsertGroup(db: Db, actor: Option<Id>, now: Time, p: GroupParams): (Db, Result)
  {
    var id := db.nextGroup;
    var drawn := db.(nextGroup := id + 1);
    var g := NewGroup(id, p, now);
    if !GroupChecks(g) then (drawn, Failed(Violation))
    else if HandleTaken(db.groups, p.handle) then (drawn, Failed(HandleConflict))
    else if (p.parentId.Some? && p.parentId.value !in db.groups) || p.createdById !in db.users
    then (drawn, Failed(Violation))
    else (WriteGroup(drawn, actor, g), Ok(id))
  }

  ghost function InsertMember(db: Db, actor: Option<Id>, now: Time, groupId: Id, userId: Id, role: string,
                              inviterId: Id, acceptedAt: Option<Time>): (Db, Result)
  {
    var id := db.nextMember;
    var drawn := db.(nextMember := id + 1);
    if !RoleIsValid(role) then (drawn, Failed(Violation))
    else if PairTaken(db.members, groupId, userId) then (drawn, Failed(MembershipConflict))
    else if groupId !in db.groups || userId !in db.users || inviterId !in db.users then (drawn, Failed(Violation))
    else (WriteMember(drawn, actor, Membership(id, groupId, userId, role, inviterId, acceptedAt, now, now)), Ok(id))
  }

  function AcceptMember(db: Db, actor: Option<Id>, now: Time, id: Id): (Db, Result)
  {
    if id !in db.members then (db, Failed(NoRows))
    else
      var newRow := db.members[id].(acceptedAt := Some(now), updatedAt := now);
      if TriggerRaises(db.members, db.members[id], Some(newRow)) then (db, Failed(LastAdmin))
      else (WriteMember(db, actor, newRow), Ok(id))
  }

  function SetRole(db: Db, actor: Option<Id>, now: Time, id: Id, role: string): (Db, Result)
  {
    if id !in db.members then (db, Failed(NoRows))
    else
      var newRow := db.members[id].(role := role, updatedAt := now);
      if TriggerRaises(db.members, db.members[id], Some(newRow)) then (db, Failed(LastAdmin))
      else if !RoleIsValid(role) then (db, Failed(Violation))
      else (WriteMember(db, actor, newRow), Ok(id))
  }

  /** Deleting a row that is gone is no error. */
  function DeleteMember(db: Db, actor: Option<Id>, id: Id): (Db, Result)
  {
    if id !in db.members then (db, Ok(id))
    else if TriggerRaises(db.members, db.members[id], None) then (db, Failed(LastAdmin))
    else (DropMember(db, actor, id), Ok(id))
  }

  datatype GroupPatch = GroupPatch(name: Option<string>, description: Option<string>, flags: FlagPatch)

  function PatchGroup(g: Group, patch: GroupPatch, now: Time): Group
  {
    g.(name := Coalesce(patch.name, g.name),
       description := if patch.description.Some? then patch.description else g.description,
       flags := PatchFlags(patch.flags, g.flags),
       updatedAt := now)
  }

  function UpdateGroup(db: Db, actor: Option<Id>, now: Time, id: Id, patch: GroupPatch): (Db, Result)
  {
    if id !in db.groups then (db, Failed(NoRows))
    else
      var g := PatchGroup(db.groups[id], patch, now);
      if !GroupChecks(g) then (db, Failed(Violation)) else (WriteGroup(db, actor, g), Ok(id))
  }

  function SetArchived(db: Db, actor: Option<Id>, now: Time, id: Id, archived: bool): (Db, Result)
  {
    if id !in db.groups then (db, Failed(NoRows))
    else
      var g := db.groups[id].(archivedAt := if archived then Some(now) else None, updatedAt := now);
      if !GroupChecks(g) then (db, Failed(Violation)) else (WriteGroup(db, actor, g), Ok(id))
  }

  // ---------------------------------------------------------------- transactions

  datatype Tx =
    | TxCreateGroup(params: GroupParams)
    | TxUpdateGroup(groupId: Id, patch: GroupPatch)
    | TxSetArchived(groupId: Id, archived: bool)
    | TxInvite(groupId: Id, userId: Id, role: string)
    | TxAccept(memberId: Id)
    | TxSetRole(memberId: Id, role: string)
    | TxDelete(memberId: Id)

  /** The statements of one transaction, in order, the actor set for its audit entries. */
  ghost function Body(db: Db, actor: Id, now: Time, tx: Tx): (Db, Result)
  {
    var signer := Some(actor);
    match tx
    case TxCreateGroup(p) =>
      var (db1, r1) := InsertGroup(db, signer, now, p);
      if r1.Failed? then (db1, r1)
      else
        // the group's created_at is the transaction's NOW()
        InsertMember(db1, signer, now, r1.id, actor, ADMIN, actor, Some(now))
    case TxUpdateGroup(id, patch) => UpdateGroup(db, signer, now, id, patch)
    case TxSetArchived(id, archived) => SetArchived(db, signer, now, id, archived)
    case TxInvite(groupId, userId, role) => InsertMember(db, signer, now, groupId, userId, role, actor, None)
    case TxAccept(id) => AcceptMember(db, signer, now, id)
    case TxSetRole(id, role) => SetRole(db, signer, now, id, role)
    case TxDelete(id) => DeleteMember(db, signer, id)
  }

  /** Back to where the transaction began, but for the sequences. */
  function Rollback(begun: Db, failed: Db): Db
  {
    begun.(nextGroup := failed.nextGroup, nextMember := failed.nextMember)
  }

  /** One transaction, all or nothing. */
  ghost function Exec(db: Db, actor: Id, now: Time, tx: Tx): (Db, Result)
  {
    var (after, r) := Body(db, actor, now, tx);
    if r.Ok? then (after, r) else (Rollback(db, after), r)
  }
}

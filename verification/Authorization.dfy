/** Who may do what: internal/api/authorization.go. */
module Authorization {
  import opened Wrappers
  import opened Rows

  datatype AuthContext =
    AuthContext(userId: Id, membership: Option<Membership>, group: Group, isAdmin: bool, isMember: bool)
  {
    predicate CanUpdateGroup() { isAdmin }

    predicate CanArchiveGroup() { isAdmin }

    predicate CanInviteMembers() { isAdmin || (isMember && group.flags.membersCanAddMembers) }

    predicate CanManageMembers() { isAdmin }

    predicate CanCreateSubgroups() { isAdmin || (isMember && group.flags.membersCanCreateSubgroups) }
  }

  /** A pending invitation gives no standing in the group. */
  function NewAuthContext(userId: Id, group: Group, found: Option<Membership>): AuthContext
  {
    if found.Some? && found.value.acceptedAt.Some?
    then AuthContext(userId, found, group, found.value.role == ADMIN, true)
    else AuthContext(userId, None, group, false, false)
  }

  /** GetMembershipByGroupAndUser; the pair is unique in every reachable database. */
  ghost function FindMembership(members: Members, groupId: Id, userId: Id): Option<Membership>
  {
    if PairTaken(members, groupId, userId) then
      var id :| id in members && members[id].groupId == groupId && members[id].userId == userId;
      Some(members[id])
    else None
  }
}

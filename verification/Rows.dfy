/** The rows of the groups and memberships tables and the constraints the schema puts on them. */
module Rows {
  import opened Wrappers
  import opened Handles

  type Id = int
  type Time = int

  /** The eleven permission columns, in column order. */
  datatype Flags = Flags(
    membersCanAddMembers: bool,
    membersCanAddGuests: bool,
    membersCanStartDiscussions: bool,
    membersCanRaiseMotions: bool,
    membersCanEditDiscussions: bool,
    membersCanEditComments: bool,
    membersCanDeleteComments: bool,
    membersCanAnnounce: bool,
    membersCanCreateSubgroups: bool,
    adminsCanEditUserContent: bool,
    parentMembersCanSeeDiscussions: bool)

  const DEFAULT_FLAGS := Flags(true, true, true, true, false, true, true, false, false, false, false)

  /** A partial change of the permission columns; None leaves a column alone. */
  datatype FlagPatch = FlagPatch(
    membersCanAddMembers: Option<bool>,
    membersCanAddGuests: Option<bool>,
    membersCanStartDiscussions: Option<bool>,
    membersCanRaiseMotions: Option<bool>,
    membersCanEditDiscussions: Option<bool>,
    membersCanEditComments: Option<bool>,
    membersCanDeleteComments: Option<bool>,
    membersCanAnnounce: Option<bool>,
    membersCanCreateSubgroups: Option<bool>,
    adminsCanEditUserContent: Option<bool>,
    parentMembersCanSeeDiscussions: Option<bool>)

  /** SQL's COALESCE. */
  function Coalesce<T>(o: Option<T>, otherwise: T): T { if o.Some? then o.value else otherwise }

  function PatchFlags(p: FlagPatch, f: Flags): Flags
  {
    Flags(
      Coalesce(p.membersCanAddMembers, f.membersCanAddMembers),
      Coalesce(p.membersCanAddGuests, f.membersCanAddGuests),
      Coalesce(p.membersCanStartDiscussions, f.membersCanStartDiscussions),
      Coalesce(p.membersCanRaiseMotions, f.membersCanRaiseMotions),
      Coalesce(p.membersCanEditDiscussions, f.membersCanEditDiscussions),
      Coalesce(p.membersCanEditComments, f.membersCanEditComments),
      Coalesce(p.membersCanDeleteComments, f.membersCanDeleteComments),
      Coalesce(p.membersCanAnnounce, f.membersCanAnnounce),
      Coalesce(p.membersCanCreateSubgroups, f.membersCanCreateSubgroups),
      Coalesce(p.adminsCanEditUserContent, f.adminsCanEditUserContent),
      Coalesce(p.parentMembersCanSeeDiscussions, f.parentMembersCanSeeDiscussions))
  }

  datatype Group = Group(
    id: Id,
    name: string,
    handle: string,
    description: Option<string>,
    parentId: Option<Id>,
    createdById: Id,
    archivedAt: Option<Time>,
    flags: Flags,
    createdAt: Time,
    updatedAt: Time)

  datatype Membership = Membership(
    id: Id,
    groupId: Id,
    userId: Id,
    role: string,
    inviterId: Id,
    acceptedAt: Option<Time>,
    createdAt: Time,
    updatedAt: Time)

  const ADMIN := "admin"
  const MEMBER := "member"

  type Groups = map<Id, Group>
  type Members = map<Id, Membership>

  predicate IsActiveAdmin(m: Membership) { m.role == ADMIN && m.acceptedAt.Some? }

  // ---------------------------------------------------------------- constraints

  predicate RoleIsValid(role: string) { role == ADMIN || role == MEMBER }

  /** Lower case within ASCII, as case-insensitive text compares. */
  function LowerChar(c: char): char { if 'A' <= c <= 'Z' then c + ' ' else c }

  function Lower(s: string): (r: string)
    ensures |r| == |s|
  {
    seq(|s|, i requires 0 <= i < |s| => LowerChar(s[i]))
  }

  /** groups_handle_format, a pattern match that ignores case. */
  predicate HandleFormat(handle: string) { IsValidHandle(Lower(handle)) }

  /** The CHECK constraints of the groups table. */
  predicate GroupChecks(g: Group)
  {
    1 <= |g.name| <= 255 && HandleFormat(g.handle) && g.parentId != Some(g.id)
  }

  /** groups_handle_key: case-insensitive uniqueness. */
  predicate HandleTaken(groups: Groups, handle: string)
  {
    exists id :: id in groups && Lower(groups[id].handle) == Lower(handle)
  }

  predicate PairTaken(members: Members, groupId: Id, userId: Id)
  {
    exists id :: id in members && members[id].groupId == groupId && members[id].userId == userId
  }

  lemma RolesAre(role: string)
    ensures RoleIsValid(role) <==> role == "admin" || role == "member"
  {
  }

  /** What a group allows when nothing is said. */
  lemma DefaultFlagsAre()
    ensures var f := DEFAULT_FLAGS;
            && f.membersCanAddMembers && f.membersCanAddGuests && f.membersCanStartDiscussions
            && f.membersCanRaiseMotions && !f.membersCanEditDiscussions && f.membersCanEditComments
            && f.membersCanDeleteComments && !f.membersCanAnnounce && !f.membersCanCreateSubgroups
            && !f.adminsCanEditUserContent && !f.parentMembersCanSeeDiscussions
  {
  }

  /** Case within ASCII makes no difference to whether a handle is taken. */
  lemma TakenWithoutCase(groups: Groups, a: string, b: string)
    requires |a| == |b|
    requires forall i | 0 <= i < |a| :: a[i] == b[i] || ('A' <= a[i] <= 'Z' && b[i] as int == a[i] as int + 32)
    ensures HandleTaken(groups, a) <==> HandleTaken(groups, b)
  {
    assert Lower(a) == Lower(b);
  }

  lemma LowerKeepsHandles(h: string)
    requires forall i | 0 <= i < |h| :: IsHandleChar(h[i])
    ensures Lower(h) == h
  {
  }

  lemma SomeElement(s: set<Id>)
    requires s != {}
    ensures exists id :: id in s
  {
    if forall id :: id !in s {}
  }
}

/** The handlers of internal/api/groups.go and memberships.go as they run against the database: some
    unprotected reads and checks, then one transaction. Each read is a step of its own, so in a run
    with several handlers under way what one has read may be out of date when its transaction comes.
    Transactions are single steps: commits are taken to be serialised. */
module Protocol {
  import opened Wrappers
  import opened Text
  import opened Handles
  import opened UniqueHandles
  import opened Rows
  import opened Statements
  import opened Authorization

  /** handle and foldedName come from the Unicode libraries: the lowercased handle field, and the name
      with marks removed and lowercased. */
  datatype Request =
    | CreateGroup(name: string, foldedName: string, handle: string, description: Option<string>)
    | CreateSubgroup(parentId: Id, name: string, foldedName: string, handle: string, description: Option<string>,
                     inherit: bool)
    | UpdateGroup(groupId: Id, newName: Option<string>, newDescription: Option<string>, flags: FlagPatch)
    | ArchiveGroup(groupId: Id)
    | UnarchiveGroup(groupId: Id)
    | InviteMember(groupId: Id, userId: Id, role: string)
    | AcceptInvitation(memberId: Id)
    | PromoteMember(memberId: Id)
    | DemoteMember(memberId: Id)
    | RemoveMember(memberId: Id)

  /** The counts in the answer to an update. */
  datatype Counts = Counts(members: nat, admins: nat)

  /** A handler under way: the local variables it holds at each point. */
  datatype Flight =
    | Started(actor: Id, req: Request)
    | HaveTarget(actor: Id, req: Request, target: Membership)
    | HaveGroup(actor: Id, req: Request, found: Option<Membership>, group: Group)
    | NeedCount(actor: Id, req: Request, target: Membership)
    | NeedInvitee(actor: Id, req: Request)
    | NeedHandle(actor: Id, req: Request, parent: Option<Group>)
      // searching: base and the suffixes below next have been found taken
    | Probing(actor: Id, req: Request, parent: Option<Group>, base: string, next: nat)
    | Ready(actor: Id, req: Request, tx: Tx)
    | Updated(actor: Id, req: Request)                            // committed, members not yet counted
    | HaveMembers(actor: Id, req: Request, memberCount: nat)      // committed, admins not yet counted
    | Done(status: int, counts: Option<Counts> := None)

  /** handleUpdateGroup goes on after its transaction: it counts members and admins for its answer. */
  predicate IsPastCommit(f: Flight) { f.Updated? || f.HaveMembers? }

  /** The requests about one membership that only an admin of its group may make. */
  predicate ManagesMember(req: Request) { req.PromoteMember? || req.DemoteMember? || req.RemoveMember? }

  /** The requests that start by reading a group. */
  predicate ReadsGroup(req: Request)
  {
    req.CreateSubgroup? || req.UpdateGroup? || req.ArchiveGroup? || req.UnarchiveGroup? || req.InviteMember?
  }

  function GroupOf(req: Request): Id
    requires ReadsGroup(req)
  {
    if req.CreateSubgroup? then req.parentId else req.groupId
  }

  // ---------------------------------------------------------------- checks between reads

  /** handlePromoteMember, handleDemoteMember and handleRemoveMember after authorisation. */
  function DecideMember(actor: Id, req: Request, target: Membership): Flight
    requires ManagesMember(req)
  {
    match req
    case PromoteMember(id) =>
      if target.role == ADMIN then Done(409) else Ready(actor, req, TxSetRole(id, ADMIN))
    case DemoteMember(id) =>
      if target.role == MEMBER then Done(409) else NeedCount(actor, req, target)
    case RemoveMember(id) =>
      if target.role == ADMIN then NeedCount(actor, req, target) else Ready(actor, req, TxDelete(id))
  }

  /** Authorisation and the archived check, once group and membership have been read. The requests
      answered 500 here never get this far: they read no group. */
  function Decide(actor: Id, req: Request, target: Option<Membership>, ac: AuthContext): Flight
  {
    var archived := ac.group.archivedAt.Some?;
    match req
    case CreateGroup(_, _, _, _) => Done(500)
    case CreateSubgroup(_, name, _, _, _, _) =>
      if !ac.CanCreateSubgroups() then Done(403)
      else if archived then Done(409)
      else if TrimSpace(name) == "" then Done(422)
      else NeedHandle(actor, req, Some(ac.group))
    case UpdateGroup(id, name, description, flags) =>
      if !ac.CanUpdateGroup() then Done(403)
      else if archived then Done(409)
      else if name.Some? && TrimSpace(name.value) == "" then Done(422)
      else
        var trimmed := if name.Some? then Some(TrimSpace(name.value)) else None;
        Ready(actor, req, TxUpdateGroup(id, GroupPatch(trimmed, description, flags)))
    case ArchiveGroup(id) =>
      if !ac.CanArchiveGroup() then Done(403) else Ready(actor, req, TxSetArchived(id, true))
    case UnarchiveGroup(id) =>
      if !ac.CanArchiveGroup() then Done(403) else Ready(actor, req, TxSetArchived(id, false))
    case InviteMember(_, _, role) =>
      if !ac.CanInviteMembers() then Done(403)
      else if archived then Done(409)
      else if role == ADMIN && !ac.isAdmin then Done(403)
      else NeedInvitee(actor, req)
    case AcceptInvitation(_) => Done(500)
    case PromoteMember(_) =>
      if !ac.CanManageMembers() then Done(403)
      else if archived then Done(409)
      else if target.None? then Done(500)
      else DecideMember(actor, req, target.value)
    case DemoteMember(_) =>
      if !ac.CanManageMembers() then Done(403)
      else if archived then Done(409)
      else if target.None? then Done(500)
      else DecideMember(actor, req, target.value)
    case RemoveMember(_) =>
      if !ac.CanManageMembers() then Done(403)
      else if archived then Done(409)
      else if target.None? then Done(500)
      else DecideMember(actor, req, target.value)
  }

  /** What HandleExists answers to a lower-case candidate: handles compare without case. */
  function TakenHandles(groups: Groups): set<string> { set id | id in groups :: Lower(groups[id].handle) }

  /** The requested handle if it is well formed, else one generated from the name; "" when neither. */
  function ResolveHandle(groups: Groups, foldedName: string, handle: string): string
  {
    var requested := TrimSpace(handle);
    if requested == "" then UniqueHandle(foldedName, TakenHandles(groups))
    else if IsValidHandle(requested) then requested
    else ""
  }

  /** The candidates of the suffix search in order: the base itself, then base-1, base-2 and so on. */
  function Probe(base: string, k: nat): string { if k == 0 then base else Candidate(base, k) }

  function CreateParams(actor: Id, req: Request, parent: Option<Group>, handle: string): GroupParams
    requires req.CreateGroup? || req.CreateSubgroup?
  {
    var description := if req.description == Some("") then None else req.description;
    var inherits := req.CreateSubgroup? && req.inherit && parent.Some?;
    GroupParams(TrimSpace(req.name), handle, description,
                if req.CreateSubgroup? then Some(req.parentId) else None, actor,
                if inherits then parent.value.flags else DEFAULT_FLAGS)
  }

  /** With a handle chosen the transaction can begin; without one the request is refused. */
  function Resolved(actor: Id, req: Request, parent: Option<Group>, handle: string): Flight
    requires req.CreateGroup? || req.CreateSubgroup?
  {
    if handle == "" then Done(422) else Ready(actor, req, TxCreateGroup(CreateParams(actor, req, parent, handle)))
  }

  // ---------------------------------------------------------------- one step

  /** One HandleExists query of the suffix search. */
  function ProbeNext(db: Db, actor: Id, req: Request, parent: Option<Group>, base: string, k: nat): Flight
    requires req.CreateGroup? || req.CreateSubgroup?
  {
    if Probe(base, k) in TakenHandles(db.groups) then Probing(actor, req, parent, base, k + 1)
    else Resolved(actor, req, parent, Probe(base, k))
  }

  ghost function Read(db: Db, f: Flight): Flight
  {
    match f
    case Started(actor, req) =>
      (match req
       case CreateGroup(name, _, _, _) =>
         if TrimSpace(name) == "" then Done(422) else NeedHandle(actor, req, None)
       case AcceptInvitation(id) =>
         if id !in db.members then Done(404)
         else if db.members[id].userId != actor then Done(403)
         else if db.members[id].acceptedAt.Some? then Done(409)
         else Ready(actor, req, TxAccept(id))
       case PromoteMember(id) => if id in db.members then HaveTarget(actor, req, db.members[id]) else Done(404)
       case DemoteMember(id) => if id in db.members then HaveTarget(actor, req, db.members[id]) else Done(404)
       case RemoveMember(id) => if id in db.members then HaveTarget(actor, req, db.members[id]) else Done(404)
       case CreateSubgroup(id, _, _, _, _, _) => ReadGroup(db, actor, req, None, id)
       case UpdateGroup(id, _, _, _) => ReadGroup(db, actor, req, None, id)
       case ArchiveGroup(id) => ReadGroup(db, actor, req, None, id)
       case UnarchiveGroup(id) => ReadGroup(db, actor, req, None, id)
       case InviteMember(id, _, _) => ReadGroup(db, actor, req, None, id))
    case HaveTarget(actor, req, target) => ReadGroup(db, actor, req, Some(target), target.groupId)
    case HaveGroup(actor, req, target, group) =>
      Decide(actor, req, target, NewAuthContext(actor, group, FindMembership(db.members, group.id, actor)))
    case NeedCount(actor, req, target) =>
      if AdminCount(db.members, target.groupId) <= 1 then Done(409)
      else if req.DemoteMember? then Ready(actor, req, TxSetRole(req.memberId, MEMBER))
      else if req.RemoveMember? then Ready(actor, req, TxDelete(req.memberId))
      else Done(500)
    case NeedInvitee(actor, req) =>
      if !req.InviteMember? then Done(500)
      else if req.userId !in db.users then Done(404)
      else Ready(actor, req, TxInvite(req.groupId, req.userId, if req.role == "" then MEMBER else req.role))
    case NeedHandle(actor, req, parent) =>
      if !(req.CreateGroup? || req.CreateSubgroup?) then Done(500)
      else
        var requested, base := TrimSpace(req.handle), GenerateHandle(req.foldedName);
        if requested != "" then Resolved(actor, req, parent, if IsValidHandle(requested) then requested else "")
        else if base == "" then Done(422)
        else ProbeNext(db, actor, req, parent, base, 0)
    case Probing(actor, req, parent, base, k) =>
      if !(req.CreateGroup? || req.CreateSubgroup?) then Done(500)
      else if k > MAX_SUFFIX then Done(422)
      else ProbeNext(db, actor, req, parent, base, k)
    case Ready(_, _, _) => f
    case Updated(actor, req) =>
      if req.UpdateGroup? then HaveMembers(actor, req, MemberCount(db.members, req.groupId)) else Done(500)
    case HaveMembers(_, req, memberCount) =>
      if req.UpdateGroup? then Done(200, Some(Counts(memberCount, AdminCount(db.members, req.groupId)))) else Done(500)
    case Done(_, _) => f
  }

  function ReadGroup(db: Db, actor: Id, req: Request, target: Option<Membership>, id: Id): Flight
  {
    if id in db.groups then HaveGroup(actor, req, target, db.groups[id]) else Done(404)
  }

  /** The response to a finished transaction, unless something is left to do. */
  function StatusOf(req: Request, r: Result): int
  {
    match r
    case Ok(_) =>
      if req.CreateGroup? || req.CreateSubgroup? || req.InviteMember? then 201
      else if req.RemoveMember? then 204
      else 200
    case Failed(HandleConflict) => if req.CreateGroup? || req.CreateSubgroup? then 409 else 500
    case Failed(MembershipConflict) => if req.InviteMember? then 409 else 500
    case Failed(LastAdmin) => if req.DemoteMember? || req.RemoveMember? then 409 else 500
    case Failed(_) => 500
  }

  ghost function Commit(db: Db, f: Flight, now: Time): (Db, Flight)
    requires f.Ready?
  {
    var (after, r) := Exec(db, f.actor, now, f.tx);
    (after, if r.Ok? && f.req.UpdateGroup? then Updated(f.actor, f.req) else Done(StatusOf(f.req, r)))
  }

  // ---------------------------------------------------------------- a handler on its own

  function Rank(f: Flight): nat
  {
    match f
    case Started(_, _) => MAX_SUFFIX + 5
    case HaveTarget(_, _, _) => MAX_SUFFIX + 4
    case HaveGroup(_, _, _, _) => MAX_SUFFIX + 3
    case NeedCount(_, _, _) => 1
    case NeedInvitee(_, _) => 1
    case NeedHandle(_, _, _) => MAX_SUFFIX + 2
    case Probing(_, _, _, _, k) => if k <= MAX_SUFFIX then MAX_SUFFIX + 2 - k else 1
    case Ready(_, _, _) => 0
    case Updated(_, _) => 2
    case HaveMembers(_, _, _) => 1
    case Done(_, _) => 0
  }

  /** All reads up to the transaction or the answer, with nobody else in between. */
  ghost function Settle(db: Db, f: Flight): (r: Flight)
    ensures r.Ready? || r.Done?
    ensures IsPastCommit(f) ==> r.Done?
    decreases Rank(f)
  {
    if f.Ready? || f.Done? then f else Settle(db, Read(db, f))
  }

  lemma ReadSettles(db: Db, f: Flight)
    requires !f.Ready? && !f.Done?
    ensures Rank(Read(db, f)) < Rank(f) && Settle(db, f) == Settle(db, Read(db, f))
  {
  }

  /** A whole request, with nobody else in between: the new database and where the handler ends. */
  ghost function Finish(db: Db, actor: Id, req: Request, now: Time): (r: (Db, Flight))
    ensures r.1.Done?
  {
    var f := Settle(db, Started(actor, req));
    if f.Done? then (db, f)
    else
      var (after, g) := Commit(db, f, now);
      (after, Settle(after, g))
  }

  /** The new database and the response status. */
  ghost function Serve(db: Db, actor: Id, req: Request, now: Time): (Db, int)
  {
    var (after, f) := Finish(db, actor, req, now);
    (after, f.status)
  }

  datatype Call = Call(actor: Id, req: Request, now: Time) | Joins(userId: Id)

  ghost function Answer(db: Db, c: Call): Db
  {
    match c
    case Call(actor, req, now) => Serve(db, actor, req, now).0
    case Joins(userId) => db.(users := db.users + {userId})
  }

  /** Requests served one after the other, users signing up in between. */
  ghost function Serial(calls: seq<Call>): Db
    decreases |calls|
  {
    if calls == [] then EMPTY else Answer(Serial(calls[..|calls| - 1]), calls[|calls| - 1])
  }

  const EMPTY := Db({}, map[], map[], [], 1, 1)

  // ---------------------------------------------------------------- handlers interleaved

  datatype World = World(db: Db, flights: map<nat, Flight>)

  datatype Event =
    | Arrive(i: nat, actor: Id, req: Request)
    | ReadStep(i: nat)
    | CommitStep(i: nat, now: Time)
    | DatabaseError(i: nat, lostGroups: nat, lostMembers: nat)    // the handler gives up; ids may have been drawn
    | SignUp(userId: Id)

  /** One step; an event that cannot happen changes nothing. */
  ghost function Next(w: World, e: Event): World
  {
    match e
    case Arrive(i, actor, req) =>
      if i in w.flights then w else w.(flights := w.flights[i := Started(actor, req)])
    case ReadStep(i) =>
      if i in w.flights then w.(flights := w.flights[i := Read(w.db, w.flights[i])]) else w
    case CommitStep(i, now) =>
      if i in w.flights && w.flights[i].Ready? then
        var (after, f) := Commit(w.db, w.flights[i], now);
        World(after, w.flights[i := f])
      else w
    case DatabaseError(i, g, m) =>
      if i in w.flights && !w.flights[i].Done? then
        World(w.db.(nextGroup := w.db.nextGroup + g, nextMember := w.db.nextMember + m), w.flights[i := Done(500)])
      else w
    case SignUp(userId) => w.(db := w.db.(users := w.db.users + {userId}))
  }

  ghost function Run(w: World, events: seq<Event>): World
    decreases |events|
  {
    if events == [] then w else Next(Run(w, events[..|events| - 1]), events[|events| - 1])
  }

  const START := World(EMPTY, map[])

  /** The database after the first n events. */
  ghost function DbAt(events: seq<Event>, n: nat): Db
    requires n <= |events|
  {
    Run(START, events[..n]).db
  }

  ghost predicate HoldsAt(events: seq<Event>, k: nat, p: (World, Event) -> bool)
    requires k < |events|
  {
    p(Run(START, events[..k]), events[k])
  }

  /** p holds of every event from the n-th on, in the world it happens in. */
  ghost predicate Throughout(events: seq<Event>, n: nat, p: (World, Event) -> bool)
  {
    forall k | n <= k < |events| :: HoldsAt(events, k, p)
  }

  lemma ThroughoutFront(events: seq<Event>, n: nat, p: (World, Event) -> bool)
    requires n < |events|
    ensures var last := |events| - 1;
            Throughout(events, n, p) <==> Throughout(events[..last], n, p) && HoldsAt(events, last, p)
  {
    var front := events[..|events| - 1];
    forall k | n <= k < |front| ensures HoldsAt(front, k, p) <==> HoldsAt(events, k, p) {
      assert front[..k] == events[..k];
    }
  }
}

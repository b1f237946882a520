/** Requests served one at a time: what a handler has checked still holds when it commits. */
module Sequential {
  import opened Wrappers
  import opened Rows
  import opened Statements
  import opened Authorization
  import opened Protocol
  import opened Invariant
  import opened Effects

  ghost predicate HasMembership(db: Db, userId: Id, groupId: Id, admin: bool)
  {
    exists id ::
      id in db.members && db.members[id].groupId == groupId && db.members[id].userId == userId &&
      db.members[id].acceptedAt.Some? && (admin ==> db.members[id].role == ADMIN)
  }

  ghost predicate IsAdmin(db: Db, userId: Id, groupId: Id) { HasMembership(db, userId, groupId, true) }

  ghost predicate IsMember(db: Db, userId: Id, groupId: Id) { HasMembership(db, userId, groupId, false) }

  /** A subgroup needs an open parent and an admin of it, or a member while the parent's flag allows. */
  ghost predicate MayHangUnder(db: Db, actor: Id, parentId: Id)
  {
    IsOpen(db, parentId) &&
    (IsAdmin(db, actor, parentId) ||
     (IsMember(db, actor, parentId) && db.groups[parentId].flags.membersCanCreateSubgroups))
  }

  /** So does an invitation; and only an admin hands out the admin role. */
  ghost predicate MayInviteTo(db: Db, actor: Id, groupId: Id, role: string)
  {
    IsOpen(db, groupId) &&
    (IsAdmin(db, actor, groupId) ||
     (IsMember(db, actor, groupId) && db.groups[groupId].flags.membersCanAddMembers && role != ADMIN))
  }

  /** What the handlers that manage a membership demand of actor and target. */
  ghost predicate MayManage(db: Db, actor: Id, id: Id)
  {
    id in db.members && IsAdmin(db, actor, db.members[id].groupId) && IsOpen(db, db.members[id].groupId)
  }

  /** The rows of ListGroupsByUserWithCounts: an accepted membership of the user, archived groups only on
      request. */
  ghost predicate IsListed(db: Db, userId: Id, includeArchived: bool, id: Id)
  {
    && id in db.members && db.members[id].userId == userId && db.members[id].acceptedAt.Some?
    && db.members[id].groupId in db.groups
    && (includeArchived || db.groups[db.members[id].groupId].archivedAt.None?)
  }

  /** A transaction the database itself, as it stands, would let this actor make. */
  ghost predicate Authorised(db: Db, actor: Id, tx: Tx)
  {
    match tx
    case TxCreateGroup(p) =>
      p.createdById == actor && (p.parentId.Some? ==> MayHangUnder(db, actor, p.parentId.value))
    case TxUpdateGroup(id, _) => IsAdmin(db, actor, id) && IsOpen(db, id)
    case TxSetArchived(id, _) => IsAdmin(db, actor, id)
    case TxInvite(g, _, role) => MayInviteTo(db, actor, g, role)
    case TxAccept(id) => id in db.members && db.members[id].userId == actor && db.members[id].acceptedAt.None?
    case TxSetRole(id, _) => MayManage(db, actor, id)
    case TxDelete(id) => MayManage(db, actor, id)
  }

  ghost predicate ParentUpToDate(db: Db, actor: Id, req: Request, parent: Option<Group>)
  {
    req.CreateGroup? ||
    (req.CreateSubgroup? && MayHangUnder(db, actor, req.parentId) && parent == Some(db.groups[req.parentId]))
  }

  /** What a handler holds agrees with the database. */
  ghost predicate UpToDate(db: Db, f: Flight)
  {
    match f
    case Started(_, _) => true
    case HaveTarget(_, req, target) =>
      ManagesMember(req) && req.memberId in db.members && target == db.members[req.memberId]
    case HaveGroup(_, req, target, group) =>
      && group.id in db.groups && group == db.groups[group.id]
      && (ReadsGroup(req) || ManagesMember(req))
      && (ReadsGroup(req) ==> group.id == GroupOf(req))
      && (ManagesMember(req) ==>
            req.memberId in db.members && target == Some(db.members[req.memberId]) &&
            group.id == db.members[req.memberId].groupId)
    case NeedCount(actor, req, target) =>
      && ManagesMember(req) && req.memberId in db.members && target == db.members[req.memberId]
      && IsAdmin(db, actor, target.groupId) && IsOpen(db, target.groupId)
    case NeedInvitee(actor, req) =>
      req.InviteMember? && Authorised(db, actor, TxInvite(req.groupId, req.userId, req.role))
    case NeedHandle(actor, req, parent) => ParentUpToDate(db, actor, req, parent)
    case Probing(actor, req, parent, _, _) => ParentUpToDate(db, actor, req, parent)
    case Ready(actor, _, tx) => Authorised(db, actor, tx)
    case Updated(_, _) => true
    case HaveMembers(_, _, _) => true
    case Done(_, _) => true
  }

  lemma ContextIsRight(db: Db, userId: Id, group: Group)
    requires RowsOk(db) && group.id in db.groups && group == db.groups[group.id]
    ensures var ac := NewAuthContext(userId, group, FindMembership(db.members, group.id, userId));
            && ac.group == group
            && (ac.isAdmin ==> IsAdmin(db, userId, group.id)) && (ac.isMember ==> IsMember(db, userId, group.id))
  {
  }

  lemma DecisionIsUpToDate(db: Db, actor: Id, req: Request, target: Option<Membership>, group: Group)
    requires RowsOk(db) && UpToDate(db, HaveGroup(actor, req, target, group))
    ensures UpToDate(db, Read(db, HaveGroup(actor, req, target, group)))
  {
    ContextIsRight(db, actor, group);
    var ac := NewAuthContext(actor, group, FindMembership(db.members, group.id, actor));
    if ac.isAdmin { AdminsAreMembers(db, actor, group.id); }
    var f := Decide(actor, req, target, ac);
    assert f.Ready? || f.NeedCount? || f.NeedInvitee? || f.NeedHandle? || f.Done?;
    assert !f.Done? && !req.ArchiveGroup? && !req.UnarchiveGroup? ==> IsOpen(db, group.id);
    match req
    case CreateGroup(_, _, _, _) =>
    case CreateSubgroup(_, _, _, _, _, _) =>
    case UpdateGroup(_, _, _, _) =>
    case ArchiveGroup(_) =>
    case UnarchiveGroup(_) =>
    case InviteMember(_, _, _) =>
    case AcceptInvitation(_) =>
    case PromoteMember(_) =>
    case DemoteMember(_) =>
    case RemoveMember(_) =>
  }

  lemma AdminsAreMembers(db: Db, userId: Id, groupId: Id)
    requires IsAdmin(db, userId, groupId)
    ensures IsMember(db, userId, groupId)
  {
  }

  lemma FirstReadIsUpToDate(db: Db, f: Flight)
    requires RowsOk(db) && UpToDate(db, f) && (f.Started? || f.HaveTarget?)
    ensures UpToDate(db, Read(db, f))
  {
    if f.HaveTarget? {
      if f.target.groupId in db.groups { assert GroupOk(db, f.target.groupId); }
    } else if ReadsGroup(f.req) {
      if GroupOf(f.req) in db.groups { assert GroupOk(db, GroupOf(f.req)); }
    }
  }

  lemma LastReadIsUpToDate(db: Db, f: Flight)
    requires UpToDate(db, f) && !f.Started? && !f.HaveTarget? && !f.HaveGroup?
    ensures UpToDate(db, Read(db, f))
  {
  }

  lemma ReadStaysUpToDate(db: Db, f: Flight)
    requires RowsOk(db) && UpToDate(db, f)
    ensures UpToDate(db, Read(db, f))
  {
    if f.Started? || f.HaveTarget? {
      FirstReadIsUpToDate(db, f);
    } else if f.HaveGroup? {
      DecisionIsUpToDate(db, f.actor, f.req, f.found, f.group);
    } else {
      LastReadIsUpToDate(db, f);
    }
  }

  lemma {:induction false} SettlesUpToDate(db: Db, f: Flight)
    requires RowsOk(db) && UpToDate(db, f)
    ensures UpToDate(db, Settle(db, f))
    decreases Rank(f)
  {
    if !f.Ready? && !f.Done? {
      var g := OneReadUpToDate(db, f);
      SettlesUpToDate(db, g);
    }
  }

  lemma OneReadUpToDate(db: Db, f: Flight) returns (g: Flight)
    requires RowsOk(db) && UpToDate(db, f) && !f.Ready? && !f.Done?
    ensures UpToDate(db, g) && Rank(g) < Rank(f) && Settle(db, f) == Settle(db, g)
  {
    g := Read(db, f);
    ReadStaysUpToDate(db, f);
    ReadSettles(db, f);
  }

  /** A request served on its own commits only what its actor is entitled to at that moment. */
  lemma ServedIsAuthorised(db: Db, actor: Id, req: Request)
    requires RowsOk(db)
    ensures var f := Settle(db, Started(actor, req));
            f.Ready? ==> f.actor == actor && f.req == req && Authorised(db, actor, f.tx) && TxOk(actor, f.tx)
  {
    SettlesUpToDate(db, Started(actor, req));
    SettleKeepsFlight(db, Started(actor, req));
  }

  lemma AnswerKeepsInv(db: Db, c: Call)
    requires Inv(db)
    ensures Inv(Answer(db, c)) && Evolves(db, Answer(db, c))
  {
    match c
    case Call(actor, req, now) =>
      ServeKeepsInv(db, actor, req, now);
      var f := Settle(db, Started(actor, req));
      if f.Ready? { ExecEffects(db, f.actor, now, f.tx); }
    case Joins(userId) => SignUpKeepsInv(db, userId);
  }

  lemma {:induction false} SerialKeepsInv(calls: seq<Call>)
    ensures Inv(Serial(calls))
    decreases |calls|
  {
    if calls != [] {
      SerialKeepsInv(calls[..|calls| - 1]);
      AnswerKeepsInv(Serial(calls[..|calls| - 1]), calls[|calls| - 1]);
    }
  }

  // ---------------------------------------------------------------- serial runs are runs

  lemma {:induction false} RunAppend(w: World, a: seq<Event>, b: seq<Event>)
    ensures Run(w, a + b) == Run(Run(w, a), b)
    decreases |b|
  {
    if b == [] {
      assert a + b == a;
    } else {
      assert (a + b)[..|a + b| - 1] == a + b[..|b| - 1];
      RunAppend(w, a, b[..|b| - 1]);
    }
  }

  lemma RunOne(w: World, e: Event)
    ensures Run(w, [e]) == Next(w, e)
  {
    assert [e][..0] == [];
  }

  /** Read steps of one handler, uninterrupted, are its settling. */
  lemma {:induction false} ReadsSettle(w: World, i: nat) returns (events: seq<Event>)
    requires i in w.flights
    ensures Run(w, events) == w.(flights := w.flights[i := Settle(w.db, w.flights[i])])
    decreases Rank(w.flights[i])
  {
    if w.flights[i].Ready? || w.flights[i].Done? {
      events := [];
    } else {
      var rest := ReadsSettle(Next(w, ReadStep(i)), i);
      events := [ReadStep(i)] + rest;
      RunAppend(w, [ReadStep(i)], rest);
      RunOne(w, ReadStep(i));
    }
  }

  /** The world after a call has been answered on its own. */
  ghost function Answered(w: World, i: nat, c: Call): World
  {
    match c
    case Call(actor, req, now) =>
      var (after, f) := Finish(w.db, actor, req, now);
      World(after, w.flights[i := f])
    case Joins(_) => w.(db := Answer(w.db, c))
  }

  /** All steps of one handler, uninterrupted, are its serving; handlers under way stay where they are. */
  lemma AnswerIsRun(w: World, i: nat, c: Call) returns (events: seq<Event>)
    requires i !in w.flights
    ensures Run(w, events) == Answered(w, i, c)
  {
    if c.Joins? {
      events := [SignUp(c.userId)];
      RunOne(w, SignUp(c.userId));
    } else {
      events := ServeIsRun(w, i, c.actor, c.req, c.now);
    }
  }

  lemma ServeIsRun(w: World, i: nat, actor: Id, req: Request, now: Time) returns (events: seq<Event>)
    requires i !in w.flights
    ensures Run(w, events) == Answered(w, i, Call(actor, req, now))
  {
    var before := ArrivalSettles(w, i, actor, req);
    var w2 := Run(w, before);
    RunOne(w2, CommitStep(i, now));
    var w3 := Next(w2, CommitStep(i, now));
    var after := ReadsSettle(w3, i);
    RunAppend(w2, [CommitStep(i, now)], after);
    RunAppend(w, before, [CommitStep(i, now)] + after);
    events := before + ([CommitStep(i, now)] + after);
    var f := w2.flights[i];
    if f.Done? { assert Settle(w.db, f) == f; }
  }

  /** A handler arrives and goes as far as it can without its transaction. */
  lemma ArrivalSettles(w: World, i: nat, actor: Id, req: Request) returns (events: seq<Event>)
    requires i !in w.flights
    ensures Run(w, events) == w.(flights := w.flights[i := Settle(w.db, Started(actor, req))])
  {
    var arrival := [Arrive(i, actor, req)];
    RunOne(w, Arrive(i, actor, req));
    var steps := ReadsSettle(Next(w, Arrive(i, actor, req)), i);
    events := arrival + steps;
    RunAppend(w, arrival, steps);
  }

  /** Everything shown of all interleavings holds of requests served one at a time. */
  lemma {:induction false} SerialIsRun(calls: seq<Call>) returns (events: seq<Event>)
    ensures Run(START, events).db == Serial(calls)
    ensures forall i | i in Run(START, events).flights :: i < |calls|
    decreases |calls|
  {
    if calls == [] {
      events := [];
    } else {
      var before := SerialIsRun(calls[..|calls| - 1]);
      var last := AnswerIsRun(Run(START, before), |calls| - 1, calls[|calls| - 1]);
      events := before + last;
      RunAppend(START, before, last);
    }
  }
}

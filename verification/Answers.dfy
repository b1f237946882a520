/** What a handler's answer tells about the database. */
module Answers {
  import opened Wrappers
  import opened Handles
  import opened Rows
  import opened Authorization
  import opened Statements
  import opened Protocol
  import opened Invariant
  import opened Effects

  /** What the next query of a handler looks at is the same in both databases. */
  ghost predicate SameToQuery(a: Db, b: Db, f: Flight)
  {
    match f
    case Started(_, req) =>
      if req.AcceptInvitation? || ManagesMember(req) then
        (req.memberId in a.members <==> req.memberId in b.members) &&
        (req.memberId in a.members ==> a.members[req.memberId] == b.members[req.memberId])
      else if ReadsGroup(req) then SameGroupTo(a, b, GroupOf(req))
      else true
    case HaveTarget(_, _, target) => SameGroupTo(a, b, target.groupId)
    case HaveGroup(actor, _, _, group) =>
      FindMembership(a.members, group.id, actor) == FindMembership(b.members, group.id, actor)
    case NeedCount(_, _, target) => AdminCount(a.members, target.groupId) == AdminCount(b.members, target.groupId)
    case NeedInvitee(_, req) => req.InviteMember? ==> (req.userId in a.users <==> req.userId in b.users)
    case NeedHandle(_, req, _) =>
      req.CreateGroup? || req.CreateSubgroup? ==> SameTaken(a, b, GenerateHandle(req.foldedName))
    case Probing(_, _, _, base, k) => SameTaken(a, b, Probe(base, k))
    case Updated(_, req) =>
      req.UpdateGroup? ==> MemberCount(a.members, req.groupId) == MemberCount(b.members, req.groupId)
    case HaveMembers(_, req, _) =>
      req.UpdateGroup? ==> AdminCount(a.members, req.groupId) == AdminCount(b.members, req.groupId)
    case _ => true
  }

  predicate SameTaken(a: Db, b: Db, handle: string)
  {
    handle in TakenHandles(a.groups) <==> handle in TakenHandles(b.groups)
  }

  predicate SameGroupTo(a: Db, b: Db, id: Id)
  {
    (id in a.groups <==> id in b.groups) && (id in a.groups ==> a.groups[id] == b.groups[id])
  }

  /** Each read is one query about one thing, what was read before staying as it was read: databases
      that agree on that thing take a handler to the same place. */
  lemma OneQueryAtATime(a: Db, b: Db, f: Flight)
    requires SameToQuery(a, b, f)
    ensures Read(a, f) == Read(b, f)
  {
  }

  /** The handler an event is a step of. */
  function Owner(e: Event): Option<nat>
  {
    match e
    case Arrive(i, _, _) => Some(i)
    case ReadStep(i) => Some(i)
    case CommitStep(i, _) => Some(i)
    case DatabaseError(i, _, _) => Some(i)
    case SignUp(_) => None
  }

  predicate Differs(a: Db, b: Db) { a.groups != b.groups || a.members != b.members || a.log != b.log }

  /** The n-th event is a step of handler i that changes tables or log. */
  ghost predicate WritesAt(events: seq<Event>, n: nat, i: nat)
    requires n < |events|
  {
    Owner(events[n]) == Some(i) && Differs(Run(START, events[..n]).db, Run(START, events[..n + 1]).db)
  }

  ghost predicate Wrote(events: seq<Event>, i: nat) { exists n :: 0 <= n < |events| && WritesAt(events, n, i) }

  /** After n events handler i has committed and not yet answered. */
  ghost predicate IsPastAt(events: seq<Event>, n: nat, i: nat)
    requires n <= |events|
  {
    var w := Run(START, events[..n]);
    i in w.flights && IsPastCommit(w.flights[i])
  }

  ghost predicate WasPastCommit(events: seq<Event>, i: nat) { exists n :: 0 <= n <= |events| && IsPastAt(events, n, i) }

  ghost predicate IsBeforeCommit(f: Flight) { !IsPastCommit(f) && !f.Done? }

  /** A read moves a handler on, but never over its commit. */
  lemma ReadTells(db: Db, f: Flight)
    requires FlightOk(f)
    ensures IsPastCommit(Read(db, f)) ==> IsPastCommit(f)
    ensures IsBeforeCommit(Read(db, f)) ==> IsBeforeCommit(f)
    ensures Read(db, f).Done? && Read(db, f).status >= 400 ==> Read(db, f) == f || IsBeforeCommit(f)
  {
  }

  lemma CommitStepTells(w: World, i: nat, now: Time)
    requires WorldOk(w) && i in w.flights && w.flights[i].Ready?
    ensures var (v, f) := Commit(w.db, w.flights[i], now);
            && !IsBeforeCommit(f)
            && (IsPastCommit(f) ==> Differs(w.db, v))
            && (f.Done? && f.status >= 400 ==> !Differs(w.db, v))
  {
    CommitTells(w.db, w.flights[i], now);
  }

  /** One step of handler i, seen from where it ends up. */
  lemma StepTells(w: World, e: Event, i: nat)
    requires WorldOk(w)
    ensures var v := Next(w, e);
            var writes := Owner(e) == Some(i) && Differs(w.db, v.db);
            if i !in v.flights then i !in w.flights && !writes
            else if IsBeforeCommit(v.flights[i]) then (i in w.flights ==> IsBeforeCommit(w.flights[i])) && !writes
            else
              && i in w.flights
              && (IsPastCommit(v.flights[i]) ==> writes || IsPastCommit(w.flights[i]))
              && (v.flights[i].Done? && v.flights[i].status >= 400 ==>
                    && !writes
                    && (w.flights[i] == v.flights[i] || IsBeforeCommit(w.flights[i]) || v.flights[i] == Done(500)))
  {
    match e
    case Arrive(_, _, _) =>
    case ReadStep(k) => if k in w.flights { ReadTells(w.db, w.flights[k]); }
    case CommitStep(k, now) => if k in w.flights && w.flights[k].Ready? { CommitStepTells(w, k, now); }
    case DatabaseError(_, _, _) =>
    case SignUp(_) =>
  }

  lemma WroteByNow(events: seq<Event>, i: nat)
    requires events != []
    ensures var n := |events| - 1; Wrote(events, i) <==> Wrote(events[..n], i) || WritesAt(events, n, i)
  {
    var front := events[..|events| - 1];
    forall n | 0 <= n < |front| ensures WritesAt(front, n, i) <==> WritesAt(events, n, i) {
      assert front[..n] == events[..n] && front[..n + 1] == events[..n + 1];
    }
  }

  lemma PastByNow(events: seq<Event>, i: nat)
    requires events != []
    ensures WasPastCommit(events, i) <==> WasPastCommit(events[..|events| - 1], i) || IsPastAt(events, |events|, i)
  {
    var front := events[..|events| - 1];
    forall n | 0 <= n <= |front| ensures IsPastAt(front, n, i) <==> IsPastAt(events, n, i) {
      assert front[..n] == events[..n];
    }
  }

  /** How far a handler has come tells what it has done. */
  ghost predicate Accounted(events: seq<Event>, i: nat)
  {
    var w := Run(START, events);
    if i !in w.flights || IsBeforeCommit(w.flights[i]) then !Wrote(events, i) && !WasPastCommit(events, i)
    else if IsPastCommit(w.flights[i]) then Wrote(events, i) && WasPastCommit(events, i)
    else
      w.flights[i].status >= 400 ==>
        (Wrote(events, i) <==> WasPastCommit(events, i)) && (Wrote(events, i) ==> w.flights[i].status == 500)
  }

  lemma {:induction false} RunIsAccounted(events: seq<Event>, i: nat)
    ensures Accounted(events, i)
    decreases |events|
  {
    if events != [] {
      var front, e := events[..|events| - 1], events[|events| - 1];
      RunIsAccounted(front, i);
      RunKeepsWorld(front);
      StepTells(Run(START, front), e, i);
      WroteByNow(events, i);
      PastByNow(events, i);
      assert events[..|front| + 1] == events;
    } else {
      assert !IsPastAt(events, 0, i);
    }
  }

  /** Over every interleaving: a handler that answered with an error has changed tables or log if and
      only if it was past its commit when it failed, which takes an update, answered 500. */
  lemma ErrorsTell(events: seq<Event>, i: nat)
    requires i in Run(START, events).flights
    requires Run(START, events).flights[i].Done? && Run(START, events).flights[i].status >= 400
    ensures Wrote(events, i) <==> WasPastCommit(events, i)
    ensures Wrote(events, i) ==> Run(START, events).flights[i].status == 500
  {
    RunIsAccounted(events, i);
  }

  lemma OnlyUpdatesGoOn(events: seq<Event>, n: nat, i: nat)
    requires n <= |events| && IsPastAt(events, n, i)
    ensures Run(START, events[..n]).flights[i].req.UpdateGroup?
  {
    RunKeepsWorld(events[..n]);
  }

  /** Removing a membership that has meanwhile been removed answers 204 and changes nothing at all. */
  lemma StaleRemoval(db: Db, actor: Id, id: Id, now: Time)
    requires id !in db.members
    ensures Commit(db, Ready(actor, RemoveMember(id), TxDelete(id)), now) == (db, Done(204))
  {
  }

  /** What a refused transaction is answered: 409 for the last admin's demotion or removal, for inviting
      somebody twice and for a taken handle, 500 for all else. */
  lemma RefusalsTell(db: Db, f: Flight, now: Time)
    requires f.Ready? && Exec(db, f.actor, now, f.tx).1.Failed?
    ensures var fault, g := Exec(db, f.actor, now, f.tx).1.fault, Commit(db, f, now).1;
            var isConflict :=
              || (fault == LastAdmin && (f.req.DemoteMember? || f.req.RemoveMember?))
              || (fault == MembershipConflict && f.req.InviteMember?)
              || (fault == HandleConflict && (f.req.CreateGroup? || f.req.CreateSubgroup?));
            g == Done(if isConflict then 409 else 500)
  {
  }

  /** So a success status stands for at least one audit entry but for that one case. */
  lemma SuccessLeavesEntries(db: Db, f: Flight, now: Time)
    requires RowsOk(db) && f.Ready?
    requires Commit(db, f, now).1.Updated? || Commit(db, f, now).1.status < 400
    ensures Commit(db, f, now).0.log == db.log <==> f.tx.TxDelete? && f.tx.memberId !in db.members
  {
    CommitTells(db, f, now);
    ExecEffects(db, f.actor, now, f.tx);
  }
}

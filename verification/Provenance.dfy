/** Where admin rights come from when requests are served one at a time, and how out-of-date reads
    can break that. */
module Provenance {
  import opened Wrappers
  import opened Rows
  import opened Audit
  import opened Statements
  import opened Protocol
  import opened Invariant
  import opened Effects
  import opened Safety
  import opened Sequential

  /** An entry by which a membership comes to have the admin role, active or invited. */
  predicate Grants(e: Entry)
  {
    && e.record.Some? && e.record.value.MemberRow? && e.record.value.member.role == ADMIN
    && !(e.oldRecord.Some? && e.oldRecord.value.MemberRow? && e.oldRecord.value.member.role == ADMIN)
  }

  function Granted(e: Entry): Membership
    requires Grants(e)
  {
    e.record.value.member
  }

  /** The creator's own membership, entered right behind the group itself. */
  predicate IsFounding(log: seq<Entry>, i: nat)
    requires i < |log| && Grants(log[i])
  {
    var m := Granted(log[i]);
    && log[i].op == INSERT && log[i].actor == Some(m.userId) && m.inviterId == m.userId && m.acceptedAt.Some?
    && i > 0 && log[i - 1].op == INSERT && log[i - 1].actor == log[i].actor
    && log[i - 1].record.Some? && log[i - 1].record.value.GroupRow?
    && log[i - 1].record.value.group.id == m.groupId && log[i - 1].record.value.group.createdById == m.userId
  }

  /** Whether a user is an active admin in the tables a log describes. */
  ghost predicate AdminBy(log: seq<Entry>, userId: Id, groupId: Id)
  {
    var members := Replay(log).members;
    exists id ::
      id in members && members[id].groupId == groupId && members[id].userId == userId && IsActiveAdmin(members[id])
  }

  /** Founding a group, or done by somebody who was an active admin of it at that very point. */
  ghost predicate IsJustified(log: seq<Entry>, i: nat)
    requires i < |log| && Grants(log[i])
  {
    IsFounding(log, i) || (log[i].actor.Some? && AdminBy(log[..i], log[i].actor.value, Granted(log[i]).groupId))
  }

  ghost predicate AllJustified(log: seq<Entry>)
  {
    forall i | 0 <= i < |log| && Grants(log[i]) :: IsJustified(log, i)
  }

  // ---------------------------------------------------------------- every grant is justified

  lemma LongerLogsAgree(a: seq<Entry>, b: seq<Entry>)
    requires a <= b && AllJustified(a)
    requires forall i | |a| <= i < |b| && Grants(b[i]) :: IsJustified(b, i)
    ensures AllJustified(b)
  {
    forall i | 0 <= i < |b| && Grants(b[i]) ensures IsJustified(b, i) {
      if i < |a| {
        assert a[i] == b[i] && a[..i] == b[..i];
        assert i > 0 ==> a[i - 1] == b[i - 1];
        assert IsJustified(a, i);
      }
    }
  }

  lemma AdminIsInLog(db: Db, userId: Id, groupId: Id)
    requires Inv(db) && IsAdmin(db, userId, groupId)
    ensures AdminBy(db.log, userId, groupId)
  {
    var id :| id in db.members && db.members[id].groupId == groupId && db.members[id].userId == userId &&
              db.members[id].acceptedAt.Some? && db.members[id].role == ADMIN;
    assert id in Replay(db.log).members;
  }

  lemma CreationIsJustified(db: Db, actor: Id, now: Time, p: GroupParams)
    requires Inv(db) && AllJustified(db.log) && TxOk(actor, TxCreateGroup(p))
    ensures AllJustified(Exec(db, actor, now, TxCreateGroup(p)).0.log)
  {
    var (v, r) := Body(db, actor, now, TxCreateGroup(p));
    if r.Ok? {
      CreationEntries(db, actor, now, p);
      assert IsFounding(v.log, |db.log| + 1);
      LongerLogsAgree(db.log, v.log);
    }
  }

  /** The two entries of a founding. */
  lemma CreationEntries(db: Db, actor: Id, now: Time, p: GroupParams)
    requires Inv(db) && TxOk(actor, TxCreateGroup(p)) && Body(db, actor, now, TxCreateGroup(p)).1.Ok?
    ensures var id := db.nextGroup;
            var m := Membership(db.nextMember, id, actor, ADMIN, actor, Some(now), now, now);
            Body(db, actor, now, TxCreateGroup(p)).0.log ==
              db.log + [TriggerEntry(INSERT, GroupsTable, None, Some(GroupRow(NewGroup(id, p, now))), Some(actor))]
                     + [TriggerEntry(INSERT, MembershipsTable, None, Some(MemberRow(m)), Some(actor))]
  {
    IdsAreBelow(db);
  }

  /** The group whose admin role a transaction would hand out, if any. */
  function GrantedGroup(db: Db, tx: Tx): Option<Id>
  {
    if tx.TxInvite? && tx.role == ADMIN then Some(tx.groupId)
    else if tx.TxSetRole? && tx.role == ADMIN && tx.memberId in db.members && db.members[tx.memberId].role != ADMIN
    then Some(db.members[tx.memberId].groupId)
    else None
  }

  lemma AdminByLog(db: Db, userId: Id, groupId: Id)
    requires Inv(db)
    ensures AdminBy(db.log, userId, groupId) <==> IsAdmin(db, userId, groupId)
  {
    if IsAdmin(db, userId, groupId) { AdminIsInLog(db, userId, groupId); }
    assert Replay(db.log).members == db.members;
  }

  lemma GrantEntry(db: Db, actor: Id, now: Time, tx: Tx)
    requires Inv(db) && GrantedGroup(db, tx).Some? && Exec(db, actor, now, tx).1.Ok?
    ensures var v := Exec(db, actor, now, tx).0;
            && |v.log| == |db.log| + 1
            && var e := v.log[|db.log|];
               Grants(e) && e.actor == Some(actor) && Granted(e).groupId == GrantedGroup(db, tx).value &&
               !IsFounding(v.log, |db.log|)
  {
    IdsAreBelow(db);
    if tx.TxSetRole? { assert MemberOk(db, tx.memberId); }
  }

  /** A committing promotion or admin invitation leaves the log justified if and only if its actor is
      an active admin of the group at that moment: the check the handler made earlier, made again. */
  lemma GrantIsJustifiedIff(db: Db, actor: Id, now: Time, tx: Tx)
    requires Inv(db) && AllJustified(db.log) && TxOk(actor, tx) && GrantedGroup(db, tx).Some?
    requires Exec(db, actor, now, tx).1.Ok?
    ensures AllJustified(Exec(db, actor, now, tx).0.log) <==> IsAdmin(db, actor, GrantedGroup(db, tx).value)
  {
    var v := Exec(db, actor, now, tx).0;
    GrantEntry(db, actor, now, tx);
    ExecEffects(db, actor, now, tx);
    AdminByLog(db, actor, GrantedGroup(db, tx).value);
    LastGrantDecides(db.log, v.log);
  }

  lemma LastGrantDecides(a: seq<Entry>, b: seq<Entry>)
    requires a <= b && |b| == |a| + 1 && AllJustified(a)
    requires Grants(b[|a|]) && b[|a|].actor.Some? && !IsFounding(b, |a|)
    ensures AllJustified(b) <==> AdminBy(a, b[|a|].actor.value, Granted(b[|a|]).groupId)
  {
    assert b[..|a|] == a;
    if IsJustified(b, |a|) { LongerLogsAgree(a, b); }
  }

  /** Entries without a grant. */
  lemma MemberTxGrantsNothing(db: Db, actor: Id, now: Time, tx: Tx)
    requires Inv(db) && GrantedGroup(db, tx).None? && (tx.TxInvite? || tx.TxAccept? || tx.TxSetRole? || tx.TxDelete?)
    ensures var v := Exec(db, actor, now, tx).0;
            db.log <= v.log && forall i | |db.log| <= i < |v.log| :: !Grants(v.log[i])
  {
    IdsAreBelow(db);
    if !tx.TxInvite? && tx.memberId in db.members { assert MemberOk(db, tx.memberId); }
  }

  lemma GroupTxGrantsNothing(db: Db, actor: Id, now: Time, tx: Tx)
    requires tx.TxUpdateGroup? || tx.TxSetArchived?
    ensures var v := Exec(db, actor, now, tx).0;
            db.log <= v.log && forall i | |db.log| <= i < |v.log| :: !Grants(v.log[i])
  {
  }

  /** A committing grant whose actor is an admin of the group as it commits. */
  ghost predicate GrantsRightly(db: Db, actor: Id, now: Time, tx: Tx)
  {
    GrantedGroup(db, tx).Some? && Exec(db, actor, now, tx).1.Ok? ==> IsAdmin(db, actor, GrantedGroup(db, tx).value)
  }

  lemma ExecIsJustifiedIff(db: Db, actor: Id, now: Time, tx: Tx)
    requires Inv(db) && AllJustified(db.log) && TxOk(actor, tx)
    ensures AllJustified(Exec(db, actor, now, tx).0.log) <==> GrantsRightly(db, actor, now, tx)
  {
    var v := Exec(db, actor, now, tx).0;
    if tx.TxCreateGroup? {
      CreationIsJustified(db, actor, now, tx.params);
    } else if GrantedGroup(db, tx).Some? {
      if Exec(db, actor, now, tx).1.Ok? { GrantIsJustifiedIff(db, actor, now, tx); }
    } else {
      if tx.TxUpdateGroup? || tx.TxSetArchived? {
        GroupTxGrantsNothing(db, actor, now, tx);
      } else {
        MemberTxGrantsNothing(db, actor, now, tx);
      }
      LongerLogsAgree(db.log, v.log);
    }
  }

  lemma AuthorisedGrantsRightly(db: Db, actor: Id, now: Time, tx: Tx)
    requires Authorised(db, actor, tx)
    ensures GrantsRightly(db, actor, now, tx)
  {
  }

  /** In every serial run each entry that gives somebody the admin role was written by the group's
      founding or by a user who was an active admin of that group when it was written. */
  lemma {:induction false} GrantsAreJustified(calls: seq<Call>)
    ensures AllJustified(Serial(calls).log)
    decreases |calls|
  {
    if calls != [] {
      var front, c := calls[..|calls| - 1], calls[|calls| - 1];
      GrantsAreJustified(front);
      SerialKeepsInv(front);
      var db := Serial(front);
      if c.Call? {
        ServedIsAuthorised(db, c.actor, c.req);
        var f := Settle(db, Started(c.actor, c.req));
        if f.Ready? {
          AuthorisedGrantsRightly(db, c.actor, c.now, f.tx);
          ExecIsJustifiedIff(db, c.actor, c.now, f.tx);
        }
      }
    }
  }

  // ---------------------------------------------------------------- back to the founder

  /** A row with the admin role was given it by an earlier entry about the same user and group. */
  lemma {:induction false} RoleWasGranted(log: seq<Entry>, id: Id) returns (i: nat)
    requires Consistent(log) && Orderly(log)
    requires id in Replay(log).members && Replay(log).members[id].role == ADMIN
    ensures i < |log| && Grants(log[i])
    ensures var m := Replay(log).members[id]; Granted(log[i]).userId == m.userId && Granted(log[i]).groupId == m.groupId
  {
    var front, e := log[..|log| - 1], log[|log| - 1];
    assert forall k | 0 <= k < |front| :: front[k] == log[k];
    assert Fits(front, e);
    if Grants(e) && e.recordId == Some(id) {
      i := |log| - 1;
    } else {
      if e.op == UPDATE { assert SameRow(e.oldRecord.value, e.record.value); }
      i := RoleWasGranted(front, id);
    }
  }

  /** The grant was a founding, or its actor's own admin role was granted earlier and traces back too. */
  ghost predicate TracesBack(log: seq<Entry>, i: nat)
    requires i < |log| && Grants(log[i])
    decreases i
  {
    IsFounding(log, i) ||
    exists j: nat ::
      j < i && Grants(log[j]) && Some(Granted(log[j]).userId) == log[i].actor &&
      Granted(log[j]).groupId == Granted(log[i]).groupId && TracesBack(log, j)
  }

  lemma {:induction false} JustifiedTracesBack(log: seq<Entry>, i: nat)
    requires Consistent(log) && Orderly(log) && AllJustified(log)
    requires i < |log| && Grants(log[i])
    ensures TracesBack(log, i)
    decreases i
  {
    assert IsJustified(log, i);
    if !IsFounding(log, i) {
      var before := log[..i];
      var members := Replay(before).members;
      var id :| id in members && members[id].groupId == Granted(log[i]).groupId &&
                Some(members[id].userId) == log[i].actor && IsActiveAdmin(members[id]);
      UnwindRestores(log, i);
      assert forall k | 0 <= k < i :: before[k] == log[k];
      var j := RoleWasGranted(before, id);
      JustifiedTracesBack(log, j);
    }
  }

  lemma {:induction false} SerialIsOrderly(calls: seq<Call>)
    ensures Orderly(Serial(calls).log)
  {
    var events := SerialIsRun(calls);
    LogIsOrderly(events);
  }

  /** In every serial run each admin role goes back, through finitely many grants made by users who
      then held it, to the user who created the group. */
  lemma AdminRolesTraceToFounder(calls: seq<Call>, id: Id) returns (i: nat)
    requires id in Serial(calls).members && Serial(calls).members[id].role == ADMIN
    ensures var log, m := Serial(calls).log, Serial(calls).members[id];
            i < |log| && Grants(log[i]) && Granted(log[i]).userId == m.userId && Granted(log[i]).groupId == m.groupId &&
            TracesBack(log, i)
  {
    SerialKeepsInv(calls);
    SerialIsOrderly(calls);
    GrantsAreJustified(calls);
    i := RoleWasGranted(Serial(calls).log, id);
    JustifiedTracesBack(Serial(calls).log, i);
  }

  // ---------------------------------------------------------------- with stale reads

  /** Once ready, a promotion commits whatever its actor has become meanwhile. */
  lemma PromotionCommits(db: Db, actor: Id, c: Id, now: Time)
    requires Inv(db) && c in db.members && db.members[c].role == MEMBER
    ensures var (v, f) := Commit(db, Ready(actor, PromoteMember(c), TxSetRole(c, ADMIN)), now);
            && f == Done(200) && |v.log| == |db.log| + 1 && v.log[..|db.log|] == db.log
            && var e := v.log[|db.log|];
               Grants(e) && e.op == UPDATE && e.actor == Some(actor) && Granted(e).groupId == db.members[c].groupId
  {
    assert MemberOk(db, c);
  }

  lemma DemotedIsNoAdmin(db: Db, b: Id)
    requires Inv(db) && b in db.members && db.members[b].role != ADMIN
    ensures !AdminBy(db.log, db.members[b].userId, db.members[b].groupId)
  {
    var members := db.members;
    assert Replay(db.log).members == members;
  }

  /** Not so under interleaving. b reads that it may promote c; a demotes b; b's transaction still
      commits, and the grant it logs is neither a founding nor made by an active admin. */
  lemma StaleGrant(db: Db, a: Id, b: Id, c: Id, now: Time)
    requires Inv(db) && a in db.members && b in db.members && c in db.members && a != b && c != b && c != a
    requires var g := db.members[a].groupId;
             && db.members[b].groupId == g && db.members[c].groupId == g
             && IsActiveAdmin(db.members[a]) && IsActiveAdmin(db.members[b]) && db.members[c].role == MEMBER
             && IsOpen(db, g)
    ensures var stale := Settle(db, Started(db.members[b].userId, PromoteMember(c)));
            var (db1, status) := Serve(db, db.members[a].userId, DemoteMember(b), now);
            && stale.Ready? && status == 200
            && var (db2, f) := Commit(db1, stale, now);
               var i := |db1.log|;
               f == Done(200) && |db2.log| == i + 1 && Grants(db2.log[i]) && !IsJustified(db2.log, i)
  {
    AdminPassesChecks(db, b, PromoteMember(c));
    StaleDemotion(db, a, b, now);
    ServeKeepsInv(db, db.members[a].userId, DemoteMember(b), now);
    var db1 := Serve(db, db.members[a].userId, DemoteMember(b), now).0;
    PromotionCommits(db1, db.members[b].userId, c, now);
    DemotedIsNoAdmin(db1, b);
  }

  lemma StaleDemotion(db: Db, a: Id, b: Id, now: Time)
    requires Inv(db) && a in db.members && b in db.members && a != b
    requires var g := db.members[a].groupId;
             && db.members[b].groupId == g && IsActiveAdmin(db.members[a]) && IsActiveAdmin(db.members[b])
             && IsOpen(db, g)
    ensures Serve(db, db.members[a].userId, DemoteMember(b), now).1 == 200
    ensures var v := Serve(db, db.members[a].userId, DemoteMember(b), now).0;
            v.members == db.members[b := db.members[b].(role := MEMBER, updatedAt := now)] && v.groups == db.groups
  {
    var g := db.members[a].groupId;
    AdminPassesChecks(db, a, DemoteMember(b));
    assert MemberOk(db, a) && MemberOk(db, b);
    assert a in ActiveAdmins(db.members, g) - {b} && b in ActiveAdmins(db.members, g);
    SetCount(ActiveAdmins(db.members, g), b);
    SetCount(ActiveAdmins(db.members, g) - {b}, a);
  }

  // ---------------------------------------------------------------- exactly when

  ghost predicate CommitsRightly(w: World, e: Event)
  {
    e.CommitStep? && e.i in w.flights && w.flights[e.i].Ready? ==>
      GrantsRightly(w.db, w.flights[e.i].actor, e.now, w.flights[e.i].tx)
  }

  lemma StepIsJustifiedIff(w: World, e: Event)
    requires WorldOk(w) && AllJustified(w.db.log)
    ensures AllJustified(Next(w, e).db.log) <==> CommitsRightly(w, e)
  {
    if e.CommitStep? && e.i in w.flights && w.flights[e.i].Ready? {
      ExecIsJustifiedIff(w.db, w.flights[e.i].actor, e.now, w.flights[e.i].tx);
    }
  }

  lemma ShorterLogsAgree(a: seq<Entry>, b: seq<Entry>)
    requires a <= b && AllJustified(b)
    ensures AllJustified(a)
  {
    forall i | 0 <= i < |a| && Grants(a[i]) ensures IsJustified(a, i) {
      assert a[i] == b[i] && a[..i] == b[..i];
      assert i > 0 ==> a[i - 1] == b[i - 1];
      assert IsJustified(b, i);
    }
  }

  /** Over every interleaving: all grants in the log are justified if and only if each promotion or
      admin invitation that committed was, as it committed, made by an active admin of the group. */
  lemma {:induction false} RunIsJustifiedIff(events: seq<Event>)
    ensures AllJustified(Run(START, events).db.log) <==> Throughout(events, 0, CommitsRightly)
    decreases |events|
  {
    if events != [] {
      var front, e := events[..|events| - 1], events[|events| - 1];
      RunIsJustifiedIff(front);
      ThroughoutFront(events, 0, CommitsRightly);
      RunKeepsWorld(front);
      NextEvolves(Run(START, front), e);
      if AllJustified(Run(START, events).db.log) {
        ShorterLogsAgree(Run(START, front).db.log, Run(START, events).db.log);
      }
      if AllJustified(Run(START, front).db.log) {
        StepIsJustifiedIff(Run(START, front), e);
      }
    }
  }

  /** A transaction that is still authorised when it commits. */
  ghost predicate CommitsCarefully(w: World, e: Event)
  {
    e.CommitStep? && e.i in w.flights && w.flights[e.i].Ready? ==>
      Authorised(w.db, w.flights[e.i].actor, w.flights[e.i].tx)
  }

  /** So checking again inside the transaction would be enough. */
  lemma CarefulRunsAreJustified(events: seq<Event>)
    requires Throughout(events, 0, CommitsCarefully)
    ensures AllJustified(Run(START, events).db.log)
  {
    forall k | 0 <= k < |events| ensures HoldsAt(events, k, CommitsRightly) {
      var w, e := Run(START, events[..k]), events[k];
      assert HoldsAt(events, k, CommitsCarefully);
      if e.CommitStep? && e.i in w.flights && w.flights[e.i].Ready? {
        AuthorisedGrantsRightly(w.db, w.flights[e.i].actor, e.now, w.flights[e.i].tx);
      }
    }
    RunIsJustifiedIff(events);
  }
}

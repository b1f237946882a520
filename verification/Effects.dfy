/** What one step may change, and what a whole run therefore keeps. */
module Effects {
  import opened Wrappers
  import opened Rows
  import opened Audit
  import opened Statements
  import opened Protocol
  import opened Invariant

  /** The columns of a membership that no handler writes after the row is created, and that it does not
      fall back to pending. (When its acceptance time can move is said in Acceptance.) */
  predicate SameMembership(a: Membership, b: Membership)
  {
    && b.groupId == a.groupId && b.userId == a.userId && b.inviterId == a.inviterId && b.createdAt == a.createdAt
    && (a.acceptedAt.Some? ==> b.acceptedAt.Some?)
  }

  predicate SameGroup(a: Group, b: Group)
  {
    b.handle == a.handle && b.parentId == a.parentId && b.createdById == a.createdById && b.createdAt == a.createdAt
  }

  predicate SameRow(a: Row, b: Row)
  {
    match (a, b)
    case (GroupRow(g), GroupRow(h)) => SameGroup(g, h)
    case (MemberRow(m), MemberRow(n)) => SameMembership(m, n)
    case _ => false
  }

  /** What happens to rows from one database to a later one. */
  ghost predicate Evolves(a: Db, b: Db)
  {
    && a.users <= b.users && a.nextGroup <= b.nextGroup && a.nextMember <= b.nextMember && a.log <= b.log
    && (forall id | id in a.groups :: id in b.groups && SameGroup(a.groups[id], b.groups[id]))
    && (forall id | id in b.groups && id !in a.groups :: id >= a.nextGroup)
    && (forall id | id in a.members && id in b.members :: SameMembership(a.members[id], b.members[id]))
    && (forall id | id in b.members && id !in a.members :: id >= a.nextMember)
  }

  lemma EvolvesOn(a: Db, b: Db, c: Db)
    requires RowsOk(a) && Evolves(a, b) && Evolves(b, c)
    ensures Evolves(a, c)
  {
    IdsAreBelow(a);
  }

  // ---------------------------------------------------------------- one transaction

  /** New log entries are signed by the actor, and an update keeps what no handler writes. */
  predicate EntryFrom(e: Entry, actor: Id)
  {
    && e.actor == Some(actor)
    && (e.op == UPDATE ==> e.record.Some? && e.oldRecord.Some? && SameRow(e.oldRecord.value, e.record.value))
  }

  predicate Signed(a: Db, b: Db, actor: Id)
  {
    a.log <= b.log && forall i | |a.log| <= i < |b.log| :: EntryFrom(b.log[i], actor)
  }

  lemma GroupWriteEvolves(db: Db, actor: Id, g: Group)
    requires g.id in db.groups ==> SameGroup(db.groups[g.id], g)
    requires g.id !in db.groups ==> g.id == db.nextGroup
    ensures var v := WriteGroup(if g.id in db.groups then db else db.(nextGroup := g.id + 1), Some(actor), g);
            Evolves(db, v) && Signed(db, v, actor) && |v.log| == |db.log| + 1
  {
  }

  lemma MemberWriteEvolves(db: Db, actor: Id, m: Membership)
    requires m.id in db.members ==> SameMembership(db.members[m.id], m)
    requires m.id !in db.members ==> m.id == db.nextMember
    ensures var v := WriteMember(if m.id in db.members then db else db.(nextMember := m.id + 1), Some(actor), m);
            Evolves(db, v) && Signed(db, v, actor) && |v.log| == |db.log| + 1
  {
  }

  /** How many audit entries a committed transaction leaves: one, two when a group is created, none
      when the membership to delete was already gone. */
  function EntryCount(db: Db, tx: Tx): nat
  {
    if tx.TxCreateGroup? then 2 else if tx.TxDelete? && tx.memberId !in db.members then 0 else 1
  }

  lemma CreateGroupEffects(db: Db, actor: Id, now: Time, p: GroupParams)
    requires RowsOk(db)
    ensures var (v, r) := Body(db, actor, now, TxCreateGroup(p));
            r.Ok? ==> Evolves(db, v) && Signed(db, v, actor) && |v.log| == |db.log| + 2
  {
    IdsAreBelow(db);
    var (db1, r1) := InsertGroup(db, Some(actor), now, p);
    if r1.Ok? {
      GroupWriteEvolves(db, actor, NewGroup(r1.id, p, now));
      var (v, r) := InsertMember(db1, Some(actor), now, r1.id, actor, ADMIN, actor, Some(now));
      if r.Ok? {
        MemberWriteEvolves(db1, actor, v.members[db1.nextMember]);
        EvolvesOn(db, db1, v);
      }
    }
  }

  ghost predicate HasEffects(db: Db, actor: Id, now: Time, tx: Tx)
  {
    var (v, r) := Body(db, actor, now, tx);
    r.Ok? ==> Evolves(db, v) && Signed(db, v, actor) && |v.log| == |db.log| + EntryCount(db, tx)
  }

  lemma GroupTxEffects(db: Db, actor: Id, now: Time, tx: Tx)
    requires RowsOk(db) && (tx.TxUpdateGroup? || tx.TxSetArchived?)
    ensures HasEffects(db, actor, now, tx)
  {
    var (v, r) := Body(db, actor, now, tx);
    if r.Ok? {
      assert GroupOk(db, tx.groupId);
      GroupWriteEvolves(db, actor, v.groups[tx.groupId]);
    }
  }

  lemma MemberTxEffects(db: Db, actor: Id, now: Time, tx: Tx)
    requires RowsOk(db) && (tx.TxAccept? || tx.TxSetRole?)
    ensures HasEffects(db, actor, now, tx)
  {
    var (v, r) := Body(db, actor, now, tx);
    if r.Ok? {
      assert MemberOk(db, tx.memberId);
      MemberWriteEvolves(db, actor, v.members[tx.memberId]);
    }
  }

  lemma InviteEffects(db: Db, actor: Id, now: Time, tx: Tx)
    requires RowsOk(db) && tx.TxInvite?
    ensures HasEffects(db, actor, now, tx)
  {
    IdsAreBelow(db);
    var (v, r) := Body(db, actor, now, tx);
    if r.Ok? { MemberWriteEvolves(db, actor, v.members[db.nextMember]); }
  }

  lemma BodyEffects(db: Db, actor: Id, now: Time, tx: Tx)
    requires RowsOk(db)
    ensures HasEffects(db, actor, now, tx)
  {
    match tx
    case TxCreateGroup(p) => CreateGroupEffects(db, actor, now, p);
    case TxUpdateGroup(_, _) => GroupTxEffects(db, actor, now, tx);
    case TxSetArchived(_, _) => GroupTxEffects(db, actor, now, tx);
    case TxInvite(_, _, _) => InviteEffects(db, actor, now, tx);
    case TxAccept(_) => MemberTxEffects(db, actor, now, tx);
    case TxSetRole(_, _) => MemberTxEffects(db, actor, now, tx);
    case TxDelete(_) =>
  }

  /** A refused transaction leaves tables and log as they were; only id sequences may have moved. A
      committed one appends its entries, signed by the actor, and evolves the rows. */
  lemma ExecEffects(db: Db, actor: Id, now: Time, tx: Tx)
    requires RowsOk(db)
    ensures var (v, r) := Exec(db, actor, now, tx);
            && Evolves(db, v) && Signed(db, v, actor)
            && (r.Ok? ==> |v.log| == |db.log| + EntryCount(db, tx))
            && (r.Failed? ==> v.groups == db.groups && v.members == db.members && v.log == db.log)
  {
    BodyEffects(db, actor, now, tx);
    BodyDraws(db, actor, now, tx);
  }

  /** Numbers are drawn by every attempt to insert, committed or not, and by nothing else. */
  lemma DrawnIds(db: Db, actor: Id, now: Time, tx: Tx)
    ensures var (v, r) := Exec(db, actor, now, tx);
            && v.nextGroup == db.nextGroup + (if tx.TxCreateGroup? then 1 else 0)
            && (tx.TxInvite? ==> v.nextMember == db.nextMember + 1)
            && (tx.TxCreateGroup? ==>
                  v.nextMember == db.nextMember + if InsertGroup(db, Some(actor), now, tx.params).1.Ok? then 1 else 0)
            && (!tx.TxCreateGroup? && !tx.TxInvite? ==> v.nextMember == db.nextMember)
  {
  }

  /** Coming out of its transaction a handler has answered with an error and changed nothing, or has
      answered with success, or has answering still before it, and left its audit entries. */
  lemma CommitTells(db: Db, f: Flight, now: Time)
    requires RowsOk(db) && f.Ready?
    ensures var (v, g) := Commit(db, f, now);
            if g.Done? && g.status >= 400 then v.groups == db.groups && v.members == db.members && v.log == db.log
            else (g.Done? || g.Updated?) && |v.log| == |db.log| + EntryCount(db, f.tx)
  {
    ExecEffects(db, f.actor, now, f.tx);
  }

  // ---------------------------------------------------------------- runs

  lemma NextEvolves(w: World, e: Event)
    requires WorldOk(w)
    ensures Evolves(w.db, Next(w, e).db)
  {
    if e.CommitStep? && e.i in w.flights && w.flights[e.i].Ready? {
      ExecEffects(w.db, w.flights[e.i].actor, e.now, w.flights[e.i].tx);
    }
  }

  /** From any point of any run to any later one: groups never go, never change handle, parent, creator
      or creation time; memberships may go but never come back, never change group, user, inviter or
      creation time, and never fall back to pending; the log only grows. */
  lemma {:induction false} RunEvolves(events: seq<Event>, n: nat)
    requires n <= |events|
    ensures Evolves(Run(START, events[..n]).db, Run(START, events).db)
    decreases |events|
  {
    if n == |events| {
      assert events[..n] == events;
    } else {
      var front := events[..|events| - 1];
      RunEvolves(front, n);
      assert front[..n] == events[..n];
      RunKeepsWorld(events[..n]);
      RunKeepsWorld(front);
      NextEvolves(Run(START, front), events[|events| - 1]);
      EvolvesOn(Run(START, events[..n]).db, Run(START, front).db, Run(START, events).db);
    }
  }

  /** A membership that has been removed stays removed. */
  lemma RemovedStaysRemoved(events: seq<Event>, n: nat, k: nat, id: Id)
    requires n <= k <= |events|
    ensures id in Run(START, events[..n]).db.members && id !in Run(START, events[..k]).db.members
            ==> id !in Run(START, events).db.members
  {
    RunKeepsWorld(events[..n]);
    RunKeepsWorld(events[..k]);
    RunEvolves(events[..k], n);
    assert events[..k][..n] == events[..n];
    RunEvolves(events, k);
    IdsAreBelow(Run(START, events[..n]).db);
  }

  // ---------------------------------------------------------------- the audit log of a run

  /** Replayed forwards the log gives the current tables; undone backwards from the current tables it
      gives the tables at every earlier point of the run. */
  lemma LogRestoresEveryState(events: seq<Event>, n: nat)
    requires n <= |events|
    ensures var earlier, current := Run(START, events[..n]).db, Run(START, events).db;
            && Replay(current.log) == Tables(current.groups, current.members)
            && earlier.log <= current.log
            && Unwind(Tables(current.groups, current.members), current.log[|earlier.log|..])
               == Tables(earlier.groups, earlier.members)
  {
    RunKeepsWorld(events);
    RunKeepsWorld(events[..n]);
    RunEvolves(events, n);
    var earlier, current := Run(START, events[..n]).db, Run(START, events).db;
    UnwindRestores(current.log, |earlier.log|);
    assert current.log[..|earlier.log|] == earlier.log;
  }

  /** In every reachable log the entries of one record form an unbroken chain ending in the current
      row, and every entry meets the table's CHECK constraints. */
  lemma LogIsChained(events: seq<Event>, table: Table, id: Id)
    ensures var db := Run(START, events).db;
            && IsChain(History(db.log, table, id))
            && Outcome(History(db.log, table, id)) == Lookup(Tables(db.groups, db.members), table, id)
            && forall e | e in db.log ::
                 && e.op in {INSERT, UPDATE, DELETE} && (e.recordId.Some? || e.oldRecordId.Some?)
                 && (e.record.Some? <==> e.op in {INSERT, UPDATE}) && (e.oldRecord.Some? <==> e.op in {UPDATE, DELETE})
  {
    RunKeepsWorld(events);
    var db := Run(START, events).db;
    HistoryIsChain(db.log, table, id);
    ConsistentEntriesCheck(db.log);
  }

  lemma {:induction false} ConsistentEntriesCheck(log: seq<Entry>)
    requires Consistent(log)
    ensures forall e | e in log :: EntryChecks(e) && e.op in {INSERT, UPDATE, DELETE}
  {
    if log != [] {
      ConsistentEntriesCheck(log[..|log| - 1]);
    }
  }

  /** Updates recorded in the log keep what no handler writes. */
  ghost predicate Orderly(log: seq<Entry>)
  {
    forall i | 0 <= i < |log| && log[i].op == UPDATE ::
      log[i].record.Some? && log[i].oldRecord.Some? && SameRow(log[i].oldRecord.value, log[i].record.value)
  }

  lemma {:induction false} LogIsOrderly(events: seq<Event>)
    ensures Orderly(Run(START, events).db.log)
    decreases |events|
  {
    if events != [] {
      var front, e := events[..|events| - 1], events[|events| - 1];
      LogIsOrderly(front);
      RunKeepsWorld(front);
      var w := Run(START, front);
      if e.CommitStep? && e.i in w.flights && w.flights[e.i].Ready? {
        ExecEffects(w.db, w.flights[e.i].actor, e.now, w.flights[e.i].tx);
      }
      var log := Run(START, events).db.log;
      forall i | 0 <= i < |log| && log[i].op == UPDATE
        ensures log[i].record.Some? && log[i].oldRecord.Some? && SameRow(log[i].oldRecord.value, log[i].record.value)
      {
        if i < |w.db.log| { assert log[i] == w.db.log[i]; }
      }
    }
  }
}

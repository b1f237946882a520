/** How final an acceptance is: its time is kept when requests are served one at a time, and exactly a
    second acceptance that was ready in time can move it. */
module Acceptance {
  import opened Wrappers
  import opened Rows
  import opened Statements
  import opened Protocol
  import opened Invariant
  import opened Effects
  import opened Sequential
  import opened Handlers

  /** Rows in both databases that had been accepted are accepted since the same time. */
  ghost predicate SameAcceptances(a: Db, b: Db)
  {
    forall id | id in a.members && id in b.members && a.members[id].acceptedAt.Some? ::
      b.members[id].acceptedAt == a.members[id].acceptedAt
  }

  ghost predicate MovesAcceptance(db: Db, now: Time, tx: Tx, id: Id)
    requires id in db.members
  {
    tx == TxAccept(id) && db.members[id].acceptedAt != Some(now)
  }

  /** The time of an acceptance, of a row that stays, is moved by exactly one thing: a committing
      acceptance of that same row at another time. */
  lemma AcceptanceMovesIff(db: Db, actor: Id, now: Time, tx: Tx, id: Id)
    requires Inv(db) && id in db.members && db.members[id].acceptedAt.Some?
    requires id in Exec(db, actor, now, tx).0.members
    ensures var (v, r) := Exec(db, actor, now, tx);
            v.members[id].acceptedAt != db.members[id].acceptedAt <==> r.Ok? && MovesAcceptance(db, now, tx, id)
  {
    if tx.TxCreateGroup? || tx.TxInvite? {
      NewRowsAreOther(db, actor, now, tx, id);
    } else if tx.TxAccept? || tx.TxSetRole? || tx.TxDelete? {
      if tx.memberId in db.members { assert MemberOk(db, tx.memberId); }
    }
  }

  lemma NewRowsAreOther(db: Db, actor: Id, now: Time, tx: Tx, id: Id)
    requires Inv(db) && id in db.members && (tx.TxCreateGroup? || tx.TxInvite?)
    ensures var v := Exec(db, actor, now, tx).0; id in v.members && v.members[id] == db.members[id]
  {
    IdsAreBelow(db);
  }

  ghost predicate MovesAt(w: World, e: Event, id: Id)
    requires id in w.db.members
  {
    && e.CommitStep? && e.i in w.flights && w.flights[e.i].Ready?
    && Exec(w.db, w.flights[e.i].actor, e.now, w.flights[e.i].tx).1.Ok?
    && MovesAcceptance(w.db, e.now, w.flights[e.i].tx, id)
  }

  /** The same at every step of every interleaving. */
  lemma StepMovesIff(events: seq<Event>, e: Event, id: Id)
    requires var w := Run(START, events);
             id in w.db.members && w.db.members[id].acceptedAt.Some? && id in Next(w, e).db.members
    ensures var w := Run(START, events);
            Next(w, e).db.members[id].acceptedAt != w.db.members[id].acceptedAt <==> MovesAt(w, e, id)
  {
    RunKeepsWorld(events);
    var w := Run(START, events);
    if e.CommitStep? && e.i in w.flights && w.flights[e.i].Ready? {
      AcceptanceMovesIff(w.db, w.flights[e.i].actor, e.now, w.flights[e.i].tx, id);
    }
  }

  // ---------------------------------------------------------------- one request at a time

  lemma AnswerKeepsAcceptances(db: Db, c: Call)
    requires Inv(db)
    ensures SameAcceptances(db, Answer(db, c))
  {
    if c.Call? {
      ServedIsAuthorised(db, c.actor, c.req);
      var f := Settle(db, Started(c.actor, c.req));
      if f.Ready? {
        var v := Exec(db, f.actor, c.now, f.tx).0;
        forall id | id in db.members && id in v.members && db.members[id].acceptedAt.Some?
          ensures v.members[id].acceptedAt == db.members[id].acceptedAt
        {
          AcceptanceMovesIff(db, f.actor, c.now, f.tx, id);
        }
      }
    }
  }

  lemma AcceptancesStayOn(a: Db, b: Db, c: Db)
    requires RowsOk(a) && Evolves(a, b) && Evolves(b, c) && SameAcceptances(a, b) && SameAcceptances(b, c)
    ensures SameAcceptances(a, c)
  {
    IdsAreBelow(a);
  }

  /** In serial runs an acceptance is final: as long as the membership lasts its time stays. */
  lemma {:induction false} AcceptanceIsFinal(calls: seq<Call>, n: nat)
    requires n <= |calls|
    ensures SameAcceptances(Serial(calls[..n]), Serial(calls)) && Evolves(Serial(calls[..n]), Serial(calls))
    decreases |calls|
  {
    SerialKeepsInv(calls[..n]);
    if n == |calls| {
      assert calls[..n] == calls;
    } else {
      var front, c := calls[..|calls| - 1], calls[|calls| - 1];
      AcceptanceIsFinal(front, n);
      assert front[..n] == calls[..n];
      SerialKeepsInv(front);
      AnswerKeepsInv(Serial(front), c);
      AnswerKeepsAcceptances(Serial(front), c);
      EvolvesOn(Serial(calls[..n]), Serial(front), Serial(calls));
      AcceptancesStayOn(Serial(calls[..n]), Serial(front), Serial(calls));
    }
  }

  // ---------------------------------------------------------------- accepting twice

  /** Accepting twice at once is possible: both answer 200, and the second moves the acceptance time. */
  lemma DoubleAcceptance(db: Db, actor: Id, id: Id, first: Time, second: Time)
    requires Inv(db) && id in db.members && db.members[id].userId == actor && db.members[id].acceptedAt.None?
    ensures var f := Settle(db, Started(actor, AcceptInvitation(id)));
            && f == Ready(actor, AcceptInvitation(id), TxAccept(id))
            && var (db1, g1) := Commit(db, f, first);
               var (db2, g2) := Commit(db1, f, second);
               g1 == g2 == Done(200) && id in db1.members && id in db2.members &&
               db1.members[id].acceptedAt == Some(first) && db2.members[id].acceptedAt == Some(second)
  {
    SettleAccept(db, actor, AcceptInvitation(id));
    assert MemberOk(db, id);
  }
}

/** The two counts in the answer to an update. They are read one after the other, with anything in
    between; the audit log says exactly how far apart that can take them. */
module UpdateAnswers {
  import opened Wrappers
  import opened Rows
  import opened Audit
  import opened Statements
  import opened Protocol
  import opened Invariant
  import opened Effects
  import opened Conservation

  // ---------------------------------------------------------------- the two moments

  ghost function FlightAt(events: seq<Event>, n: nat, i: nat): Option<Flight>
    requires n <= |events|
  {
    var w := Run(START, events[..n]);
    if i in w.flights then Some(w.flights[i]) else None
  }

  /** Handler i, updating group g, read the members as the m-th event and the admins as the n-th, and
      has answered with these counts. */
  ghost predicate AnsweredAt(events: seq<Event>, i: nat, m: nat, n: nat, g: Id, counts: Counts)
  {
    && m < n < |events| && events[m] == events[n] == ReadStep(i)
    && FlightAt(events, m, i).Some? && FlightAt(events, m, i).value.Updated?
    && FlightAt(events, n, i).Some? && FlightAt(events, n, i).value.HaveMembers?
    && FlightAt(events, |events|, i) == Some(Done(200, Some(counts)))
    && g in DbAt(events, m).groups
    && counts == Counts(MemberCount(DbAt(events, m).members, g), AdminCount(DbAt(events, n).members, g))
  }

  lemma ReadCounts(db: Db, f: Flight)
    requires FlightOk(f) && Read(db, f) != f
    ensures Read(db, f).HaveMembers? ==> f.Updated?
    ensures Read(db, f).Done? && Read(db, f).counts.Some? ==> f.HaveMembers?
  {
  }

  /** Only a read can bring a handler to its counts. */
  lemma CountsComeByRead(w: World, e: Event, i: nat)
    requires WorldOk(w) && i in Next(w, e).flights && !(i in w.flights && w.flights[i] == Next(w, e).flights[i])
    ensures var f := Next(w, e).flights[i];
            f.HaveMembers? || (f.Done? && f.counts.Some?) ==>
              && e == ReadStep(i) && i in w.flights && f == Read(w.db, w.flights[i])
              && if f.HaveMembers? then w.flights[i].Updated? else w.flights[i].HaveMembers?
  {
    if e.ReadStep? && e.i == i && i in w.flights { ReadCounts(w.db, w.flights[i]); }
  }

  lemma Longer(events: seq<Event>, n: nat)
    requires n < |events|
    ensures events[..|events| - 1][..n] == events[..n]
  {
  }

  /** The event at which the members were counted. */
  lemma {:induction false} MembersRead(events: seq<Event>, i: nat) returns (m: nat)
    requires i in Run(START, events).flights && Run(START, events).flights[i].HaveMembers?
    ensures m < |events| && events[m] == ReadStep(i)
    ensures var f, h := FlightAt(events, m, i), Run(START, events).flights[i];
            f.Some? && f.value.Updated? && f.value.req == h.req && h.req.UpdateGroup? &&
            h.memberCount == MemberCount(DbAt(events, m).members, h.req.groupId)
    decreases |events|
  {
    var front, e := events[..|events| - 1], events[|events| - 1];
    RunKeepsWorld(events);
    RunKeepsWorld(front);
    var w := Run(START, front);
    if i in w.flights && w.flights[i] == Run(START, events).flights[i] {
      m := MembersRead(front, i);
      Longer(events, m);
    } else {
      m := |front|;
      CountsComeByRead(w, e, i);
    }
  }

  /** The event at which the admins were counted and the answer given. */
  lemma {:induction false} AdminsRead(events: seq<Event>, i: nat) returns (n: nat)
    requires i in Run(START, events).flights
    requires Run(START, events).flights[i].Done? && Run(START, events).flights[i].counts.Some?
    ensures n < |events| && events[n] == ReadStep(i)
    ensures var h, d := FlightAt(events, n, i), Run(START, events).flights[i];
            h.Some? && h.value.HaveMembers? && h.value.req.UpdateGroup? &&
            d.status == 200 &&
            d.counts == Some(Counts(h.value.memberCount, AdminCount(DbAt(events, n).members, h.value.req.groupId)))
    decreases |events|
  {
    var front, e := events[..|events| - 1], events[|events| - 1];
    RunKeepsWorld(front);
    var w := Run(START, front);
    if i in w.flights && w.flights[i] == Run(START, events).flights[i] {
      n := AdminsRead(front, i);
      Longer(events, n);
    } else {
      n := |front|;
      CountsComeByRead(w, e, i);
    }
  }

  /** A handler past its commit has updated a group that is there. */
  lemma {:induction false} UpdatedGroupIsThere(events: seq<Event>, i: nat)
    requires i in Run(START, events).flights && IsPastCommit(Run(START, events).flights[i])
    ensures var f := Run(START, events).flights[i];
            f.req.UpdateGroup? && f.req.groupId in Run(START, events).db.groups
    decreases |events|
  {
    RunKeepsWorld(events);
    var front, e := events[..|events| - 1], events[|events| - 1];
    RunKeepsWorld(front);
    var w := Run(START, front);
    NextEvolves(w, e);
    if i in w.flights && IsPastCommit(w.flights[i]) {
      UpdatedGroupIsThere(front, i);
      OnlyForward(w, e, i);
    } else {
      CommitFindsGroup(w, e, i);
    }
  }

  lemma OnlyForward(w: World, e: Event, i: nat)
    requires WorldOk(w) && i in w.flights && IsPastCommit(w.flights[i])
    ensures i in Next(w, e).flights
    ensures IsPastCommit(Next(w, e).flights[i]) ==> Next(w, e).flights[i].req == w.flights[i].req
  {
  }

  lemma CommitFindsGroup(w: World, e: Event, i: nat)
    requires WorldOk(w) && i in Next(w, e).flights && IsPastCommit(Next(w, e).flights[i])
    requires i in w.flights ==> !IsPastCommit(w.flights[i])
    ensures Next(w, e).flights[i].req.UpdateGroup? && Next(w, e).flights[i].req.groupId in w.db.groups
  {
    if e.ReadStep? && i in w.flights { ReadStaysBefore(w.db, w.flights[i]); }
  }

  lemma ReadStaysBefore(db: Db, f: Flight)
    requires !IsPastCommit(f)
    ensures !IsPastCommit(Read(db, f))
  {
  }

  /** Every answer with counts has its two moments. */
  lemma AnswerHasMoments(events: seq<Event>, i: nat) returns (m: nat, n: nat, g: Id)
    requires i in Run(START, events).flights
    requires Run(START, events).flights[i].Done? && Run(START, events).flights[i].counts.Some?
    ensures AnsweredAt(events, i, m, n, g, Run(START, events).flights[i].counts.value)
  {
    n := AdminsRead(events, i);
    m := MembersRead(events[..n], i);
    assert events[..n][..m] == events[..m] && events[..|events|] == events;
    g := FlightAt(events, m, i).value.req.groupId;
    UpdatedGroupIsThere(events[..m], i);
  }

  // ---------------------------------------------------------------- what is logged in between

  ghost function Between(events: seq<Event>, m: nat, n: nat): seq<Entry>
    requires m <= n <= |events|
  {
    var a, b := DbAt(events, m).log, DbAt(events, n).log;
    if |a| <= |b| then b[|a|..] else []
  }

  lemma LogSplits(events: seq<Event>, m: nat, n: nat)
    requires m <= n <= |events|
    ensures DbAt(events, n).log == DbAt(events, m).log + Between(events, m, n)
  {
    RunEvolves(events[..n], m);
    assert events[..n][..m] == events[..m];
  }

  predicate FoundsNothing(a: seq<Entry>, b: seq<Entry>, g: Id)
  {
    a <= b && forall k | |a| <= k < |b| :: !Founding(b[k], g)
  }

  lemma FoundsNothingOn(a: seq<Entry>, b: seq<Entry>, c: seq<Entry>, g: Id)
    requires FoundsNothing(a, b, g) && FoundsNothing(b, c, g)
    ensures FoundsNothing(a, c, g)
  {
    forall k | |a| <= k < |c| ensures !Founding(c[k], g) {
      if k < |b| { assert c[k] == b[k]; }
    }
  }

  lemma CreationFoundsAnother(db: Db, actor: Id, now: Time, p: GroupParams, g: Id)
    requires Inv(db) && g in db.groups
    ensures FoundsNothing(db.log, Exec(db, actor, now, TxCreateGroup(p)).0.log, g)
  {
    IdsAreBelow(db);
    var (db1, r1) := InsertGroup(db, Some(actor), now, p);
    if r1.Ok? {
      var row := GroupRow(NewGroup(r1.id, p, now));
      assert db1.log == db.log + [TriggerEntry(INSERT, GroupsTable, None, Some(row), Some(actor))];
      InsertionFoundsAnother(db1, actor, now, r1.id, g);
      assert FoundsNothing(db.log, db1.log, g);
      var v := InsertMember(db1, Some(actor), now, r1.id, actor, ADMIN, actor, Some(now)).0;
      FoundsNothingOn(db.log, db1.log, v.log, g);
    }
  }

  lemma InsertionFoundsAnother(db: Db, actor: Id, now: Time, newGroup: Id, g: Id)
    requires newGroup != g
    ensures FoundsNothing(db.log, InsertMember(db, Some(actor), now, newGroup, actor, ADMIN, actor, Some(now)).0.log, g)
  {
  }

  lemma MemberTxFoundsNothing(db: Db, actor: Id, now: Time, tx: Tx, g: Id)
    requires Inv(db) && (tx.TxAccept? || tx.TxSetRole? || tx.TxDelete?)
    ensures FoundsNothing(db.log, Exec(db, actor, now, tx).0.log, g)
  {
    if tx.memberId in db.members { assert MemberOk(db, tx.memberId); }
  }

  lemma OtherTxFoundsNothing(db: Db, actor: Id, now: Time, tx: Tx, g: Id)
    requires tx.TxUpdateGroup? || tx.TxSetArchived? || tx.TxInvite?
    ensures FoundsNothing(db.log, Exec(db, actor, now, tx).0.log, g)
  {
  }

  /** Once a group is there nobody founds it again. */
  lemma ExecFoundsNothing(db: Db, actor: Id, now: Time, tx: Tx, g: Id)
    requires Inv(db) && g in db.groups
    ensures FoundsNothing(db.log, Exec(db, actor, now, tx).0.log, g)
  {
    if tx.TxCreateGroup? {
      CreationFoundsAnother(db, actor, now, tx.params, g);
    } else if tx.TxAccept? || tx.TxSetRole? || tx.TxDelete? {
      MemberTxFoundsNothing(db, actor, now, tx, g);
    } else {
      OtherTxFoundsNothing(db, actor, now, tx, g);
    }
  }

  lemma StepFoundsNothing(w: World, e: Event, g: Id)
    requires WorldOk(w) && g in w.db.groups
    ensures FoundsNothing(w.db.log, Next(w, e).db.log, g)
  {
    if e.CommitStep? && e.i in w.flights && w.flights[e.i].Ready? {
      ExecFoundsNothing(w.db, w.flights[e.i].actor, e.now, w.flights[e.i].tx, g);
    }
  }

  lemma NextAt(events: seq<Event>, n: nat, g: Id)
    requires n < |events| && g in DbAt(events, n).groups
    ensures FoundsNothing(DbAt(events, n).log, DbAt(events, n + 1).log, g)
  {
    RunKeepsWorld(events[..n]);
    assert events[..n + 1][..n] == events[..n];
    StepFoundsNothing(Run(START, events[..n]), events[n], g);
  }

  lemma GroupStays(events: seq<Event>, m: nat, n: nat, g: Id)
    requires m <= n <= |events| && g in DbAt(events, m).groups
    ensures g in DbAt(events, n).groups
  {
    RunEvolves(events[..n], m);
    assert events[..n][..m] == events[..m];
  }

  lemma {:induction false} NobodyFounds(events: seq<Event>, m: nat, n: nat, g: Id)
    requires m <= n <= |events| && g in DbAt(events, m).groups
    ensures FoundsNothing(DbAt(events, m).log, DbAt(events, n).log, g)
    decreases n
  {
    if m < n {
      NobodyFounds(events, m, n - 1, g);
      GroupStays(events, m, n - 1, g);
      NextAt(events, n - 1, g);
      FoundsNothingOn(DbAt(events, m).log, DbAt(events, n - 1).log, DbAt(events, n).log, g);
    }
  }

  lemma NothingFoundedBetween(events: seq<Event>, m: nat, n: nat, g: Id)
    requires m <= n <= |events| && g in DbAt(events, m).groups
    ensures Count(Between(events, m, n), e => Founding(e, g)) == 0
    ensures Count(Between(events, m, n), e => Creation(e, g)) == 0
  {
    NobodyFounds(events, m, n, g);
    var log := Between(events, m, n);
    forall e | e in log ensures !Founding(e, g) {
      var k :| 0 <= k < |log| && log[k] == e;
      assert DbAt(events, n).log[|DbAt(events, m).log| + k] == e;
    }
    CountNone(log, e => Founding(e, g));
    CountNone(log, e => Creation(e, g));
  }

  lemma {:induction false} CountNone(log: seq<Entry>, p: Entry -> bool)
    requires forall e | e in log :: !p(e)
    ensures Count(log, p) == 0
  {
    if log != [] { CountNone(log[..|log| - 1], p); }
  }

  /** Between two moments the active admins change by promotions and acceptances, demotions and removals. */
  lemma AdminsBetween(events: seq<Event>, m: nat, n: nat, g: Id)
    requires m <= n <= |events| && g in DbAt(events, m).groups
    ensures var log := Between(events, m, n);
            AdminCount(DbAt(events, n).members, g) - AdminCount(DbAt(events, m).members, g)
            == Count(log, e => Promotion(e, g)) + Count(log, e => AdminAcceptance(e, g))
               - Count(log, e => Demotion(e, g)) - Count(log, e => Removal(e, g))
  {
    var a, log := DbAt(events, m).log, Between(events, m, n);
    AdminAccount(events, m, g);
    AdminAccount(events, n, g);
    LogSplits(events, m, n);
    CountSplits(a, log, e => Creation(e, g));
    CountSplits(a, log, e => Promotion(e, g));
    CountSplits(a, log, e => AdminAcceptance(e, g));
    CountSplits(a, log, e => Demotion(e, g));
    CountSplits(a, log, e => Removal(e, g));
    NothingFoundedBetween(events, m, n, g);
  }

  lemma AdminAccount(events: seq<Event>, n: nat, g: Id)
    requires n <= |events|
    ensures var log := DbAt(events, n).log;
            AdminCount(DbAt(events, n).members, g)
            == Count(log, e => Creation(e, g))
               + Count(log, e => Promotion(e, g)) + Count(log, e => AdminAcceptance(e, g))
               - Count(log, e => Demotion(e, g)) - Count(log, e => Removal(e, g))
  {
    AdminsAreConserved(events[..n], g);
    RunKeepsWorld(events[..n]);
    LogIsOrderly(events[..n]);
    KindsAddUp(DbAt(events, n).log, g);
  }

  /** And the active members by those who join and those who leave. */
  lemma MembersBetween(events: seq<Event>, m: nat, n: nat, g: Id)
    requires m <= n <= |events| && g in DbAt(events, m).groups
    ensures var log := Between(events, m, n);
            MemberCount(DbAt(events, n).members, g) - MemberCount(DbAt(events, m).members, g)
            == Count(log, e => Joining(e, g)) - Count(log, e => Leaving(e, g))
  {
    var a, log := DbAt(events, m).log, Between(events, m, n);
    MemberAccount(events, m, g);
    MemberAccount(events, n, g);
    LogSplits(events, m, n);
    CountSplits(a, log, e => Founding(e, g));
    CountSplits(a, log, e => Joining(e, g));
    CountSplits(a, log, e => Leaving(e, g));
    NothingFoundedBetween(events, m, n, g);
  }

  lemma MemberAccount(events: seq<Event>, n: nat, g: Id)
    requires n <= |events|
    ensures var log := DbAt(events, n).log;
            MemberCount(DbAt(events, n).members, g)
            == Count(log, e => Founding(e, g)) + Count(log, e => Joining(e, g)) - Count(log, e => Leaving(e, g))
  {
    MembersAreConserved(events[..n], g);
    RunKeepsWorld(events[..n]);
    LogIsOrderly(events[..n]);
    MemberKindsAddUp(DbAt(events, n).log, g);
  }

  // ---------------------------------------------------------------- when the answer is right

  /** Over every interleaving: an answer speaks of more admins than members if and only if, between its
      two counts, the promotions and accepted admin invitations outnumber the demotions and removals of
      admins by more than the members without the admin role there were at the first. */
  lemma TornIff(events: seq<Event>, i: nat, m: nat, n: nat, g: Id, counts: Counts)
    requires AnsweredAt(events, i, m, n, g, counts)
    ensures var a, log := DbAt(events, m), Between(events, m, n);
            counts.admins > counts.members <==>
              Count(log, e => Promotion(e, g)) + Count(log, e => AdminAcceptance(e, g))
              - Count(log, e => Demotion(e, g)) - Count(log, e => Removal(e, g))
              > MemberCount(a.members, g) - AdminCount(a.members, g)
  {
    AdminsBetween(events, m, n, g);
  }

  /** An answer is true of the moment of its second count if and only if as many people joined the group
      in between as left it, and of the moment of its first if and only if gains and losses of admins
      cancel out. */
  lemma TrueOfOneMomentIff(events: seq<Event>, i: nat, m: nat, n: nat, g: Id, counts: Counts)
    requires AnsweredAt(events, i, m, n, g, counts)
    ensures var a, b, log := DbAt(events, m), DbAt(events, n), Between(events, m, n);
            && (counts == Counts(MemberCount(b.members, g), AdminCount(b.members, g)) <==>
                  Count(log, e => Joining(e, g)) == Count(log, e => Leaving(e, g)))
            && (counts == Counts(MemberCount(a.members, g), AdminCount(a.members, g)) <==>
                  Count(log, e => Promotion(e, g)) + Count(log, e => AdminAcceptance(e, g))
                  == Count(log, e => Demotion(e, g)) + Count(log, e => Removal(e, g)))
  {
    AdminsBetween(events, m, n, g);
    MembersBetween(events, m, n, g);
  }

  /** So nothing is torn while nobody joins. */
  lemma NotTornUnlessJoined(events: seq<Event>, i: nat, m: nat, n: nat, g: Id, counts: Counts)
    requires AnsweredAt(events, i, m, n, g, counts)
    requires forall e | e in Between(events, m, n) :: !Joining(e, g)
    ensures counts.admins <= counts.members
  {
    MembersBetween(events, m, n, g);
    CountNone(Between(events, m, n), e => Joining(e, g));
    CountsAreSelections(DbAt(events, n).members, g);
  }
}

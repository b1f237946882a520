/** The account the audit log keeps of a group's active admins. */
module Conservation {
  import opened Wrappers
  import opened Rows
  import opened Audit
  import opened Statements
  import opened Protocol
  import opened Invariant
  import opened Effects
  import opened Safety

  /** Which memberships are counted: the active admins of a group, or its active members. */
  function AdminOf(groupId: Id): Membership -> bool { (m: Membership) => m.groupId == groupId && IsActiveAdmin(m) }

  function MemberOf(groupId: Id): Membership -> bool { (m: Membership) => m.groupId == groupId && m.acceptedAt.Some? }

  function Selected(members: Members, p: Membership -> bool): set<Id> { set id | id in members && p(members[id]) }

  predicate IsRow(r: Option<Row>, p: Membership -> bool) { r.Some? && r.value.MemberRow? && p(r.value.member) }

  predicate Gains(e: Entry, p: Membership -> bool) { !IsRow(e.oldRecord, p) && IsRow(e.record, p) }

  predicate Loses(e: Entry, p: Membership -> bool) { IsRow(e.oldRecord, p) && !IsRow(e.record, p) }

  function Count(log: seq<Entry>, p: Entry -> bool): nat
  {
    if log == [] then 0 else Count(log[..|log| - 1], p) + if p(log[|log| - 1]) then 1 else 0
  }

  function Gained(log: seq<Entry>, p: Membership -> bool): nat { Count(log, e => Gains(e, p)) }

  function Lost(log: seq<Entry>, p: Membership -> bool): nat { Count(log, e => Loses(e, p)) }

  lemma {:induction false} CountSplits(a: seq<Entry>, b: seq<Entry>, p: Entry -> bool)
    ensures Count(a + b, p) == Count(a, p) + Count(b, p)
  {
    if b == [] {
      assert a + b == a;
    } else {
      assert (a + b)[..|a + b| - 1] == a + b[..|b| - 1];
      CountSplits(a, b[..|b| - 1], p);
    }
  }

  /** Only the row an entry is about can join or leave those counted. */
  lemma RedoChangesOne(log: seq<Entry>, e: Entry, p: Membership -> bool, id: Id)
    requires Consistent(log) && Fits(log, e) && e.table.MembershipsTable?
    requires id == if e.record.Some? then e.recordId.value else e.oldRecordId.value
    ensures var prior, later := Selected(Replay(log).members, p), Selected(Redo(Replay(log), e).members, p);
            && prior - {id} == later - {id}
            && (id in prior <==> IsRow(e.oldRecord, p))
            && (id in later <==> IsRow(e.record, p))
  {
    if e.op == INSERT && Lookup(Replay(log), e.table, id).Some? {
      DescribedIsMentioned(log, e.table, id);
    }
    var before, after := Replay(log).members, Redo(Replay(log), e).members;
    assert e.op != INSERT ==> Lookup(Replay(log), e.table, id) == e.oldRecord;
    forall k | k != id ensures k in Selected(before, p) <==> k in Selected(after, p) {
      assert k in before <==> k in after;
    }
  }

  lemma RedoChangesCount(log: seq<Entry>, e: Entry, p: Membership -> bool)
    requires Consistent(log) && Fits(log, e)
    ensures |Selected(Redo(Replay(log), e).members, p)|
         == |Selected(Replay(log).members, p)| + (if Gains(e, p) then 1 else 0) - (if Loses(e, p) then 1 else 0)
  {
    if e.table.GroupsTable? {
      assert Redo(Replay(log), e).members == Replay(log).members;
    } else {
      var id := if e.record.Some? then e.recordId.value else e.oldRecordId.value;
      RedoChangesOne(log, e, p, id);
      SetCount(Selected(Replay(log).members, p), id);
      SetCount(Selected(Redo(Replay(log), e).members, p), id);
    }
  }

  /** Whatever memberships one counts, a consistent log accounts for their number entry by entry. */
  lemma {:induction false} CountIsBalance(log: seq<Entry>, p: Membership -> bool)
    requires Consistent(log)
    ensures |Selected(Replay(log).members, p)| == Gained(log, p) - Lost(log, p)
  {
    if log == [] {
      assert Selected(Replay(log).members, p) == {};
    } else {
      CountIsBalance(log[..|log| - 1], p);
      RedoChangesCount(log[..|log| - 1], log[|log| - 1], p);
    }
  }

  lemma CountsAreSelections(members: Members, groupId: Id)
    ensures AdminCount(members, groupId) == |Selected(members, AdminOf(groupId))|
    ensures MemberCount(members, groupId) == |Selected(members, MemberOf(groupId))|
    ensures AdminCount(members, groupId) <= MemberCount(members, groupId)
  {
    assert ActiveAdmins(members, groupId) == Selected(members, AdminOf(groupId));
    assert ActiveMembers(members, groupId) == Selected(members, MemberOf(groupId));
    var admins, all := ActiveAdmins(members, groupId), ActiveMembers(members, groupId);
    assert all == admins + (all - admins);
  }

  /** Over any interleaving the audit log accounts for the active admins of a group one by one, and
      what it shows lost is always at least one less than what it shows gained. */
  lemma AdminsAreConserved(events: seq<Event>, groupId: Id)
    ensures var db := Run(START, events).db;
            var gained, lost := Gained(db.log, AdminOf(groupId)), Lost(db.log, AdminOf(groupId));
            && AdminCount(db.members, groupId) == gained - lost
            && (groupId in db.groups ==> lost <= gained - 1)
  {
    RunKeepsWorld(events);
    var db := Run(START, events).db;
    CountIsBalance(db.log, AdminOf(groupId));
    CountsAreSelections(db.members, groupId);
    if groupId in db.groups {
      var _ := SomeAdmin(db, groupId);
    }
  }

  /** The same account of its active members. */
  lemma MembersAreConserved(events: seq<Event>, groupId: Id)
    ensures var db := Run(START, events).db;
            MemberCount(db.members, groupId) == Gained(db.log, MemberOf(groupId)) - Lost(db.log, MemberOf(groupId))
  {
    RunKeepsWorld(events);
    var db := Run(START, events).db;
    CountIsBalance(db.log, MemberOf(groupId));
    CountsAreSelections(db.members, groupId);
  }

  predicate IsAdminOf(r: Option<Row>, g: Id) { IsRow(r, AdminOf(g)) }

  predicate IsMemberOf(r: Option<Row>, g: Id) { IsRow(r, MemberOf(g)) }

  predicate IsInvitedTo(r: Option<Row>, g: Id)
  {
    IsRow(r, (m: Membership) => m.groupId == g && m.acceptedAt.None?)
  }

  predicate Creation(e: Entry, g: Id) { e.op == INSERT && IsAdminOf(e.record, g) }

  predicate Promotion(e: Entry, g: Id)
  {
    e.op == UPDATE && IsMemberOf(e.oldRecord, g) && !IsAdminOf(e.oldRecord, g) && IsAdminOf(e.record, g)
  }

  predicate AdminAcceptance(e: Entry, g: Id) { e.op == UPDATE && IsInvitedTo(e.oldRecord, g) && IsAdminOf(e.record, g) }

  predicate Demotion(e: Entry, g: Id)
  {
    e.op == UPDATE && IsAdminOf(e.oldRecord, g) && IsMemberOf(e.record, g) && !IsAdminOf(e.record, g)
  }

  predicate Removal(e: Entry, g: Id) { e.op == DELETE && IsAdminOf(e.oldRecord, g) }

  /** In a consistent log whose updates keep group and acceptance, these five kinds are all there are. */
  lemma {:induction false} KindsAddUp(log: seq<Entry>, g: Id)
    requires Consistent(log) && Orderly(log)
    ensures Gained(log, AdminOf(g)) ==
              Count(log, e => Creation(e, g)) + Count(log, e => Promotion(e, g))
              + Count(log, e => AdminAcceptance(e, g))
    ensures Lost(log, AdminOf(g)) == Count(log, e => Demotion(e, g)) + Count(log, e => Removal(e, g))
  {
    if log != [] {
      var front, e := log[..|log| - 1], log[|log| - 1];
      assert forall i | 0 <= i < |front| :: front[i] == log[i];
      KindsAddUp(front, g);
      assert Fits(front, e);
      if e.op == UPDATE {
        assert SameRow(e.oldRecord.value, e.record.value);
      }
    }
  }

  /** A membership accepted from the start: that of a group's founder. */
  predicate Founding(e: Entry, g: Id) { e.op == INSERT && IsMemberOf(e.record, g) }

  predicate Joining(e: Entry, g: Id) { e.op == UPDATE && IsInvitedTo(e.oldRecord, g) && IsMemberOf(e.record, g) }

  predicate Leaving(e: Entry, g: Id) { e.op == DELETE && IsMemberOf(e.oldRecord, g) }

  lemma {:induction false} MemberKindsAddUp(log: seq<Entry>, g: Id)
    requires Consistent(log) && Orderly(log)
    ensures Gained(log, MemberOf(g)) == Count(log, e => Founding(e, g)) + Count(log, e => Joining(e, g))
    ensures Lost(log, MemberOf(g)) == Count(log, e => Leaving(e, g))
  {
    if log != [] {
      var front, e := log[..|log| - 1], log[|log| - 1];
      assert forall i | 0 <= i < |front| :: front[i] == log[i];
      MemberKindsAddUp(front, g);
      assert Fits(front, e);
      if e.op == UPDATE {
        assert SameRow(e.oldRecord.value, e.record.value);
      }
    }
  }

  /** Demotions and removals of active admins never reach the number of creations, promotions and
      accepted admin invitations together. */
  lemma DemotionsAreCovered(events: seq<Event>, g: Id)
    requires g in Run(START, events).db.groups
    ensures var log := Run(START, events).db.log;
            Count(log, e => Demotion(e, g)) + Count(log, e => Removal(e, g))
            <= Count(log, e => Creation(e, g)) + Count(log, e => Promotion(e, g))
               + Count(log, e => AdminAcceptance(e, g)) - 1
  {
    AdminsAreConserved(events, g);
    RunKeepsWorld(events);
    LogIsOrderly(events);
    KindsAddUp(Run(START, events).db.log, g);
  }
}

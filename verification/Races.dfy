/** What goes wrong when requests overlap, shown on runs that start from the empty database. */
module Races {
  import opened Wrappers
  import opened Text
  import opened Handles
  import opened Rows
  import opened Statements
  import opened Protocol
  import opened Invariant
  import opened Safety
  import opened Sequential
  import opened Provenance
  import opened Archive
  import opened Outcomes
  import opened Acceptance
  import opened Answers
  import opened Conservation
  import opened Handlers
  import opened UpdateAnswers

  // ---------------------------------------------------------------- a club with three people

  lemma Append(calls: seq<Call>, c: Call)
    ensures Serial(calls + [c]) == Answer(Serial(calls), c)
    ensures Inv(Serial(calls)) && Inv(Serial(calls + [c])) && Serial(calls).users <= Serial(calls + [c]).users
  {
    assert (calls + [c])[..|calls|] == calls;
    SerialKeepsInv(calls);
    AnswerKeepsInv(Serial(calls), c);
  }

  lemma Joined() returns (calls: seq<Call>)
    ensures Serial(calls) == EMPTY.(users := {1, 2, 3}) && Inv(Serial(calls))
  {
    calls := [];
    Append(calls, Joins(1));
    calls := calls + [Joins(1)];
    Append(calls, Joins(2));
    calls := calls + [Joins(2)];
    Append(calls, Joins(3));
    calls := calls + [Joins(3)];
  }

  ghost predicate IsClub(db: Db, g: Id, a: Id)
  {
    && Inv(db) && {1, 2, 3} <= db.users && IsOpen(db, g) && db.groups[g].name == "club"
    && a in db.members && db.members[a] == Founder(a, g, 1, 0)
  }

  /** User 1 founds a club. */
  lemma Founded() returns (calls: seq<Call>, g: Id, a: Id)
    ensures IsClub(Serial(calls), g, a) && Serial(calls).members.Keys == {a}
  {
    var before := Joined();
    var db := Serial(before);
    var c := Call(1, CreateGroup("club", "club", "club", None), 0);
    assert TrimSpace("club") == "club" && IsValidHandle("club");
    CreateOutcome(db, 1, "club", "club", "club", None, 0);
    Append(before, c);
    calls, g, a := before + [c], db.nextGroup, db.nextMember;
  }

  lemma Invites(db: Db, g: Id, a: Id, userId: Id, role: string, now: Time)
    requires IsClub(db, g, a) && userId in {2, 3} && RoleIsValid(role) && !PairTaken(db.members, g, userId)
    ensures var (v, status) := Serve(db, 1, InviteMember(g, userId, role), now);
            status == 201 && db.nextMember !in db.members && v.groups == db.groups &&
            v.members == db.members[db.nextMember := Membership(db.nextMember, g, userId, role, 1, None, now, now)]
  {
    assert IsAdmin(db, 1, g);
    InviteOutcome(db, 1, g, userId, role, now);
  }

  /** User 1 has invited user 2 as admin. */
  lemma Invited() returns (calls: seq<Call>, g: Id, a: Id, b: Id)
    ensures IsClub(Serial(calls), g, a) && a != b && Serial(calls).members.Keys == {a, b}
    ensures Serial(calls).members[b] == Membership(b, g, 2, ADMIN, 1, None, 1, 1)
  {
    var before;
    before, g, a := Founded();
    b := Serial(before).nextMember;
    var c := Call(1, InviteMember(g, 2, ADMIN), 1);
    Invites(Serial(before), g, a, 2, ADMIN, 1);
    Append(before, c);
    calls := before + [c];
  }

  /** User 2 has accepted, and user 3 has been invited as member. */
  ghost predicate IsFullClub(db: Db, g: Id, a: Id, b: Id, c: Id)
  {
    && IsClub(db, g, a) && a != b && a != c && b != c && db.members.Keys == {a, b, c}
    && db.members[b] == Membership(b, g, 2, ADMIN, 1, Some(2), 1, 2)
    && db.members[c] == Membership(c, g, 3, MEMBER, 1, None, 3, 3)
  }

  lemma FullClub() returns (calls: seq<Call>, g: Id, a: Id, b: Id, c: Id)
    ensures IsFullClub(Serial(calls), g, a, b, c)
  {
    var before;
    before, g, a, b := Invited();
    var accept, invite := Call(2, AcceptInvitation(b), 2), Call(1, InviteMember(g, 3, MEMBER), 3);
    AcceptOutcome(Serial(before), 2, b, 2);
    Append(before, accept);
    var accepted := before + [accept];
    c := Serial(accepted).nextMember;
    Invites(Serial(accepted), g, a, 3, MEMBER, 3);
    Append(accepted, invite);
    calls := accepted + [invite];
  }

  lemma ClubAdmins(db: Db, g: Id, a: Id, b: Id, c: Id)
    requires IsFullClub(db, g, a, b, c)
    ensures ActiveAdmins(db.members, g) == {a, b}
  {
  }

  // ---------------------------------------------------------------- overlapping

  /** A handler gets ready, another request is served from beginning to end, then the first commits. */
  lemma Overlap(calls: seq<Call>, actor: Id, req: Request, other: Call, now: Time) returns (events: seq<Event>, i: nat)
    requires other.Call? && Settle(Serial(calls), Started(actor, req)).Ready?
    ensures events != [] && events[|events| - 1] == CommitStep(i, now)
    ensures var w := Run(START, events[..|events| - 1]);
            w.db == Answer(Serial(calls), other) && i in w.flights &&
            w.flights[i] == Settle(Serial(calls), Started(actor, req))
  {
    var before := SerialIsRun(calls);
    var w := Run(START, before);
    i := |calls|;
    var settling := ArrivalSettles(w, i, actor, req);
    var w1 := Run(w, settling);
    var served := AnswerIsRun(w1, i + 1, other);
    RunAppend(w, settling, served);
    RunAppend(START, before, settling + served);
    events := before + (settling + served) + [CommitStep(i, now)];
    assert events[..|events| - 1] == before + (settling + served);
  }

  /** User 2 is demoted after having been found entitled to promote user 3; the promotion commits. */
  lemma UnjustifiedGrant() returns (events: seq<Event>)
    ensures !AllJustified(Run(START, events).db.log)
  {
    var calls, g, a, b, c := FullClub();
    var db := Serial(calls);
    StaleGrant(db, a, b, c, 4);
    var i;
    events, i := Overlap(calls, 2, PromoteMember(c), Call(1, DemoteMember(b), 4), 4);
    var log := Run(START, events).db.log;
    var n := |Run(START, events[..|events| - 1]).db.log|;
    assert Grants(log[n]) && !IsJustified(log, n);
  }

  /** The group is archived after user 1 has been found entitled to promote user 3; the promotion
      changes a role in the archived group. */
  lemma ThawedArchive() returns (events: seq<Event>, g: Id)
    ensures events != [] && IsArchived(DbAt(events, |events| - 1), g) && IsArchived(DbAt(events, |events|), g)
    ensures !FrozenBetween(events, |events| - 1, |events|, g)
  {
    var calls, a, b, c;
    calls, g, a, b, c := FullClub();
    StalePromotionThaws(Serial(calls), a, c, 4);
    var i;
    events, i := Overlap(calls, 1, PromoteMember(c), Call(1, ArchiveGroup(g), 4), 4);
    assert events[..|events|] == events;
  }

  /** Both admins demote each other. The second is refused by the trigger, answered 409, and changes
      nothing. */
  lemma RefusedDemotion() returns (events: seq<Event>, i: nat)
    ensures events != [] && i in Run(START, events[..|events| - 1]).flights
    ensures var w := Run(START, events[..|events| - 1]);
            && w.flights[i].Ready? && events[|events| - 1] == CommitStep(i, 4)
            && Exec(w.db, w.flights[i].actor, 4, w.flights[i].tx).1 == Failed(LastAdmin)
            && Run(START, events) == World(w.db, w.flights[i := Done(409)])
  {
    var calls, g, a, b, c := FullClub();
    var db := Serial(calls);
    ClubAdmins(db, g, a, b, c);
    MutualDemotion(db, a, b, 4);
    events, i := Overlap(calls, 2, DemoteMember(a), Call(1, DemoteMember(b), 4), 4);
  }

  /** The same with a removal: user 2, demoted meanwhile, cannot remove the last admin either. */
  lemma RefusedRemoval() returns (events: seq<Event>, i: nat)
    ensures events != [] && i in Run(START, events[..|events| - 1]).flights
    ensures var w := Run(START, events[..|events| - 1]);
            && w.flights[i].Ready? && events[|events| - 1] == CommitStep(i, 4)
            && Exec(w.db, w.flights[i].actor, 4, w.flights[i].tx).1 == Failed(LastAdmin)
            && Run(START, events) == World(w.db, w.flights[i := Done(409)])
  {
    var calls, g, a, b, c := FullClub();
    var db := Serial(calls);
    ClubAdmins(db, g, a, b, c);
    StaleDemotion(db, a, b, 4);
    RemovalIsReady(db, g, a, b, c);
    events, i := Overlap(calls, 2, RemoveMember(a), Call(1, DemoteMember(b), 4), 4);
    var v := Run(START, events[..|events| - 1]).db;
    DemotionLeavesOne(db.members, a, b, g, v.members);
    LastStays(v, g, a);
  }

  lemma RemovalIsReady(db: Db, g: Id, a: Id, b: Id, c: Id)
    requires IsFullClub(db, g, a, b, c) && ActiveAdmins(db.members, g) == {a, b}
    ensures Settle(db, Started(2, RemoveMember(a))) == Ready(2, RemoveMember(a), TxDelete(a))
  {
    AdminPassesChecks(db, b, RemoveMember(a));
    SetCount({a, b}, a);
    SetCount({a, b} - {a}, b);
  }

  lemma LastStays(db: Db, g: Id, a: Id)
    requires a in db.members && db.members[a].id == a && db.members[a].groupId == g
    requires ActiveAdmins(db.members, g) == {a}
    ensures Exec(db, 2, 4, TxDelete(a)) == (db, Failed(LastAdmin))
  {
    assert a in ActiveAdmins(db.members, g);
    assert ActiveAdmins(db.members, g) - {a} == {};
  }

  /** User 3 accepts twice at once; the second answer, 200 like the first, moves the time. */
  lemma MovedAcceptance() returns (events: seq<Event>, i: nat, c: Id)
    ensures events != [] && c in DbAt(events, |events| - 1).members && c in DbAt(events, |events|).members
    ensures DbAt(events, |events| - 1).members[c].acceptedAt == Some(4)
    ensures DbAt(events, |events|).members[c].acceptedAt == Some(5)
    ensures i in Run(START, events).flights && Run(START, events).flights[i] == Done(200)
  {
    var calls, g, a, b;
    calls, g, a, b, c := FullClub();
    DoubleAcceptance(Serial(calls), 3, c, 4, 5);
    events, i := Overlap(calls, 3, AcceptInvitation(c), Call(3, AcceptInvitation(c), 4), 5);
    assert events[..|events|] == events;
  }

  /** Users 1 and 2 both remove user 3; the second is answered 204 and leaves no trace. */
  lemma RemovedTwice() returns (events: seq<Event>, i: nat)
    ensures events != [] && i in Run(START, events).flights && Run(START, events).flights[i] == Done(204)
    ensures i in Run(START, events[..|events| - 1]).flights && Run(START, events[..|events| - 1]).flights[i].Ready?
    ensures DbAt(events, |events|) == DbAt(events, |events| - 1)
  {
    var calls, g, a, b, c := FullClub();
    var db := Serial(calls);
    assert IsAdmin(db, 1, g) && IsAdmin(db, 2, g);
    RemoveOutcome(db, 1, c, 4);
    AdminPassesChecks(db, b, RemoveMember(c));
    events, i := Overlap(calls, 2, RemoveMember(c), Call(1, RemoveMember(c), 4), 4);
    StaleRemoval(Run(START, events[..|events| - 1]).db, 2, c, 4);
    assert events[..|events|] == events;
  }

  // ---------------------------------------------------------------- after the commit

  /** User 1 renames the club and has committed, but not counted yet. */
  lemma Renamed(calls: seq<Call>, g: Id, a: Id) returns (events: seq<Event>, i: nat)
    requires IsClub(Serial(calls), g, a)
    ensures var w := Run(START, events);
            && i in w.flights && w.flights[i] == Updated(1, UpdateGroup(g, Some("guild"), None, NAMING_NONE))
            && (forall k | k in w.flights :: k <= i)
            && Inv(w.db) && w.db.members == Serial(calls).members && IsOpen(w.db, g) && w.db.groups[g].name == "guild"
  {
    var db, req := Serial(calls), UpdateGroup(g, Some("guild"), None, NAMING_NONE);
    assert TrimSpace("guild") == "guild" && IsAdmin(db, 1, g);
    UpdateOutcome(db, 1, g, Some("guild"), None, NAMING_NONE, 4);
    UpdateCommits(db, 1, req, 4);
    ServeKeepsInv(db, 1, req, 4);
    var before := SerialIsRun(calls);
    var w := Run(START, before);
    i := |calls|;
    var settling := ArrivalSettles(w, i, 1, req);
    RunAppend(START, before, settling);
    events := before + settling + [CommitStep(i, 4)];
    assert events[..|events| - 1] == before + settling;
  }

  /** A count query behind the committed update fails: 500 is answered and the new name stands. */
  lemma UpdateStands() returns (events: seq<Event>, i: nat, g: Id)
    ensures var w := Run(START, events);
            i in w.flights && w.flights[i] == Done(500) && Wrote(events, i) &&
            g in w.db.groups && w.db.groups[g].name == "guild"
  {
    var calls, a, before;
    calls, g, a := Founded();
    before, i := Renamed(calls, g, a);
    events := before + [DatabaseError(i, 0, 0)];
    assert events[..|before|] == before;
    assert IsPastAt(events, |before|, i);
    ErrorsTell(events, i);
  }

  /** A handler past its commit reads the members, others do their part, and it reads the admins. */
  lemma ReadsAround(before: seq<Event>, i: nat, g: Id, middle: seq<Event>) returns (events: seq<Event>, n: nat)
    requires var w := Run(START, before);
             && i in w.flights && w.flights[i] == Updated(1, UpdateGroup(g, Some("guild"), None, NAMING_NONE))
             && g in w.db.groups
             && var w1 := Next(w, ReadStep(i));
                i in Run(w1, middle).flights && Run(w1, middle).flights[i] == w1.flights[i]
    ensures var w := Run(START, before);
            var v := Run(Next(w, ReadStep(i)), middle);
            && n <= |events| && |before| <= n && DbAt(events, |before|) == w.db && DbAt(events, n) == v.db
            && AnsweredAt(events, i, |before|, n, g, Counts(MemberCount(w.db.members, g), AdminCount(v.db.members, g)))
  {
    var w := Run(START, before);
    var w1 := Next(w, ReadStep(i));
    var v := Run(w1, middle);
    RunOne(w, ReadStep(i));
    RunAppend(w, [ReadStep(i)], middle);
    RunAppend(START, before, [ReadStep(i)] + middle);
    var front := before + ([ReadStep(i)] + middle);
    events, n := front + [ReadStep(i)], |front|;
    assert events[..n] == front && events[..|before|] == before && events[..|events|] == events;
  }

  lemma ClubCounts(before: Members, after: Members, g: Id, a: Id, b: Id)
    requires a != b && before.Keys == after.Keys == {a, b}
    requires before[a].groupId == g && IsActiveAdmin(before[a]) && before[b].acceptedAt.None?
    requires after[a] == before[a] && after[b].groupId == g && IsActiveAdmin(after[b])
    ensures MemberCount(before, g) == 1 && AdminCount(after, g) == 2
  {
    assert ActiveMembers(before, g) == {a};
    assert ActiveAdmins(after, g) == {a, b};
  }

  /** User 2 accepts an admin invitation between the two counts: the answer is one member, two admins. */
  lemma TornCounts() returns (events: seq<Event>, i: nat, m: nat, n: nat, g: Id)
    ensures AnsweredAt(events, i, m, n, g, Counts(1, 2))
  {
    var calls, a, b, before;
    calls, g, a, b := Invited();
    before, i := Renamed(calls, g, a);
    var w := Run(START, before);
    var w1 := Next(w, ReadStep(i));
    var middle := AnswerIsRun(w1, i + 1, Call(2, AcceptInvitation(b), 5));
    AcceptOutcome(w.db, 2, b, 5);
    ClubCounts(w.db.members, Run(w1, middle).db.members, g, a, b);
    m := |before|;
    events, n := ReadsAround(before, i, g, middle);
  }

  /** User 3 has been invited as member. */
  lemma InvitedMember() returns (calls: seq<Call>, g: Id, a: Id, c: Id)
    ensures IsClub(Serial(calls), g, a) && a != c && Serial(calls).members.Keys == {a, c}
    ensures Serial(calls).members[c] == Membership(c, g, 3, MEMBER, 1, None, 1, 1)
  {
    var before;
    before, g, a := Founded();
    c := Serial(before).nextMember;
    var invite := Call(1, InviteMember(g, 3, MEMBER), 1);
    Invites(Serial(before), g, a, 3, MEMBER, 1);
    Append(before, invite);
    calls := before + [invite];
  }

  /** Accepting a plain invitation and promoting are no acceptance of an admin invitation. */
  lemma NoAdminAccepts(db: Db, actor: Id, req: Request, now: Time, g: Id)
    requires Inv(db)
    requires if req.AcceptInvitation? then req.memberId in db.members && db.members[req.memberId].role == MEMBER
             else req.PromoteMember?
    ensures var log := Serve(db, actor, req, now).0.log;
            db.log <= log && forall k | |db.log| <= k < |log| :: !AdminAcceptance(log[k], g)
  {
    if req.AcceptInvitation? { SettleAccept(db, actor, req); } else { SettleManaged(db, actor, req); }
    if req.memberId in db.members { assert MemberOk(db, req.memberId); }
  }

  /** It takes no admin invitation: user 3 joins as a member and is promoted between the two counts. */
  lemma TornByPromotion() returns (events: seq<Event>, i: nat, m: nat, n: nat, g: Id)
    ensures AnsweredAt(events, i, m, n, g, Counts(1, 2))
    ensures forall e | e in Between(events, m, n) :: !AdminAcceptance(e, g)
  {
    var calls, a, c, before;
    calls, g, a, c := InvitedMember();
    before, i := Renamed(calls, g, a);
    var w := Run(START, before);
    var w1 := Next(w, ReadStep(i));
    var middle := JoinsAndRises(w1, i, g, a, c);
    ClubCounts(w.db.members, Run(w1, middle).db.members, g, a, c);
    m := |before|;
    events, n := ReadsAround(before, i, g, middle);
  }

  /** User 3 accepts and is promoted, beside the handlers under way. */
  lemma JoinsAndRises(w: World, i: nat, g: Id, a: Id, c: Id) returns (events: seq<Event>)
    requires Inv(w.db) && IsOpen(w.db, g) && w.db.members.Keys == {a, c} && a != c
    requires w.db.members[a].groupId == g && w.db.members[a].userId == 1 && IsActiveAdmin(w.db.members[a])
    requires w.db.members[c] == Membership(c, g, 3, MEMBER, 1, None, 1, 1)
    requires i in w.flights && forall k | k in w.flights :: k <= i
    ensures var v := Run(w, events);
            && i in v.flights && v.flights[i] == w.flights[i]
            && v.db.members == w.db.members[c := Membership(c, g, 3, ADMIN, 1, Some(5), 1, 6)]
            && w.db.log <= v.db.log && forall k | |w.db.log| <= k < |v.db.log| :: !AdminAcceptance(v.db.log[k], g)
  {
    var accepting := AnswerIsRun(w, i + 1, Call(3, AcceptInvitation(c), 5));
    var w1 := Run(w, accepting);
    AcceptOutcome(w.db, 3, c, 5);
    NoAdminAccepts(w.db, 3, AcceptInvitation(c), 5, g);
    ServeKeepsInv(w.db, 3, AcceptInvitation(c), 5);
    var promoting := AnswerIsRun(w1, i + 2, Call(1, PromoteMember(c), 6));
    PromoteInClub(w1.db, g, a, c);
    NoAdminAccepts(w1.db, 1, PromoteMember(c), 6, g);
    events := accepting + promoting;
    RunAppend(w, accepting, promoting);
    var log := Run(w, events).db.log;
    forall k | |w.db.log| <= k < |log| ensures !AdminAcceptance(log[k], g) {
      if k < |w1.db.log| { assert log[k] == w1.db.log[k]; }
    }
  }

  lemma PromoteInClub(db: Db, g: Id, a: Id, c: Id)
    requires Inv(db) && a in db.members && c in db.members && a != c && IsOpen(db, g)
    requires db.members[a].groupId == g && db.members[a].userId == 1 && IsActiveAdmin(db.members[a])
    requires db.members[c].groupId == g && db.members[c].role == MEMBER
    ensures Serve(db, 1, PromoteMember(c), 6).0.members
         == db.members[c := db.members[c].(role := ADMIN, updatedAt := 6)]
  {
    assert IsAdmin(db, 1, g);
    PromoteOutcome(db, 1, c, 6);
  }
}

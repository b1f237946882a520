/** The last-admin guarantee: what the pre-checks give, and what only the trigger gives. */
module Safety {
  import opened Wrappers
  import opened Rows
  import opened Statements
  import opened Authorization
  import opened Protocol
  import opened Invariant

  /** With unique pairs the lookup finds the one row there is. */
  lemma FindsMembership(members: Members, id: Id)
    requires PairsDistinct(members) && id in members
    ensures FindMembership(members, members[id].groupId, members[id].userId) == Some(members[id])
  {
    assert PairTaken(members, members[id].groupId, members[id].userId);
  }

  /** In every reachable database each group has somebody who is let in as its admin. */
  lemma EveryGroupHasAnAdmin(events: seq<Event>, groupId: Id) returns (userId: Id)
    requires groupId in Run(START, events).db.groups
    ensures var db := Run(START, events).db;
            var ac := NewAuthContext(userId, db.groups[groupId], FindMembership(db.members, groupId, userId));
            AdminCount(db.members, groupId) >= 1 &&
            ac.CanArchiveGroup() && ac.CanManageMembers() && ac.CanUpdateGroup() && ac.CanInviteMembers()
  {
    RunKeepsWorld(events);
    var db := Run(START, events).db;
    var id := SomeAdmin(db, groupId);
    userId := db.members[id].userId;
    FindsMembership(db.members, id);
  }

  lemma SomeAdmin(db: Db, groupId: Id) returns (id: Id)
    requires Inv(db) && groupId in db.groups
    ensures id in ActiveAdmins(db.members, groupId) && AdminCount(db.members, groupId) >= 1
  {
    var admins := ActiveAdmins(db.members, groupId);
    assert admins != {};
    SomeElement(admins);
    id :| id in admins;
    SetCount(admins, id);
  }

  lemma SetCount(s: set<Id>, id: Id)
    ensures |s| == |s - {id}| + if id in s then 1 else 0
  {
    if id in s { assert s == s - {id} + {id}; } else { assert s == s - {id}; }
  }

  // ---------------------------------------------------------------- handlers on their own

  /** The reads of handlePromoteMember, handleDemoteMember and handleRemoveMember, taken together. */
  ghost function Managed(db: Db, actor: Id, req: Request): Flight
    requires ManagesMember(req)
  {
    if req.memberId !in db.members then Done(404)
    else
      var target := db.members[req.memberId];
      if target.groupId !in db.groups then Done(404)
      else
        var group := db.groups[target.groupId];
        var ac := NewAuthContext(actor, group, FindMembership(db.members, group.id, actor));
        var f := Decide(actor, req, Some(target), ac);
        if f.NeedCount? then Read(db, f) else f
  }

  lemma SettleManaged(db: Db, actor: Id, req: Request)
    requires ManagesMember(req)
    ensures Settle(db, Started(actor, req)) == Managed(db, actor, req)
  {
    var f1 := Read(db, Started(actor, req));
    assert Settle(db, Started(actor, req)) == Settle(db, f1);
    if f1.HaveTarget? {
      var f2 := Read(db, f1);
      assert Settle(db, f1) == Settle(db, f2);
      if f2.HaveGroup? {
        var f3 := Read(db, f2);
        assert Settle(db, f2) == Settle(db, f3);
        if f3.NeedCount? {
          assert Settle(db, f3) == Settle(db, Read(db, f3));
        }
      }
    }
  }

  lemma TwoAdminsLeaveOne(members: Members, groupId: Id, id: Id)
    requires AdminCount(members, groupId) > 1
    ensures ActiveAdmins(members, groupId) - {id} != {}
  {
    SetCount(ActiveAdmins(members, groupId), id);
  }

  /** A request served with nobody in between never runs into the trigger: its own pre-check has
      already made sure. The trigger speaks only when what a handler read is out of date. */
  lemma TriggerIsForStaleReads(db: Db, actor: Id, req: Request, now: Time)
    requires Inv(db)
    ensures var f := Settle(db, Started(actor, req));
            f.Ready? ==> Exec(db, f.actor, now, f.tx).1 != Failed(LastAdmin)
  {
    var f := Settle(db, Started(actor, req));
    if f.Ready? {
      if ManagesMember(req) {
        ManagedTransactions(db, actor, req);
        CoveredPasses(db, f.actor, now, f.tx);
      } else {
        OtherTransactions(db, Started(actor, req));
        OthersPass(db, f.actor, now, f.tx);
      }
    }
  }

  /** A managing handler takes the admin role from a row only with a second active admin at hand. */
  ghost predicate IsCovered(db: Db, tx: Tx)
  {
    && (tx.TxSetRole? || tx.TxDelete?) && tx.memberId in db.members
    && var m := db.members[tx.memberId];
       (tx.TxSetRole? && tx.role == ADMIN) || m.role != ADMIN || AdminCount(db.members, m.groupId) > 1
  }

  lemma ManagedTransactions(db: Db, actor: Id, req: Request)
    requires ManagesMember(req)
    ensures var f := Settle(db, Started(actor, req)); f.Ready? ==> IsCovered(db, f.tx)
  {
    SettleManaged(db, actor, req);
  }

  lemma CoveredPasses(db: Db, actor: Id, now: Time, tx: Tx)
    requires Inv(db) && IsCovered(db, tx)
    ensures Exec(db, actor, now, tx).1 != Failed(LastAdmin)
  {
    var m := db.members[tx.memberId];
    assert MemberOk(db, tx.memberId);
    if AdminCount(db.members, m.groupId) > 1 {
      TwoAdminsLeaveOne(db.members, m.groupId, m.id);
    }
  }

  lemma OthersPass(db: Db, actor: Id, now: Time, tx: Tx)
    requires !tx.TxSetRole? && !tx.TxDelete?
    ensures Exec(db, actor, now, tx).1 != Failed(LastAdmin)
  {
  }

  /** No other request sets a role or deletes a membership. */
  lemma {:induction false} OtherTransactions(db: Db, f: Flight)
    requires !f.Done? && !ManagesMember(f.req)
    requires f.Ready? ==> !f.tx.TxSetRole? && !f.tx.TxDelete?
    ensures var r := Settle(db, f); r.Ready? ==> !r.tx.TxSetRole? && !r.tx.TxDelete?
    decreases Rank(f)
  {
    if !f.Ready? {
      var g := Read(db, f);
      if !g.Done? { OtherTransactions(db, g); }
    }
  }

  /** For a membership with the admin role the pre-check refuses more than the trigger would: exactly
      the pending invitations to admin while the group has a single active admin. */
  lemma PreCheckIsStricter(db: Db, id: Id, after: Option<Membership>)
    requires Inv(db) && id in db.members && db.members[id].role == ADMIN
    requires after.Some? ==> after.value.role != ADMIN
    ensures var m := db.members[id];
            var refused := AdminCount(db.members, m.groupId) <= 1;
            && (!refused ==> !TriggerRaises(db.members, m, after))
            && (refused && !TriggerRaises(db.members, m, after) <==>
                  m.acceptedAt.None? && AdminCount(db.members, m.groupId) == 1)
  {
    var m := db.members[id];
    assert MemberOk(db, id);
    var _ := SomeAdmin(db, m.groupId);
    if AdminCount(db.members, m.groupId) > 1 {
      TwoAdminsLeaveOne(db.members, m.groupId, id);
    }
    SetCount(ActiveAdmins(db.members, m.groupId), id);
  }

  /** The trigger raises exactly when the change would leave the group without an active admin. */
  lemma TriggerIsExact(db: Db, id: Id, newRow: Option<Membership>)
    requires Inv(db) && id in db.members
    requires newRow.Some? ==> newRow.value.id == id && newRow.value.groupId == db.members[id].groupId
    requires newRow.Some? && db.members[id].acceptedAt.Some? ==> newRow.value.acceptedAt.Some?
    ensures var after := if newRow.Some? then db.members[id := newRow.value] else db.members - {id};
            TriggerRaises(db.members, db.members[id], newRow) <==> ActiveAdmins(after, db.members[id].groupId) == {}
  {
    var g := db.members[id].groupId;
    var after := if newRow.Some? then db.members[id := newRow.value] else db.members - {id};
    assert MemberOk(db, id);
    var admin := SomeAdmin(db, g);
    assert ActiveAdmins(after, g) - {id} == ActiveAdmins(db.members, g) - {id};
    if newRow.Some? { assert id in ActiveAdmins(after, g) <==> IsActiveAdmin(newRow.value); }
    if admin != id { assert admin in ActiveAdmins(db.members, g) - {id}; }
  }

  /** Row by row, over any table: it looks at accepted admins only, and at all of them but the row itself. */
  lemma TriggerReads(members: Members, oldRow: Membership, newRow: Option<Membership>)
    ensures TriggerRaises(members, oldRow, newRow) <==>
              && oldRow.role == "admin" && oldRow.acceptedAt.Some?
              && (newRow.Some? ==> newRow.value.role != "admin")
              && forall k | k in members && k != oldRow.id ::
                   !(members[k].groupId == oldRow.groupId && members[k].role == "admin" && members[k].acceptedAt.Some?)
  {
    var others := ActiveAdmins(members, oldRow.groupId) - {oldRow.id};
    if others != {} {
      SomeElement(others);
    } else {
      assert forall k | k in members && k != oldRow.id :: k !in others;
    }
  }

  // ---------------------------------------------------------------- two demotions at once

  lemma AdminPassesChecks(db: Db, actorRow: Id, req: Request)
    requires Inv(db) && actorRow in db.members && IsActiveAdmin(db.members[actorRow]) && ManagesMember(req)
    requires req.memberId in db.members && db.members[req.memberId].groupId == db.members[actorRow].groupId
    requires IsOpen(db, db.members[actorRow].groupId)
    ensures var actor := db.members[actorRow].userId;
            var f := DecideMember(actor, req, db.members[req.memberId]);
            Settle(db, Started(actor, req)) == if f.NeedCount? then Read(db, f) else f
  {
    SettleManaged(db, db.members[actorRow].userId, req);
    FindsMembership(db.members, actorRow);
    assert MemberOk(db, actorRow) && MemberOk(db, req.memberId);
    assert GroupOk(db, db.members[actorRow].groupId);
  }

  /** With two active admins each one's demotion of the other passes every check. */
  lemma DemotionIsReady(db: Db, a: Id, b: Id)
    requires Inv(db) && a in db.members && b in db.members && a != b
    requires var g := db.members[a].groupId;
             db.members[b].groupId == g && ActiveAdmins(db.members, g) == {a, b} && IsOpen(db, g)
    ensures Settle(db, Started(db.members[a].userId, DemoteMember(b)))
         == Ready(db.members[a].userId, DemoteMember(b), TxSetRole(b, MEMBER))
  {
    assert a in ActiveAdmins(db.members, db.members[a].groupId) && b in ActiveAdmins(db.members, db.members[a].groupId);
    AdminPassesChecks(db, a, DemoteMember(b));
    SetCount({a, b}, a);
    SetCount({a, b} - {a}, b);
  }

  lemma DemotionLeavesOne(members: Members, a: Id, b: Id, g: Id, after: Members)
    requires a != b && ActiveAdmins(members, g) == {a, b}
    requires b in members && b in after && after == members[b := after[b]] && after[b].role == MEMBER
    ensures ActiveAdmins(after, g) == {a}
  {
    forall k ensures k in ActiveAdmins(after, g) <==> k == a {
      assert k in ActiveAdmins(members, g) <==> k == a || k == b;
    }
  }

  lemma DemotionLeavesNone(members: Members, a: Id, g: Id)
    requires a in members && ActiveAdmins(members, g) == {a}
    ensures ActiveAdmins(members[a := members[a].(role := MEMBER)], g) == {}
  {
    var after := members[a := members[a].(role := MEMBER)];
    forall k ensures k in ActiveAdmins(after, g) ==> k in ActiveAdmins(members, g) && k != a {
      if k != a && k in after { assert after[k] == members[k]; }
    }
    assert ActiveAdmins(after, g) <= {a} - {a};
  }

  /** The race the trigger is there for. When the two remaining admins of a group demote each other,
      both pass every pre-check; the second transaction is refused by the trigger, answered 409 and
      leaves everything as it was; had it gone through, the group would have had no admin. */
  lemma MutualDemotion(db: Db, a: Id, b: Id, now: Time)
    requires Inv(db) && a in db.members && b in db.members && a != b
    requires var g := db.members[a].groupId;
             db.members[b].groupId == g && ActiveAdmins(db.members, g) == {a, b} && IsOpen(db, g)
    ensures var g := db.members[a].groupId;
            var fa := Settle(db, Started(db.members[a].userId, DemoteMember(b)));
            var fb := Settle(db, Started(db.members[b].userId, DemoteMember(a)));
            && fa.Ready? && fb.Ready?
            && var db1 := Commit(db, fa, now).0;
               && Commit(db, fa, now).1 == Done(200)
               && Exec(db1, fb.actor, now, fb.tx).1 == Failed(LastAdmin)
               && Commit(db1, fb, now) == (db1, Done(409))
               && a in db1.members
               && ActiveAdmins(db1.members[a := db1.members[a].(role := MEMBER)], g) == {}
  {
    var g := db.members[a].groupId;
    DemotionIsReady(db, a, b);
    DemotionIsReady(db, b, a);
    assert a in ActiveAdmins(db.members, g) && b in ActiveAdmins(db.members, g);
    assert MemberOk(db, a) && MemberOk(db, b);
    assert a in ActiveAdmins(db.members, g) - {b};
    var db1 := Commit(db, Ready(db.members[a].userId, DemoteMember(b), TxSetRole(b, MEMBER)), now).0;
    DemotionLeavesOne(db.members, a, b, g, db1.members);
    assert ActiveAdmins(db1.members, g) - {a} == {};
    assert db1.members[a] == db.members[a];
    DemotionLeavesNone(db1.members, a, g);
  }
}

/** The group tree, group handles, and the listings that join groups with memberships. */
module Hierarchy {
  import opened Wrappers
  import opened Handles
  import opened Rows
  import opened Statements
  import opened Protocol
  import opened Invariant
  import opened Effects
  import opened Sequential

  /** The walk from a group to its parent, its parent's parent and so on; that it ends is the point. */
  ghost function Ancestors(db: Db, id: Id): seq<Id>
    requires RowsOk(db) && id in db.groups
    decreases if id > 0 then id else 0
  {
    assert GroupOk(db, id);
    if db.groups[id].parentId.None? then [id] else [id] + Ancestors(db, db.groups[id].parentId.value)
  }

  lemma {:induction false} AncestorsDescend(db: Db, id: Id)
    requires RowsOk(db) && id in db.groups
    ensures var w := Ancestors(db, id);
            && w[0] == id && (forall i | 0 <= i < |w| :: w[i] in db.groups)
            && (forall i, j | 0 <= i < j < |w| :: w[j] < w[i])
            && db.groups[w[|w| - 1]].parentId == None
            && |w| <= id
    decreases if id > 0 then id else 0
  {
    assert GroupOk(db, id);
    if db.groups[id].parentId.Some? {
      AncestorsDescend(db, db.groups[id].parentId.value);
    }
  }

  /** In every reachable database each group's ancestor walk ends at a root after visiting ever smaller
      ids, so nothing is its own ancestor. */
  lemma GroupsFormAForest(events: seq<Event>, id: Id)
    requires id in Run(START, events).db.groups
    ensures RowsOk(Run(START, events).db)
    ensures var db := Run(START, events).db;
            var w := Ancestors(db, id);
            && (forall i, j | 0 <= i < j < |w| :: w[j] < w[i])
            && w[|w| - 1] in db.groups && db.groups[w[|w| - 1]].parentId == None
            && |w| <= id
  {
    RunKeepsWorld(events);
    AncestorsDescend(Run(START, events).db, id);
  }

  lemma {:induction false} AncestorsStay(a: Db, b: Db, id: Id)
    requires RowsOk(a) && RowsOk(b) && Evolves(a, b) && id in a.groups
    ensures Ancestors(b, id) == Ancestors(a, id)
    decreases if id > 0 then id else 0
  {
    assert GroupOk(a, id);
    if a.groups[id].parentId.Some? { AncestorsStay(a, b, a.groups[id].parentId.value); }
  }

  /** A group's ancestors are settled when it is created: no later point of a run sees others. */
  lemma AncestryIsPermanent(events: seq<Event>, n: nat, id: Id)
    requires n <= |events| && id in Run(START, events[..n]).db.groups
    ensures RowsOk(Run(START, events[..n]).db) && RowsOk(Run(START, events).db) && id in Run(START, events).db.groups
    ensures Ancestors(Run(START, events).db, id) == Ancestors(Run(START, events[..n]).db, id)
  {
    RunKeepsWorld(events);
    RunKeepsWorld(events[..n]);
    RunEvolves(events, n);
    AncestorsStay(Run(START, events[..n]).db, Run(START, events).db, id);
  }

  // ---------------------------------------------------------------- handles

  /** Every stored handle has the strict format, and with it case-insensitive uniqueness is plain
      inequality: a well-formed handle is taken exactly when some group has it letter for letter. */
  lemma StoredHandles(events: seq<Event>, handle: string)
    requires IsValidHandle(handle)
    ensures var db := Run(START, events).db;
            && (forall id | id in db.groups :: IsValidHandle(db.groups[id].handle))
            && HandlesDistinct(db.groups)
            && (HandleTaken(db.groups, handle) <==> exists id :: id in db.groups && db.groups[id].handle == handle)
            && (handle in TakenHandles(db.groups) <==> HandleTaken(db.groups, handle))
  {
    RunKeepsWorld(events);
    var db := Run(START, events).db;
    LowerKeepsHandles(handle);
    forall id | id in db.groups
      ensures IsValidHandle(db.groups[id].handle) && Lower(db.groups[id].handle) == db.groups[id].handle
    {
      assert GroupOk(db, id);
      LowerKeepsHandles(db.groups[id].handle);
    }
  }

  /** What a handler asks the database to create passes the schema's own format check. */
  lemma ReadyHandlesPassCheck(events: seq<Event>, i: nat)
    ensures var w := Run(START, events);
            i in w.flights && w.flights[i].Ready? && w.flights[i].tx.TxCreateGroup? ==>
              IsValidHandle(w.flights[i].tx.params.handle) && HandleFormat(w.flights[i].tx.params.handle)
  {
    RunKeepsWorld(events);
    var w := Run(START, events);
    if i in w.flights && w.flights[i].Ready? && w.flights[i].tx.TxCreateGroup? {
      LowerKeepsHandles(w.flights[i].tx.params.handle);
    }
  }

  // ---------------------------------------------------------------- listings

  /** The rows of ListGroupsByUserWithCounts: matching pairs of group and membership id. */
  ghost function Listing(db: Db, userId: Id, includeArchived: bool): set<(Id, Id)>
  {
    set m | m in db.members && IsListed(db, userId, includeArchived, m) :: (db.members[m].groupId, m)
  }

  /** In every reachable database the join lists each of the user's groups exactly once. */
  lemma EachGroupListedOnce(events: seq<Event>, userId: Id, includeArchived: bool)
    ensures var db := Run(START, events).db;
            var rows := Listing(db, userId, includeArchived);
            && (forall r, s | r in rows && s in rows && r.0 == s.0 :: r == s)
            && (forall g ::
                  IsMember(db, userId, g) && (includeArchived || IsOpen(db, g)) <==> exists m :: (g, m) in rows)
  {
    RunKeepsWorld(events);
    var db := Run(START, events).db;
    var rows := Listing(db, userId, includeArchived);
    forall r, s | r in rows && s in rows && r.0 == s.0 ensures r == s {
      assert db.members[r.1].groupId == db.members[s.1].groupId && db.members[r.1].userId == db.members[s.1].userId;
    }
    forall g ensures IsMember(db, userId, g) && (includeArchived || IsOpen(db, g)) <==> exists m :: (g, m) in rows {
      if IsMember(db, userId, g) && (includeArchived || IsOpen(db, g)) {
        var m :| m in db.members && db.members[m].groupId == g && db.members[m].userId == userId &&
                 db.members[m].acceptedAt.Some?;
        assert MemberOk(db, m);
        assert (g, m) in rows;
      }
      if m :| (g, m) in rows {
        assert db.members[m].groupId == g;
      }
    }
  }
}

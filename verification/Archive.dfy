/** What archiving a group freezes when requests are served one at a time, and what out-of-date
    reads can still change. */
module Archive {
  import opened Wrappers
  import opened Rows
  import opened Statements
  import opened Protocol
  import opened Invariant
  import opened Effects
  import opened Safety
  import opened Sequential
  import opened Provenance

  function MembershipIds(members: Members, groupId: Id): set<Id>
  {
    set id | id in members && members[id].groupId == groupId
  }

  function Subgroups(groups: Groups, parentId: Id): set<Id>
  {
    set id | id in groups && groups[id].parentId == Some(parentId)
  }

  /** Everything but the archiving itself and its time stamp. */
  predicate SameSettings(a: Group, b: Group)
  {
    b == a.(archivedAt := b.archivedAt, updatedAt := b.updatedAt)
  }

  /** An accepted membership is untouched; an invitation may only be accepted. */
  predicate OnlyAccepted(a: Membership, b: Membership)
  {
    || b == a
    || (a.acceptedAt.None? && b.acceptedAt.Some? && b == a.(acceptedAt := b.acceptedAt, updatedAt := b.updatedAt))
  }

  predicate Frozen(a: Db, b: Db, groupId: Id)
    requires groupId in a.groups
  {
    && groupId in b.groups && SameSettings(a.groups[groupId], b.groups[groupId])
    && Subgroups(b.groups, groupId) == Subgroups(a.groups, groupId)
    && MembershipIds(b.members, groupId) == MembershipIds(a.members, groupId)
    && forall id | id in MembershipIds(a.members, groupId) ::
         id in b.members && OnlyAccepted(a.members[id], b.members[id])
  }

  predicate IsArchived(db: Db, groupId: Id) { groupId in db.groups && db.groups[groupId].archivedAt.Some? }

  lemma FrozenOn(a: Db, b: Db, c: Db, groupId: Id)
    requires groupId in a.groups && Frozen(a, b, groupId) && Frozen(b, c, groupId)
    ensures Frozen(a, c, groupId)
  {
    forall id | id in MembershipIds(a.members, groupId)
      ensures id in c.members && OnlyAccepted(a.members[id], c.members[id])
    {
      assert id in MembershipIds(b.members, groupId);
    }
  }

  // ---------------------------------------------------------------- exactly when

  /** A row of the group, there to be written. */
  predicate IsRowOf(db: Db, id: Id, groupId: Id) { id in db.members && db.members[id].groupId == groupId }

  predicate Renames(g: Group, p: GroupPatch)
  {
    || (p.name.Some? && p.name.value != g.name)
    || (p.description.Some? && p.description != g.description)
    || PatchFlags(p.flags, g.flags) != g.flags
  }

  /** What a transaction would have to do to a group to break the freeze: hang a subgroup under it,
      change its settings, invite into it, or touch one of its rows in any way but a first acceptance. */
  predicate Thaws(db: Db, now: Time, tx: Tx, groupId: Id)
  {
    match tx
    case TxCreateGroup(p) => p.parentId == Some(groupId)
    case TxUpdateGroup(id, p) => id == groupId && id in db.groups && Renames(db.groups[id], p)
    case TxSetArchived(_, _) => false
    case TxInvite(id, _, _) => id == groupId
    case TxAccept(id) =>
      IsRowOf(db, id, groupId) && db.members[id].acceptedAt.Some? &&
      !(db.members[id].acceptedAt == Some(now) && db.members[id].updatedAt == now)
    case TxSetRole(id, role) =>
      IsRowOf(db, id, groupId) && !(db.members[id].role == role && db.members[id].updatedAt == now)
    case TxDelete(id) => IsRowOf(db, id, groupId)
  }

  /** Writing one membership row without moving it between groups. */
  lemma MemberWriteFreezesIff(db: Db, actor: Option<Id>, m: Membership, groupId: Id)
    requires RowsOk(db) && groupId in db.groups
    requires m.id in db.members ==> m.groupId == db.members[m.id].groupId
    ensures Frozen(db, WriteMember(db, actor, m), groupId) <==>
              (m.groupId == groupId ==> m.id in db.members && OnlyAccepted(db.members[m.id], m))
  {
    var v := WriteMember(db, actor, m);
    if m.groupId == groupId {
      assert m.id in MembershipIds(v.members, groupId);
      assert m.id in db.members <==> m.id in MembershipIds(db.members, groupId);
    }
    if m.groupId == groupId ==> m.id in db.members && OnlyAccepted(db.members[m.id], m) {
      assert MembershipIds(v.members, groupId) == MembershipIds(db.members, groupId);
    }
  }

  lemma GroupWriteFreezesIff(db: Db, actor: Option<Id>, g: Group, groupId: Id)
    requires RowsOk(db) && groupId in db.groups
    requires g.id in db.groups ==> g.parentId == db.groups[g.id].parentId
    ensures Frozen(db, WriteGroup(db, actor, g), groupId) <==>
              if g.id in db.groups then g.id == groupId ==> SameSettings(db.groups[groupId], g)
              else g.parentId != Some(groupId)
  {
    assert GroupOk(db, groupId);
    var v := WriteGroup(db, actor, g);
    if g.id in db.groups || g.parentId != Some(groupId) {
      assert Subgroups(v.groups, groupId) == Subgroups(db.groups, groupId);
    } else {
      assert g.id in Subgroups(v.groups, groupId);
    }
  }

  ghost predicate FreezesAsSaid(db: Db, actor: Id, now: Time, tx: Tx, groupId: Id)
    requires groupId in db.groups
  {
    var (v, r) := Exec(db, actor, now, tx);
    Frozen(db, v, groupId) <==> r.Failed? || !Thaws(db, now, tx, groupId)
  }

  lemma RefusalFreezes(db: Db, actor: Id, now: Time, tx: Tx, groupId: Id)
    requires RowsOk(db) && groupId in db.groups && Exec(db, actor, now, tx).1.Failed?
    ensures Frozen(db, Exec(db, actor, now, tx).0, groupId)
  {
    ExecEffects(db, actor, now, tx);
  }

  lemma CreationFreezesIff(db: Db, actor: Id, now: Time, p: GroupParams, groupId: Id)
    requires Inv(db) && groupId in db.groups && TxOk(actor, TxCreateGroup(p))
    requires Exec(db, actor, now, TxCreateGroup(p)).1.Ok?
    ensures FreezesAsSaid(db, actor, now, TxCreateGroup(p), groupId)
  {
    var db1 := InsertGroup(db, Some(actor), now, p).0;
    var v := Exec(db, actor, now, TxCreateGroup(p)).0;
    InsertionFreezesIff(db, actor, now, p, groupId);
    FoundingFreezes(db1, actor, now, db.nextGroup, groupId);
    SecondStepFreezes(db, db1, v, groupId);
  }

  lemma InsertionFreezesIff(db: Db, actor: Id, now: Time, p: GroupParams, groupId: Id)
    requires Inv(db) && groupId in db.groups && TxOk(actor, TxCreateGroup(p))
    requires InsertGroup(db, Some(actor), now, p).1.Ok?
    ensures var db1 := InsertGroup(db, Some(actor), now, p).0;
            && Sound(db1) && db1.members == db.members && groupId in db1.groups && db.nextGroup !in db.groups
            && (Frozen(db, db1, groupId) <==> p.parentId != Some(groupId))
  {
    var g := NewGroup(db.nextGroup, p, now);
    IdsAreBelow(db);
    DrawnStaysSound(db, 1, 0);
    GroupInserted(db, Some(actor), g);
    GroupWriteFreezesIff(db.(nextGroup := g.id + 1), Some(actor), g, groupId);
  }

  /** The founder's row belongs to the new group. */
  lemma FoundingFreezes(db: Db, actor: Id, now: Time, newGroup: Id, groupId: Id)
    requires Sound(db) && groupId in db.groups && newGroup != groupId
    ensures var (v, r) := InsertMember(db, Some(actor), now, newGroup, actor, ADMIN, actor, Some(now));
            r.Ok? ==> v.groups == db.groups && Frozen(db, v, groupId)
  {
    IdsAreBelow(db);
    DrawnStaysSound(db, 0, 1);
    var m := Membership(db.nextMember, newGroup, actor, ADMIN, actor, Some(now), now, now);
    MemberWriteFreezesIff(db.(nextMember := db.nextMember + 1), Some(actor), m, groupId);
  }

  /** A frozen second step leaves the verdict to the first. */
  lemma SecondStepFreezes(a: Db, b: Db, c: Db, groupId: Id)
    requires groupId in a.groups && groupId in b.groups && Frozen(b, c, groupId)
    requires a.members == b.members && b.groups == c.groups
    ensures Frozen(a, c, groupId) <==> Frozen(a, b, groupId)
  {
    if Frozen(a, b, groupId) { FrozenOn(a, b, c, groupId); }
  }

  lemma GroupTxFreezesIff(db: Db, actor: Id, now: Time, tx: Tx, groupId: Id)
    requires Inv(db) && groupId in db.groups && (tx.TxUpdateGroup? || tx.TxSetArchived?)
    requires Exec(db, actor, now, tx).1.Ok?
    ensures FreezesAsSaid(db, actor, now, tx, groupId)
  {
    assert GroupOk(db, tx.groupId);
    GroupWriteFreezesIff(db, Some(actor), Exec(db, actor, now, tx).0.groups[tx.groupId], groupId);
  }

  lemma InviteFreezesIff(db: Db, actor: Id, now: Time, tx: Tx, groupId: Id)
    requires Inv(db) && groupId in db.groups && tx.TxInvite? && Exec(db, actor, now, tx).1.Ok?
    ensures FreezesAsSaid(db, actor, now, tx, groupId)
  {
    IdsAreBelow(db);
    DrawnStaysSound(db, 0, 1);
    var drawn := db.(nextMember := db.nextMember + 1);
    MemberWriteFreezesIff(drawn, Some(actor), Exec(db, actor, now, tx).0.members[db.nextMember], groupId);
  }

  lemma MemberTxFreezesIff(db: Db, actor: Id, now: Time, tx: Tx, groupId: Id)
    requires Inv(db) && groupId in db.groups && (tx.TxAccept? || tx.TxSetRole?) && Exec(db, actor, now, tx).1.Ok?
    ensures FreezesAsSaid(db, actor, now, tx, groupId)
  {
    assert MemberOk(db, tx.memberId);
    MemberWriteFreezesIff(db, Some(actor), Exec(db, actor, now, tx).0.members[tx.memberId], groupId);
  }

  lemma RemovalFreezesIff(db: Db, actor: Id, now: Time, tx: Tx, groupId: Id)
    requires Inv(db) && groupId in db.groups && tx.TxDelete? && Exec(db, actor, now, tx).1.Ok?
    ensures FreezesAsSaid(db, actor, now, tx, groupId)
  {
    var v := Exec(db, actor, now, tx).0;
    if IsRowOf(db, tx.memberId, groupId) {
      assert tx.memberId in MembershipIds(db.members, groupId) && tx.memberId !in MembershipIds(v.members, groupId);
    }
  }

  /** A transaction leaves a group frozen if and only if it is refused or does not thaw it. */
  lemma FreezeBreaksIff(db: Db, actor: Id, now: Time, tx: Tx, groupId: Id)
    requires Inv(db) && groupId in db.groups && TxOk(actor, tx)
    ensures Frozen(db, Exec(db, actor, now, tx).0, groupId) <==>
              Exec(db, actor, now, tx).1.Failed? || !Thaws(db, now, tx, groupId)
  {
    if Exec(db, actor, now, tx).1.Failed? {
      RefusalFreezes(db, actor, now, tx, groupId);
    } else {
      match tx
      case TxCreateGroup(p) => CreationFreezesIff(db, actor, now, p, groupId);
      case TxUpdateGroup(_, _) => GroupTxFreezesIff(db, actor, now, tx, groupId);
      case TxSetArchived(_, _) => GroupTxFreezesIff(db, actor, now, tx, groupId);
      case TxInvite(_, _, _) => InviteFreezesIff(db, actor, now, tx, groupId);
      case TxAccept(_) => MemberTxFreezesIff(db, actor, now, tx, groupId);
      case TxSetRole(_, _) => MemberTxFreezesIff(db, actor, now, tx, groupId);
      case TxDelete(_) => RemovalFreezesIff(db, actor, now, tx, groupId);
      assert FreezesAsSaid(db, actor, now, tx, groupId);
    }
  }

  ghost predicate ThawsAt(w: World, e: Event, groupId: Id)
  {
    && e.CommitStep? && e.i in w.flights && w.flights[e.i].Ready?
    && Exec(w.db, w.flights[e.i].actor, e.now, w.flights[e.i].tx).1.Ok?
    && Thaws(w.db, e.now, w.flights[e.i].tx, groupId)
  }

  lemma StepFreezesIff(w: World, e: Event, groupId: Id)
    requires WorldOk(w) && groupId in w.db.groups
    ensures Frozen(w.db, Next(w, e).db, groupId) <==> !ThawsAt(w, e, groupId)
  {
    if e.CommitStep? && e.i in w.flights && w.flights[e.i].Ready? {
      FreezeBreaksIff(w.db, w.flights[e.i].actor, e.now, w.flights[e.i].tx, groupId);
    }
  }

  ghost predicate FrozenBetween(events: seq<Event>, j: nat, k: nat, groupId: Id)
    requires j <= k <= |events|
  {
    groupId in DbAt(events, j).groups && Frozen(DbAt(events, j), DbAt(events, k), groupId)
  }

  ghost predicate ThawsIn(events: seq<Event>, k: nat, groupId: Id)
    requires k < |events|
  {
    ThawsAt(Run(START, events[..k]), events[k], groupId)
  }

  lemma NextFreezesIff(events: seq<Event>, k: nat, groupId: Id)
    requires k < |events| && groupId in DbAt(events, k).groups
    ensures FrozenBetween(events, k, k + 1, groupId) <==> !ThawsIn(events, k, groupId)
  {
    RunKeepsWorld(events[..k]);
    StepFreezesIff(Run(START, events[..k]), events[k], groupId);
    assert events[..k + 1][..k] == events[..k];
  }

  lemma FrozenBetweenOn(events: seq<Event>, i: nat, j: nat, k: nat, groupId: Id)
    requires i <= j <= k <= |events| && FrozenBetween(events, i, j, groupId) && FrozenBetween(events, j, k, groupId)
    ensures FrozenBetween(events, i, k, groupId)
  {
    FrozenOn(DbAt(events, i), DbAt(events, j), DbAt(events, k), groupId);
  }

  lemma {:induction false} UnthawedFreezes(events: seq<Event>, j: nat, k: nat, groupId: Id)
    requires j <= k <= |events| && groupId in DbAt(events, j).groups
    requires forall n | j <= n < k :: !ThawsIn(events, n, groupId)
    ensures FrozenBetween(events, j, k, groupId)
    decreases k
  {
    if j < k {
      UnthawedFreezes(events, j, k - 1, groupId);
      NextFreezesIff(events, k - 1, groupId);
      FrozenBetweenOn(events, j, k - 1, k, groupId);
    }
  }

  /** Over every interleaving: from some point on a group is frozen between any two moments if and only
      if no transaction that commits from then on thaws it. */
  lemma FrozenThroughoutIff(events: seq<Event>, n: nat, groupId: Id)
    requires n <= |events| && groupId in DbAt(events, n).groups
    ensures (forall j, k | n <= j <= k <= |events| :: FrozenBetween(events, j, k, groupId)) <==>
            (forall k | n <= k < |events| :: !ThawsIn(events, k, groupId))
  {
    if forall k | n <= k < |events| :: !ThawsIn(events, k, groupId) {
      forall j, k | n <= j <= k <= |events| ensures FrozenBetween(events, j, k, groupId) {
        UnthawedFreezes(events, n, j, groupId);
        UnthawedFreezes(events, j, k, groupId);
      }
    }
    if forall j, k | n <= j <= k <= |events| :: FrozenBetween(events, j, k, groupId) {
      forall k | n <= k < |events| ensures !ThawsIn(events, k, groupId) {
        assert FrozenBetween(events, k, k + 1, groupId);
        NextFreezesIff(events, k, groupId);
      }
    }
  }

  // ---------------------------------------------------------------- one request at a time

  /** An authorised transaction never thaws an archived group. */
  lemma AuthorisedFreezes(db: Db, actor: Id, now: Time, tx: Tx, groupId: Id)
    requires Inv(db) && IsArchived(db, groupId) && Authorised(db, actor, tx) && TxOk(actor, tx)
    ensures !Thaws(db, now, tx, groupId) && Frozen(db, Exec(db, actor, now, tx).0, groupId)
  {
    FreezeBreaksIff(db, actor, now, tx, groupId);
  }

  /** While a group stays archived, from any point of a serial run to any later one, its name,
      description, handle, parent, creator and flags, its subgroups, and the ids and roles of its
      memberships stay; the only thing that can happen is that an invitation is accepted. */
  lemma {:induction false} ArchivedStaysFrozen(calls: seq<Call>, n: nat, groupId: Id)
    requires n <= |calls|
    requires forall k | n <= k < |calls| :: IsArchived(Serial(calls[..k]), groupId)
    requires n < |calls| || IsArchived(Serial(calls), groupId)
    ensures groupId in Serial(calls[..n]).groups
    ensures Frozen(Serial(calls[..n]), Serial(calls), groupId)
    decreases |calls|
  {
    if n == |calls| {
      assert calls[..n] == calls;
    } else {
      var front, c := calls[..|calls| - 1], calls[|calls| - 1];
      assert forall k | n <= k <= |front| :: calls[..k] == front[..k];
      assert front[..|front|] == front && calls[..|calls| - 1] == front;
      assert IsArchived(Serial(calls[..|calls| - 1]), groupId);
      ArchivedStaysFrozen(front, n, groupId);
      SerialKeepsInv(front);
      AnswerFreezes(Serial(front), c, groupId);
      FrozenOn(Serial(calls[..n]), Serial(front), Serial(calls), groupId);
    }
  }

  lemma AnswerFreezes(db: Db, c: Call, groupId: Id)
    requires Inv(db) && IsArchived(db, groupId)
    ensures Frozen(db, Answer(db, c), groupId)
  {
    if c.Call? {
      ServedIsAuthorised(db, c.actor, c.req);
      var f := Settle(db, Started(c.actor, c.req));
      if f.Ready? { AuthorisedFreezes(db, c.actor, c.now, f.tx, groupId); }
    }
  }

  /** Not so under interleaving: a promotion that was ready before the group was archived changes a
      role in the archived group. */
  lemma StalePromotionThaws(db: Db, a: Id, c: Id, now: Time)
    requires Inv(db) && a in db.members && c in db.members && a != c
    requires var g := db.members[a].groupId;
             && db.members[c].groupId == g && IsActiveAdmin(db.members[a]) && db.members[c].role == MEMBER
             && IsOpen(db, g)
    ensures var actor, g := db.members[a].userId, db.members[a].groupId;
            var stale := Settle(db, Started(actor, PromoteMember(c)));
            var (db1, status) := Serve(db, actor, ArchiveGroup(g), now);
            && stale.Ready? && status == 200 && IsArchived(db1, g)
            && var (db2, f) := Commit(db1, stale, now);
               f == Done(200) && IsArchived(db2, g) && !Frozen(db1, db2, g)
  {
    var actor, g := db.members[a].userId, db.members[a].groupId;
    AdminPassesChecks(db, a, PromoteMember(c));
    AdminArchives(db, a, now);
    ServeKeepsInv(db, actor, ArchiveGroup(g), now);
    PromotionThaws(Serve(db, actor, ArchiveGroup(g), now).0, actor, c, now);
  }

  lemma PromotionThaws(db: Db, actor: Id, c: Id, now: Time)
    requires Inv(db) && c in db.members && db.members[c].role == MEMBER && IsArchived(db, db.members[c].groupId)
    ensures var g := db.members[c].groupId;
            var (v, f) := Commit(db, Ready(actor, PromoteMember(c), TxSetRole(c, ADMIN)), now);
            f == Done(200) && IsArchived(v, g) && !Frozen(db, v, g)
  {
    PromotionCommits(db, actor, c, now);
    var v := Commit(db, Ready(actor, PromoteMember(c), TxSetRole(c, ADMIN)), now).0;
    assert MemberOk(db, c);
    assert c in MembershipIds(db.members, db.members[c].groupId) && !OnlyAccepted(db.members[c], v.members[c]);
  }

  lemma AdminArchives(db: Db, a: Id, now: Time)
    requires Inv(db) && a in db.members && IsActiveAdmin(db.members[a])
    ensures var g := db.members[a].groupId;
            var (v, status) := Serve(db, db.members[a].userId, ArchiveGroup(g), now);
            status == 200 && IsArchived(v, g) && v.members == db.members
  {
    var actor, g := db.members[a].userId, db.members[a].groupId;
    assert MemberOk(db, a);
    assert GroupOk(db, g);
    FindsMembership(db.members, a);
    var f1 := Read(db, Started(actor, ArchiveGroup(g)));
    var f2 := Read(db, f1);
    assert Settle(db, Started(actor, ArchiveGroup(g))) == Settle(db, f1) == Settle(db, f2);
    assert f2 == Ready(actor, ArchiveGroup(g), TxSetArchived(g, true));
  }

  /** Checking again inside the transaction would be enough here too: while a group stays archived it
      then stays frozen under any interleaving. */
  lemma CarefulRunsStayFrozen(events: seq<Event>, n: nat, groupId: Id)
    requires Throughout(events, n, CommitsCarefully) && n <= |events|
    requires forall k | n <= k <= |events| :: IsArchived(DbAt(events, k), groupId)
    ensures forall j, k | n <= j <= k <= |events| :: FrozenBetween(events, j, k, groupId)
  {
    forall k | n <= k < |events| ensures !ThawsIn(events, k, groupId) {
      var w, e := Run(START, events[..k]), events[k];
      assert HoldsAt(events, k, CommitsCarefully) && IsArchived(DbAt(events, k), groupId);
      RunKeepsWorld(events[..k]);
      if e.CommitStep? && e.i in w.flights && w.flights[e.i].Ready? {
        AuthorisedFreezes(w.db, w.flights[e.i].actor, e.now, w.flights[e.i].tx, groupId);
      }
    }
    assert IsArchived(DbAt(events, n), groupId);
    FrozenThroughoutIff(events, n, groupId);
  }
}

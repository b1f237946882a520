/** The audit log: what its trigger records, and what the record of a run says. */
module Audit {
  import opened Wrappers
  import opened Rows

  datatype Table = GroupsTable | MembershipsTable

  datatype Op = INSERT | UPDATE | DELETE | TRUNCATE | SNAPSHOT

  datatype Row = GroupRow(group: Group) | MemberRow(member: Membership)

  function RowId(r: Row): Id { if r.GroupRow? then r.group.id else r.member.id }

  function RowTable(r: Row): Table { if r.GroupRow? then GroupsTable else MembershipsTable }

  datatype Entry = Entry(
    recordId: Option<Id>,
    oldRecordId: Option<Id>,
    op: Op,
    table: Table,
    record: Option<Row>,
    oldRecord: Option<Row>,
    actor: Option<Id>)

  /** audit.insert_update_delete_trigger: NEW is recorded unless the row goes, OLD unless it comes. */
  function TriggerEntry(op: Op, table: Table, oldRow: Option<Row>, newRow: Option<Row>, actor: Option<Id>): Entry
  {
    var record := if op != DELETE then newRow else None;
    var oldRecord := if op != INSERT then oldRow else None;
    Entry(
      if record.Some? then Some(RowId(record.value)) else None,
      if oldRecord.Some? then Some(RowId(oldRecord.value)) else None,
      op, table, record, oldRecord, actor)
  }

  /** The three CHECK constraints of audit.record_version. */
  predicate EntryChecks(e: Entry)
  {
    && (e.recordId.Some? || e.oldRecordId.Some? || e.op in {TRUNCATE, SNAPSHOT})
    && ((e.op in {INSERT, UPDATE, SNAPSHOT}) == e.record.Some?)
    && ((e.op in {UPDATE, DELETE}) == e.oldRecord.Some?)
  }

  // ---------------------------------------------------------------- reading the log

  datatype Tables = Tables(groups: Groups, members: Members)

  const NO_TABLES := Tables(map[], map[])

  function Lookup(t: Tables, table: Table, id: Id): Option<Row>
  {
    match table
    case GroupsTable => if id in t.groups then Some(GroupRow(t.groups[id])) else None
    case MembershipsTable => if id in t.members then Some(MemberRow(t.members[id])) else None
  }

  function Store(t: Tables, r: Row): Tables
  {
    match r
    case GroupRow(g) => t.(groups := t.groups[g.id := g])
    case MemberRow(m) => t.(members := t.members[m.id := m])
  }

  function Erase(t: Tables, table: Table, id: Id): Tables
  {
    match table
    case GroupsTable => t.(groups := t.groups - {id})
    case MembershipsTable => t.(members := t.members - {id})
  }

  /** Redo one entry: put its record in place, or take the row away when it has none. */
  function Redo(t: Tables, e: Entry): Tables
  {
    if e.record.Some? then Store(t, e.record.value)
    else if e.oldRecordId.Some? then Erase(t, e.table, e.oldRecordId.value)
    else t
  }

  /** Undo one entry: put its old record back, or take the row away when there was none. */
  function Undo(t: Tables, e: Entry): Tables
  {
    if e.oldRecord.Some? then Store(t, e.oldRecord.value)
    else if e.recordId.Some? then Erase(t, e.table, e.recordId.value)
    else t
  }

  /** The tables a log describes, starting from nothing. */
  function Replay(log: seq<Entry>): Tables
  {
    if log == [] then NO_TABLES else Redo(Replay(log[..|log| - 1]), log[|log| - 1])
  }

  /** The tables before the given entries, starting from those after them. */
  function Unwind(t: Tables, entries: seq<Entry>): Tables
    decreases |entries|
  {
    if entries == [] then t else Unwind(Undo(t, entries[|entries| - 1]), entries[..|entries| - 1])
  }

  predicate About(e: Entry, table: Table, id: Id)
  {
    e.table == table && (e.recordId == Some(id) || e.oldRecordId == Some(id))
  }

  predicate Mentions(log: seq<Entry>, table: Table, id: Id)
  {
    exists e | e in log :: About(e, table, id)
  }

  // ---------------------------------------------------------------- consistent logs

  predicate NamesItsRow(id: Option<Id>, table: Table, row: Option<Row>)
  {
    id == (if row.Some? then Some(RowId(row.value)) else None) && (row.Some? ==> RowTable(row.value) == table)
  }

  /** e is the faithful record of a change to the tables that log describes; an inserted id is new. */
  predicate Fits(log: seq<Entry>, e: Entry)
  {
    && e.op in {INSERT, UPDATE, DELETE} && EntryChecks(e)
    && NamesItsRow(e.recordId, e.table, e.record) && NamesItsRow(e.oldRecordId, e.table, e.oldRecord)
    && (e.op == INSERT ==> !Mentions(log, e.table, e.recordId.value))
    && (e.op == UPDATE ==> e.recordId == e.oldRecordId)
    && (e.op != INSERT ==> Lookup(Replay(log), e.table, e.oldRecordId.value) == e.oldRecord)
  }

  predicate Consistent(log: seq<Entry>)
  {
    log == [] || (Consistent(log[..|log| - 1]) && Fits(log[..|log| - 1], log[|log| - 1]))
  }

  lemma Appended(log: seq<Entry>, e: Entry)
    ensures Consistent(log + [e]) <==> Consistent(log) && Fits(log, e)
    ensures Replay(log + [e]) == Redo(Replay(log), e)
    ensures forall table, id :: Mentions(log + [e], table, id) <==> Mentions(log, table, id) || About(e, table, id)
  {
    assert (log + [e])[..|log|] == log;
    forall table, id ensures Mentions(log + [e], table, id) <==> Mentions(log, table, id) || About(e, table, id) {
      if About(e, table, id) { assert e in log + [e]; }
      if Mentions(log, table, id) {
        var f :| f in log && About(f, table, id);
        assert f in log + [e];
      }
    }
  }

  /** A row the log describes has been mentioned by it, and is filed under its own id. */
  lemma {:induction false} DescribedIsMentioned(log: seq<Entry>, table: Table, id: Id)
    requires Consistent(log) && Lookup(Replay(log), table, id).Some?
    ensures Mentions(log, table, id)
    ensures var r := Lookup(Replay(log), table, id).value; RowId(r) == id && RowTable(r) == table
  {
    var front, e := log[..|log| - 1], log[|log| - 1];
    if Lookup(Replay(front), table, id).Some? {
      DescribedIsMentioned(front, table, id);
    }
    assert log == front + [e];
    Appended(front, e);
  }

  // ---------------------------------------------------------------- undoing

  lemma UndoInvertsRedo(log: seq<Entry>, e: Entry)
    requires Consistent(log) && Fits(log, e)
    ensures Undo(Redo(Replay(log), e), e) == Replay(log)
  {
    var t := Replay(log);
    match e.op
    case INSERT =>
      if Lookup(t, e.table, e.recordId.value).Some? {
        DescribedIsMentioned(log, e.table, e.recordId.value);
      }
      assert t.groups - {e.recordId.value} == t.groups || e.table.MembershipsTable?;
      assert t.members - {e.recordId.value} == t.members || e.table.GroupsTable?;
      assert Undo(Redo(t, e), e) == t;
    case UPDATE =>
      assert Undo(Redo(t, e), e).groups == t.groups;
      assert Undo(Redo(t, e), e).members == t.members;
    case DELETE =>
      assert Undo(Redo(t, e), e).groups == t.groups;
      assert Undo(Redo(t, e), e).members == t.members;
  }

  /** Undoing the entries from n on, starting from what the whole log describes, gives exactly what
      the first n entries describe. */
  lemma {:induction false} UnwindRestores(log: seq<Entry>, n: nat)
    requires Consistent(log) && n <= |log|
    ensures Unwind(Replay(log), log[n..]) == Replay(log[..n])
    ensures Consistent(log[..n])
  {
    if n == |log| {
      assert log[..n] == log;
      assert log[n..] == [];
    } else {
      var front, e := log[..|log| - 1], log[|log| - 1];
      UndoInvertsRedo(front, e);
      UnwindRestores(front, n);
      assert log[n..][..|log[n..]| - 1] == front[n..];
      assert front[..n] == log[..n];
    }
  }

  // ---------------------------------------------------------------- per-record history

  /** The entries about one record. */
  function History(log: seq<Entry>, table: Table, id: Id): seq<Entry>
  {
    if log == [] then []
    else
      var front, e := log[..|log| - 1], log[|log| - 1];
      History(front, table, id) + (if About(e, table, id) then [e] else [])
  }

  /** INSERT, then UPDATEs, then at most one DELETE, each starting from where the one before ended. */
  predicate IsChain(h: seq<Entry>)
  {
    forall i | 0 <= i < |h| ::
      && (h[i].op == INSERT <==> i == 0)
      && (h[i].op == UPDATE ==> i > 0)
      && (h[i].op == DELETE ==> i == |h| - 1)
      && (h[i].op == DELETE <==> h[i].record == None)
      && (i > 0 ==> h[i].oldRecord == h[i - 1].record && h[i].oldRecord.Some?)
  }

  /** What the last entry about a record leaves of it. */
  function Outcome(h: seq<Entry>): Option<Row> { if h == [] then None else h[|h| - 1].record }

  lemma {:induction false} HistoryIsChain(log: seq<Entry>, table: Table, id: Id)
    requires Consistent(log)
    ensures IsChain(History(log, table, id))
    ensures Outcome(History(log, table, id)) == Lookup(Replay(log), table, id)
    ensures History(log, table, id) == [] <==> !Mentions(log, table, id)
  {
    if log != [] {
      var front, e := log[..|log| - 1], log[|log| - 1];
      HistoryIsChain(front, table, id);
      assert log == front + [e];
      Appended(front, e);
      ExtendChain(front, e, table, id);
    }
  }

  lemma ExtendChain(front: seq<Entry>, e: Entry, table: Table, id: Id)
    requires Fits(front, e)
    requires IsChain(History(front, table, id))
    requires Outcome(History(front, table, id)) == Lookup(Replay(front), table, id)
    requires History(front, table, id) == [] <==> !Mentions(front, table, id)
    ensures var h := History(front, table, id) + (if About(e, table, id) then [e] else []);
            IsChain(h) && Outcome(h) == Lookup(Redo(Replay(front), e), table, id)
  {
    var h := History(front, table, id);
    if About(e, table, id) {
      if h != [] {
        assert e.op != INSERT;
        assert e.oldRecord == h[|h| - 1].record;
        assert h[|h| - 1].op != DELETE;
      }
      var k := h + [e];
      forall i | 0 <= i < |k|
        ensures (k[i].op == INSERT <==> i == 0) && (k[i].op == UPDATE ==> i > 0) && (k[i].op == DELETE ==> i == |k| - 1)
        ensures k[i].op == DELETE <==> k[i].record == None
        ensures i > 0 ==> k[i].oldRecord == k[i - 1].record && k[i].oldRecord.Some?
      {
        if i < |h| { assert k[i] == h[i]; }
      }
    }
  }
}

/** The suffix search as it runs beside other handlers: one query per candidate, with anything in
    between. It still gives what a single look at the groups would have given. */
module HandleSearch {
  import opened Text
  import opened Handles
  import opened UniqueHandles
  import opened Rows
  import opened Statements
  import opened Protocol
  import opened Invariant
  import opened Effects

  /** What a search has found taken is taken still. */
  ghost predicate StillTaken(db: Db, f: Flight)
  {
    f.Probing? ==> forall k | 0 <= k < f.next :: Probe(f.base, k) in TakenHandles(db.groups)
  }

  /** Groups neither go nor change their handle. */
  lemma TakenStay(a: Db, b: Db)
    requires Evolves(a, b)
    ensures TakenHandles(a.groups) <= TakenHandles(b.groups)
  {
    forall h | h in TakenHandles(a.groups) ensures h in TakenHandles(b.groups) {
      var id :| id in a.groups && Lower(a.groups[id].handle) == h;
      assert id in b.groups && SameGroup(a.groups[id], b.groups[id]);
    }
  }

  lemma ReadFindsTaken(db: Db, f: Flight)
    requires StillTaken(db, f)
    ensures StillTaken(db, Read(db, f))
  {
  }

  lemma StepFindsTaken(w: World, e: Event, i: nat)
    requires WorldOk(w) && i in Next(w, e).flights && (i in w.flights ==> StillTaken(w.db, w.flights[i]))
    ensures StillTaken(Next(w, e).db, Next(w, e).flights[i])
  {
    NextEvolves(w, e);
    TakenStay(w.db, Next(w, e).db);
    if e.ReadStep? && e.i == i { ReadFindsTaken(w.db, w.flights[i]); }
  }

  lemma {:induction false} RunFindsTaken(events: seq<Event>, i: nat)
    ensures var w := Run(START, events); i in w.flights ==> StillTaken(w.db, w.flights[i])
    decreases |events|
  {
    if events != [] {
      var front, e := events[..|events| - 1], events[|events| - 1];
      RunFindsTaken(front, i);
      RunKeepsWorld(front);
      if i in Run(START, events).flights { StepFindsTaken(Run(START, front), e, i); }
    }
  }

  /** Taken candidates may be skipped. */
  lemma {:induction false} SearchFrom(base: string, taken: set<string>, k: nat)
    requires 1 <= k <= MAX_SUFFIX + 1 && forall j | 1 <= j < k :: Candidate(base, j) in taken
    ensures Search(base, taken, 1) == Search(base, taken, k)
  {
    if k > 1 { SearchFrom(base, taken, k - 1); }
  }

  lemma LastProbeDecides(folded: string, taken: set<string>, k: nat)
    requires k <= MAX_SUFFIX + 1 && GenerateHandle(folded) != ""
    requires forall j | 0 <= j < k :: Probe(GenerateHandle(folded), j) in taken
    requires k <= MAX_SUFFIX ==> Probe(GenerateHandle(folded), k) !in taken
    ensures UniqueHandle(folded, taken) == if k <= MAX_SUFFIX then Probe(GenerateHandle(folded), k) else ""
  {
    var base := GenerateHandle(folded);
    if k > 0 {
      assert Probe(base, 0) in taken;
      forall j | 1 <= j < k ensures Candidate(base, j) in taken { assert Probe(base, j) in taken; }
      SearchFrom(base, taken, k);
    }
  }

  predicate IsChoosing(f: Flight) { f.Probing? || (f.NeedHandle? && (f.req.CreateGroup? || f.req.CreateSubgroup?)) }

  /** Over every interleaving: the read that ends the choice of a handle ends it as if the whole choice
      had been made at that moment, however long the search has been under way. */
  lemma ChoiceIsAtomic(events: seq<Event>, i: nat)
    requires i in Run(START, events).flights
    requires IsChoosing(Run(START, events).flights[i])
    ensures var w := Run(START, events);
            var f := w.flights[i];
            && (f.req.CreateGroup? || f.req.CreateSubgroup?)
            && (Read(w.db, f).Probing? ||
                Read(w.db, f) ==
                  Resolved(f.actor, f.req, f.parent, ResolveHandle(w.db.groups, f.req.foldedName, f.req.handle)))
  {
    RunKeepsWorld(events);
    RunFindsTaken(events, i);
    var w := Run(START, events);
    var f := w.flights[i];
    assert FlightOk(f);
    var taken, base := TakenHandles(w.db.groups), GenerateHandle(f.req.foldedName);
    var k := if f.Probing? then f.next else 0;
    if TrimSpace(f.req.handle) == "" && base != "" && !Read(w.db, f).Probing? {
      NotBeyondLast(events, i);
      LastProbeDecides(f.req.foldedName, taken, k);
    }
  }

  /** So a handle it generated was valid, and free at its own probe, with all candidates before it taken. */
  lemma GeneratedWasFree(events: seq<Event>, i: nat)
    requires i in Run(START, events).flights
    requires var f := Run(START, events).flights[i];
             IsChoosing(f) && (f.NeedHandle? ==> TrimSpace(f.req.handle) == "")
    ensures var w := Run(START, events);
            var f := w.flights[i];
            && (f.req.CreateGroup? || f.req.CreateSubgroup?)
            && var base, taken := GenerateHandle(f.req.foldedName), TakenHandles(w.db.groups);
            Read(w.db, f).Ready? ==>
              && Read(w.db, f).tx.TxCreateGroup?
              && var h := Read(w.db, f).tx.params.handle;
                 IsValidHandle(h) && h !in taken &&
                 exists k | 0 <= k <= MAX_SUFFIX ::
                   h == Probe(base, k) && forall j | 0 <= j < k :: Probe(base, j) in taken
  {
    RunKeepsWorld(events);
    RunFindsTaken(events, i);
    ChoiceIsAtomic(events, i);
    var w := Run(START, events);
    var f := w.flights[i];
    assert FlightOk(f);
    UniqueHandleMeaning(f.req.foldedName, TakenHandles(w.db.groups));
    if Read(w.db, f).Ready? {
      var k := if f.Probing? then f.next else 0;
      assert Read(w.db, f).tx.params.handle == Probe(GenerateHandle(f.req.foldedName), k);
    }
  }

  /** A search never counts past its last candidate. */
  lemma {:induction false} NotBeyondLast(events: seq<Event>, i: nat)
    ensures var w := Run(START, events);
            i in w.flights && w.flights[i].Probing? ==> w.flights[i].next <= MAX_SUFFIX + 1
    decreases |events|
  {
    if events != [] {
      NotBeyondLast(events[..|events| - 1], i);
    }
  }
}

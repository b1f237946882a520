/** The session store shared by request handlers and the clean-up goroutine. Each step below is one
    operation on the concurrent map (or one clock reading), so walks and their closing deletions may
    interleave with everything else.

    Two facts come from outside: tokens are never drawn twice, and a walk visits every entry that is
    present from its beginning to its end. A walk may also show an entry removed in the meantime; that it
    shows nothing that was gone before it began is used for listings only. */
module SessionThreads {
  import opened Wrappers
  import opened Sessions

  /** What there was when a listing began: the sessions nobody had ended, all tokens ever stored, and
      the tokens in the store. */
  datatype Beginning = Beginning(spec: Store, known: set<Token>, present: set<Token>, now: Time)

  datatype Thread =
    | Idle
      // Get: found, expiry not yet looked at; atLoad is what the specification would have answered
    | Loaded(token: Token, session: Session, atLoad: Option<Session>)
    | Expiring(token: Token)                                    // Get: found expired, not yet deleted
    | Listing(userId: int, begun: Beginning, visited: set<Token>, found: set<Session>)      // GetByUserID: the walk
    | Listed(userId: int, begun: Beginning, found: set<Session>)                            // GetByUserID: the reply
      // CleanupExpired: the walk, the deletions, the return; since is when it began
    | Sweeping(since: Time, present: set<Token>, visited: set<Token>, doomed: set<Token>)
    | Clearing(since: Time, present: set<Token>, doomed: set<Token>)
    | Swept(since: Time, present: set<Token>)
    | Scanning(userId: int, present: set<Token>, visited: set<Token>, doomed: set<Token>)  // DeleteByUserID: the walk
    | Dropping(userId: int, present: set<Token>, doomed: set<Token>)             // DeleteByUserID: the deletions
    | Dropped(userId: int, present: set<Token>)                 // DeleteByUserID: returned

  /** ever: every session stored so far; spec: those of them that nobody has logged out or dropped, the
      store as it would be without any clean-up. */
  datatype World = World(store: Store, spec: Store, ever: Store, now: Time, threads: map<nat, Thread>)

  datatype Event =
    | Tick(elapsed: nat)
    | Create(token: Token, userId: int, userAgent: string, ipAddress: string, duration: int)
    | Logout(token: Token)
    | GetLoad(i: nat, token: Token)
    | GetCheck(i: nat)
    | GetDelete(i: nat)
    | ListBegin(i: nat, userId: int)
    | ListVisit(i: nat, token: Token)
    | ListReturn(i: nat)
    | CleanupBegin(i: nat)
    | CleanupVisit(i: nat, token: Token)
    | CleanupWalked(i: nat)
    | CleanupDelete(i: nat, token: Token)
    | CleanupReturn(i: nat)
    | DropBegin(i: nat, userId: int)
    | DropVisit(i: nat, token: Token)
    | DropWalked(i: nat)
    | DropDelete(i: nat, token: Token)
    | DropReturn(i: nat)
    | Rest(i: nat)

  function At(w: World, i: nat): Thread { if i in w.threads then w.threads[i] else Idle }

  function Put(w: World, i: nat, t: Thread): World { w.(threads := w.threads[i := t]) }

  /** An expired entry taken out on the side. */
  function Without(w: World, token: Token): World { w.(store := w.store - {token}) }

  /** A session ended on request. */
  function Ended(w: World, token: Token): World { w.(store := w.store - {token}, spec := w.spec - {token}) }

  /** What a map that nobody cleans up answers: the session unless it is unknown, ended or expired. */
  function Look(spec: Store, token: Token, now: Time): Option<Session>
  {
    if token != "" && token in spec && !IsExpired(spec[token], now) then Some(spec[token]) else None
  }

  /** A walk may end once it has met everything that was there throughout. */
  predicate Walked(w: World, present: set<Token>, visited: set<Token>)
  {
    forall k | k in present && k in w.store :: k in visited
  }

  /** What a walk may show: not what was gone before it began. */
  predicate MayShow(w: World, begun: Beginning, token: Token)
  {
    token in w.ever && (token in begun.known ==> token in begun.present)
  }

  // ---------------------------------------------------------------- steps

  function GetNext(w: World, t: Thread, e: Event): World
    requires e.GetLoad? || e.GetCheck? || e.GetDelete?
  {
    match e
    case GetLoad(i, token) =>
      if t.Idle? && token != "" && token in w.store
      then Put(w, i, Loaded(token, w.store[token], Look(w.spec, token, w.now)))
      else w
    case GetCheck(i) =>
      if !t.Loaded? then w
      else if IsExpired(t.session, w.now) then Put(w, i, Expiring(t.token))
      else Put(w, i, Idle)
    case GetDelete(i) =>
      if t.Expiring? then Put(Without(w, t.token), i, Idle) else w
  }

  function ListNext(w: World, t: Thread, e: Event): World
    requires e.ListBegin? || e.ListVisit? || e.ListReturn?
  {
    match e
    case ListBegin(i, userId) =>
      if t.Idle? then Put(w, i, Listing(userId, Beginning(w.spec, w.ever.Keys, w.store.Keys, w.now), {}, {})) else w
    case ListVisit(i, token) =>
      if t.Listing? && token !in t.visited && MayShow(w, t.begun, token) then
        var s := w.ever[token];
        var found := if s.userId == t.userId && !IsExpired(s, w.now) then t.found + {s} else t.found;
        Put(w, i, Listing(t.userId, t.begun, t.visited + {token}, found))
      else w
    case ListReturn(i) =>
      if t.Listing? && Walked(w, t.begun.present, t.visited) then Put(w, i, Listed(t.userId, t.begun, t.found)) else w
  }

  function CleanupNext(w: World, t: Thread, e: Event): World
    requires e.CleanupBegin? || e.CleanupVisit? || e.CleanupWalked? || e.CleanupDelete? || e.CleanupReturn?
  {
    match e
    case CleanupBegin(i) =>
      if t.Idle? then Put(w, i, Sweeping(w.now, w.store.Keys, {}, {})) else w
    case CleanupVisit(i, token) =>
      if t.Sweeping? && token in w.ever && token !in t.visited then
        var s := w.ever[token];
        var doomed := if IsExpired(s, w.now) then t.doomed + {s.token} else t.doomed;
        Put(w, i, Sweeping(t.since, t.present, t.visited + {token}, doomed))
      else w
    case CleanupWalked(i) =>
      if t.Sweeping? && Walked(w, t.present, t.visited) then Put(w, i, Clearing(t.since, t.present, t.doomed)) else w
    case CleanupDelete(i, token) =>
      if t.Clearing? && token in t.doomed
      then Put(Without(w, token), i, Clearing(t.since, t.present, t.doomed - {token}))
      else w
    case CleanupReturn(i) =>
      if t.Clearing? && t.doomed == {} then Put(w, i, Swept(t.since, t.present)) else w
  }

  function DropNext(w: World, t: Thread, e: Event): World
    requires e.DropBegin? || e.DropVisit? || e.DropWalked? || e.DropDelete? || e.DropReturn?
  {
    match e
    case DropBegin(i, userId) =>
      if t.Idle? then Put(w, i, Scanning(userId, w.store.Keys, {}, {})) else w
    case DropVisit(i, token) =>
      if t.Scanning? && token in w.ever && token !in t.visited then
        var s := w.ever[token];
        var doomed := if s.userId == t.userId then t.doomed + {s.token} else t.doomed;
        Put(w, i, Scanning(t.userId, t.present, t.visited + {token}, doomed))
      else w
    case DropWalked(i) =>
      if t.Scanning? && Walked(w, t.present, t.visited) then Put(w, i, Dropping(t.userId, t.present, t.doomed)) else w
    case DropDelete(i, token) =>
      if t.Dropping? && token in t.doomed
      then Put(Ended(w, token), i, Dropping(t.userId, t.present, t.doomed - {token}))
      else w
    case DropReturn(i) =>
      if t.Dropping? && t.doomed == {} then Put(w, i, Dropped(t.userId, t.present)) else w
  }

  /** One step; an event that cannot happen changes nothing. */
  function Next(w: World, e: Event): World
  {
    match e
    case Tick(elapsed) => w.(now := w.now + elapsed)
    case Create(token, userId, userAgent, ipAddress, duration) =>
      if token == "" || token in w.ever then w
      else
        var s := NewSession(token, userId, w.now, duration, userAgent, ipAddress);
        w.(store := w.store[token := s], spec := w.spec[token := s], ever := w.ever[token := s])
    case Logout(token) => Ended(w, token)
    case GetLoad(i, _) => GetNext(w, At(w, i), e)
    case GetCheck(i) => GetNext(w, At(w, i), e)
    case GetDelete(i) => GetNext(w, At(w, i), e)
    case ListBegin(i, _) => ListNext(w, At(w, i), e)
    case ListVisit(i, _) => ListNext(w, At(w, i), e)
    case ListReturn(i) => ListNext(w, At(w, i), e)
    case CleanupBegin(i) => CleanupNext(w, At(w, i), e)
    case CleanupVisit(i, _) => CleanupNext(w, At(w, i), e)
    case CleanupWalked(i) => CleanupNext(w, At(w, i), e)
    case CleanupDelete(i, _) => CleanupNext(w, At(w, i), e)
    case CleanupReturn(i) => CleanupNext(w, At(w, i), e)
    case DropBegin(i, _) => DropNext(w, At(w, i), e)
    case DropVisit(i, _) => DropNext(w, At(w, i), e)
    case DropWalked(i) => DropNext(w, At(w, i), e)
    case DropDelete(i, _) => DropNext(w, At(w, i), e)
    case DropReturn(i) => DropNext(w, At(w, i), e)
    case Rest(i) =>
      var t := At(w, i);
      if t.Swept? || t.Dropped? || t.Listed? then Put(w, i, Idle) else w
  }

  function Run(w: World, events: seq<Event>): World
  {
    if events == [] then w else Next(Run(w, events[..|events| - 1]), events[|events| - 1])
  }

  function Start(now: Time): World { World(map[], map[], map[], now, map[]) }

  // ---------------------------------------------------------------- invariant

  /** The store is what was never ended, minus some sessions that have expired. */
  predicate StoreOk(w: World)
  {
    && (forall k | k in w.ever :: k != "" && w.ever[k].token == k)
    && (forall k | k in w.spec :: k in w.ever && w.spec[k] == w.ever[k])
    && (forall k | k in w.store :: k in w.spec && w.store[k] == w.ever[k])
    && (forall k | k in w.spec && k !in w.store :: IsExpired(w.spec[k], w.now))
  }

  predicate AllExpired(w: World, doomed: set<Token>)
  {
    forall k | k in doomed :: k in w.ever && IsExpired(w.ever[k], w.now)
  }

  predicate AllOf(w: World, userId: int, doomed: set<Token>)
  {
    forall k | k in doomed :: k in w.ever && w.ever[k].userId == userId
  }

  /** No session of the user among these keys is still stored, except those in left. */
  predicate GoneBut(w: World, userId: int, keys: set<Token>, left: set<Token>)
  {
    forall k | k in keys && k in w.store && w.store[k].userId == userId :: k in left
  }

  /** No session among these keys that had expired by then is still stored, except those in left. */
  predicate StaleGoneBut(w: World, since: Time, keys: set<Token>, left: set<Token>)
  {
    forall k | k in keys && k in w.store && IsExpired(w.store[k], since) :: k in left
  }

  predicate BegunOk(w: World, begun: Beginning)
  {
    && begun.now <= w.now && begun.present <= begun.spec.Keys <= begun.known <= w.ever.Keys
    && (forall k | k in begun.spec :: begun.spec[k] == w.ever[k])
    && (forall k | k in begun.spec && k !in begun.present :: IsExpired(begun.spec[k], begun.now))
  }

  /** A session that may be in the reply: it was open when the listing began, or was created since. */
  predicate MayBeFound(w: World, userId: int, begun: Beginning, s: Session)
  {
    && s.userId == userId && s.token in w.ever && w.ever[s.token] == s
    && (s.token in begun.known ==> Look(begun.spec, s.token, begun.now) == Some(s))
  }

  predicate FoundOk(w: World, userId: int, begun: Beginning, found: set<Session>)
  {
    BegunOk(w, begun) && forall s | s in found :: MayBeFound(w, userId, begun, s)
  }

  /** Of the sessions met, those of the user that are still open are in the reply. */
  predicate MetAreFound(w: World, userId: int, met: set<Token>, found: set<Session>)
  {
    forall k | k in met && k in w.ever && w.ever[k].userId == userId && !IsExpired(w.ever[k], w.now) ::
      w.ever[k] in found
  }

  predicate ThreadOk(w: World, t: Thread)
  {
    match t
    case Idle => true
    case Loaded(token, session, atLoad) =>
      token in w.ever && w.ever[token] == session && (atLoad == Some(session) || IsExpired(session, w.now))
    case Expiring(token) => AllExpired(w, {token})
    case Listing(userId, begun, visited, found) =>
      visited <= w.ever.Keys && FoundOk(w, userId, begun, found) && MetAreFound(w, userId, visited, found)
    case Listed(userId, begun, found) =>
      FoundOk(w, userId, begun, found) && MetAreFound(w, userId, begun.present * w.store.Keys, found)
    case Sweeping(since, present, visited, doomed) =>
      && since <= w.now && present <= w.ever.Keys && visited <= w.ever.Keys
      && AllExpired(w, doomed) && StaleGoneBut(w, since, visited, doomed)
    case Clearing(since, present, doomed) =>
      present <= w.ever.Keys && AllExpired(w, doomed) && StaleGoneBut(w, since, present, doomed)
    case Swept(since, present) => present <= w.ever.Keys && StaleGoneBut(w, since, present, {})
    case Scanning(userId, present, visited, doomed) =>
      && present <= w.ever.Keys && visited <= w.ever.Keys
      && AllOf(w, userId, doomed) && GoneBut(w, userId, visited, doomed)
    case Dropping(userId, present, doomed) =>
      present <= w.ever.Keys && AllOf(w, userId, doomed) && GoneBut(w, userId, present, doomed)
    case Dropped(userId, present) => present <= w.ever.Keys && GoneBut(w, userId, present, {})
  }

  predicate Inv(w: World)
  {
    StoreOk(w) && forall i | i in w.threads :: ThreadOk(w, w.threads[i])
  }

  /** From w to v time passes, sessions are only added under new tokens, and some disappear. */
  predicate Later(w: World, v: World)
  {
    && w.now <= v.now
    && (forall k | k in w.ever :: k in v.ever && v.ever[k] == w.ever[k])
    && (forall k | k in v.store && k !in w.store :: k !in w.ever)
  }

  lemma FoundStaysOk(w: World, v: World, userId: int, begun: Beginning, found: set<Session>)
    requires StoreOk(w) && StoreOk(v) && Later(w, v) && FoundOk(w, userId, begun, found)
    ensures FoundOk(v, userId, begun, found)
  {
  }

  lemma ThreadStaysOk(w: World, v: World, t: Thread)
    requires StoreOk(w) && StoreOk(v) && Later(w, v) && ThreadOk(w, t)
    ensures ThreadOk(v, t)
  {
    if t.Listing? || t.Listed? { FoundStaysOk(w, v, t.userId, t.begun, t.found); }
  }

  /** A step of a thread leads on to a later world and leaves the other threads alone. */
  ghost predicate StepsOn(w: World, v: World, i: nat)
  {
    && StoreOk(v) && Later(w, v) && ThreadOk(v, At(v, i))
    && forall k | k in v.threads && k != i :: k in w.threads && v.threads[k] == w.threads[k]
  }

  lemma ExpiredGoes(w: World, token: Token)
    requires StoreOk(w) && AllExpired(w, {token})
    ensures StoreOk(Without(w, token)) && Later(w, Without(w, token))
  {
    assert token in w.ever && IsExpired(w.ever[token], w.now);
  }

  lemma GetSteps(w: World, t: Thread, e: Event)
    requires Inv(w) && (e.GetLoad? || e.GetCheck? || e.GetDelete?) && t == At(w, e.i)
    ensures StepsOn(w, GetNext(w, t, e), e.i)
  {
    StandsStill(w, e.i);
    match e
    case GetLoad(i, token) =>
      if t.Idle? && token != "" && token in w.store {
        PutSteps(w, i, Loaded(token, w.store[token], Look(w.spec, token, w.now)));
      }
    case GetCheck(i) =>
      if t.Loaded? {
        PutSteps(w, i, if IsExpired(t.session, w.now) then Expiring(t.token) else Idle);
      }
    case GetDelete(i) =>
      if t.Expiring? {
        ExpiredGoes(w, t.token);
        PutSteps(Without(w, t.token), i, Idle);
      }
  }

  /** A step that touches no session and keeps its own thread in order. */
  lemma PutSteps(w: World, i: nat, t: Thread)
    requires StoreOk(w) && ThreadOk(w, t)
    ensures StepsOn(w, Put(w, i, t), i)
  {
    var v := Put(w, i, t);
    assert StoreOk(v) && Later(w, v);
    SameSessionsSameOrder(w, v, t);
  }

  lemma SameSessionsSameOrder(w: World, v: World, t: Thread)
    requires v == w.(threads := v.threads) && ThreadOk(w, t)
    ensures ThreadOk(v, t)
  {
  }

  /** Nothing moves, and the thread is in order as it is. */
  lemma StandsStill(w: World, i: nat)
    requires Inv(w)
    ensures StepsOn(w, w, i) && ThreadOk(w, At(w, i))
  {
    assert i in w.threads ==> ThreadOk(w, w.threads[i]);
  }

  lemma ListSteps(w: World, t: Thread, e: Event)
    requires Inv(w) && (e.ListBegin? || e.ListVisit? || e.ListReturn?) && t == At(w, e.i)
    ensures StepsOn(w, ListNext(w, t, e), e.i)
  {
    StandsStill(w, e.i);
    match e
    case ListBegin(i, userId) =>
      if t.Idle? {
        BeginsOk(w, userId);
        PutSteps(w, i, Listing(userId, Beginning(w.spec, w.ever.Keys, w.store.Keys, w.now), {}, {}));
      }
    case ListVisit(i, token) =>
      if t.Listing? && token !in t.visited && MayShow(w, t.begun, token) {
        VisitSteps(w, t.userId, t.begun, t.visited, t.found, token);
        PutSteps(w, i, At(ListNext(w, t, e), i));
      }
    case ListReturn(i) =>
      if t.Listing? && Walked(w, t.begun.present, t.visited) {
        PutSteps(w, i, Listed(t.userId, t.begun, t.found));
      }
  }

  lemma BeginsOk(w: World, userId: int)
    requires StoreOk(w)
    ensures ThreadOk(w, Listing(userId, Beginning(w.spec, w.ever.Keys, w.store.Keys, w.now), {}, {}))
  {
  }

  lemma VisitSteps(w: World, userId: int, begun: Beginning, visited: set<Token>, found: set<Session>, token: Token)
    requires StoreOk(w) && ThreadOk(w, Listing(userId, begun, visited, found)) && MayShow(w, begun, token)
    ensures var s := w.ever[token];
            var more := if s.userId == userId && !IsExpired(s, w.now) then found + {s} else found;
            ThreadOk(w, Listing(userId, begun, visited + {token}, more))
  {
    if token in begun.known { assert token in begun.present; }
  }

  lemma CleanupSteps(w: World, t: Thread, e: Event)
    requires e.CleanupBegin? || e.CleanupVisit? || e.CleanupWalked? || e.CleanupDelete? || e.CleanupReturn?
    requires Inv(w) && t == At(w, e.i)
    ensures StepsOn(w, CleanupNext(w, t, e), e.i)
  {
    StandsStill(w, e.i);
    match e
    case CleanupBegin(i) =>
      if t.Idle? { PutSteps(w, i, Sweeping(w.now, w.store.Keys, {}, {})); }
    case CleanupVisit(i, token) =>
      if t.Sweeping? && token in w.ever && token !in t.visited {
        SweepOk(w, t, token);
        PutSteps(w, i, At(CleanupNext(w, t, e), i));
      }
    case CleanupWalked(i) =>
      if t.Sweeping? && Walked(w, t.present, t.visited) { PutSteps(w, i, Clearing(t.since, t.present, t.doomed)); }
    case CleanupDelete(i, token) =>
      if t.Clearing? && token in t.doomed { SweepSteps(w, i, t, token); }
    case CleanupReturn(i) =>
      if t.Clearing? && t.doomed == {} { PutSteps(w, i, Swept(t.since, t.present)); }
  }

  lemma SweepOk(w: World, t: Thread, token: Token)
    requires StoreOk(w) && t.Sweeping? && ThreadOk(w, t) && token in w.ever
    ensures var s := w.ever[token];
            var doomed := if IsExpired(s, w.now) then t.doomed + {s.token} else t.doomed;
            ThreadOk(w, Sweeping(t.since, t.present, t.visited + {token}, doomed))
  {
  }

  lemma SweepSteps(w: World, i: nat, t: Thread, token: Token)
    requires StoreOk(w) && t.Clearing? && ThreadOk(w, t) && token in t.doomed
    ensures StepsOn(w, Put(Without(w, token), i, Clearing(t.since, t.present, t.doomed - {token})), i)
  {
    ExpiredGoes(w, token);
    PutSteps(Without(w, token), i, Clearing(t.since, t.present, t.doomed - {token}));
  }

  lemma DropSteps(w: World, t: Thread, e: Event)
    requires Inv(w) && (e.DropBegin? || e.DropVisit? || e.DropWalked? || e.DropDelete? || e.DropReturn?)
    requires t == At(w, e.i)
    ensures StepsOn(w, DropNext(w, t, e), e.i)
  {
    StandsStill(w, e.i);
    match e
    case DropBegin(i, userId) =>
      if t.Idle? { PutSteps(w, i, Scanning(userId, w.store.Keys, {}, {})); }
    case DropVisit(i, token) =>
      if t.Scanning? && token in w.ever && token !in t.visited {
        ScanOk(w, t, token);
        PutSteps(w, i, At(DropNext(w, t, e), i));
      }
    case DropWalked(i) =>
      if t.Scanning? && Walked(w, t.present, t.visited) { PutSteps(w, i, Dropping(t.userId, t.present, t.doomed)); }
    case DropDelete(i, token) =>
      if t.Dropping? && token in t.doomed { EndSteps(w, i, t, token); }
    case DropReturn(i) =>
      if t.Dropping? && t.doomed == {} { PutSteps(w, i, Dropped(t.userId, t.present)); }
  }

  lemma ScanOk(w: World, t: Thread, token: Token)
    requires StoreOk(w) && t.Scanning? && ThreadOk(w, t) && token in w.ever
    ensures var s := w.ever[token];
            var doomed := if s.userId == t.userId then t.doomed + {s.token} else t.doomed;
            ThreadOk(w, Scanning(t.userId, t.present, t.visited + {token}, doomed))
  {
  }

  lemma EndSteps(w: World, i: nat, t: Thread, token: Token)
    requires StoreOk(w) && t.Dropping? && ThreadOk(w, t) && token in t.doomed
    ensures StepsOn(w, Put(Ended(w, token), i, Dropping(t.userId, t.present, t.doomed - {token})), i)
  {
    var v := Ended(w, token);
    assert StoreOk(v) && Later(w, v);
    PutSteps(v, i, Dropping(t.userId, t.present, t.doomed - {token}));
  }

  lemma StepKeepsInv(w: World, v: World, i: nat)
    requires Inv(w) && StepsOn(w, v, i)
    ensures Inv(v)
  {
    forall k | k in v.threads ensures ThreadOk(v, v.threads[k]) {
      if k != i { ThreadStaysOk(w, v, w.threads[k]); }
    }
  }

  /** Events of no thread. */
  lemma OtherSteps(w: World, e: Event)
    requires Inv(w) && (e.Tick? || e.Create? || e.Logout?)
    ensures Inv(Next(w, e))
  {
    var v := Next(w, e);
    SessionsStep(w, e);
    forall k | k in v.threads ensures ThreadOk(v, v.threads[k]) { ThreadStaysOk(w, v, w.threads[k]); }
  }

  lemma SessionsStep(w: World, e: Event)
    requires StoreOk(w) && (e.Tick? || e.Create? || e.Logout?)
    ensures StoreOk(Next(w, e)) && Later(w, Next(w, e)) && Next(w, e).threads == w.threads
  {
  }

  lemma NextKeepsInv(w: World, e: Event)
    requires Inv(w)
    ensures Inv(Next(w, e))
  {
    if e.Tick? || e.Create? || e.Logout? {
      OtherSteps(w, e);
    } else {
      if e.GetLoad? || e.GetCheck? || e.GetDelete? {
        GetSteps(w, At(w, e.i), e);
      } else if e.ListBegin? || e.ListVisit? || e.ListReturn? {
        ListSteps(w, At(w, e.i), e);
      } else if e.CleanupBegin? || e.CleanupVisit? || e.CleanupWalked? || e.CleanupDelete? || e.CleanupReturn? {
        CleanupSteps(w, At(w, e.i), e);
      } else if !e.Rest? {
        DropSteps(w, At(w, e.i), e);
      } else {
        StandsStill(w, e.i);
      }
      StepKeepsInv(w, Next(w, e), e.i);
    }
  }

  lemma {:induction false} RunKeepsInv(now: Time, events: seq<Event>)
    ensures Inv(Run(Start(now), events))
  {
    if events != [] {
      RunKeepsInv(now, events[..|events| - 1]);
      NextKeepsInv(Run(Start(now), events[..|events| - 1]), events[|events| - 1]);
    }
  }

  // ---------------------------------------------------------------- replies

  /** What Get answers, at the step that settles it: the load when nothing is found, else the check. */
  function GetReply(w: World, e: Event): Option<Option<Session>>
  {
    match e
    case GetLoad(i, token) =>
      if At(w, i).Idle? && (token == "" || token !in w.store) then Some(None) else None
    case GetCheck(i) =>
      if !At(w, i).Loaded? then None
      else if IsExpired(At(w, i).session, w.now) then Some(None)
      else Some(Some(At(w, i).session))
    case _ => None
  }

  /** Under any interleaving Get answers what the map that nobody cleans up would have answered at one
      moment of the call: a session as of the load, nothing as of the step that settles it. */
  lemma GetIsLinearisable(now: Time, events: seq<Event>, e: Event)
    ensures var w := Run(Start(now), events);
            GetReply(w, e).Some? ==>
              match e
              case GetLoad(_, token) => GetReply(w, e).value == Look(w.spec, token, w.now) == None
              case GetCheck(i) =>
                if GetReply(w, e).value.Some? then GetReply(w, e).value == At(w, i).atLoad
                else Look(w.spec, At(w, i).token, w.now) == None
              case _ => true
  {
    RunKeepsInv(now, events);
    var w := Run(Start(now), events);
    if e.GetCheck? { assert ThreadOk(w, At(w, e.i)); }
  }

  /** Under any interleaving GetByUserID returns every session of the user that was open from its
      beginning to its end, and only sessions of the user that were open at some moment in between:
      when it began, or when they were created since. */
  lemma ListingIsRight(now: Time, events: seq<Event>, i: nat)
    ensures var w := Run(Start(now), events);
            var t := At(w, i);
            t.Listed? ==>
              && (forall k | Look(t.begun.spec, k, t.begun.now).Some? && Look(w.spec, k, w.now).Some? &&
                             w.spec[k].userId == t.userId :: w.spec[k] in t.found)
              && (forall s | s in t.found ::
                    && s.userId == t.userId
                    && (Look(t.begun.spec, s.token, t.begun.now) == Some(s) ||
                        (s.token !in t.begun.known && s.token in w.ever && w.ever[s.token] == s)))
  {
    RunKeepsInv(now, events);
    var w := Run(Start(now), events);
    var t := At(w, i);
    assert ThreadOk(w, t);
  }

  // ---------------------------------------------------------------- sessions

  /** Under a new token a session is stored as asked for, to expire one duration from now, and kept on
      record so at every later step. */
  lemma {:induction false} CreatedAsAsked(w: World, token: Token, userId: int, userAgent: string, ipAddress: string,
                                          duration: int, later: seq<Event>)
    requires token != "" && token !in w.ever
    ensures var s := Session(token, userId, w.now, w.now + duration, userAgent, ipAddress);
            var v := Next(w, Event.Create(token, userId, userAgent, ipAddress, duration));
            && token in v.store && v.store[token] == s && token in v.spec && v.spec[token] == s
            && token in Run(v, later).ever && Run(v, later).ever[token] == s
    decreases |later|
  {
    if later != [] {
      CreatedAsAsked(w, token, userId, userAgent, ipAddress, duration, later[..|later| - 1]);
    }
  }

  /** In every reachable world a session leaves the store only by its own logout, by a DeleteByUserID of
      its own user, or, expired, by a clean-up or an expired read: these never take a live session, and
      a bulk deletion never takes another user's, live or not. */
  lemma LiveSessionsStay(now: Time, events: seq<Event>, e: Event, k: Token)
    ensures var w := Run(Start(now), events);
            k in w.store && k !in Next(w, e).store ==>
              || e == Logout(k)
              || (e.DropDelete? && At(w, e.i).Dropping? && At(w, e.i).userId == w.store[k].userId)
              || ((e.CleanupDelete? || e.GetDelete?) && IsExpired(w.store[k], w.now))
  {
    RunKeepsInv(now, events);
    var w := Run(Start(now), events);
    if k in w.store && k !in Next(w, e).store {
      LeavesBy(w, e, k);
      if e.GetDelete? || e.CleanupDelete? || e.DropDelete? {
        assert ThreadOk(w, At(w, e.i));
      }
    }
  }

  /** The steps that take something out of the store. */
  lemma LeavesBy(w: World, e: Event, k: Token)
    requires k in w.store && k !in Next(w, e).store
    ensures || e == Logout(k)
            || (e.GetDelete? && At(w, e.i) == Expiring(k))
            || (e.CleanupDelete? && At(w, e.i).Clearing? && k in At(w, e.i).doomed)
            || (e.DropDelete? && At(w, e.i).Dropping? && k in At(w, e.i).doomed)
  {
  }

  /** A read that meets an expired session goes on to take it, and only it, out of the store. */
  lemma ExpiredReadDeletes(w: World, i: nat)
    requires At(w, i).Loaded? && IsExpired(At(w, i).session, w.now)
    ensures var token, v := At(w, i).token, Next(Next(w, GetCheck(i)), GetDelete(i));
            At(v, i).Idle? && v.store == w.store - {token} && v.spec == w.spec
  {
  }

  /** When DeleteByUserID has returned, no session of the user that was there when it began is left,
      whatever else ran in between. */
  lemma UserSessionsAreGone(now: Time, events: seq<Event>, i: nat)
    ensures var w := Run(Start(now), events);
            At(w, i).Dropped? ==>
              forall k | k in At(w, i).present && k in w.store :: w.store[k].userId != At(w, i).userId
  {
    RunKeepsInv(now, events);
    var w := Run(Start(now), events);
    assert ThreadOk(w, At(w, i));
  }

  /** And when CleanupExpired has returned, nothing is left that was there and had expired when it began. */
  lemma ExpiredSessionsAreGone(now: Time, events: seq<Event>, i: nat)
    ensures var w := Run(Start(now), events);
            At(w, i).Swept? ==>
              forall k | k in At(w, i).present && k in w.store :: At(w, i).since <= w.store[k].expiresAt
  {
    RunKeepsInv(now, events);
    var w := Run(Start(now), events);
    assert ThreadOk(w, At(w, i));
  }
}

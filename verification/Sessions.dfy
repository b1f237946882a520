/** The in-memory session store of internal/auth/session.go, used by one caller at a time.
    Time is a clock that never runs backwards and may advance between any two readings. */
module Sessions {
  import opened Wrappers

  type Token = string
  type Time = int

  datatype Session =
    Session(token: Token, userId: int, createdAt: Time, expiresAt: Time, userAgent: string, ipAddress: string)

  type Store = map<Token, Session>

  predicate IsExpired(s: Session, now: Time) { now > s.expiresAt }

  predicate KeyedByToken(store: Store) { forall k | k in store :: store[k].token == k }

  class Clock {
    var time: Time

    /** time.Now(). */
    method Now() returns (t: Time)
      modifies this
      ensures old(time) <= time == t
    {
      var elapsed :| 0 <= elapsed;
      time := time + elapsed;
      t := time;
    }
  }

  // ---------------------------------------------------------------- what the operations mean

  /** When each entry was looked at during a walk over the store. */
  type Moments = map<Token, Time>

  predicate Within(at: Moments, from: Time, to: Time) { forall k | k in at :: from <= at[k] <= to }

  /** An entry the walk did not meet counts as looked at when it ended. */
  function Moment(at: Moments, k: Token, end: Time): Time { if k in at then at[k] else end }

  function ExpiredKeys(store: Store, at: Moments, end: Time): set<Token>
  {
    set k | k in store && IsExpired(store[k], Moment(at, k, end))
  }

  function UserKeys(store: Store, userId: int): set<Token> { set k | k in store && store[k].userId == userId }

  function ActiveOf(store: Store, userId: int, at: Moments, end: Time): set<Session>
  {
    set k | k in store && store[k].userId == userId && !IsExpired(store[k], Moment(at, k, end)) :: store[k]
  }

  function NewSession(token: Token, userId: int, now: Time, duration: int,
                      userAgent: string, ipAddress: string): Session
  {
    Session(token, userId, now, now + duration, userAgent, ipAddress)
  }

  class SessionStore {
    var sessions: Store
    const duration: int
    const clock: Clock

    ghost predicate Valid()
      reads this
    {
      KeyedByToken(sessions)
    }

    constructor (duration: int, clock: Clock)
      ensures Valid() && sessions == map[] && this.duration == duration && this.clock == clock
    {
      this.duration := duration;
      this.clock := clock;
      sessions := map[];
    }

    /** drawn: the random token, or nothing when the generator failed. */
    method Create(drawn: Option<Token>, userId: int, userAgent: string, ipAddress: string) returns (r: Option<Session>)
      requires Valid()
      modifies this`sessions, clock
      ensures Valid() && old(clock.time) <= clock.time
      ensures drawn.None? ==> r == None && sessions == old(sessions)
      ensures drawn.Some? ==>
                && r.Some? && r.value.token == drawn.value && r.value.userId == userId
                && r.value.userAgent == userAgent && r.value.ipAddress == ipAddress
                && r.value.createdAt == clock.time && r.value.expiresAt == clock.time + duration
                && sessions == old(sessions)[drawn.value := r.value]
      ensures drawn.Some? ==>
                (sessions, One(r)) ==
                Step(old(sessions), Call(Op.Create(drawn.value, userId, userAgent, ipAddress), clock.time), duration)
    {
      if drawn.None? {
        return None;
      }
      var now := clock.Now();
      var session := Session(drawn.value, userId, now, now + duration, userAgent, ipAddress);
      sessions := sessions[drawn.value := session];
      return Some(session);
    }

    method Get(token: Token) returns (r: Option<Session>)
      requires Valid()
      modifies this`sessions, clock
      ensures Valid() && old(clock.time) <= clock.time
      ensures r.Some? <==> token != "" && token in old(sessions) && clock.time <= old(sessions)[token].expiresAt
      ensures r.Some? ==> r.value == old(sessions)[token]
      ensures forall k :: k in sessions <==>
                k in old(sessions) && (k == token && k != "" ==> clock.time <= old(sessions)[k].expiresAt)
      ensures forall k | k in sessions :: sessions[k] == old(sessions)[k]
      ensures (sessions, One(r)) == Step(old(sessions), Call(Op.Get(token), clock.time), duration)
    {
      if token == "" {
        return None;
      }
      if token !in sessions {
        return None;
      }
      var session := sessions[token];
      var now := clock.Now();
      if IsExpired(session, now) {
        sessions := sessions - {token};
        return None;
      }
      return Some(session);
    }

    method Delete(token: Token)
      requires Valid()
      modifies this`sessions
      ensures Valid() && sessions == old(sessions) - {token}
    {
      sessions := sessions - {token};
    }

    method GetByUserID(userId: int) returns (found: seq<Session>, ghost at: Moments)
      requires Valid()
      modifies clock
      ensures old(clock.time) <= clock.time && Within(at, old(clock.time), clock.time) && at.Keys == sessions.Keys
      ensures forall k | k in sessions ::
                sessions[k] in found <==> sessions[k].userId == userId && at[k] <= sessions[k].expiresAt
      ensures forall s | s in found :: s.token in sessions && sessions[s.token] == s
      ensures (set s | s in found) == ActiveOf(sessions, userId, at, clock.time)
      ensures forall i, j | 0 <= i < j < |found| :: found[i].token != found[j].token
    {
      found, at := [], map[];
      var rest := sessions.Keys;
      ghost var begun := clock.time;
      while rest != {}
        invariant rest <= sessions.Keys && at.Keys == sessions.Keys - rest
        invariant begun <= clock.time && forall k | k in at :: begun <= at[k] <= clock.time
        invariant forall s | s in found ::
                    s.token in at && sessions[s.token] == s && s.userId == userId && !IsExpired(s, at[s.token])
        invariant forall k | k in at && sessions[k].userId == userId && !IsExpired(sessions[k], at[k]) ::
                    sessions[k] in found
        invariant forall i, j | 0 <= i < j < |found| :: found[i].token != found[j].token
      {
        var k :| k in rest;
        rest := rest - {k};
        var now := clock.Now();
        at := at[k := now];
        if sessions[k].userId == userId && !IsExpired(sessions[k], now) {
          found := found + [sessions[k]];
        }
      }
    }

    method DeleteByUserID(userId: int)
      requires Valid()
      modifies this`sessions
      ensures Valid() && sessions == old(sessions) - UserKeys(old(sessions), userId)
      ensures forall k :: k in sessions <==> k in old(sessions) && old(sessions)[k].userId != userId
      ensures forall k | k in sessions :: sessions[k] == old(sessions)[k]
    {
      var toDelete: seq<Token> := [];
      var rest := sessions.Keys;
      while rest != {}
        invariant rest <= sessions.Keys
        invariant forall t :: t in toDelete <==> t in UserKeys(sessions, userId) - rest
      {
        var k :| k in rest;
        rest := rest - {k};
        if sessions[k].userId == userId {
          toDelete := toDelete + [sessions[k].token];
        }
      }
      assert (set t | t in toDelete) == UserKeys(sessions, userId);
      var _ := DeleteAll(toDelete);
    }

    /** The closing loop of both walks, counting as CleanupExpired does. */
    method DeleteAll(tokens: seq<Token>) returns (count: int)
      requires Valid()
      modifies this`sessions
      ensures Valid() && sessions == old(sessions) - (set t | t in tokens) && count == |tokens|
    {
      count := 0;
      for i := 0 to |tokens|
        invariant sessions == old(sessions) - (set t | t in tokens[..i]) && count == i
      {
        assert tokens[..i + 1] == tokens[..i] + [tokens[i]];
        sessions := sessions - {tokens[i]};
        count := count + 1;
      }
      assert tokens[..|tokens|] == tokens;
    }

    /** The walk of CleanupExpired. */
    method FindExpired() returns (toDelete: seq<Token>, ghost at: Moments)
      requires Valid()
      modifies clock
      ensures old(clock.time) <= clock.time && Within(at, old(clock.time), clock.time) && at.Keys == sessions.Keys
      ensures forall t :: t in toDelete <==> t in sessions && IsExpired(sessions[t], at[t])
      ensures forall i, j | 0 <= i < j < |toDelete| :: toDelete[i] != toDelete[j]
    {
      toDelete, at := [], map[];
      var rest := sessions.Keys;
      ghost var begun := clock.time;
      while rest != {}
        invariant rest <= sessions.Keys && at.Keys == sessions.Keys - rest
        invariant begun <= clock.time && forall k | k in at :: begun <= at[k] <= clock.time
        invariant forall t :: t in toDelete <==> t in at && IsExpired(sessions[t], at[t])
        invariant forall i, j | 0 <= i < j < |toDelete| :: toDelete[i] != toDelete[j]
      {
        var k :| k in rest;
        rest := rest - {k};
        var now := clock.Now();
        at := at[k := now];
        if IsExpired(sessions[k], now) {
          toDelete := toDelete + [sessions[k].token];
        }
      }
    }

    method CleanupExpired() returns (cleaned: int, ghost at: Moments)
      requires Valid()
      modifies this`sessions, clock
      ensures Valid() && old(clock.time) <= clock.time
      ensures Within(at, old(clock.time), clock.time) && at.Keys == old(sessions).Keys
      ensures sessions == old(sessions) - ExpiredKeys(old(sessions), at, clock.time)
      ensures forall k :: k in sessions <==> k in old(sessions) && at[k] <= old(sessions)[k].expiresAt
      ensures forall k | k in sessions :: sessions[k] == old(sessions)[k]
      ensures cleaned == |old(sessions)| - |sessions|
    {
      var toDelete;
      toDelete, at := FindExpired();
      ghost var expired := set t | t in toDelete;
      assert ExpiredKeys(sessions, at, clock.time) == expired;
      CountDistinct(toDelete);
      CountRemoved(sessions, expired);
      cleaned := DeleteAll(toDelete);
    }
  }

  lemma {:induction false} CountDistinct(tokens: seq<Token>)
    requires forall i, j | 0 <= i < j < |tokens| :: tokens[i] != tokens[j]
    ensures |set t | t in tokens| == |tokens|
  {
    if tokens != [] {
      var front, last := tokens[..|tokens| - 1], tokens[|tokens| - 1];
      CountDistinct(front);
      assert (set t | t in tokens) == (set t | t in front) + {last};
    } else {
      assert (set t | t in tokens) == {};
    }
  }

  lemma CountRemoved(store: Store, keys: set<Token>)
    requires keys <= store.Keys
    ensures |store - keys| == |store| - |keys|
  {
    assert (store - keys).Keys == store.Keys - keys;
  }

  // ---------------------------------------------------------------- runs

  datatype Op =
    | Create(token: Token, userId: int, userAgent: string, ipAddress: string)
    | Get(token: Token)
    | Delete(token: Token)
    | GetByUserID(userId: int, at: Moments)
    | DeleteByUserID(userId: int)
    | CleanupExpired(at: Moments)

  datatype Reply = Nothing | One(session: Option<Session>) | Many(sessions: set<Session>)

  /** An operation and the clock when it was done. */
  datatype Call = Call(op: Op, end: Time)

  /** One operation of the store: the effects the methods above promise. */
  function Step(store: Store, c: Call, duration: int): (Store, Reply)
  {
    match c.op
    case Create(token, userId, userAgent, ipAddress) =>
      var s := NewSession(token, userId, c.end, duration, userAgent, ipAddress);
      (store[token := s], One(Some(s)))
    case Get(token) =>
      if token == "" || token !in store then (store, One(None))
      else if IsExpired(store[token], c.end) then (store - {token}, One(None))
      else (store, One(Some(store[token])))
    case Delete(token) => (store - {token}, Nothing)
    case GetByUserID(userId, at) => (store, Many(ActiveOf(store, userId, at, c.end)))
    case DeleteByUserID(userId) => (store - UserKeys(store, userId), Nothing)
    case CleanupExpired(at) => (store - ExpiredKeys(store, at, c.end), Nothing)
  }

  /** The specification: a map nobody cleans up, of which only the unexpired part can be seen. */
  function SpecStep(store: Store, c: Call, duration: int): (Store, Reply)
  {
    match c.op
    case Create(token, userId, userAgent, ipAddress) =>
      var s := NewSession(token, userId, c.end, duration, userAgent, ipAddress);
      (store[token := s], One(Some(s)))
    case Get(token) =>
      var open := token != "" && token in store && c.end <= store[token].expiresAt;
      (store, One(if open then Some(store[token]) else None))
    case Delete(token) => (store - {token}, Nothing)
    case GetByUserID(userId, at) => (store, Many(ActiveOf(store, userId, at, c.end)))
    case DeleteByUserID(userId) => (store - UserKeys(store, userId), Nothing)
    case CleanupExpired(at) => (store, Nothing)
  }

  /** The clock readings of a walk fall between the end of the previous call and its own. */
  ghost predicate Timely(c: Call, now: Time)
  {
    now <= c.end && ((c.op.GetByUserID? || c.op.CleanupExpired?) ==> Within(c.op.at, now, c.end))
  }

  /** Calls in time order. */
  ghost predicate TimelyRun(calls: seq<Call>, now: Time)
  {
    calls == [] || (Timely(calls[0], now) && TimelyRun(calls[1..], calls[0].end))
  }

  function Replies(calls: seq<Call>, store: Store, duration: int): seq<Reply>
  {
    if calls == [] then []
    else
      var r := Step(store, calls[0], duration);
      [r.1] + Replies(calls[1..], r.0, duration)
  }

  function SpecReplies(calls: seq<Call>, spec: Store, duration: int): seq<Reply>
  {
    if calls == [] then []
    else
      var r := SpecStep(spec, calls[0], duration);
      [r.1] + SpecReplies(calls[1..], r.0, duration)
  }

  /** The real store is the specification's minus some entries that have expired. */
  ghost predicate Simulates(store: Store, spec: Store, now: Time)
  {
    (forall k | k in store :: k in spec && store[k] == spec[k]) &&
    (forall k | k in spec && k !in store :: IsExpired(spec[k], now))
  }

  lemma StepSimulates(store: Store, spec: Store, now: Time, c: Call, duration: int)
    requires Simulates(store, spec, now) && Timely(c, now)
    ensures Simulates(Step(store, c, duration).0, SpecStep(spec, c, duration).0, c.end)
    ensures Step(store, c, duration).1 == SpecStep(spec, c, duration).1
  {
    if c.op.GetByUserID? {
      var userId, at := c.op.userId, c.op.at;
      forall s | s in ActiveOf(spec, userId, at, c.end) ensures s in ActiveOf(store, userId, at, c.end) {
        var k :| k in spec && spec[k].userId == userId && !IsExpired(spec[k], Moment(at, k, c.end)) && s == spec[k];
        assert k in store;
      }
    }
  }

  /** Refinement: over every run the store answers exactly as the map that is never cleaned up. */
  lemma {:induction false} StoreRefinesSpec(calls: seq<Call>, store: Store, spec: Store, now: Time, duration: int)
    requires TimelyRun(calls, now) && Simulates(store, spec, now)
    ensures Replies(calls, store, duration) == SpecReplies(calls, spec, duration)
  {
    if calls != [] {
      StepSimulates(store, spec, now, calls[0], duration);
      StoreRefinesSpec(calls[1..], Step(store, calls[0], duration).0, SpecStep(spec, calls[0], duration).0,
                       calls[0].end, duration);
    }
  }

  /** A clean-up squeezed in anywhere leaves every later reply as it was. */
  lemma CleanupIsInvisible(calls: seq<Call>, store: Store, now: Time, at: Moments, end: Time, duration: int)
    requires Timely(Call(CleanupExpired(at), end), now) && TimelyRun(calls, end)
    ensures var cleaned := Step(store, Call(CleanupExpired(at), end), duration).0;
            Replies(calls, cleaned, duration) == Replies(calls, store, duration)
  {
    StepSimulates(store, store, now, Call(CleanupExpired(at), end), duration);
    StoreRefinesSpec(calls, store, store, end, duration);
    StoreRefinesSpec(calls, Step(store, Call(CleanupExpired(at), end), duration).0, store, end, duration);
  }

  /** So does the deletion of an expired entry that Get performs on the side. */
  lemma LazyDeletionIsInvisible(calls: seq<Call>, store: Store, token: Token, end: Time, duration: int)
    requires TimelyRun(calls, end)
    ensures Replies(calls, Step(store, Call(Get(token), end), duration).0, duration) == Replies(calls, store, duration)
  {
    StepSimulates(store, store, end, Call(Get(token), end), duration);
    StoreRefinesSpec(calls, store, store, end, duration);
    StoreRefinesSpec(calls, Step(store, Call(Get(token), end), duration).0, store, end, duration);
  }

  // ---------------------------------------------------------------- the life of a session

  /** A call that ends a session, or replaces it. */
  predicate Ends(c: Call, token: Token, userId: int)
  {
    || (c.op.Delete? && c.op.token == token)
    || (c.op.DeleteByUserID? && c.op.userId == userId)
    || (c.op.Create? && c.op.token == token)
  }

  function After(calls: seq<Call>, store: Store, duration: int): Store
  {
    if calls == [] then store else After(calls[1..], Step(store, calls[0], duration).0, duration)
  }

  /** Stored unchanged, or gone because it has expired. */
  predicate Lasts(store: Store, s: Session, now: Time)
  {
    if s.token in store then store[s.token] == s else IsExpired(s, now)
  }

  lemma {:induction false} SessionStays(calls: seq<Call>, store: Store, s: Session, now: Time, end: Time, duration: int)
    requires TimelyRun(calls, now) && Lasts(store, s, now) && now <= end
    requires calls != [] ==> calls[|calls| - 1].end <= end
    requires forall c | c in calls :: !Ends(c, s.token, s.userId)
    ensures Lasts(After(calls, store, duration), s, end)
  {
    if calls != [] {
      var c, rest := calls[0], calls[1..];
      assert c in calls && Timely(c, now);
      LastsOneCall(store, s, now, c, duration);
      assert forall d | d in rest :: d in calls;
      if rest != [] { EndsAreLater(rest, c.end); }
      SessionStays(rest, Step(store, c, duration).0, s, c.end, end, duration);
    }
  }

  lemma {:induction false} EndsAreLater(calls: seq<Call>, now: Time)
    requires TimelyRun(calls, now) && calls != []
    ensures now <= calls[|calls| - 1].end
  {
    if |calls| > 1 { EndsAreLater(calls[1..], calls[0].end); }
  }

  lemma LastsOneCall(store: Store, s: Session, now: Time, c: Call, duration: int)
    requires Timely(c, now) && Lasts(store, s, now) && !Ends(c, s.token, s.userId)
    ensures Lasts(Step(store, c, duration).0, s, c.end)
  {
  }

  /** Created at t and not ended since, a session is found at u if and only if u <= t + duration, whatever
      else has been called in between, clean-ups included. */
  lemma SessionLifetime(calls: seq<Call>, store: Store, token: Token, userId: int, userAgent: string,
                        ipAddress: string, t: Time, u: Time, duration: int)
    requires token != "" && t <= u && TimelyRun(calls, t) && (calls != [] ==> calls[|calls| - 1].end <= u)
    requires forall c | c in calls :: !Ends(c, token, userId)
    ensures var created := Step(store, Call(Op.Create(token, userId, userAgent, ipAddress), t), duration).0;
            var found := Step(After(calls, created, duration), Call(Op.Get(token), u), duration).1;
            found == One(if u <= t + duration
                         then Some(Session(token, userId, t, t + duration, userAgent, ipAddress))
                         else None)
  {
    var created := Step(store, Call(Op.Create(token, userId, userAgent, ipAddress), t), duration).0;
    SessionStays(calls, created, created[token], t, u, duration);
  }
}

/** The in-memory cache (cache/cache.go): lazy expiry, one caller at a time, and the single-flight
    fill of a missing key in every interleaving of its critical sections. */
module Cache {
  import opened Prelude

  type Key = string

  type Value = int

  type Time = int

  /** No expiry is Go's zero time. */
  datatype Item = Item(value: Value, expiresAt: Option<Time>)

  predicate Expired(it: Item, now: Time) {
    it.expiresAt.Some? && now > it.expiresAt.value
  }

  /** What the cache holds for a reader at a time. */
  function Live(items: map<Key, Item>, now: Time): map<Key, Value> {
    map k | k in items && !Expired(items[k], now) :: items[k].value
  }

  /** No reader can tell the two apart from now on. */
  ghost predicate SameFrom(a: map<Key, Item>, b: map<Key, Item>, now: Time) {
    forall t | t >= now :: Live(a, t) == Live(b, t)
  }

  /** Dropping entries that have expired is not noticed. */
  lemma DroppingExpiredIsUnseen(items: map<Key, Item>, gone: set<Key>, now: Time)
    requires forall k | k in gone && k in items :: Expired(items[k], now)
    ensures SameFrom(items, items - gone, now)
  {
    forall t | t >= now ensures Live(items, t) == Live(items - gone, t) {
      forall k ensures k in Live(items, t) <==> k in Live(items - gone, t) {
      }
    }
  }

  class Memory {
    var items: map<Key, Item>

    constructor ()
      ensures items == map[]
    {
      items := map[];
    }

    /** An expired entry is a miss and is dropped, which no one can see. */
    method Get(key: Key, now: Time) returns (r: Option<Value>)
      modifies this
      ensures r == if key in Live(old(items), now) then Some(Live(old(items), now)[key]) else None
      ensures SameFrom(items, old(items), now)
    {
      if key !in items {
        return None;
      }
      var it := items[key];
      if it.expiresAt.Some? && now > it.expiresAt.value {
        DroppingExpiredIsUnseen(items, {key}, now);
        items := items - {key};
        return None;
      }
      return Some(it.value);
    }

    /** A negative lifetime removes, zero stores for good, a positive one until it has passed. */
    method Put(key: Key, value: Value, ttl: Time, now: Time)
      modifies this
      ensures forall t | t >= now :: Live(items, t) ==
                (if ttl == 0 || (ttl > 0 && t <= now + ttl) then Live(old(items), t)[key := value] else Live(old(items), t) - {key})
    {
      if ttl < 0 {
        items := items - {key};
        return;
      }
      var exp := None;
      if ttl > 0 {
        exp := Some(now + ttl);
      }
      items := items[key := Item(value, exp)];
    }

    /** Reads and removes in one critical section: the next Pull misses. */
    method Pull(key: Key, now: Time) returns (r: Option<Value>)
      modifies this
      ensures r == if key in Live(old(items), now) then Some(Live(old(items), now)[key]) else None
      ensures forall t :: Live(items, t) == Live(old(items), t) - {key}
    {
      if key !in items {
        assert forall t :: Live(items, t) == Live(items, t) - {key};
        return None;
      }
      var it := items[key];
      items := items - {key};
      if it.expiresAt.Some? && now > it.expiresAt.value {
        return None;
      }
      return Some(it.value);
    }

    method PurgeExpired(now: Time)
      modifies this
      ensures SameFrom(items, old(items), now)
      ensures forall k | k in items :: !Expired(items[k], now)
    {
      ghost var before := items;
      ghost var gone: set<Key> := {};
      var todo := items.Keys;
      assert before - gone == before;
      while todo != {}
        invariant todo <= before.Keys && items == before - gone
        invariant forall k | k in gone :: k in before && Expired(before[k], now)
        invariant forall k | k in items && k !in todo :: !Expired(items[k], now)
        invariant gone !! todo
        decreases todo
      {
        var k :| k in todo;
        if Expired(items[k], now) {
          items := items - {k};
          gone := gone + {k};
          assert items == before - gone;
        }
        todo := todo - {k};
      }
      DroppingExpiredIsUnseen(before, gone, now);
    }
  }
}

module SingleFlight {
  import opened Prelude

  type Key = string

  type Value = int

  /** What a producer returns, and what everyone who joined it gets. */
  datatype Outcome = Value(v: Value) | Error(message: string)

  /** Where a call of rememberOnce stands between two of its critical sections. A producer runs its
      function, stores the value, leaves the table of flights, and then wakes its waiters. */
  datatype Phase =
    | Running(key: Key, flight: nat)
    | Produced(key: Key, flight: nat, outcome: Outcome)
    | Stored(key: Key, flight: nat, outcome: Outcome)
    | Left(key: Key, flight: nat, outcome: Outcome)
    | Waiting(key: Key, flight: nat)
    | Returned(outcome: Outcome)
    | Cancelled

  /** The two guarded tables and the closed flights; and, which the code does not keep, the call
      that owns each flight, what its function returned, and per key the number of producers that
      succeeded and of removals. */
  datatype System = System(
    items: map<Key, Value>, flights: map<Key, nat>, closed: map<nat, Outcome>, calls: map<nat, Phase>,
    owner: map<nat, nat>, result: map<nat, Outcome>, successes: map<Key, nat>, removals: map<Key, nat>)

  datatype Event =
    | Remember(call: nat, key: Key)
    | Produce(call: nat, outcome: Outcome)  // the function returns
    | Store(call: nat)
    | Leave(call: nat)
    | Close(call: nat)
    | Wake(call: nat)
    | Cancel(call: nat)
    | Put(key: Key, v: Value)               // by someone else
    | Remove(key: Key)                      // Forget, Pull or an expiry

  const START := System(map[], map[], map[], map[], map[], map[], map[], map[])

  function Tally(m: map<Key, nat>, k: Key): nat {
    if k in m then m[k] else 0
  }

  function Step(s: System, e: Event): Option<System> {
    match e
    case Remember(c, k) =>
      if c in s.calls then None
      else if k in s.flights then Some(s.(calls := s.calls[c := Waiting(k, s.flights[k])]))
      else if k in s.items then Some(s.(calls := s.calls[c := Returned(Value(s.items[k]))]))
      else
        var f := |s.owner|;
        Some(s.(flights := s.flights[k := f], owner := s.owner[f := c], calls := s.calls[c := Running(k, f)]))
    case Produce(c, r) =>
      if c !in s.calls || !s.calls[c].Running? then None
      else
        var Running(k, f) := s.calls[c];
        Some(s.(calls := s.calls[c := Produced(k, f, r)], result := s.result[f := r],
                successes := if r.Value? then s.successes[k := Tally(s.successes, k) + 1] else s.successes))
    case Store(c) =>
      if c !in s.calls || !s.calls[c].Produced? then None
      else
        var Produced(k, f, r) := s.calls[c];
        Some(s.(calls := s.calls[c := Stored(k, f, r)], items := if r.Value? then s.items[k := r.v] else s.items))
    case Leave(c) =>
      if c !in s.calls || !s.calls[c].Stored? then None
      else
        var Stored(k, f, r) := s.calls[c];
        Some(s.(calls := s.calls[c := Left(k, f, r)], flights := s.flights - {k}))
    case Close(c) =>
      if c !in s.calls || !s.calls[c].Left? then None
      else
        var Left(k, f, r) := s.calls[c];
        Some(s.(calls := s.calls[c := Returned(r)], closed := s.closed[f := r]))
    case Wake(c) =>
      if c !in s.calls || !s.calls[c].Waiting? || s.calls[c].flight !in s.closed then None
      else Some(s.(calls := s.calls[c := Returned(s.closed[s.calls[c].flight])]))
    case Cancel(c) =>
      if c !in s.calls || !s.calls[c].Waiting? then None else Some(s.(calls := s.calls[c := Cancelled]))
    case Put(k, v) => Some(s.(items := s.items[k := v]))
    case Remove(k) => Some(s.(items := s.items - {k}, removals := s.removals[k := Tally(s.removals, k) + 1]))
  }

  // ---- The code: the critical sections of rememberOnce, each proved to be its step ----

  class Memory {
    var items: map<Key, Value>
    var flights: map<Key, nat>
    var closed: map<nat, Outcome>
    var started: nat

    ghost predicate Shows(s: System)
      reads this
    {
      items == s.items && flights == s.flights && closed == s.closed && started == |s.owner|
    }

    constructor ()
      ensures Shows(START)
    {
      items, flights, closed, started := map[], map[], map[], 0;
    }

    /** Up to the first unlock: wait for a flight, return what is stored, or start a flight. */
    method Enter(k: Key, ghost s: System, ghost c: nat) returns (p: Phase)
      requires Shows(s) && c !in s.calls && |s.owner| !in s.owner
      modifies this
      ensures Step(s, Remember(c, k)).Some?
      ensures Shows(Step(s, Remember(c, k)).value) && Step(s, Remember(c, k)).value.calls == s.calls[c := p]
    {
      if k in flights {
        return Waiting(k, flights[k]);
      }
      if k in items {
        return Returned(Outcome.Value(items[k]));
      }
      var f := started;
      started := started + 1;
      flights := flights[k := f];
      return Running(k, f);
    }

    /** Only a success is cached; an error is shared with the waiters and retried by the next caller. */
    method StoreOutcome(p: Phase, ghost s: System, ghost c: nat) returns (p': Phase)
      requires Shows(s) && c in s.calls && s.calls[c] == p && p.Produced?
      modifies this
      ensures Step(s, Store(c)).Some?
      ensures Shows(Step(s, Store(c)).value) && Step(s, Store(c)).value.calls == s.calls[c := p']
    {
      if p.outcome.Value? {
        items := items[p.key := p.outcome.v];
      }
      return Stored(p.key, p.flight, p.outcome);
    }

    method LeaveTable(p: Phase, ghost s: System, ghost c: nat) returns (p': Phase)
      requires Shows(s) && c in s.calls && s.calls[c] == p && p.Stored?
      modifies this
      ensures Step(s, Leave(c)).Some?
      ensures Shows(Step(s, Leave(c)).value) && Step(s, Leave(c)).value.calls == s.calls[c := p']
    {
      flights := flights - {p.key};
      return Left(p.key, p.flight, p.outcome);
    }

    method CloseFlight(p: Phase, ghost s: System, ghost c: nat) returns (p': Phase)
      requires Shows(s) && c in s.calls && s.calls[c] == p && p.Left?
      modifies this
      ensures Step(s, Close(c)).Some?
      ensures Shows(Step(s, Close(c)).value) && Step(s, Close(c)).value.calls == s.calls[c := p']
    {
      closed := closed[p.flight := p.outcome];
      return Returned(p.outcome);
    }
  }

  /** The call flies the flight and the table still says so. */
  predicate Flying(p: Phase, k: Key, f: nat) {
    match p
    case Running(k', f') => k' == k && f' == f
    case Produced(k', f', _) => k' == k && f' == f
    case Stored(k', f', _) => k' == k && f' == f
    case _ => false
  }

  predicate InTable(p: Phase) {
    p.Running? || p.Produced? || p.Stored?
  }

  /** A call that has still to close the flight. */
  predicate Closes(p: Phase, f: nat) {
    (InTable(p) || p.Left?) && p.flight == f
  }

  type Calls = map<nat, Phase>

  type Owners = map<nat, nat>

  type Outcomes = map<nat, Outcome>

  /** Flights are numbered in the order in which they start; closing one hands on its result. */
  ghost predicate Numbered(owner: Owners, result: Outcomes, closed: Outcomes) {
    && (forall f :: f in owner <==> 0 <= f < |owner|)
    && (forall f | f in closed :: f in result && closed[f] == result[f])
    && (forall f | f in result :: f in owner)
  }

  /** The table of flights and the producers that have not left it tell the same story. */
  ghost predicate TableMatches(flights: map<Key, nat>, calls: Calls, owner: Owners) {
    && (forall k | k in flights :: flights[k] in owner && owner[flights[k]] in calls && Flying(calls[owner[flights[k]]], k, flights[k]))
    && (forall c | c in calls && InTable(calls[c]) :: Owns(flights, owner, c, calls[c].key, calls[c].flight))
  }

  predicate Owns(flights: map<Key, nat>, owner: Owners, c: nat, k: Key, f: nat) {
    k in flights && flights[k] == f && f in owner && owner[f] == c
  }

  /** A running producer has no result yet; from then on it carries what its function returned. A
      waiter's flight is closed, or is still to be closed by its owner. */
  ghost predicate Carries(c: nat, p: Phase, calls: Calls, owner: Owners, result: Outcomes, closed: Outcomes) {
    match p
    case Running(_, f) => f in owner && owner[f] == c && f !in result
    case Produced(_, f, r) => f in owner && owner[f] == c && f in result && result[f] == r
    case Stored(_, f, r) => f in owner && owner[f] == c && f in result && result[f] == r
    case Left(_, f, r) => f in owner && owner[f] == c && f in result && result[f] == r
    case Waiting(_, f) => f in owner && (f in closed || (owner[f] in calls && Closes(calls[owner[f]], f)))
    case Returned(_) => true
    case Cancelled => true
  }

  ghost predicate AllCarry(calls: Calls, owner: Owners, result: Outcomes, closed: Outcomes) {
    forall c | c in calls :: Carries(c, calls[c], calls, owner, result, closed)
  }

  /** The call is about to store a value for the key. */
  predicate AboutToStore(p: Phase, k: Key) {
    p.Produced? && p.key == k && p.outcome.Value?
  }

  ghost predicate Full(items: map<Key, Value>, calls: Calls, k: Key) {
    k in items || exists c :: c in calls && AboutToStore(calls[c], k)
  }

  /** At most one success more than removals, and none more while the key is missing or being made. */
  ghost predicate Counted(items: map<Key, Value>, calls: Calls, successes: map<Key, nat>, removals: map<Key, nat>) {
    && (forall k :: Tally(successes, k) <= Tally(removals, k) + 1)
    && (forall k :: Full(items, calls, k) || Tally(successes, k) <= Tally(removals, k))
    && (forall c | c in calls && calls[c].Running? :: Tally(successes, calls[c].key) <= Tally(removals, calls[c].key))
  }

  ghost predicate Inv(s: System) {
    && Numbered(s.owner, s.result, s.closed)
    && TableMatches(s.flights, s.calls, s.owner)
    && AllCarry(s.calls, s.owner, s.result, s.closed)
    && Counted(s.items, s.calls, s.successes, s.removals)
  }

  // ---- What each step does to each part ----

  lemma TableStarts(flights: map<Key, nat>, calls: Calls, owner: Owners, c: nat, k: Key, f: nat)
    requires TableMatches(flights, calls, owner) && c !in calls && k !in flights && f !in owner
    ensures TableMatches(flights[k := f], calls[c := Running(k, f)], owner[f := c])
  {
  }

  /** A producer goes on, still in the table; or a call that is not in the table changes phase. */
  lemma TableStays(flights: map<Key, nat>, calls: Calls, owner: Owners, c: nat, p: Phase)
    requires TableMatches(flights, calls, owner)
    requires if c in calls && InTable(calls[c]) then Flying(p, calls[c].key, calls[c].flight) else !InTable(p)
    ensures TableMatches(flights, calls[c := p], owner)
  {
    var calls' := calls[c := p];
    forall k | k in flights ensures owner[flights[k]] in calls' && Flying(calls'[owner[flights[k]]], k, flights[k]) {
      assert Flying(calls[owner[flights[k]]], k, flights[k]);
    }
  }

  lemma TableLoses(flights: map<Key, nat>, calls: Calls, owner: Owners, c: nat, p: Phase)
    requires TableMatches(flights, calls, owner) && c in calls && InTable(calls[c]) && !InTable(p)
    ensures TableMatches(flights - {calls[c].key}, calls[c := p], owner)
  {
    var k0 := calls[c].key;
    assert Owns(flights, owner, c, k0, calls[c].flight);
    forall d | d in calls && d != c && InTable(calls[d]) ensures calls[d].key != k0 {
      assert Owns(flights, owner, d, calls[d].key, calls[d].flight);
    }
    forall k | k in flights && k != k0 ensures owner[flights[k]] != c {
      assert Flying(calls[owner[flights[k]]], k, flights[k]);
    }
  }

  lemma CarryStarts(calls: Calls, owner: Owners, result: Outcomes, closed: Outcomes, c: nat, k: Key, f: nat)
    requires AllCarry(calls, owner, result, closed) && c !in calls && f !in owner && f !in result
    ensures AllCarry(calls[c := Running(k, f)], owner[f := c], result, closed)
  {
    var calls', owner' := calls[c := Running(k, f)], owner[f := c];
    forall d | d in calls' ensures Carries(d, calls'[d], calls', owner', result, closed) {
      if d != c {
        assert Carries(d, calls[d], calls, owner, result, closed);
      }
    }
  }

  /** A producer goes on towards closing its flight. */
  lemma CarryGoesOn(calls: Calls, owner: Owners, result: Outcomes, closed: Outcomes, c: nat, p: Phase, result': Outcomes, f: nat)
    requires AllCarry(calls, owner, result, closed)
    requires c in calls && Closes(calls[c], f) && Closes(p, f)
    requires !p.Running? && f in result' && result'[f] == p.outcome
    requires result' == result || result' == result[f := p.outcome]
    ensures AllCarry(calls[c := p], owner, result', closed)
  {
    assert Carries(c, calls[c], calls, owner, result, closed);
    var calls' := calls[c := p];
    forall d | d in calls' ensures Carries(d, calls'[d], calls', owner, result', closed) {
      if d != c {
        assert Carries(d, calls[d], calls, owner, result, closed);
      }
    }
  }

  lemma CarryCloses(calls: Calls, owner: Owners, result: Outcomes, closed: Outcomes, c: nat, f: nat, r: Outcome)
    requires AllCarry(calls, owner, result, closed) && c in calls && Closes(calls[c], f)
    ensures AllCarry(calls[c := Returned(r)], owner, result, closed[f := r])
  {
    var calls', closed' := calls[c := Returned(r)], closed[f := r];
    forall d | d in calls' ensures Carries(d, calls'[d], calls', owner, result, closed') {
      if d != c {
        assert Carries(d, calls[d], calls, owner, result, closed);
      }
    }
  }

  /** A call that closes no flight changes phase. */
  lemma CarryOutside(calls: Calls, owner: Owners, result: Outcomes, closed: Outcomes, c: nat, p: Phase)
    requires AllCarry(calls, owner, result, closed)
    requires c in calls ==> !InTable(calls[c]) && !calls[c].Left?
    requires !InTable(p) && !p.Left?
    requires p.Waiting? ==> p.flight in owner && owner[p.flight] in calls && Closes(calls[owner[p.flight]], p.flight)
    ensures AllCarry(calls[c := p], owner, result, closed)
  {
    var calls' := calls[c := p];
    forall d | d in calls' ensures Carries(d, calls'[d], calls', owner, result, closed) {
      if d != c {
        assert Carries(d, calls[d], calls, owner, result, closed);
      }
    }
  }

  /** A call that neither runs nor is about to store changes phase. */
  lemma CountedOutside(items: map<Key, Value>, calls: Calls, successes: map<Key, nat>, removals: map<Key, nat>, c: nat, p: Phase)
    requires Counted(items, calls, successes, removals) && !p.Running?
    requires c in calls ==> !calls[c].Produced?
    ensures Counted(items, calls[c := p], successes, removals)
  {
    var calls' := calls[c := p];
    forall k ensures Full(items, calls, k) ==> Full(items, calls', k) {
      if k !in items && Full(items, calls, k) {
        var d :| d in calls && AboutToStore(calls[d], k);
        assert d in calls' && AboutToStore(calls'[d], k);
      }
    }
  }

  lemma CountedStarts(items: map<Key, Value>, calls: Calls, successes: map<Key, nat>, removals: map<Key, nat>, c: nat, k: Key, f: nat)
    requires Counted(items, calls, successes, removals) && c !in calls && !Full(items, calls, k)
    ensures Counted(items, calls[c := Running(k, f)], successes, removals)
  {
    var calls' := calls[c := Running(k, f)];
    forall k ensures Full(items, calls, k) ==> Full(items, calls', k) {
      if k !in items && Full(items, calls, k) {
        var d :| d in calls && AboutToStore(calls[d], k);
        assert d in calls' && AboutToStore(calls'[d], k);
      }
    }
  }

  /** A producer succeeds: no other is running for the key. */
  lemma CountedProduces(items: map<Key, Value>, calls: Calls, successes: map<Key, nat>, removals: map<Key, nat>, c: nat, r: Outcome)
    requires Counted(items, calls, successes, removals) && c in calls && calls[c].Running? && r.Value?
    requires forall d | d in calls && calls[d].Running? && calls[d].key == calls[c].key :: d == c
    ensures var Running(k, f) := calls[c];
            Counted(items, calls[c := Produced(k, f, r)], successes[k := Tally(successes, k) + 1], removals)
  {
    var Running(k, f) := calls[c];
    var calls' := calls[c := Produced(k, f, r)];
    assert Full(items, calls', k) by {
      assert AboutToStore(calls'[c], k);
    }
    forall j ensures Full(items, calls, j) ==> Full(items, calls', j) {
      if j !in items && Full(items, calls, j) {
        var d :| d in calls && AboutToStore(calls[d], j);
        assert d in calls' && AboutToStore(calls'[d], j);
      }
    }
  }

  lemma CountedStores(items: map<Key, Value>, calls: Calls, successes: map<Key, nat>, removals: map<Key, nat>, c: nat)
    requires Counted(items, calls, successes, removals) && c in calls && calls[c].Produced?
    ensures var Produced(k, f, r) := calls[c];
            Counted(if r.Value? then items[k := r.v] else items, calls[c := Stored(k, f, r)], successes, removals)
  {
    var Produced(k, f, r) := calls[c];
    var items', calls' := if r.Value? then items[k := r.v] else items, calls[c := Stored(k, f, r)];
    forall j ensures Full(items, calls, j) ==> Full(items', calls', j) {
      if j !in items' && Full(items, calls, j) {
        var d :| d in calls && AboutToStore(calls[d], j);
        assert d in calls' && AboutToStore(calls'[d], j);
      }
    }
  }

  lemma CountedPuts(items: map<Key, Value>, calls: Calls, successes: map<Key, nat>, removals: map<Key, nat>, k: Key, v: Value)
    requires Counted(items, calls, successes, removals)
    ensures Counted(items[k := v], calls, successes, removals)
  {
    forall j ensures Full(items, calls, j) ==> Full(items[k := v], calls, j) {
    }
  }

  lemma CountedRemoves(items: map<Key, Value>, calls: Calls, successes: map<Key, nat>, removals: map<Key, nat>, k: Key)
    requires Counted(items, calls, successes, removals)
    ensures Counted(items - {k}, calls, successes, removals[k := Tally(removals, k) + 1])
  {
    forall j ensures j != k && Full(items, calls, j) ==> Full(items - {k}, calls, j) {
    }
  }

  // ---- The steps ----

  lemma JoinKeepsInv(s: System, c: nat, k: Key)
    requires Inv(s) && c !in s.calls && k in s.flights
    ensures Inv(s.(calls := s.calls[c := Waiting(k, s.flights[k])]))
  {
    var f := s.flights[k];
    assert Flying(s.calls[s.owner[f]], k, f);
    TableStays(s.flights, s.calls, s.owner, c, Waiting(k, f));
    CarryOutside(s.calls, s.owner, s.result, s.closed, c, Waiting(k, f));
    CountedOutside(s.items, s.calls, s.successes, s.removals, c, Waiting(k, f));
  }

  lemma HitKeepsInv(s: System, c: nat, r: Outcome)
    requires Inv(s) && c !in s.calls
    ensures Inv(s.(calls := s.calls[c := Returned(r)]))
  {
    TableStays(s.flights, s.calls, s.owner, c, Returned(r));
    CarryOutside(s.calls, s.owner, s.result, s.closed, c, Returned(r));
    CountedOutside(s.items, s.calls, s.successes, s.removals, c, Returned(r));
  }

  lemma NextNumber(owner: Owners, result: Outcomes, closed: Outcomes, c: nat)
    requires Numbered(owner, result, closed)
    ensures |owner| !in owner && |owner| !in result
    ensures Numbered(owner[|owner| := c], result, closed)
  {
    assert |owner[|owner| := c]| == |owner| + 1;
  }

  lemma StartKeepsInv(s: System, c: nat, k: Key)
    requires Inv(s) && c !in s.calls && k !in s.flights && k !in s.items
    ensures var f := |s.owner|;
            Inv(s.(flights := s.flights[k := f], owner := s.owner[f := c], calls := s.calls[c := Running(k, f)]))
  {
    var f := |s.owner|;
    NothingFlies(s, k);
    NextNumber(s.owner, s.result, s.closed, c);
    TableStarts(s.flights, s.calls, s.owner, c, k, f);
    CarryStarts(s.calls, s.owner, s.result, s.closed, c, k, f);
    CountedStarts(s.items, s.calls, s.successes, s.removals, c, k, f);
  }

  lemma RememberKeepsInv(s: System, c: nat, k: Key)
    requires Inv(s) && Step(s, Remember(c, k)).Some?
    ensures Inv(Step(s, Remember(c, k)).value)
  {
    if k in s.flights {
      JoinKeepsInv(s, c, k);
    } else if k in s.items {
      HitKeepsInv(s, c, Outcome.Value(s.items[k]));
    } else {
      StartKeepsInv(s, c, k);
    }
  }

  lemma NothingFlies(s: System, k: Key)
    requires Inv(s) && k !in s.flights && k !in s.items
    ensures !Full(s.items, s.calls, k)
  {
    forall c | c in s.calls && InTable(s.calls[c]) ensures s.calls[c].key != k {
      assert Owns(s.flights, s.owner, c, s.calls[c].key, s.calls[c].flight);
    }
  }

  /** Two producers for one key are the same call. */
  lemma OneProducerPerKey(s: System, c: nat, d: nat)
    requires Inv(s) && c in s.calls && d in s.calls && InTable(s.calls[c]) && InTable(s.calls[d])
    requires s.calls[c].key == s.calls[d].key
    ensures c == d
  {
    assert Owns(s.flights, s.owner, c, s.calls[c].key, s.calls[c].flight);
    assert Owns(s.flights, s.owner, d, s.calls[d].key, s.calls[d].flight);
  }

  lemma ProduceKeepsInv(s: System, c: nat, r: Outcome)
    requires Inv(s) && c in s.calls && s.calls[c].Running?
    ensures Inv(Step(s, Produce(c, r)).value)
  {
    var Running(k, f) := s.calls[c];
    var p := Produced(k, f, r);
    assert Carries(c, s.calls[c], s.calls, s.owner, s.result, s.closed);
    TableStays(s.flights, s.calls, s.owner, c, p);
    CarryGoesOn(s.calls, s.owner, s.result, s.closed, c, p, s.result[f := r], f);
    ProduceKeepsCount(s, c, r);
  }

  lemma ProduceKeepsCount(s: System, c: nat, r: Outcome)
    requires Inv(s) && c in s.calls && s.calls[c].Running?
    ensures var Running(k, f) := s.calls[c];
            Counted(s.items, s.calls[c := Produced(k, f, r)], if r.Value? then s.successes[k := Tally(s.successes, k) + 1] else s.successes, s.removals)
  {
    var Running(k, f) := s.calls[c];
    if r.Value? {
      forall d | d in s.calls && s.calls[d].Running? && s.calls[d].key == k ensures d == c {
        OneProducerPerKey(s, c, d);
      }
      CountedProduces(s.items, s.calls, s.successes, s.removals, c, r);
    } else {
      CountedOutside(s.items, s.calls, s.successes, s.removals, c, Produced(k, f, r));
    }
  }

  lemma StoreKeepsInv(s: System, c: nat)
    requires Inv(s) && c in s.calls && s.calls[c].Produced?
    ensures Inv(Step(s, Store(c)).value)
  {
    var Produced(k, f, r) := s.calls[c];
    assert Carries(c, s.calls[c], s.calls, s.owner, s.result, s.closed);
    TableStays(s.flights, s.calls, s.owner, c, Stored(k, f, r));
    CarryGoesOn(s.calls, s.owner, s.result, s.closed, c, Stored(k, f, r), s.result, f);
    CountedStores(s.items, s.calls, s.successes, s.removals, c);
  }

  lemma LeaveKeepsInv(s: System, c: nat)
    requires Inv(s) && c in s.calls && s.calls[c].Stored?
    ensures Inv(Step(s, Leave(c)).value)
  {
    var Stored(k, f, r) := s.calls[c];
    assert Carries(c, s.calls[c], s.calls, s.owner, s.result, s.closed);
    TableLoses(s.flights, s.calls, s.owner, c, Left(k, f, r));
    CarryGoesOn(s.calls, s.owner, s.result, s.closed, c, Left(k, f, r), s.result, f);
    CountedOutside(s.items, s.calls, s.successes, s.removals, c, Left(k, f, r));
  }

  lemma CloseKeepsInv(s: System, c: nat)
    requires Inv(s) && c in s.calls && s.calls[c].Left?
    ensures Inv(Step(s, Close(c)).value)
  {
    var Left(k, f, r) := s.calls[c];
    assert Carries(c, s.calls[c], s.calls, s.owner, s.result, s.closed);
    TableStays(s.flights, s.calls, s.owner, c, Returned(r));
    CarryCloses(s.calls, s.owner, s.result, s.closed, c, f, r);
    CountedOutside(s.items, s.calls, s.successes, s.removals, c, Returned(r));
  }

  lemma WaiterKeepsInv(s: System, c: nat, p: Phase)
    requires Inv(s) && c in s.calls && s.calls[c].Waiting? && (p.Returned? || p.Cancelled?)
    ensures Inv(s.(calls := s.calls[c := p]))
  {
    TableStays(s.flights, s.calls, s.owner, c, p);
    CarryOutside(s.calls, s.owner, s.result, s.closed, c, p);
    CountedOutside(s.items, s.calls, s.successes, s.removals, c, p);
  }

  lemma PutKeepsInv(s: System, k: Key, v: Value)
    requires Inv(s)
    ensures Inv(Step(s, Put(k, v)).value)
  {
    CountedPuts(s.items, s.calls, s.successes, s.removals, k, v);
  }

  lemma RemovalKeepsInv(s: System, k: Key, removals: map<Key, nat>)
    requires Inv(s) && removals == s.removals[k := Tally(s.removals, k) + 1]
    ensures Inv(s.(items := s.items - {k}, removals := removals))
  {
    CountedRemoves(s.items, s.calls, s.successes, s.removals, k);
  }

  lemma RemoveKeepsInv(s: System, k: Key)
    requires Inv(s)
    ensures Inv(Step(s, Remove(k)).value)
  {
    RemovalKeepsInv(s, k, s.removals[k := Tally(s.removals, k) + 1]);
  }

  lemma CancelKeepsInv(s: System, c: nat)
    requires Inv(s) && Step(s, Cancel(c)).Some?
    ensures Inv(Step(s, Cancel(c)).value)
  {
    WaiterKeepsInv(s, c, Cancelled);
  }

  lemma WakeKeepsInv(s: System, c: nat)
    requires Inv(s) && Step(s, Wake(c)).Some?
    ensures Inv(Step(s, Wake(c)).value)
  {
    WaiterKeepsInv(s, c, Returned(s.closed[s.calls[c].flight]));
  }

  /** In every interleaving of any number of callers. */
  lemma StepKeepsInv(s: System, e: Event)
    requires Inv(s) && Step(s, e).Some?
    ensures Inv(Step(s, e).value)
  {
    match e
    case Remember(c, k) => RememberKeepsInv(s, c, k);
    case Produce(c, r) => ProduceKeepsInv(s, c, r);
    case Store(c) => StoreKeepsInv(s, c);
    case Leave(c) => LeaveKeepsInv(s, c);
    case Close(c) => CloseKeepsInv(s, c);
    case Wake(c) => WakeKeepsInv(s, c);
    case Cancel(c) => CancelKeepsInv(s, c);
    case Put(k, v) => PutKeepsInv(s, k, v);
    case Remove(k) => RemoveKeepsInv(s, k);
  }

  // ---- Runs ----

  ghost predicate Run(states: seq<System>, events: seq<Event>) {
    && |states| == |events| + 1
    && states[0] == START
    && forall i | 0 <= i < |events| :: Step(states[i], events[i]) == Some(states[i + 1])
  }

  lemma RunStepKeepsInv(states: seq<System>, events: seq<Event>, i: nat)
    requires Run(states, events) && i < |events| && Inv(states[i])
    ensures Inv(states[i + 1])
  {
    assert Step(states[i], events[i]) == Some(states[i + 1]);
    StepKeepsInv(states[i], events[i]);
  }

  lemma {:induction false} EveryStateHasInv(states: seq<System>, events: seq<Event>, i: nat)
    requires Run(states, events) && i < |states|
    ensures Inv(states[i])
  {
    if i > 0 {
      EveryStateHasInv(states, events, i - 1);
      RunStepKeepsInv(states, events, i - 1);
    }
  }

  /** In every interleaving a key has at most one producer at a time, and a producer succeeds at
      most once more than the key is removed: once, if it never is. */
  lemma ProducersSucceedOnce(states: seq<System>, events: seq<Event>, i: nat, k: Key)
    requires Run(states, events) && i < |states|
    ensures var s := states[i];
            && Tally(s.successes, k) <= Tally(s.removals, k) + 1
            && forall c, d | c in s.calls && d in s.calls && InTable(s.calls[c]) && InTable(s.calls[d]) && s.calls[c].key == s.calls[d].key :: c == d
  {
    EveryStateHasInv(states, events, i);
    var s := states[i];
    forall c, d | c in s.calls && d in s.calls && InTable(s.calls[c]) && InTable(s.calls[d]) && s.calls[c].key == s.calls[d].key ensures c == d {
      OneProducerPerKey(s, c, d);
    }
  }

  /** A result, once there, is for good. */
  lemma {:induction false} ResultsStay(states: seq<System>, events: seq<Event>, i: nat, j: nat, f: nat)
    requires Run(states, events) && i <= j < |states| && f in states[i].result
    ensures f in states[j].result && states[j].result[f] == states[i].result[f]
    decreases j - i
  {
    if i < j {
      ResultsStay(states, events, i, j - 1, f);
      ResultStays(states, events, j - 1, f);
    }
  }

  lemma ResultStays(states: seq<System>, events: seq<Event>, i: nat, f: nat)
    requires Run(states, events) && i < |events| && f in states[i].result
    ensures f in states[i + 1].result && states[i + 1].result[f] == states[i].result[f]
  {
    EveryStateHasInv(states, events, i);
    var s, e := states[i], events[i];
    assert Step(s, e) == Some(states[i + 1]);
    if e.Produce? {
      assert Carries(e.call, s.calls[e.call], s.calls, s.owner, s.result, s.closed);
    }
  }

  /** A waiter that is woken returns what the function of the flight it joined returned, and
      nothing that has since been written to the cache. */
  lemma WaitersGetTheirFlight(states: seq<System>, events: seq<Event>, i: nat)
    requires Run(states, events) && i < |events| && events[i].Wake?
    ensures var c := events[i].call;
            && c in states[i].calls && states[i].calls[c].Waiting?
            && var f := states[i].calls[c].flight;
               f in states[i].result && c in states[i + 1].calls && states[i + 1].calls[c] == Returned(states[i].result[f])
  {
    EveryStateHasInv(states, events, i);
    assert Step(states[i], events[i]) == Some(states[i + 1]);
  }

  /** A waiter is never left behind: its flight is closed, or the call that will close it is under way. */
  lemma WaitersAreServed(states: seq<System>, events: seq<Event>, i: nat, c: nat)
    requires Run(states, events) && i < |states| && c in states[i].calls && states[i].calls[c].Waiting?
    ensures var s := states[i];
            var f := s.calls[c].flight;
            f in s.closed || (f in s.owner && s.owner[f] in s.calls && Closes(s.calls[s.owner[f]], f))
  {
    EveryStateHasInv(states, events, i);
    assert Carries(c, states[i].calls[c], states[i].calls, states[i].owner, states[i].result, states[i].closed);
  }
}

/** Read-throughs interleaved with writers: the database read and the cache write of a lookup are separate
    steps, writers do anything in between, and invalidations may fail.

    `answer` is what the database says to a query on a given table, `key` the cache key the query uses. */
module Staleness {
  import opened Shared
  import opened CachedTable
  import opened Lookups

  datatype Event<T, Q, K> =
    | Wait(d: Delay)
    | Write(table: T)                 // any writer, doing anything
    | Fetch(reader: nat, query: Q)    // a lookup that missed the cache reads the database
    | Fill(reader: nat, ok: bool)     // and then sets its cache entry
    | Drop(key: K, ok: bool)          // an invalidation

  datatype Pending<K, V> = Pending(key: K, value: V)

  datatype System<T, K, V> = System(table: T, cache: map<K, Entry<V>>, pending: map<nat, Pending<K, V>>, now: real)

  function Next<T, Q, K, V>(answer: (T, Q) -> Option<V>, key: Q -> K, s: System<T, K, V>, e: Event<T, Q, K>)
    : System<T, K, V>
  {
    match e
    case Wait(d) => s.(now := s.now + d)
    case Write(table) => s.(table := table)
    case Fetch(r, q) =>
      var found := answer(s.table, q);
      s.(pending := if found.Some? then s.pending[r := Pending(key(q), found.value)] else s.pending - {r})
    case Fill(r, ok) =>
      if r !in s.pending then s
      else
        var p := s.pending[r];
        s.(pending := s.pending - {r},
           cache := if ok then s.cache[p.key := Entry(p.value, s.now + TTL)] else s.cache)
    case Drop(k, ok) => if ok then s.(cache := s.cache - {k}) else s
  }

  /** The state after the first n events. */
  function After<T, Q, K, V>(answer: (T, Q) -> Option<V>, key: Q -> K, s: System<T, K, V>,
                             events: seq<Event<T, Q, K>>, n: nat): System<T, K, V>
    requires n <= |events|
    decreases n
  {
    if n == 0 then s else Next(answer, key, After(answer, key, s, events, n - 1), events[n - 1])
  }

  /** What a lookup is served from the cache. */
  function Hit<T, K, V>(s: System<T, K, V>, k: K): Option<V> {
    if k in s.cache && s.now < s.cache[k].expiry then Some(s.cache[k].row) else None
  }

  function Start<T, K, V>(table: T, now: real): System<T, K, V> {
    System(table, map[], map[], now)
  }

  predicate ActsFor<T, Q, K>(e: Event<T, Q, K>, r: nat) {
    match e case Fetch(r', _) => r == r' case Fill(r', _) => r == r' case _ => false
  }

  /** Events i and j are the two halves of one read-through: its database read and its cache write. */
  predicate ReadThrough<T, Q, K>(events: seq<Event<T, Q, K>>, i: nat, j: nat)
    requires i < j < |events|
  {
    && events[i].Fetch? && events[j].Fill? && events[i].reader == events[j].reader
    && forall m | i < m < j :: !ActsFor(events[m], events[i].reader)
  }

  lemma {:induction false} PendingOrigin<T, Q, K, V>(answer: (T, Q) -> Option<V>, key: Q -> K, table: T, now: real,
                                                     events: seq<Event<T, Q, K>>, n: nat, r: nat)
    returns (i: nat)
    requires n <= |events| && r in After(answer, key, Start(table, now), events, n).pending
    ensures i < n && events[i].Fetch? && events[i].reader == r
    ensures forall m | i < m < n :: !ActsFor(events[m], r)
    ensures var p := After(answer, key, Start(table, now), events, n).pending[r];
            && key(events[i].query) == p.key
            && answer(After(answer, key, Start(table, now), events, i).table, events[i].query) == Some(p.value)
    decreases n
  {
    if events[n - 1].Fetch? && events[n - 1].reader == r {
      i := n - 1;
    } else {
      i := PendingOrigin(answer, key, table, now, events, n - 1, r);
    }
  }

  /** Where a cache entry came from: a read of the database at event i, put in the cache at event j. */
  ghost predicate FilledBy<T, Q, K, V>(answer: (T, Q) -> Option<V>, key: Q -> K, s: System<T, K, V>,
                                       events: seq<Event<T, Q, K>>, i: nat, j: nat, k: K, v: V)
  {
    && i < j < |events|
    && ReadThrough(events, i, j)
    && key(events[i].query) == k
    && answer(After(answer, key, s, events, i).table, events[i].query) == Some(v)
  }

  /** The entry under k has been what it is since event j. */
  ghost predicate Untouched<T, Q, K, V>(answer: (T, Q) -> Option<V>, key: Q -> K, s: System<T, K, V>,
                                        events: seq<Event<T, Q, K>>, j: nat, n: nat, k: K)
    requires n <= |events| && k in After(answer, key, s, events, n).cache
  {
    forall m: nat | j < m <= n ::
      && k in After(answer, key, s, events, m).cache
      && After(answer, key, s, events, m).cache[k] == After(answer, key, s, events, n).cache[k]
  }

  lemma {:induction false} EntryOrigin<T, Q, K, V>(answer: (T, Q) -> Option<V>, key: Q -> K, table: T, now: real,
                                                   events: seq<Event<T, Q, K>>, n: nat, k: K)
    returns (i: nat, j: nat)
    requires n <= |events| && k in After(answer, key, Start(table, now), events, n).cache
    ensures var s: System<T, K, V> := Start(table, now);
            var entry := After(answer, key, s, events, n).cache[k];
            && j < n && FilledBy(answer, key, s, events, i, j, k, entry.row)
            && entry.expiry == After(answer, key, s, events, j).now + TTL
            && Untouched(answer, key, s, events, j, n, k)
    decreases n
  {
    var s: System<T, K, V> := Start(table, now);
    var before := After(answer, key, s, events, n - 1);
    if events[n - 1].Fill? && events[n - 1].ok && events[n - 1].reader in before.pending
       && before.pending[events[n - 1].reader].key == k {
      j := n - 1;
      i := PendingOrigin(answer, key, table, now, events, n - 1, events[n - 1].reader);
    } else {
      i, j := EntryOrigin(answer, key, table, now, events, n - 1, k);
    }
  }

  ghost predicate FreshEnough<T, Q, K, V>(answer: (T, Q) -> Option<V>, key: Q -> K, s: System<T, K, V>,
                                          events: seq<Event<T, Q, K>>, n: nat, k: K, v: V)
    requires n <= |events|
  {
    exists i: nat, j: nat ::
      && j < n && FilledBy(answer, key, s, events, i, j, k, v)
      && var read, filled := After(answer, key, s, events, i).now, After(answer, key, s, events, j).now;
         After(answer, key, s, events, n).now - read < 900.0 + (filled - read)
  }

  /** Every lookup served from the cache returns what the database answered, to a query with that cache
      key, less than 15 minutes plus the duration of the read-through that cached it ago. */
  lemma StalenessIsBounded<T, Q, K, V>(answer: (T, Q) -> Option<V>, key: Q -> K, table: T, now: real,
                                       events: seq<Event<T, Q, K>>, n: nat, k: K)
    requires n <= |events| && Hit(After(answer, key, Start(table, now), events, n), k).Some?
    ensures FreshEnough(answer, key, Start(table, now), events, n, k,
                        Hit(After(answer, key, Start(table, now), events, n), k).value)
  {
    var i, j := EntryOrigin(answer, key, table, now, events, n, k);
    var s: System<T, K, V> := Start(table, now);
    assert FilledBy(answer, key, s, events, i, j, k, Hit(After(answer, key, s, events, n), k).value);
  }

  // ---------- When a hit is out of date ----------

  /** Event m changes the answer to q. */
  predicate Changes<T, Q(==), K(==), V(==)>(answer: (T, Q) -> Option<V>, key: Q -> K, s: System<T, K, V>,
                                            events: seq<Event<T, Q, K>>, m: nat, q: Q)
    requires m < |events|
  {
    answer(After(answer, key, s, events, m + 1).table, q) != answer(After(answer, key, s, events, m).table, q)
  }

  /** Between events m and n there is a successful invalidation of k. */
  ghost predicate DroppedBetween<T, Q, K>(events: seq<Event<T, Q, K>>, m: nat, n: nat, k: K)
    requires n <= |events|
  {
    exists d: nat :: m < d < n && events[d] == Drop(k, true)
  }

  /** Every write that changed the answer to q has been followed by a successful invalidation of q's key. */
  ghost predicate WritesDropped<T, Q, K, V>(answer: (T, Q) -> Option<V>, key: Q -> K, s: System<T, K, V>,
                                            events: seq<Event<T, Q, K>>, n: nat, q: Q)
    requires n <= |events|
  {
    forall m: nat | m < n && Changes(answer, key, s, events, m, q) :: DroppedBetween(events, m, n, key(q))
  }

  /** Since the fill, whatever was written under q's key has not changed the answer: it would have been
      followed by an invalidation. */
  lemma {:induction false} NoChangeSinceFill<T, Q, K, V>(answer: (T, Q) -> Option<V>, key: Q -> K, s: System<T, K, V>,
                                                         events: seq<Event<T, Q, K>>, j: nat, m: nat, n: nat, q: Q)
    requires j <= m <= n <= |events| && key(q) in After(answer, key, s, events, n).cache
    requires Untouched(answer, key, s, events, j, n, key(q)) && WritesDropped(answer, key, s, events, n, q)
    ensures answer(After(answer, key, s, events, m).table, q) == answer(After(answer, key, s, events, j).table, q)
    decreases m
  {
    if j < m {
      NoChangeSinceFill(answer, key, s, events, j, m - 1, n, q);
      forall d: nat | j <= d < n ensures events[d] != Drop(key(q), true) {
        assert key(q) in After(answer, key, s, events, d + 1).cache;
      }
      assert !Changes(answer, key, s, events, m - 1, q);
    }
  }

  /** When invalidations keep up with the writes, a hit that a read-through at i and j put there is the present
      answer exactly when what was read at i is what the database still said at j. The read-through may have been
      for another query with the same key. */
  lemma StaleIffChangedWhileReading<T, Q, K, V>(answer: (T, Q) -> Option<V>, key: Q -> K, s: System<T, K, V>,
                                                events: seq<Event<T, Q, K>>, i: nat, j: nat, n: nat, q: Q)
    requires n <= |events| && j < n && Hit(After(answer, key, s, events, n), key(q)).Some?
    requires FilledBy(answer, key, s, events, i, j, key(q), Hit(After(answer, key, s, events, n), key(q)).value)
    requires Untouched(answer, key, s, events, j, n, key(q)) && WritesDropped(answer, key, s, events, n, q)
    ensures Hit(After(answer, key, s, events, n), key(q)) == answer(After(answer, key, s, events, n).table, q)
            <==> answer(After(answer, key, s, events, i).table, events[i].query)
                 == answer(After(answer, key, s, events, j).table, q)
  {
    NoChangeSinceFill(answer, key, s, events, j, n, n, q);
  }

  // ---------- Books and categories ----------

  function RowAnswers<F>(): (map<Id, Row<F>>, Key) -> Option<Row<F>> {
    (table, k) => RowAnswer(table, k)
  }

  /** Each query has a key of its own. */
  function OwnKey(): Key -> Key {
    k => k
  }

  type RowEvent<F> = Event<map<Id, Row<F>>, Key, Key>

  function RowAfter<F>(s: System<map<Id, Row<F>>, Key, Row<F>>, events: seq<RowEvent<F>>, n: nat)
    : System<map<Id, Row<F>>, Key, Row<F>>
    requires n <= |events|
  {
    After(RowAnswers(), OwnKey(), s, events, n)
  }

  /** For books and categories each query has its own key, so the row served is the one the table itself
      gave for that id, ISBN or name at that earlier moment. */
  lemma RowsAreFreshEnough<F>(table: map<Id, Row<F>>, now: real, events: seq<RowEvent<F>>, n: nat, k: Key)
    requires n <= |events| && Hit(RowAfter(Start(table, now), events, n), k).Some?
    ensures exists i: nat, j: nat ::
              && i < j < n && ReadThrough(events, i, j) && events[i].query == k
              && RowAnswer(RowAfter(Start(table, now), events, i).table, k)
                 == Hit(RowAfter(Start(table, now), events, n), k)
              && RowAfter(Start(table, now), events, n).now - RowAfter(Start(table, now), events, i).now
                 < 900.0 + (RowAfter(Start(table, now), events, j).now - RowAfter(Start(table, now), events, i).now)
  {
    var i, j := EntryOrigin(RowAnswers<F>(), OwnKey(), table, now, events, n, k);
  }

  /** What the table itself says about k after n events. */
  function AnswerAt<F>(table: map<Id, Row<F>>, now: real, events: seq<RowEvent<F>>, n: nat, k: Key): Option<Row<F>>
    requires n <= |events|
  {
    RowAnswer(RowAfter(Start(table, now), events, n).table, k)
  }

  /** The entry under k after n events. */
  function EntryAt<F>(table: map<Id, Row<F>>, now: real, events: seq<RowEvent<F>>, n: nat, k: Key): Option<Entry<Row<F>>>
    requires n <= |events|
  {
    var cache := RowAfter(Start(table, now), events, n).cache;
    if k in cache then Some(cache[k]) else None
  }

  /** For books and categories under each of their keys: when every write that changed what the table says about
      k has been followed by a successful invalidation of k, a cached row is out of date exactly when the row
      changed between the database read and the cache write of the read-through that put it there. (The code
      drops the id's key and the new name's key; a rename away from a name is followed by no invalidation of
      that name, and then the lemma does not apply to it.) */
  lemma RowStaleIffChangedWhileReading<F>(table: map<Id, Row<F>>, now: real, events: seq<RowEvent<F>>, n: nat, k: Key)
    requires n <= |events| && Hit(RowAfter(Start(table, now), events, n), k).Some?
    requires WritesDropped(RowAnswers(), OwnKey(), Start(table, now), events, n, k)
    ensures exists i: nat, j: nat ::
              && i < j < n && ReadThrough(events, i, j) && events[i].query == k
              && AnswerAt(table, now, events, i, k) == Hit(RowAfter(Start(table, now), events, n), k)
              && (forall m: nat | j < m <= n :: EntryAt(table, now, events, m, k) == EntryAt(table, now, events, n, k))
              && (Hit(RowAfter(Start(table, now), events, n), k) == AnswerAt(table, now, events, n, k)
                  <==> AnswerAt(table, now, events, i, k) == AnswerAt(table, now, events, j, k))
  {
    var i, j := EntryOrigin(RowAnswers<F>(), OwnKey(), table, now, events, n, k);
    StaleIffChangedWhileReading(RowAnswers<F>(), OwnKey(), Start(table, now), events, i, j, n, k);
  }

  /** Even when every invalidation succeeds: a read-through that overlaps a write puts the old row back. */
  lemma InvalidationCanBeOvertaken()
    ensures var row := Row(0, "a", (), 0.0, 0.0);
            var events: seq<RowEvent<()>> :=
              [Fetch(0, ById(0)), Write(map[0 := row.(updated := 1.0)]), Drop(ById(0), true), Fill(0, true)];
            var end := RowAfter(Start(map[0 := row], 0.0), events, 4);
            Hit(end, ById(0)) == Some(row) && RowAnswer(end.table, ById(0)) != Some(row)
  {
  }

  // ---------- The serialised lookup is one of these runs ----------

  function View<F>(w: World<F>): System<map<Id, Row<F>>, Key, Row<F>> {
    System(w.table, w.cache, map[], w.now)
  }

  function Waited<F>(w: World<F>): Delay {
    Tick(w).0.now - w.now
  }

  /** The steps that a lookup by id makes when nobody interferes. */
  function LookupSteps<F>(w: World<F>, id: Id): seq<RowEvent<F>> {
    var (w1, hit) := CacheGet(w, ById(id));
    var (w2, found) := DbFind(w1, id);
    if hit.Some? then [Wait(Waited(w))]
    else if !found.Found? then [Wait(Waited(w)), Wait(Waited(w1))]
    else [Wait(Waited(w)), Wait(Waited(w1)), Fetch(0, ById(id)), Wait(Waited(w2)), Fill(0, Tick(w2).1.put)]
  }

  lemma LookupIsFetchThenFill<F>(w: World<F>, id: Id)
    ensures var steps := LookupSteps(w, id);
            RowAfter(View(w), steps, |steps|) == View(GetByID(w, id).0)
  {
    hide Named;
    var steps := LookupSteps(w, id);
    var (w1, hit) := CacheGet(w, ById(id));
    assert RowAfter(View(w), steps, 0) == View(w);
    assert RowAfter(View(w), steps, 1) == View(w1);
    if hit.None? {
      var (w2, found) := DbFind(w1, id);
      assert RowAfter(View(w), steps, 2) == View(w2);
      if found.Found? {
        var p := Pending(ById(id), found.row);
        assert RowAfter(View(w), steps, 3) == View(w2).(pending := map[0 := p]);
        assert RowAfter(View(w), steps, 4) == View(Tick(w2).0).(pending := map[0 := p]);
        assert map[0 := p] - {0} == map[];
        assert RowAfter(View(w), steps, 5) == View(CacheSet(w2, ById(id), found.row));
      }
    }
  }
}

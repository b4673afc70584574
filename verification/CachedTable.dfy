/** A table read through a cache, the way the book and category repositories do it: entries under the row's
    id and under its second unique key (a book's ISBN, a category's name), a fixed time to live, and
    invalidation after every write.

    Everything outside the process is a script: each call to the database or to Redis consumes one `Turn`,
    which says how long the call took and which kinds of call fail. A theorem about every script is a
    theorem about every timing and every failure. Requests are serialised; `Staleness` drops that. */
module CachedTable {
  import opened Shared

  /** A row: its id, its second unique key, the remaining columns, and its timestamps. */
  datatype Row<F> = Row(id: Id, name: string, fields: F, created: real, updated: real)

  datatype Key = ById(id: Id) | ByName(name: string) | Listing

  type Delay = d: real | 0.0 <= d
  datatype Turn = Turn(wait: Delay, db: bool, get: bool, put: bool, del: bool)

  const SMOOTH := Turn(0.0, true, true, true, true)

  /** What happened to each name, latest first: a row was renamed away from it, or its entry was filled. */
  datatype Log = Start | Renamed(name: string, earlier: Log) | Filled(name: string, earlier: Log)

  /** `dead` holds soft-deleted rows: gone for every query, but still under the unique constraints. */
  datatype World<F> = World(table: map<Id, Row<F>>, dead: map<Id, Row<F>>, cache: map<Key, Entry<Row<F>>>,
                            now: real, turns: seq<Turn>, log: Log)

  // ---------- Single calls ----------

  function Tick<F>(w: World<F>): (World<F>, Turn) {
    if w.turns == [] then (w, SMOOTH)
    else (w.(now := w.now + w.turns[0].wait, turns := w.turns[1..]), w.turns[0])
  }

  function CacheGet<F>(w: World<F>, k: Key): (World<F>, Option<Row<F>>) {
    var (w', t) := Tick(w);
    (w', if t.get && k in w'.cache && w'.now < w'.cache[k].expiry then Some(w'.cache[k].row) else None)
  }

  function CacheSet<F>(w: World<F>, k: Key, row: Row<F>): World<F> {
    var (w', t) := Tick(w);
    if !t.put then w'
    else w'.(cache := w'.cache[k := Entry(row, w'.now + TTL)],
             log := if k.ByName? then Filled(k.name, w'.log) else w'.log)
  }

  function CacheDelete<F>(w: World<F>, k: Key): World<F> {
    var (w', t) := Tick(w);
    if t.del then w'.(cache := w'.cache - {k}) else w'
  }

  function Holders<F>(table: map<Id, Row<F>>, name: string): set<Id> {
    set id | id in table && table[id].name == name
  }

  /** The row a direct query by name gives. */
  function Named<F>(table: map<Id, Row<F>>, name: string): Option<Row<F>> {
    if Holders(table, name) == {} then None else Some(table[First(Holders(table, name))])
  }

  /** The answer of a direct table lookup by id. */
  function Direct<F>(table: map<Id, Row<F>>, id: Id): Lookup<Row<F>> {
    if id in table then Found(table[id]) else NotFound
  }

  function DbFind<F>(w: World<F>, id: Id): (World<F>, Lookup<Row<F>>) {
    var (w', t) := Tick(w);
    (w', if t.db then Direct(w'.table, id) else Failed)
  }

  function DbFindNamed<F>(w: World<F>, name: string): (World<F>, Lookup<Row<F>>) {
    var (w', t) := Tick(w);
    (w', if t.db then Answer(Named(w'.table, name)) else Failed)
  }

  /** The unique index covers soft-deleted rows as well. */
  predicate NameFree<F>(w: World<F>, name: string, id: Id) {
    Holders(w.table, name) + Holders(w.dead, name) <= {id}
  }

  function DbInsert<F>(w: World<F>, row: Row<F>): (World<F>, bool) {
    var (w', t) := Tick(w);
    if t.db && row.id !in w'.table && row.id !in w'.dead && NameFree(w', row.name, row.id)
    then (w'.(table := w'.table[row.id := row]), true)
    else (w', false)
  }

  /** Saving writes the whole row, and inserts or revives it when its id is not live. */
  function DbSave<F>(w: World<F>, row: Row<F>): (World<F>, bool) {
    var (w', t) := Tick(w);
    if t.db && NameFree(w', row.name, row.id) then
      (w'.(table := w'.table[row.id := row.(updated := w'.now)],
           dead := w'.dead - {row.id},
           log := if row.id in w'.table && w'.table[row.id].name != row.name
                  then Renamed(w'.table[row.id].name, w'.log) else w'.log), true)
    else (w', false)
  }

  function DbRemove<F>(w: World<F>, id: Id): (World<F>, bool) {
    var (w', t) := Tick(w);
    if !t.db then (w', false)
    else (w'.(table := w'.table - {id},
              dead := if id in w'.table then w'.dead[id := w'.table[id]] else w'.dead), true)
  }

  /** What a call that the turn says fails does: nothing, and it says so. One that succeeds in writing an entry
      gives it 15 minutes, and touches no other. */
  lemma CallsMean<F>(w: World<F>, k: Key, id: Id, name: string, row: Row<F>)
    ensures var (w0, t) := Tick(w);
            && (!t.get ==> CacheGet(w, k).1.None?) && CacheGet(w, k).0 == w0
            && (!t.put ==> CacheSet(w, k, row) == w0) && (!t.del ==> CacheDelete(w, k) == w0)
            && (t.put ==> CacheSet(w, k, row).cache == w.cache[k := Entry(row, w0.now + 900.0)])
            && (t.del ==> CacheDelete(w, k).cache == w.cache - {k})
            && (!t.db ==> && DbFind(w, id) == (w0, Failed) && DbFindNamed(w, name) == (w0, Failed)
                          && DbInsert(w, row) == (w0, false) && DbSave(w, row) == (w0, false)
                          && DbRemove(w, id) == (w0, false))
  {
    hide NameFree, Named;
  }

  // ---------- Repository operations ----------

  function GetByID<F>(w: World<F>, id: Id): (World<F>, Lookup<Row<F>>) {
    var (w1, hit) := CacheGet(w, ById(id));
    if hit.Some? then (w1, Found(hit.value))
    else
      var (w2, found) := DbFind(w1, id);
      if found.Found? then (CacheSet(w2, ById(id), found.row), found) else (w2, found)
  }

  function GetByName<F>(w: World<F>, name: string): (World<F>, Lookup<Row<F>>) {
    var (w1, hit) := CacheGet(w, ByName(name));
    if hit.Some? then (w1, Found(hit.value))
    else
      var (w2, found) := DbFindNamed(w1, name);
      if found.Found? then (CacheSet(w2, ByName(name), found.row), found) else (w2, found)
  }

  function Create<F>(w: World<F>, row: Row<F>): (World<F>, bool) {
    var (w', ok) := DbInsert(w, row);
    if ok then (CacheDelete(w', Listing), true) else (w', false)
  }

  function Invalidate<F>(w: World<F>, id: Id, name: string): World<F> {
    CacheDelete(CacheDelete(CacheDelete(w, ById(id)), ByName(name)), Listing)
  }

  function Update<F>(w: World<F>, row: Row<F>): (World<F>, bool) {
    var (w', ok) := DbSave(w, row);
    if ok then (Invalidate(w', row.id, row.name), true) else (w', false)
  }

  /** The second half of a deletion, once the row has been loaded: delete it, then drop its keys. */
  function Drop<F>(w: World<F>, row: Row<F>): (World<F>, bool) {
    var (w', ok) := DbRemove(w, row.id);
    if ok then (Invalidate(w', row.id, row.name), true) else (w', false)
  }

  // ---------- What serialised runs with successful invalidation keep ----------

  predicate DeletesLand(turns: seq<Turn>) {
    forall i :: 0 <= i < |turns| ==> turns[i].del
  }

  predicate DbUp(turns: seq<Turn>) {
    forall i :: 0 <= i < |turns| ==> turns[i].db
  }

  ghost predicate TableOk<F>(w: World<F>) {
    && (forall id <- w.table :: w.table[id].id == id && id !in w.dead)
    && (forall a, b :: a in w.table && b in w.table && w.table[a].name == w.table[b].name ==> a == b)
    && (forall a, b :: a in w.table && b in w.dead ==> w.table[a].name != w.dead[b].name)
  }

  predicate Live<F>(w: World<F>, k: Key) {
    k in w.cache && w.now < w.cache[k].expiry
  }

  /** Every unexpired entry under an id is the live row of that id, field for field. */
  ghost predicate IdsCoherent<F>(w: World<F>) {
    forall id :: Live(w, ById(id)) ==> id in w.table && w.cache[ById(id)].row == w.table[id]
  }

  predicate RenamedSince(log: Log, name: string) {
    match log
    case Start => false
    case Renamed(n, earlier) => n == name || RenamedSince(earlier, name)
    case Filled(n, earlier) => n != name && RenamedSince(earlier, name)
  }

  ghost predicate InTable<F>(w: World<F>, row: Row<F>) {
    row.id in w.table && w.table[row.id] == row
  }

  /** Every unexpired entry under a name is a live row, unless a row was renamed away from that name after
      the entry was filled, and then it is not. */
  ghost predicate NamesExact<F>(w: World<F>) {
    forall name :: Live(w, ByName(name)) ==>
      var row := w.cache[ByName(name)].row;
      && row.name == name
      && (row.id in w.table || row.id in w.dead)
      && (InTable(w, row) <==> !RenamedSince(w.log, name))
  }

  ghost predicate Inv<F>(w: World<F>) {
    TableOk(w) && IdsCoherent(w) && NamesExact(w)
  }

  /** Nothing but time, entries running out or being dropped, and entries that agree with the table. */
  lemma CacheGetKeeps<F>(w: World<F>, k: Key)
    requires Inv(w)
    ensures Inv(CacheGet(w, k).0)
  {
  }

  lemma TickKeeps<F>(w: World<F>)
    requires Inv(w)
    ensures Inv(Tick(w).0)
  {
  }

  lemma CacheSetKeeps<F>(w: World<F>, k: Key, row: Row<F>)
    requires Inv(w) && InTable(w, row)
    requires k == ById(row.id) || k == ByName(row.name)
    ensures Inv(CacheSet(w, k, row))
  {
    TickKeeps(w);
    var w0, t := Tick(w).0, Tick(w).1;
    var w' := CacheSet(w, k, row);
    if t.put {
      assert forall j :: j != k && Live(w', j) ==> Live(w0, j) && w'.cache[j] == w0.cache[j];
      assert w'.cache[k].row == row;
      hide CacheSet, Tick;
      assert IdsCoherent(w') by { hide NamesExact; }
      FilledNamesExact(w0, w', k, row);
    }
  }

  lemma FilledNamesExact<F>(w: World<F>, w': World<F>, k: Key, row: Row<F>)
    requires NamesExact(w) && InTable(w, row) && (k == ById(row.id) || k == ByName(row.name))
    requires w'.table == w.table && w'.dead == w.dead
    requires w'.log == if k.ByName? then Filled(k.name, w.log) else w.log
    requires k in w'.cache && w'.cache[k].row == row
    requires forall j :: j != k && Live(w', j) ==> Live(w, j) && w'.cache[j] == w.cache[j]
    ensures NamesExact(w')
  {
    forall name | Live(w', ByName(name))
      ensures var held := w'.cache[ByName(name)].row;
              && held.name == name && (held.id in w'.table || held.id in w'.dead)
              && (InTable(w', held) <==> !RenamedSince(w'.log, name))
    {
      if k != ByName(name) { assert Live(w, ByName(name)); }
    }
  }

  lemma CacheDeleteKeeps<F>(w: World<F>, k: Key)
    requires Inv(w)
    ensures Inv(CacheDelete(w, k))
  {
    TickKeeps(w);
    var w0, w' := Tick(w).0, CacheDelete(w, k);
    assert forall j :: Live(w', j) ==> Live(w0, j) && w'.cache[j] == w0.cache[j];
  }

  lemma RowsAreTheirOwn<F>(w: World<F>)
    requires Inv(w)
    ensures forall id <- w.table :: InTable(w, w.table[id]) && w.table[id].id == id
    ensures forall name :: Named(w.table, name).Some? ==>
              InTable(w, Named(w.table, name).value) && Named(w.table, name).value.name == name
  {
    forall name | Named(w.table, name).Some?
      ensures InTable(w, Named(w.table, name).value) && Named(w.table, name).value.name == name
    {
      NamedHolds(w, name);
    }
  }

  lemma GetByIDKeeps<F>(w: World<F>, id: Id)
    requires Inv(w)
    ensures Inv(GetByID(w, id).0) && GetByID(w, id).0.table == w.table && GetByID(w, id).0.dead == w.dead
  {
    hide Inv, InTable;
    CacheGetKeeps(w, ById(id));
    var (w1, hit) := CacheGet(w, ById(id));
    if hit.None? {
      TickKeeps(w1);
      var (w2, found) := DbFind(w1, id);
      RowsAreTheirOwn(w2);
      if found.Found? { CacheSetKeeps(w2, ById(id), found.row); }
    }
  }

  lemma NamedHolds<F>(w: World<F>, name: string)
    requires TableOk(w)
    ensures match Named(w.table, name)
            case None => forall id <- w.table :: w.table[id].name != name
            case Some(row) => InTable(w, row) && row.name == name
  {
    if Holders(w.table, name) == {} {
      forall id | id in w.table ensures w.table[id].name != name {
        assert id !in Holders(w.table, name);
      }
    } else {
      var m := First(Holders(w.table, name));
    }
  }

  lemma GetByNameKeeps<F>(w: World<F>, name: string)
    requires Inv(w)
    ensures Inv(GetByName(w, name).0) && GetByName(w, name).0.table == w.table && GetByName(w, name).0.dead == w.dead
  {
    hide Inv, InTable, Named;
    CacheGetKeeps(w, ByName(name));
    var (w1, hit) := CacheGet(w, ByName(name));
    if hit.None? {
      TickKeeps(w1);
      var (w2, found) := DbFindNamed(w1, name);
      RowsAreTheirOwn(w2);
      if found.Found? { CacheSetKeeps(w2, ByName(name), found.row); }
    }
  }

  lemma DbInsertKeeps<F>(w: World<F>, row: Row<F>)
    requires Inv(w)
    ensures Inv(DbInsert(w, row).0)
  {
    TickKeeps(w);
    var w0 := Tick(w).0;
    var (w1, ok) := DbInsert(w, row);
    if ok {
      NameFreeMeans(w0, row.name, row.id);
      assert forall k :: Live(w1, k) == Live(w0, k);
    }
  }

  lemma CreateKeeps<F>(w: World<F>, row: Row<F>)
    requires Inv(w)
    ensures Inv(Create(w, row).0)
  {
    hide Inv, NameFree;
    DbInsertKeeps(w, row);
    CacheDeleteKeeps(DbInsert(w, row).0, Listing);
  }

  /** The id and the unique key of a new row are free in live and soft-deleted rows. */
  predicate Insertable<F>(w: World<F>, row: Row<F>) {
    row.id !in w.table && row.id !in w.dead && NameFree(w, row.name, row.id)
  }

  /** What an insert writes. */
  lemma CreateRows<F>(w: World<F>, row: Row<F>)
    ensures var (w', ok) := Create(w, row);
            && w'.table == (if ok then w.table[row.id := row] else w.table)
            && (ok ==> Insertable(w, row)) && (DbUp(w.turns) ==> ok == Insertable(w, row))
            && w.now <= w'.now && w'.cache.Items <= w.cache.Items
            && (ok && DeletesLand(w.turns) ==> w'.cache == w.cache - {Listing})
  {
    hide Holders;
  }

  lemma CreateTableOk<F>(w: World<F>, row: Row<F>)
    requires TableOk(w)
    ensures TableOk(Create(w, row).0)
  {
    CreateRows(w, row);
    var (w', ok) := Create(w, row);
    assert w'.dead == w.dead;
    if ok { NameFreeMeans(w, row.name, row.id); }
    hide Create, NameFree;
  }

  lemma NameFreeMeans<F>(w: World<F>, name: string, id: Id)
    requires NameFree(w, name, id)
    ensures forall other <- w.table :: w.table[other].name == name ==> other == id
    ensures forall other <- w.dead :: w.dead[other].name == name ==> other == id
  {
    forall other | other in w.table && w.table[other].name == name ensures other == id {
      assert other in Holders(w.table, name);
    }
    forall other | other in w.dead && w.dead[other].name == name ensures other == id {
      assert other in Holders(w.dead, name);
    }
  }

  /** Free for an id: no other row, live or soft-deleted, has the name. */
  lemma NameFreeIff<F>(w: World<F>, name: string, id: Id)
    ensures NameFree(w, name, id) <==>
            && (forall other <- w.table :: w.table[other].name == name ==> other == id)
            && (forall other <- w.dead :: w.dead[other].name == name ==> other == id)
    ensures TakenByOther(w.table, name, id) <==> exists other <- w.table :: w.table[other].name == name && other != id
  {
    if NameFree(w, name, id) { NameFreeMeans(w, name, id); }
    if other :| other in w.table && w.table[other].name == name && other != id {
      assert other in Holders(w.table, name) - {id};
    }
  }

  /** A live row's own name is free for it. */
  lemma OwnNameFree<F>(w: World<F>, id: Id)
    requires TableOk(w) && id in w.table
    ensures NameFree(w, w.table[id].name, id)
  {
  }

  lemma DeleteLands<F>(w: World<F>, k: Key)
    requires DeletesLand(w.turns)
    ensures var w' := CacheDelete(w, k);
            && w'.table == w.table && w'.dead == w.dead && w'.log == w.log && w.now <= w'.now
            && w'.cache == w.cache - {k} && DeletesLand(w'.turns)
  {
  }

  /** An invalidation that lands leaves no entry under either key. */
  lemma Invalidated<F>(w: World<F>, id: Id, name: string)
    requires DeletesLand(w.turns)
    ensures var w' := Invalidate(w, id, name);
            && w'.table == w.table && w'.dead == w.dead && w'.log == w.log && w.now <= w'.now
            && w'.cache == w.cache - {ById(id), ByName(name), Listing}
  {
    var w1 := CacheDelete(w, ById(id));
    var w2 := CacheDelete(w1, ByName(name));
    DeleteLands(w, ById(id));
    DeleteLands(w1, ByName(name));
    DeleteLands(w2, Listing);
    assert w.cache - {ById(id)} - {ByName(name)} - {Listing} == w.cache - {ById(id), ByName(name), Listing};
  }

  /** After a write to one row, it is enough to drop the entries under its id and its present name. */
  lemma WriteKeeps<F>(w: World<F>, w1: World<F>, w': World<F>, id: Id, name: string)
    requires Inv(w) && TableOk(w1)
    requires w1.table - {id} == w.table - {id} && w.dead.Keys <= w1.table.Keys + w1.dead.Keys
    requires w.table.Keys <= w1.table.Keys + w1.dead.Keys
    requires w1.cache == w.cache && w1.now == w.now
    requires id in w1.table ==> w1.table[id].name == name
    requires w1.log == if id in w.table && w.table[id].name != name then Renamed(w.table[id].name, w.log) else w.log
    requires w'.table == w1.table && w'.dead == w1.dead && w'.log == w1.log && w1.now <= w'.now
    requires w'.cache == w1.cache - {ById(id), ByName(name), Listing}
    ensures Inv(w')
  {
    assert forall k :: Live(w', k) ==> Live(w, k) && w'.cache[k] == w.cache[k];
    forall other | Live(w', ById(other))
      ensures other in w'.table && w'.cache[ById(other)].row == w'.table[other]
    {
      assert other in w.table - {id};
    }
    forall n | Live(w', ByName(n))
      ensures var row := w'.cache[ByName(n)].row;
              && row.name == n
              && (row.id in w'.table || row.id in w'.dead)
              && (InTable(w', row) <==> !RenamedSince(w'.log, n))
    {
      var row := w.cache[ByName(n)].row;
      if row.id != id {
        assert row.id in w.table <==> row.id in w.table - {id};
        assert row.id in w'.table <==> row.id in w1.table - {id};
        if id in w.table && w.table[id].name == n && InTable(w, row) { assert false; }
      }
    }
  }

  lemma DbSaveKeeps<F>(w: World<F>, row: Row<F>)
    requires TableOk(w) && DbSave(w, row).1
    ensures TableOk(DbSave(w, row).0)
  {
    NameFreeMeans(Tick(w).0, row.name, row.id);
  }

  lemma DeleteTouchesCache<F>(w: World<F>, k: Key)
    ensures var w' := CacheDelete(w, k);
            && w'.table == w.table && w'.dead == w.dead && w'.log == w.log
            && w.now <= w'.now && w'.cache.Items <= w.cache.Items
            && (DbUp(w.turns) ==> DbUp(w'.turns))
  {
  }

  /** Whether or not its deletions succeed, an invalidation changes nothing but the cache, and only shrinks that. */
  lemma InvalidateTouchesCache<F>(w: World<F>, id: Id, name: string)
    ensures var w' := Invalidate(w, id, name);
            && w'.table == w.table && w'.dead == w.dead && w'.log == w.log
            && w.now <= w'.now && w'.cache.Items <= w.cache.Items
            && (DbUp(w.turns) ==> DbUp(w'.turns))
  {
    hide CacheDelete;
    var w1 := CacheDelete(w, ById(id));
    var w2 := CacheDelete(w1, ByName(name));
    DeleteTouchesCache(w, ById(id));
    DeleteTouchesCache(w1, ByName(name));
    DeleteTouchesCache(w2, Listing);
  }

  /** What an update writes, whatever becomes of its invalidation. */
  lemma UpdateRows<F>(w: World<F>, row: Row<F>)
    ensures var (w', ok) := Update(w, row);
            && (if ok then row.id in w'.table && w'.table == w.table[row.id := row.(updated := w'.table[row.id].updated)]
                           && w.now <= w'.table[row.id].updated <= w'.now
                else w'.table == w.table)
            && w.now <= w'.now && w'.cache.Items <= w.cache.Items
            && (DbUp(w.turns) ==> DbUp(w'.turns))
            && (ok ==> NameFree(w, row.name, row.id))
            && (DbUp(w.turns) ==> ok == NameFree(w, row.name, row.id))
            && (TableOk(w) ==> TableOk(w'))
  {
    var (w1, ok) := DbSave(w, row);
    if ok {
      if TableOk(w) { DbSaveKeeps(w, row); }
      hide Invalidate;
      InvalidateTouchesCache(w1, row.id, row.name);
    }
  }

  lemma UpdateKeeps<F>(w: World<F>, row: Row<F>)
    requires Inv(w) && DeletesLand(w.turns)
    ensures Inv(Update(w, row).0)
  {
    hide Invalidate, NameFree, IdsCoherent, NamesExact;
    TickKeeps(w);
    var w0 := Tick(w).0;
    var (w1, ok) := DbSave(w, row);
    if ok {
      DbSaveKeeps(w, row);
      Invalidated(w1, row.id, row.name);
      assert w1.table - {row.id} == w0.table - {row.id};
      assert w1.table[row.id].name == row.name;
      WriteKeeps(w0, w1, Invalidate(w1, row.id, row.name), row.id, row.name);
    }
  }

  lemma DbRemoveKeeps<F>(w: World<F>, id: Id)
    requires TableOk(w)
    ensures TableOk(DbRemove(w, id).0)
  {
  }

  /** What a deletion removes, whatever becomes of its invalidation. */
  lemma DropRows<F>(w: World<F>, row: Row<F>)
    ensures var (w', ok) := Drop(w, row);
            && w'.table == (if ok then w.table - {row.id} else w.table)
            && (ok && row.id in w.table ==> w'.dead == w.dead[row.id := w.table[row.id]])
            && (!ok || row.id !in w.table ==> w'.dead == w.dead)
            && w.now <= w'.now && w'.cache.Items <= w.cache.Items
            && (DbUp(w.turns) ==> ok)
  {
    var (w1, ok) := DbRemove(w, row.id);
    hide Invalidate;
    if ok { InvalidateTouchesCache(w1, row.id, row.name); }
  }

  lemma DropTableOk<F>(w: World<F>, row: Row<F>)
    requires TableOk(w)
    ensures TableOk(Drop(w, row).0)
  {
    DbRemoveKeeps(w, row.id);
    hide Invalidate, DbRemove;
    InvalidateTouchesCache(DbRemove(w, row.id).0, row.id, row.name);
  }

  lemma DropKeeps<F>(w: World<F>, row: Row<F>)
    requires Inv(w) && DeletesLand(w.turns) && InTable(w, row)
    ensures Inv(Drop(w, row).0)
  {
    hide Invalidate, IdsCoherent, NamesExact;
    TickKeeps(w);
    var w0 := Tick(w).0;
    var (w1, ok) := DbRemove(w, row.id);
    if ok {
      Invalidated(w1, row.id, row.name);
      WriteKeeps(w0, w1, Invalidate(w1, row.id, row.name), row.id, row.name);
    }
  }

  // ---------- Reading through the cache ----------

  /** A cached lookup by id answers as a direct one, or reports a database failure that did happen. */
  lemma GetByIDRefinesDirect<F>(w: World<F>, id: Id)
    requires Inv(w)
    ensures var answer := if id in w.table then Found(w.table[id]) else NotFound;
            && (GetByID(w, id).1 == answer || GetByID(w, id).1 == Failed)
            && (DbUp(w.turns) ==> GetByID(w, id).1 == answer)
  {
  }

  /** An unexpired entry under a name that some row was renamed away from since. */
  predicate Stale<F>(w: World<F>, name: string) {
    Live(w, ByName(name)) && RenamedSince(w.log, name)
  }

  /** A cached lookup by name can only be wrong about a name some row was renamed away from. */
  lemma GetByNameRefinesDirect<F>(w: World<F>, name: string)
    requires Inv(w)
    ensures GetByName(w, name).1 == Answer(Named(w.table, name)) || GetByName(w, name).1 == Failed
         || Stale(w, name)
    ensures GetByName(w, name).1 == NotFound ==> Named(w.table, name).None?
    ensures DbUp(w.turns) ==> GetByName(w, name).1 != Failed
  {
    CacheGetKeeps(w, ByName(name));
    var (w1, hit) := CacheGet(w, ByName(name));
    if hit.Some? {
      assert Live(w1, ByName(name)) && Live(w, ByName(name));
      NamedIsIn(w1, name, hit.value);
    }
  }

  lemma NamedIsIn<F>(w: World<F>, name: string, row: Row<F>)
    requires TableOk(w) && row.name == name
    ensures InTable(w, row) <==> Named(w.table, name) == Some(row)
  {
    NamedHolds(w, name);
  }

  /** Another live row has the name. */
  predicate TakenByOther<F>(table: map<Id, Row<F>>, name: string, id: Id) {
    Holders(table, name) - {id} != {}
  }

  /** Looking for another row under a name: exact, unless a rename left an entry under it. */
  lemma LookForOther<F>(w: World<F>, name: string, id: Id)
    requires Inv(w) && DbUp(w.turns) && !Stale(w, name)
    ensures var found := GetByName(w, name).1;
            found.Found? && found.row.id != id <==> TakenByOther(w.table, name, id)
  {
    GetByNameRefinesDirect(w, name);
    NamedHolds(w, name);
    hide GetByName, Named;
    if h :| h in Holders(w.table, name) - {id} {
      assert w.table[h].name == name;
    }
    if Named(w.table, name).Some? && Named(w.table, name).value.id != id {
      assert Named(w.table, name).value.id in Holders(w.table, name) - {id};
    }
  }

  lemma GetByIDReads<F>(w: World<F>, id: Id)
    ensures GetByID(w, id).0.table == w.table
  {
  }

  /** A lookup by id leaves the entries under names alone. */
  lemma GetByIDLeavesNames<F>(w: World<F>, id: Id, name: string)
    ensures Stale(GetByID(w, id).0, name) ==> Stale(w, name)
  {
  }

  /** What reading keeps: the invariant, the rows, and what is known about the rest of the script. */
  ghost predicate Steady<F>(w: World<F>, w': World<F>) {
    && Inv(w')
    && w'.table == w.table && w'.dead == w.dead && w.now <= w'.now
    && (DeletesLand(w.turns) ==> DeletesLand(w'.turns))
    && (DbUp(w.turns) ==> DbUp(w'.turns))
  }

  lemma TicksOnward<F>(w: World<F>)
    ensures var w1 := Tick(w).0; var w2 := Tick(w1).0; var w3 := Tick(w2).0;
            && w.now <= w1.now <= w2.now <= w3.now
            && (DeletesLand(w.turns) ==> DeletesLand(w1.turns) && DeletesLand(w2.turns) && DeletesLand(w3.turns))
            && (DbUp(w.turns) ==> DbUp(w1.turns) && DbUp(w2.turns) && DbUp(w3.turns))
  {
  }

  lemma GetByIDSteady<F>(w: World<F>, id: Id)
    requires Inv(w)
    ensures Steady(w, GetByID(w, id).0)
  {
    GetByIDKeeps(w, id);
    TicksOnward(w);
    hide Inv, DeletesLand, DbUp;
  }

  /** A lookup by id over a coherent cache: it changes nothing that matters, and finds what the table has. */
  lemma ReadByID<F>(w: World<F>, id: Id)
    requires Inv(w)
    ensures var (w', found) := GetByID(w, id);
            && Steady(w, w')
            && (found == Direct(w.table, id) || found == Failed)
            && (DbUp(w.turns) ==> found == Direct(w.table, id))
            && (found.Found? ==> id in w.table && found.row == w.table[id] && found.row.id == id)
  {
    GetByIDSteady(w, id);
    GetByIDRefinesDirect(w, id);
  }

  lemma GetByNameSteady<F>(w: World<F>, name: string)
    requires Inv(w)
    ensures Steady(w, GetByName(w, name).0)
  {
    GetByNameKeeps(w, name);
    TicksOnward(w);
    hide Inv, Named, DeletesLand, DbUp;
  }

  // ---------- Whole runs ----------

  datatype Request<F> =
    | Get(id: Id) | GetNamed(name: string)
    | Insert(row: Row<F>) | Save(row: Row<F>)
    | Remove(id: Id, refused: bool)  // `refused` stands for whatever the services check in between

  function Handle<F>(w: World<F>, r: Request<F>): World<F> {
    match r
    case Get(id) => GetByID(w, id).0
    case GetNamed(name) => GetByName(w, name).0
    case Insert(row) => Create(w, row).0
    case Save(row) => Update(w, row).0
    case Remove(id, refused) =>
      var (w', found) := GetByID(w, id);
      if found.Found? && !refused then Drop(w', found.row).0 else w'
  }

  /** Requests, each with the turns of the calls it makes. */
  type Script<F> = seq<(Request<F>, seq<Turn>)>

  function Run<F>(w: World<F>, requests: Script<F>): World<F>
    decreases |requests|
  {
    if requests == [] then w
    else Run(Handle(w.(turns := requests[0].1), requests[0].0), requests[1..])
  }

  lemma {:induction false} HandleKeeps<F>(w: World<F>, r: Request<F>)
    requires Inv(w) && DeletesLand(w.turns)
    ensures Inv(Handle(w, r))
  {
    match r
    case Get(id) => GetByIDKeeps(w, id);
    case GetNamed(name) => GetByNameKeeps(w, name);
    case Insert(row) => CreateKeeps(w, row);
    case Save(row) => UpdateKeeps(w, row);
    case Remove(id, refused) =>
      GetByIDSteady(w, id);
      GetByIDRefinesDirect(w, id);
      var (w', found) := GetByID(w, id);
      if found.Found? && !refused { DropKeeps(w', found.row); }
  }

  /** A new request comes with a new script. */
  lemma NewTurns<F>(w: World<F>, turns: seq<Turn>)
    requires Inv(w)
    ensures Inv(w.(turns := turns))
  {
    assert forall k :: Live(w.(turns := turns), k) == Live(w, k);
  }

  lemma {:induction false} RunKeeps<F>(w: World<F>, requests: Script<F>)
    requires Inv(w) && forall i :: 0 <= i < |requests| ==> DeletesLand(requests[i].1)
    ensures Inv(Run(w, requests))
    decreases |requests|
  {
    if requests != [] {
      var w0 := w.(turns := requests[0].1);
      NewTurns(w, requests[0].1);
      hide Inv, Handle;
      HandleKeeps(w0, requests[0].0);
      RunKeeps(Handle(w0, requests[0].0), requests[1..]);
    }
  }

  function Empty<F>(table: map<Id, Row<F>>, now: real): World<F> {
    World(table, map[], map[], now, [], Start)
  }

  lemma EmptyKeeps<F>(table: map<Id, Row<F>>, now: real)
    requires TableOk(Empty(table, now))
    ensures Inv(Empty(table, now))
  {
  }

  /** Whatever requests are served from an empty cache, each unexpired entry under an id agrees with the
      live row on every stored field. */
  lemma {:induction false} IdKeysStayCoherent<F>(table: map<Id, Row<F>>, now: real, requests: Script<F>)
    requires TableOk(Empty(table, now)) && forall i :: 0 <= i < |requests| ==> DeletesLand(requests[i].1)
    ensures IdsCoherent(Run(Empty(table, now), requests))
  {
    RunKeeps(Empty(table, now), requests);
  }

  /** An unexpired entry under a name disagrees with the table exactly when some row was renamed away from
      that name after the entry was filled. */
  lemma {:induction false} StaleNameIffRenamed<F>(table: map<Id, Row<F>>, now: real, requests: Script<F>, name: string)
    requires TableOk(Empty(table, now)) && forall i :: 0 <= i < |requests| ==> DeletesLand(requests[i].1)
    requires Live(Run(Empty(table, now), requests), ByName(name))
    ensures var w := Run(Empty(table, now), requests);
            Named(w.table, name) != Some(w.cache[ByName(name)].row) <==> RenamedSince(w.log, name)
  {
    RunKeeps(Empty(table, now), requests);
    var w := Run(Empty(table, now), requests);
    NamedIsIn(w, name, w.cache[ByName(name)].row);
  }

  predicate NoRenames(log: Log) {
    match log
    case Start => true
    case Renamed(_, _) => false
    case Filled(_, earlier) => NoRenames(earlier)
  }

  lemma {:induction false} NoRenamesSince(log: Log, name: string)
    requires NoRenames(log)
    ensures !RenamedSince(log, name)
  {
    if log.Filled? { NoRenamesSince(log.earlier, name); }
  }

  /** Without renames, the second keys are as coherent as the ids. */
  lemma {:induction false} NamesCoherentWithoutRenames<F>(table: map<Id, Row<F>>, now: real, requests: Script<F>,
                                                          name: string)
    requires TableOk(Empty(table, now)) && forall i :: 0 <= i < |requests| ==> DeletesLand(requests[i].1)
    requires var w := Run(Empty(table, now), requests); Live(w, ByName(name)) && NoRenames(w.log)
    ensures var w := Run(Empty(table, now), requests); Named(w.table, name) == Some(w.cache[ByName(name)].row)
  {
    StaleNameIffRenamed(table, now, requests, name);
    NoRenamesSince(Run(Empty(table, now), requests).log, name);
  }

  /** A rename leaves the old name's entry behind: rename the row at 0 away from "a" after a lookup by name. */
  lemma RenameLeavesStaleEntry()
    ensures var row := Row(0, "a", (), 0.0, 0.0);
            var w := Run(Empty(map[0 := row], 0.0), [(GetNamed("a"), []), (Save(row.(name := "b")), [])]);
            Live(w, ByName("a")) && Named(w.table, "a").None? && GetByName(w, "a").1 == Found(row)
  {
    var row := Row(0, "a", (), 0.0, 0.0);
    var w0 := Empty(map[0 := row], 0.0);
    assert Holders(w0.table, "a") == {0};
    var w1 := GetByName(w0, "a").0;
    assert Live(w1, ByName("a"));
    var (w2, ok) := Update(w1, row.(name := "b"));
    assert Holders(w1.table, "b") == {} && Holders(w1.dead, "b") == {};
    var second := [(Save(row.(name := "b")), [])];
    var requests := [(GetNamed("a"), [])] + second;
    assert requests[1..] == second && second[1..] == [];
    assert w1.(turns := []) == w1;
    assert Run(w1, second) == Run(w2, []) == w2;
    assert Holders(w2.table, "a") == {};
  }
}

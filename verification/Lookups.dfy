/** What cached lookups find, whatever the cache holds: nothing is assumed here of earlier invalidations. */
module Lookups {
  import opened Shared
  import opened CachedTable

  /** The answer of the table itself to the query that is cached under k. */
  function RowAnswer<F>(table: map<Id, Row<F>>, k: Key): Option<Row<F>> {
    match k
    case ById(id) => if id in table then Some(table[id]) else None
    case ByName(name) => Named(table, name)
    case Listing => None
  }

  // ---------- What every run keeps, even when invalidations fail ----------

  /** The table is in order, and a row cached under an id has that id. */
  ghost predicate Plain<F>(w: World<F>) {
    TableOk(w) && forall id :: ById(id) in w.cache ==> w.cache[ById(id)].row.id == id
  }

  lemma CacheSetPlain<F>(w: World<F>, k: Key, row: Row<F>)
    requires Plain(w) && (k.ById? ==> row.id == k.id)
    ensures Plain(CacheSet(w, k, row))
  {
    var w' := CacheSet(w, k, row);
    assert forall j <- w'.cache :: j == k || (j in w.cache && w'.cache[j] == w.cache[j]);
    assert k in w'.cache ==> w'.cache[k].row == row || (k in w.cache && w'.cache[k] == w.cache[k]);
    SameTableOk(w, w');
    hide CacheSet, TableOk;
  }

  lemma SameTableOk<F>(w: World<F>, w': World<F>)
    requires TableOk(w) && w'.table == w.table && w'.dead == w.dead
    ensures TableOk(w')
  {
  }

  lemma TickPlain<F>(w: World<F>)
    requires Plain(w)
    ensures Plain(Tick(w).0)
  {
    SameTableOk(w, Tick(w).0);
    hide TableOk;
  }

  lemma GetByIDPlain<F>(w: World<F>, id: Id)
    requires Plain(w)
    ensures var (w', found) := GetByID(w, id);
            Plain(w') && w'.table == w.table && w'.dead == w.dead && (found.Found? ==> found.row.id == id)
  {
    TickPlain(w);
    var (w1, hit) := CacheGet(w, ById(id));
    if hit.None? {
      TickPlain(w1);
      var (w2, found) := DbFind(w1, id);
      if found.Found? { CacheSetPlain(w2, ById(id), found.row); }
    }
    hide Plain, TableOk;
  }

  /** What a lookup by id loads: the cached row on a hit, else the table's. */
  lemma LoadedByID<F>(w: World<F>, id: Id)
    requires Plain(w)
    ensures var (w', found) := GetByID(w, id);
            var hit := CacheGet(w, ById(id)).1;
            && (found.Found? ==> (hit.Some? || id in w.table) && found.row.id == id
                                 && found.row == if hit.Some? then hit.value else w.table[id])
            && (DbUp(w.turns) ==> DbUp(w'.turns) && (found.Found? <==> hit.Some? || id in w.table))
  {
    TicksOnward(w);
    GetByIDPlain(w, id);
    hide Plain, DbUp, DeletesLand;
  }

  lemma GetByNamePlain<F>(w: World<F>, name: string)
    requires Plain(w)
    ensures var w' := GetByName(w, name).0; Plain(w') && w'.table == w.table && w'.dead == w.dead
  {
    hide Named, TableOk, Plain;
    TickPlain(w);
    var (w1, hit) := CacheGet(w, ByName(name));
    if hit.None? {
      TickPlain(w1);
      var (w2, found) := DbFindNamed(w1, name);
      if found.Found? { CacheSetPlain(w2, ByName(name), found.row); }
    }
  }

  lemma FewerEntriesPlain<F>(w: World<F>, w': World<F>)
    requires Plain(w) && TableOk(w') && w'.cache.Items <= w.cache.Items
    ensures Plain(w')
  {
    forall id | ById(id) in w'.cache ensures w'.cache[ById(id)].row.id == id {
      assert (ById(id), w'.cache[ById(id)]) in w'.cache.Items;
    }
    hide TableOk;
  }

  lemma UpdatePlain<F>(w: World<F>, row: Row<F>)
    requires Plain(w)
    ensures Plain(Update(w, row).0)
  {
    UpdateRows(w, row);
    hide Update, NameFree, TableOk;
    FewerEntriesPlain(w, Update(w, row).0);
  }

  lemma CreatePlain<F>(w: World<F>, row: Row<F>)
    requires Plain(w)
    ensures Plain(Create(w, row).0)
  {
    CreateRows(w, row);
    CreateTableOk(w, row);
    hide Create, Insertable, TableOk;
    FewerEntriesPlain(w, Create(w, row).0);
  }

  lemma DropPlain<F>(w: World<F>, row: Row<F>)
    requires Plain(w)
    ensures Plain(Drop(w, row).0)
  {
    DropRows(w, row);
    DropTableOk(w, row);
    hide Drop, TableOk;
    FewerEntriesPlain(w, Drop(w, row).0);
  }

  // ---------- What a request sees ----------

  function Duration(turns: seq<Turn>): Delay {
    if turns == [] then 0.0 else turns[0].wait + Duration(turns[1..])
  }

  predicate CacheUp(turns: seq<Turn>) {
    forall i :: 0 <= i < |turns| ==> turns[i].get
  }

  /** What a lookup under k finds when it is the next call: an entry that has not run out by then, or else
      the table's answer. */
  function Sees<F>(w: World<F>, k: Key): Option<Row<F>> {
    if k in w.cache && Tick(w).0.now < w.cache[k].expiry then Some(w.cache[k].row) else RowAnswer(w.table, k)
  }

  /** The database and the cache answer throughout the request, and whatever the cache has wrong has run out
      by its first call or outlasts it. */
  ghost predicate Calm<F>(w: World<F>) {
    && DbUp(w.turns) && CacheUp(w.turns)
    && forall k <- w.cache ::
         || RowAnswer(w.table, k) == Some(w.cache[k].row)
         || w.cache[k].expiry <= Tick(w).0.now
         || w.now + Duration(w.turns) < w.cache[k].expiry
  }

  /** Reading: the same rows, the same view of them. */
  ghost predicate SameView<F>(w: World<F>, w': World<F>) {
    && Calm(w') && w'.table == w.table && w'.dead == w.dead
    && forall k :: Sees(w', k) == Sees(w, k)
  }

  lemma TickSees<F>(w: World<F>)
    requires Calm(w)
    ensures SameView(w, Tick(w).0) && Tick(w).1.db && Tick(w).1.get
  {
    var w' := Tick(w).0;
    assert w'.now + Duration(w'.turns) == w.now + Duration(w.turns);
    assert w.now <= w'.now <= Tick(w').0.now <= w'.now + Duration(w'.turns);
    hide RowAnswer;
  }

  lemma CacheSetSees<F>(w: World<F>, k: Key, row: Row<F>)
    requires Calm(w) && RowAnswer(w.table, k) == Some(row) == Sees(w, k)
    ensures SameView(w, CacheSet(w, k, row))
  {
    TickSees(w);
    var (w0, t) := Tick(w);
    var w' := CacheSet(w, k, row);
    assert w'.now == w0.now && w'.turns == w0.turns;
    hide RowAnswer;
  }

  /** A lookup finds what the request sees, and changes nothing about that. */
  lemma GetByIDSees<F>(w: World<F>, id: Id)
    requires Calm(w)
    ensures var (w', found) := GetByID(w, id);
            SameView(w, w') && found == Answer(Sees(w, ById(id)))
  {
    TickSees(w);
    var (w1, hit) := CacheGet(w, ById(id));
    if hit.None? {
      TickSees(w1);
      var (w2, found) := DbFind(w1, id);
      if found.Found? { CacheSetSees(w2, ById(id), found.row); }
    }
    hide Calm, CacheSet;
  }

  lemma GetByNameSees<F>(w: World<F>, name: string)
    requires Calm(w)
    ensures var (w', found) := GetByName(w, name);
            SameView(w, w') && found == Answer(Sees(w, ByName(name)))
  {
    hide Named;
    TickSees(w);
    var (w1, hit) := CacheGet(w, ByName(name));
    if hit.None? {
      TickSees(w1);
      var (w2, found) := DbFindNamed(w1, name);
      if found.Found? { CacheSetSees(w2, ByName(name), found.row); }
    }
    hide Calm, CacheSet;
  }
}

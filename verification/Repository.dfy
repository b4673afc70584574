/** The repository object: each method is the code, proved equal to its specification in `CachedTable`. */
module Repositories {
  import opened Shared
  import opened CachedTable

  class Repository<F> {
    var table: map<Id, Row<F>>
    var dead: map<Id, Row<F>>
    var cache: map<Key, Entry<Row<F>>>
    var now: real
    var turns: seq<Turn>
    var log: Log

    ghost function State(): World<F>
      reads this
    {
      World(table, dead, cache, now, turns, log)
    }

    constructor (table: map<Id, Row<F>>, now: real)
      ensures State() == Empty(table, now)
    {
      this.table, this.now := table, now;
      dead, cache, turns, log := map[], map[], [], Start;
    }

    /** Waits for the next outside call to come back. */
    method NextTurn() returns (t: Turn)
      modifies this
      ensures (State(), t) == Tick(old(State()))
    {
      if turns == [] {
        t := SMOOTH;
      } else {
        t := turns[0];
        now := now + t.wait;
        turns := turns[1..];
      }
    }

    // ---------- Redis ----------

    method Get(k: Key) returns (hit: Option<Row<F>>)
      modifies this
      ensures (State(), hit) == CacheGet(old(State()), k)
    {
      var t := NextTurn();
      hit := None;
      if t.get && k in cache && now < cache[k].expiry {
        hit := Some(cache[k].row);
      }
    }

    method Set(k: Key, row: Row<F>)
      modifies this
      ensures State() == CacheSet(old(State()), k, row)
    {
      var t := NextTurn();
      if t.put {
        cache := cache[k := Entry(row, now + TTL)];
        if k.ByName? {
          log := Filled(k.name, log);
        }
      }
    }

    method Delete(k: Key)
      modifies this
      ensures State() == CacheDelete(old(State()), k)
    {
      var t := NextTurn();
      if t.del {
        cache := cache - {k};
      }
    }

    // ---------- The database ----------

    method QueryByID(id: Id) returns (found: Lookup<Row<F>>)
      modifies this
      ensures (State(), found) == DbFind(old(State()), id)
    {
      var t := NextTurn();
      if !t.db {
        found := Failed;
      } else if id in table {
        found := Found(table[id]);
      } else {
        found := NotFound;
      }
    }

    method QueryByName(name: string) returns (found: Lookup<Row<F>>)
      modifies this
      ensures (State(), found) == DbFindNamed(old(State()), name)
    {
      var t := NextTurn();
      var ids := set id | id in table && table[id].name == name;
      assert ids == Holders(table, name);
      if !t.db {
        found := Failed;
      } else if ids == {} {
        found := NotFound;
      } else {
        found := Found(table[First(ids)]);
      }
    }

    method InsertRow(row: Row<F>) returns (ok: bool)
      modifies this
      ensures (State(), ok) == DbInsert(old(State()), row)
    {
      var t := NextTurn();
      ok := t.db && row.id !in table && row.id !in dead
            && Holders(table, row.name) + Holders(dead, row.name) <= {row.id};
      if ok {
        table := table[row.id := row];
      }
    }

    method SaveRow(row: Row<F>) returns (ok: bool)
      modifies this
      ensures (State(), ok) == DbSave(old(State()), row)
    {
      var t := NextTurn();
      ok := t.db && Holders(table, row.name) + Holders(dead, row.name) <= {row.id};
      if ok {
        if row.id in table && table[row.id].name != row.name {
          log := Renamed(table[row.id].name, log);
        }
        table := table[row.id := row.(updated := now)];
        dead := dead - {row.id};
      }
    }

    method RemoveRow(id: Id) returns (ok: bool)
      modifies this
      ensures (State(), ok) == DbRemove(old(State()), id)
    {
      var t := NextTurn();
      ok := t.db;
      if ok {
        if id in table {
          dead := dead[id := table[id]];
        }
        table := table - {id};
      }
    }

    // ---------- The repository ----------

    method Create(row: Row<F>) returns (ok: bool)
      modifies this
      ensures (State(), ok) == CachedTable.Create(old(State()), row)
    {
      ok := InsertRow(row);
      if ok {
        Delete(Listing);
      }
    }

    method GetByID(id: Id) returns (found: Lookup<Row<F>>)
      modifies this
      ensures (State(), found) == CachedTable.GetByID(old(State()), id)
    {
      var hit := Get(ById(id));
      if hit.Some? {
        return Found(hit.value);
      }
      found := QueryByID(id);
      if found.Found? {
        Set(ById(id), found.row);
      }
    }

    method GetByName(name: string) returns (found: Lookup<Row<F>>)
      modifies this
      ensures (State(), found) == CachedTable.GetByName(old(State()), name)
    {
      var hit := Get(ByName(name));
      if hit.Some? {
        return Found(hit.value);
      }
      found := QueryByName(name);
      if found.Found? {
        Set(ByName(name), found.row);
      }
    }

    method Invalidate(id: Id, name: string)
      modifies this
      ensures State() == CachedTable.Invalidate(old(State()), id, name)
    {
      Delete(ById(id));
      Delete(ByName(name));
      Delete(Listing);
    }

    method Update(row: Row<F>) returns (ok: bool)
      modifies this
      ensures (State(), ok) == CachedTable.Update(old(State()), row)
    {
      ok := SaveRow(row);
      if ok {
        Invalidate(row.id, row.name);
      }
    }

    method Drop(row: Row<F>) returns (ok: bool)
      modifies this
      ensures (State(), ok) == CachedTable.Drop(old(State()), row)
    {
      ok := RemoveRow(row.id);
      if ok {
        Invalidate(row.id, row.name);
      }
    }
  }
}

/** What the cached repositories have in common. */
module Shared {
  datatype Option<+T> = None | Some(value: T)

  /** A request's optional field: what it names, or what there was. */
  function Or<T>(given: Option<T>, otherwise: T): T {
    if given.Some? then given.value else otherwise
  }

  /** Stands for a UUID. */
  type Id = nat

  /** A cache entry: the stored value and the instant it runs out. */
  datatype Entry<V> = Entry(row: V, expiry: real)

  /** The default time to live: 15 minutes, in seconds. */
  const TTL := 900.0

  /** The outcome of a lookup; `Failed` is a database error. */
  datatype Lookup<R> = Found(row: R) | NotFound | Failed

  function Answer<R>(found: Option<R>): Lookup<R> {
    if found.Some? then Found(found.value) else NotFound
  }

  predicate IsLeast(m: Id, ids: set<Id>) {
    m in ids && forall i <- ids :: m <= i
  }

  lemma LeastExists(ids: set<Id>)
    requires ids != {}
    ensures exists m :: IsLeast(m, ids)
  {
    var x :| x in ids;
    if ids - {x} == {} {
      assert ids == {x};
      assert IsLeast(x, ids);
    } else {
      LeastExists(ids - {x});
      var m :| IsLeast(m, ids - {x});
      var least := if x < m then x else m;
      forall i | i in ids ensures least <= i {
        if i != x { assert i in ids - {x}; }
      }
      assert IsLeast(least, ids);
    }
  }

  /** A query for one row takes the first in id order. */
  function First(ids: set<Id>): (m: Id)
    requires ids != {}
    ensures m in ids && forall i <- ids :: m <= i
  {
    LeastExists(ids);
    var m :| m in ids && IsLeast(m, ids);
    m
  }
}

/** Serialised category requests over a cache that may be out of date, because the code ignores deletions from it
    that fail: exactly when they keep the forest. */
module StaleParents {
  import opened Shared
  import opened CachedTable
  import opened Lookups
  import opened Forests
  import opened Categories

  // ---------- Every request, whatever fails ----------

  /** Reading in any state. */
  ghost predicate Read(w: Store, w': Store) {
    Plain(w') && w'.table == w.table && w'.dead == w.dead
  }

  lemma {:induction false} CheckReads(w: Store, current: Id, child: Id, visited: set<Id>)
    requires Plain(w)
    ensures Read(w, EnsureNoCycle(w, current, child, visited).0)
    decreases Known(w) - visited
  {
    hide Plain, GetByID;
    if current != child && current !in visited {
      GetByIDKnown(w, current);
      GetByIDPlain(w, current);
      var (w', found) := GetByID(w, current);
      if found.Found? && found.row.fields.parent.Some? {
        CheckReads(w', found.row.fields.parent.value, child, visited + {current});
      }
    }
  }

  lemma ChooseParentReads(w: Store, id: Id, present: Option<Id>, parent: ParentArg)
    requires Plain(w)
    ensures var (w', refusal, chosen) := ChooseParent(w, id, present, parent);
            Read(w, w') && (refusal.None? ==> chosen == ParentAfter(present, parent))
  {
    hide Plain, GetByID, EnsureNoCycle;
    if parent.Given? && parent.id != id {
      GetByIDPlain(w, parent.id);
      CheckReads(GetByID(w, parent.id).0, parent.id, id, {});
    }
  }

  lemma PrepareReads(w: Store, id: Id, name: Option<string>, description: Option<string>, parent: ParentArg)
    requires Plain(w)
    ensures var (w', prepared) := PrepareUpdate(w, id, name, description, parent);
            Read(w, w') && (prepared.Ready? ==> prepared.category.id == id)
  {
    hide Plain, GetByID, GetByName, ChooseParent;
    GetByIDPlain(w, id);
    var (w1, found) := GetByID(w, id);
    if found.Found? {
      if name.Some? { GetByNamePlain(w1, name.value); }
      ChooseParentReads(NameClash(w1, found.row, name, id).0, id, found.row.fields.parent, parent);
    }
  }

  lemma PlaceReads(w: Store, name: string, parent: ParentArg)
    requires Plain(w)
    ensures var (w', placed) := PlaceCategory(w, name, parent);
            Read(w, w') && (placed.Place? ==> placed.parent == if parent.Given? then Some(parent.id) else None)
  {
    hide Plain, GetByID, GetByName;
    GetByNamePlain(w, name);
    if parent.Given? {
      var w1 := GetByName(w, name).0;
      GetByIDPlain(w1, parent.id);
      var (w2, found) := GetByID(w1, parent.id);
      assert found.Found? ==> found.row.id == parent.id;
    }
  }

  lemma DeletionReads(w: Store, id: Id, books: BooksAnswer)
    requires Plain(w)
    ensures var (w', checked) := CheckDeletion(w, id, books);
            && Read(w, w')
            && (checked.Ready? ==> checked.category.id == id && Children(ParentsOf(w.table), id) == {})
  {
    hide Plain, GetByID, Children, ParentsOf;
    GetByIDPlain(w, id);
    var (w1, found) := GetByID(w, id);
    if found.Found? {
      GetByIDPlain(w1, id);
      var w2 := GetByID(w1, id).0;
      TickPlain(w2);
      TickPlain(Tick(w2).0);
    }
  }

  /** Every parent that is new or changed is one that may be set. */
  ghost predicate ParentsFit(before: map<Id, Category>, after: map<Id, Category>) {
    forall id <- after :: (id in before && after[id].fields.parent == before[id].fields.parent)
                          || Fits(ParentsOf(before), id, after[id].fields.parent)
  }

  ghost predicate Exact(w: Store, w': Store) {
    Plain(w') && (Forest(ParentsOf(w'.table)) <==> ParentsFit(w.table, w'.table))
  }

  lemma SameRowsExact(w: Store, w': Store)
    requires Plain(w') && w'.table == w.table && Forest(ParentsOf(w.table))
    ensures Exact(w, w')
  {
    hide Plain, Forest;
  }

  lemma PutExact(w: Store, w': Store, row: Category)
    requires Plain(w') && Forest(ParentsOf(w.table)) && w'.table == w.table[row.id := row]
    ensures Exact(w, w')
    ensures Forest(ParentsOf(w'.table)) <==> Fits(ParentsOf(w.table), row.id, row.fields.parent)
  {
    hide Plain, Forest, Fits;
    var p := ParentsOf(w.table);
    ParentsAfterWrite(w.table, row);
    PutKeepsForestIff(p, row.id, row.fields.parent);
    if row.id in w.table && row.fields.parent == w.table[row.id].fields.parent {
      assert p[row.id := row.fields.parent] == p;
    }
    hide ParentsOf;
  }

  lemma GoneExact(w: Store, w': Store, id: Id)
    requires Plain(w') && Forest(ParentsOf(w.table)) && w'.table == w.table - {id}
    requires Children(ParentsOf(w.table), id) == {}
    ensures Exact(w, w') && Forest(ParentsOf(w'.table))
  {
    hide Plain, Forest, Children;
    ParentsWithout(w.table, id);
    RemoveLeafKeepsForest(ParentsOf(w.table), id);
  }

  lemma SavedExact(w: Store, w1: Store, category: Category)
    requires Read(w, w1) && Forest(ParentsOf(w.table))
    ensures Exact(w, SaveCategory(w1, category).0)
  {
    hide Plain, CachedTable.Update, NameFree, Forest, Exact, TableOk;
    UpdateRows(w1, category);
    UpdatePlain(w1, category);
    var (w', ok) := Update(w1, category);
    if ok {
      PutExact(w, w', category.(updated := w'.table[category.id].updated));
    } else {
      SameRowsExact(w, w');
    }
  }

  lemma InsertedExact(w: Store, w1: Store, name: string, description: string, parent: Option<Id>, newId: Id)
    requires Read(w, w1) && Forest(ParentsOf(w.table))
    ensures Exact(w, InsertCategory(w1, name, description, parent, newId).0)
  {
    hide Plain, Create, Insertable, Forest, Exact;
    var category := Row(newId, name, CategoryFields(description, parent), w1.now, w1.now);
    CreateRows(w1, category);
    CreatePlain(w1, category);
    var (w', ok) := Create(w1, category);
    if ok { PutExact(w, w', category); } else { SameRowsExact(w, w'); }
  }

  lemma RemovedExact(w: Store, w1: Store, category: Category)
    requires Read(w, w1) && Forest(ParentsOf(w.table)) && Children(ParentsOf(w.table), category.id) == {}
    ensures Exact(w, RemoveCategory(w1, category).0) && Forest(ParentsOf(RemoveCategory(w1, category).0.table))
  {
    hide Plain, Drop, Forest, Exact, Children;
    DropRows(w1, category);
    DropPlain(w1, category);
    var (w', ok) := Drop(w1, category);
    if ok { GoneExact(w, w', category.id); } else { SameRowsExact(w, w'); }
  }

  /** Whatever the cache holds and whatever fails: a request keeps the forest exactly when every parent it
      writes exists in the table and is not below its category there. */
  lemma ServeKeepsForestIff(w: Store, r: Categories.Request)
    requires Plain(w) && Forest(ParentsOf(w.table))
    ensures Plain(Serve(w, r))
    ensures Forest(ParentsOf(Serve(w, r).table)) <==> ParentsFit(w.table, Serve(w, r).table)
  {
    hide Plain, Forest, ParentsFit, GetByID, GetByName, PlaceCategory, InsertCategory, PrepareUpdate, SaveCategory,
         CheckDeletion, RemoveCategory, Children;
    match r
    case Creation(name, description, parent, newId) =>
      PlaceReads(w, name, parent);
      var (w1, placed) := PlaceCategory(w, name, parent);
      SameRowsExact(w, w1);
      if placed.Place? { InsertedExact(w, w1, name, description, placed.parent, newId); }
    case Change(id, name, description, parent) =>
      PrepareReads(w, id, name, description, parent);
      var (w1, prepared) := PrepareUpdate(w, id, name, description, parent);
      SameRowsExact(w, w1);
      if prepared.Ready? { SavedExact(w, w1, prepared.category); }
    case Deletion(id, books) =>
      DeletionReads(w, id, books);
      var (w1, checked) := CheckDeletion(w, id, books);
      SameRowsExact(w, w1);
      if checked.Ready? { RemovedExact(w, w1, checked.category); }
    case LookUp(id) =>
      GetByIDPlain(w, id);
      SameRowsExact(w, GetByID(w, id).0);
    case LookUpName(name) =>
      GetByNamePlain(w, name);
      SameRowsExact(w, GetByName(w, name).0);
  }

  // ---------- What a request writes, by what it sees ----------

  /** The parents that the cycle check walks over: the table's, overlaid by those of the cached rows. */
  function SeenParents(w: Store): Parents {
    map id | id in Known(w) && Sees(w, ById(id)).Some? :: Sees(w, ById(id)).value.fields.parent
  }

  lemma SeenAt(w: Store, id: Id)
    ensures id in SeenParents(w) <==> Sees(w, ById(id)).Some?
    ensures id in SeenParents(w) ==> SeenParents(w)[id] == Sees(w, ById(id)).value.fields.parent
  {
  }

  lemma SameSeenParents(w: Store, w': Store)
    requires SameView(w, w')
    ensures SeenParents(w') == SeenParents(w)
  {
    forall id ensures id in SeenParents(w') <==> id in SeenParents(w) {
      SeenAt(w, id);
      SeenAt(w', id);
    }
  }

  lemma {:induction false} CheckWalksSeen(w: Store, current: Id, child: Id, visited: set<Id>)
    requires Calm(w)
    ensures var (w', check) := EnsureNoCycle(w, current, child, visited);
            SameView(w, w') && check == Meaning(Walk(SeenParents(w), current, child, visited))
    decreases Known(w) - visited
  {
    hide Calm, GetByID, Sees, SeenParents;
    if current != child && current !in visited {
      GetByIDKnown(w, current);
      GetByIDSees(w, current);
      SeenAt(w, current);
      var (w', found) := GetByID(w, current);
      SameSeenParents(w, w');
      if found.Found? && found.row.fields.parent.Some? {
        CheckWalksSeen(w', found.row.fields.parent.value, child, visited + {current});
      }
    }
  }

  /** The name check objects. */
  predicate NameObjects(w: Store, loaded: Category, name: Option<string>, id: Id) {
    && name.Some? && name.value != loaded.name
    && Sees(w, ByName(name.value)).Some? && Sees(w, ByName(name.value)).value.id != id
  }

  /** The parent checks let the parent through. */
  predicate Passes(w: Store, id: Id, parent: ParentArg) {
    match parent
    case Malformed => false
    case Given(pid) =>
      pid != id && pid in SeenParents(w) && Walk(SeenParents(w), pid, id, {}) == Clear
    case _ => true
  }

  /** The row that an update writes, if it writes one. */
  function Intended(w: Store, id: Id, name: Option<string>, description: Option<string>, parent: ParentArg)
    : Option<Category>
  {
    match Sees(w, ById(id))
    case None => None
    case Some(loaded) =>
      if NameObjects(w, loaded, name, id) || !Passes(w, id, parent) || !NameFree(w, Or(name, loaded.name), id) then None
      else Some(Edited(loaded, name, description, parent))
  }

  lemma ChooseParentSees(w: Store, id: Id, present: Option<Id>, parent: ParentArg)
    requires Calm(w) && Plain(w)
    ensures var (w', refusal, chosen) := ChooseParent(w, id, present, parent);
            && Calm(w') && Read(w, w') && (refusal.None? <==> Passes(w, id, parent))
            && (refusal.None? ==> chosen == ParentAfter(present, parent))
  {
    hide Calm, Plain, GetByID, EnsureNoCycle, Sees, SeenParents;
    ChooseParentReads(w, id, present, parent);
    if parent.Given? && parent.id != id {
      GetByIDSees(w, parent.id);
      SeenAt(w, parent.id);
      var w1 := GetByID(w, parent.id).0;
      SameSeenParents(w, w1);
      CheckWalksSeen(w1, parent.id, id, {});
    }
  }

  lemma SamePasses(w: Store, w': Store, id: Id, parent: ParentArg)
    requires SameView(w, w')
    ensures Passes(w', id, parent) == Passes(w, id, parent)
  {
    SameSeenParents(w, w');
    hide SeenParents;
  }

  lemma NameClashSees(w: Store, loaded: Category, name: Option<string>, id: Id)
    requires Calm(w) && Plain(w)
    ensures var (w', clash) := NameClash(w, loaded, name, id);
            SameView(w, w') && Plain(w') && clash == NameObjects(w, loaded, name, id)
  {
    hide Calm, Plain, GetByName, Sees;
    if name.Some? {
      GetByNamePlain(w, name.value);
      GetByNameSees(w, name.value);
    }
  }

  lemma PrepareSees(w: Store, id: Id, name: Option<string>, description: Option<string>, parent: ParentArg)
    requires Calm(w) && Plain(w)
    ensures var (w', prepared) := PrepareUpdate(w, id, name, description, parent);
            && Calm(w') && Read(w, w')
            && match Sees(w, ById(id))
               case None => prepared.Rejected?
               case Some(loaded) =>
                 && (prepared.Ready? <==> !NameObjects(w, loaded, name, id) && Passes(w, id, parent))
                 && (prepared.Ready? ==> prepared.category == Edited(loaded, name, description, parent)
                                         && prepared.category.id == id)
  {
    hide Calm, Plain, GetByID, NameClash, ChooseParent, Sees, Passes;
    GetByIDPlain(w, id);
    GetByIDSees(w, id);
    var (w1, found) := GetByID(w, id);
    if found.Found? {
      NameClashSees(w1, found.row, name, id);
      var (w2, clash) := NameClash(w1, found.row, name, id);
      assert clash == NameObjects(w, found.row, name, id);
      ChooseParentSees(w2, id, found.row.fields.parent, parent);
      SamePasses(w, w2, id, parent);
      var (w3, refusal, chosen) := ChooseParent(w2, id, found.row.fields.parent, parent);
      assert refusal.None? <==> Passes(w, id, parent);
    }
  }

  /** From any cache: an update is done exactly when what it sees speaks for it, and then it writes what it
      sees of the category with the named fields replaced. */
  lemma UpdateWritesIntended(w: Store, id: Id, name: Option<string>, description: Option<string>, parent: ParentArg)
    requires Calm(w) && Plain(w)
    ensures var (w', reply) := UpdateCategory(w, id, name, description, parent);
            match Intended(w, id, name, description, parent)
            case None => reply.Refused? && w'.table == w.table
            case Some(row) => reply.Done? && row.id == id && id in w'.table
                              && w'.table == w.table[id := row.(updated := w'.table[id].updated)]
  {
    hide Plain, PrepareUpdate, CachedTable.Update, Sees, NameObjects, Passes, NameFree, TableOk, Edited;
    PrepareSees(w, id, name, description, parent);
    var (w1, prepared) := PrepareUpdate(w, id, name, description, parent);
    if prepared.Ready? {
      UpdateRows(w1, prepared.category);
      SameNamesFree(w, w1, prepared.category.name, id);
      EditedName(Sees(w, ById(id)).value, name, description, parent);
    }
  }

  lemma EditedName(row: Category, name: Option<string>, description: Option<string>, parent: ParentArg)
    ensures Edited(row, name, description, parent).name == Or(name, row.name)
  {
  }

  /** A creation goes through. */
  predicate WouldCreate(w: Store, name: string, parent: ParentArg, newId: Id) {
    && Sees(w, ByName(name)).None? && !parent.Malformed?
    && (parent.Given? ==> Sees(w, ById(parent.id)).Some?)
    && IndexObjection(w, name, newId).None?
  }

  lemma CreateWritesIntended(w: Store, name: string, description: string, parent: ParentArg, newId: Id)
    requires Calm(w) && Plain(w)
    ensures var (w', reply) := CreateCategory(w, name, description, parent, newId);
            && (reply.Done? <==> WouldCreate(w, name, parent, newId))
            && (reply.Refused? ==> w'.table == w.table)
            && (reply.Done? ==>
                  && newId !in w.table && w'.table == w.table[newId := reply.category] && reply.category.id == newId
                  && reply.category.fields == CategoryFields(description, if parent.Given? then Some(parent.id) else None))
  {
    hide Plain, GetByID, GetByName, Create, Sees, NameFree;
    PlaceReads(w, name, parent);
    GetByNameSees(w, name);
    if parent.Given? { GetByIDSees(GetByName(w, name).0, parent.id); }
    var (w1, placed) := PlaceCategory(w, name, parent);
    if placed.Place? {
      CreateRows(w1, Row(newId, name, CategoryFields(description, placed.parent), w1.now, w1.now));
      SameNamesFree(w, w1, name, newId);
    }
  }

  /** A request that writes a parent which does not exist in the table, or is below its category there. */
  ghost predicate Spoils(w: Store, r: Categories.Request) {
    match r
    case Change(id, name, description, parent) =>
      var row := Intended(w, id, name, description, parent);
      row.Some? && !Fits(ParentsOf(w.table), id, row.value.fields.parent)
    case Creation(name, _, parent, newId) =>
      parent.Given? && parent.id !in w.table && WouldCreate(w, name, parent, newId)
    case _ => false
  }

  /** A calm request keeps the forest exactly when it does not spoil it. */
  lemma CalmRequestKeepsForestIff(w: Store, r: Categories.Request)
    requires Calm(w) && Plain(w) && Forest(ParentsOf(w.table))
    ensures Forest(ParentsOf(Serve(w, r).table)) <==> !Spoils(w, r)
  {
    hide Calm, Plain, Forest, ParentsFit, GetByID, GetByName, CreateCategory, UpdateCategory, DeleteCategory,
         Intended, WouldCreate, Fits;
    ServeKeepsForestIff(w, r);
    match r
    case Change(id, name, description, parent) =>
      UpdateWritesIntended(w, id, name, description, parent);
      var row := Intended(w, id, name, description, parent);
      var w' := Serve(w, r);
      if row.Some? { PutExact(w, w', row.value.(updated := w'.table[id].updated)); }
    case Creation(name, description, parent, newId) =>
      CreateWritesIntended(w, name, description, parent, newId);
      var (w', reply) := CreateCategory(w, name, description, parent, newId);
      if reply.Done? {
        PutExact(w, w', reply.category);
        NewParentFits(ParentsOf(w.table), newId, reply.category.fields.parent);
      }
    case Deletion(id, books) => DeletionKeepsForest(w, id, books);
    case LookUp(id) => GetByIDPlain(w, id);
    case LookUpName(name) => GetByNamePlain(w, name);
  }

  lemma NewParentFits(p: Parents, c: Node, parent: Option<Node>)
    requires Forest(p) && c !in p
    ensures Fits(p, c, parent) <==> (parent.Some? ==> parent.value in p)
  {
    if parent.Some? && parent.value in p && Reaches(p, parent.value, c) { TrappedReaches(p, p.Keys, parent.value, c); }
  }

  /** A deletion keeps the forest whatever the cache holds: the children are counted in the table. */
  lemma DeletionKeepsForest(w: Store, id: Id, books: BooksAnswer)
    requires Plain(w) && Forest(ParentsOf(w.table))
    ensures Forest(ParentsOf(DeleteCategory(w, id, books).0.table))
  {
    hide Plain, Forest, CheckDeletion, RemoveCategory, Children;
    DeletionReads(w, id, books);
    var (w1, checked) := CheckDeletion(w, id, books);
    if checked.Ready? { RemovedExact(w, w1, checked.category); }
  }

  /** A move of a category under another one: it spoils the forest exactly when, as seen, the new parent's
      chain neither comes to the category nor leaves the categories, and in the table it does, or the new parent
      is gone. */
  lemma MoveKeepsForestIff(w: Store, id: Id, pid: Id)
    requires Calm(w) && Plain(w) && Forest(ParentsOf(w.table))
    ensures Forest(ParentsOf(Serve(w, Change(id, None, None, Given(pid))).table)) <==>
            !(&& Sees(w, ById(id)).Some? && NameFree(w, Sees(w, ById(id)).value.name, id)
              && !Reaches(SeenParents(w), pid, id) && !Leaves(SeenParents(w), pid)
              && (pid !in w.table || Reaches(ParentsOf(w.table), pid, id)))
  {
    hide Calm, Plain, Forest, Serve, Sees, SeenParents, Passes, Reaches, NameFree, Leaves;
    CalmRequestKeepsForestIff(w, Change(id, None, None, Given(pid)));
    PassesIff(w, id, pid);
  }

  lemma PassesIff(w: Store, id: Id, pid: Id)
    ensures Passes(w, id, Given(pid)) <==> !Reaches(SeenParents(w), pid, id) && !Leaves(SeenParents(w), pid)
  {
    var seen := SeenParents(w);
    WalkMeans(seen, pid, id);
    SelfReach(seen, pid);
    hide Walk, Reaches, SeenParents;
  }

  /** An update that names no parent writes the seen one back: it spoils the forest exactly when it goes through
      and that parent is gone from the table, or has come to be below the category there. */
  lemma KeptParentKeepsForestIff(w: Store, id: Id, name: Option<string>, description: Option<string>)
    requires Calm(w) && Plain(w) && Forest(ParentsOf(w.table))
    ensures Forest(ParentsOf(Serve(w, Change(id, name, description, Absent)).table)) <==>
            !(Intended(w, id, name, description, Absent).Some?
              && !Fits(ParentsOf(w.table), id, Sees(w, ById(id)).value.fields.parent))
  {
    hide Calm, Plain, Forest, Serve, Sees, NameObjects, NameFree, Fits;
    CalmRequestKeepsForestIff(w, Change(id, name, description, Absent));
  }

  /** A creation under a category spoils the forest exactly when the category is gone and still cached. */
  lemma CreationKeepsForestIff(w: Store, name: string, description: string, pid: Id, newId: Id)
    requires Calm(w) && Plain(w) && Forest(ParentsOf(w.table))
    requires Sees(w, ByName(name)).None? && IndexObjection(w, name, newId).None?
    ensures Forest(ParentsOf(Serve(w, Creation(name, description, Given(pid), newId)).table)) <==>
            !(pid !in w.table && Sees(w, ById(pid)).Some?)
  {
    CalmRequestKeepsForestIff(w, Creation(name, description, Given(pid), newId));
    hide Calm, Plain, Forest, Serve, Sees, IndexObjection;
  }

  // ---------- Is an update lossless? ----------

  /** From any cache: an update that names nothing leaves every row as it was, apart from its timestamp, exactly
      when it is refused, or the category is read from the database, or the cached row agrees with the table's
      apart from the timestamp. With the database up it is refused exactly when the name that it saves is not
      free. */
  lemma EmptyUpdateLosslessIff(w: Store, id: Id)
    requires Plain(w) && id in w.table
    ensures var hit := CacheGet(w, ById(id)).1;
            var (w', reply) := UpdateCategory(w, id, None, None, Absent);
            && id in w'.table
            && (w'.table == w.table[id := w.table[id].(updated := w'.table[id].updated)] <==>
                  reply.Refused? || hit.None? || hit.value.(updated := w.table[id].updated) == w.table[id])
            && (DbUp(w.turns) ==>
                  (reply.Done? <==> NameFree(w, if hit.Some? then hit.value.name else w.table[id].name, id)))
  {
    var hit := CacheGet(w, ById(id)).1;
    var (w1, found) := GetByID(w, id);
    GetByIDPlain(w, id);
    LoadedByID(w, id);
    OwnNameFree(w, id);
    hide Plain, GetByID, CacheGet, CachedTable.Update, NameFree, TableOk, DbUp;
    if found.Found? {
      assert PrepareUpdate(w, id, None, None, Absent) == (w1, Ready(found.row));
      UpdateRows(w1, found.row);
      SameNamesFree(w, w1, found.row.name, id);
    }
  }

  // ---------- Whole runs ----------

  /** The forest holds at the start and after every request. */
  ghost predicate ForestThroughout(w: Store, requests: Categories.Script)
    decreases |requests|
  {
    Forest(ParentsOf(w.table)) && (requests != [] ==> ForestThroughout(ServeFirst(w, requests), requests[1..]))
  }

  ghost predicate EveryParentFits(w: Store, requests: Categories.Script)
    decreases |requests|
  {
    requests != [] ==>
      ParentsFit(w.table, ServeFirst(w, requests).table) && EveryParentFits(ServeFirst(w, requests), requests[1..])
  }

  ghost predicate AllCalm(w: Store, requests: Categories.Script)
    decreases |requests|
  {
    requests != [] ==> Calm(w.(turns := requests[0].1)) && AllCalm(ServeFirst(w, requests), requests[1..])
  }

  ghost predicate NoneSpoils(w: Store, requests: Categories.Script)
    decreases |requests|
  {
    requests != [] ==>
      !Spoils(w.(turns := requests[0].1), requests[0].0) && NoneSpoils(ServeFirst(w, requests), requests[1..])
  }

  lemma NewTurnsPlain(w: Store, turns: seq<Turn>)
    requires Plain(w)
    ensures Plain(w.(turns := turns))
  {
    SameTableOk(w, w.(turns := turns));
    hide TableOk;
  }

  /** Over every serialised run, whatever fails and whenever entries run out: the categories are a forest all
      along exactly when every parent that is written exists in the table and is not below its category there. */
  lemma {:induction false} ForestIffEveryParentFits(w: Store, requests: Categories.Script)
    requires Plain(w) && Forest(ParentsOf(w.table))
    ensures ForestThroughout(w, requests) <==> EveryParentFits(w, requests)
    decreases |requests|
  {
    hide Plain, Forest, ParentsFit, Serve;
    if requests != [] {
      NewTurnsPlain(w, requests[0].1);
      ServeKeepsForestIff(w.(turns := requests[0].1), requests[0].0);
      var w1 := ServeFirst(w, requests);
      if Forest(ParentsOf(w1.table)) {
        ForestIffEveryParentFits(w1, requests[1..]);
      } else {
        assert !ForestThroughout(w1, requests[1..]);
      }
    }
  }

  /** Over every run of calm requests: the categories are a forest all along exactly when no request spoils it,
      which can be told before the request from the table and the cache. */
  lemma {:induction false} ForestIffNoneSpoils(w: Store, requests: Categories.Script)
    requires Plain(w) && Forest(ParentsOf(w.table)) && AllCalm(w, requests)
    ensures ForestThroughout(w, requests) <==> NoneSpoils(w, requests)
    decreases |requests|
  {
    hide Plain, Calm, Forest, Spoils, Serve, ParentsFit;
    if requests != [] {
      var w0 := w.(turns := requests[0].1);
      NewTurnsPlain(w, requests[0].1);
      ServeKeepsForestIff(w0, requests[0].0);
      CalmRequestKeepsForestIff(w0, requests[0].0);
      var w1 := ServeFirst(w, requests);
      if Forest(ParentsOf(w1.table)) {
        ForestIffNoneSpoils(w1, requests[1..]);
      } else {
        assert !ForestThroughout(w1, requests[1..]);
      }
    }
  }

  /** A run that leaves nothing in the cache of what it moves or removes keeps the forest, whatever else fails. */
  lemma {:induction false} DroppedKeepForest(w: Store, requests: Categories.Script)
    requires Tied(w) && Forest(ParentsOf(w.table)) && AllDropped(w, requests)
    ensures ForestThroughout(w, requests)
    decreases |requests|
  {
    if requests != [] {
      FirstKeepsForest(w, requests);
      var w1 := ServeFirst(w, requests);
      hide ServeFirst, Forest, TableOk, ParentsAgree, Dropped;
      if |requests| > 1 {
        DroppedKeepForest(w1, requests[1..]);
      } else {
        assert ForestThroughout(w1, []);
      }
    }
  }

  lemma {:induction false} ForestAtEnd(w: Store, requests: Categories.Script)
    requires ForestThroughout(w, requests)
    ensures Forest(ParentsOf(ServeAll(w, requests).table))
    decreases |requests|
  {
    hide Forest, ServeFirst;
    if requests != [] { ForestAtEnd(ServeFirst(w, requests), requests[1..]); }
  }

  /** Serialised requests from a forest and an empty cache. The live categories are a forest all along
      - exactly when every parent that is written exists and is not below its category in the table,
      - so, when the requests are calm, exactly when none of them spoils the forest,
      - and always when nothing is left in the cache of what is moved or removed.
      Then no chain of parents comes back, every parent is live, every chain ends at a root in fewer steps than
      there are categories, and the roots and all children together are all the categories. */
  lemma {:induction false} HierarchyStaysForest(table: map<Id, Category>, now: real, requests: Categories.Script)
    requires TableOk(CachedTable.Empty(table, now)) && Forest(ParentsOf(table))
    ensures var w := CachedTable.Empty(table, now);
            && (ForestThroughout(w, requests) <==> EveryParentFits(w, requests))
            && (AllCalm(w, requests) ==> (ForestThroughout(w, requests) <==> NoneSpoils(w, requests)))
            && (AllDropped(w, requests) ==> ForestThroughout(w, requests))
            && (ForestThroughout(w, requests) ==>
                  var p := ParentsOf(ServeAll(w, requests).table);
                  && Forest(p)
                  && (forall a <- p :: RootWithin(p, a, |p|))
                  && |p| == |Roots(p)| + SumOfChildren(p, p.Keys))
  {
    var w := CachedTable.Empty(table, now);
    assert Plain(w) && Tied(w) && w.table == table;
    hide *;
    ForestIffEveryParentFits(w, requests);
    if AllCalm(w, requests) { ForestIffNoneSpoils(w, requests); }
    if AllDropped(w, requests) { DroppedKeepForest(w, requests); }
    if ForestThroughout(w, requests) {
      ForestAtEnd(w, requests);
      ForestShape(ParentsOf(ServeAll(w, requests).table));
    }
  }

  // ---------- How it comes about ----------

  /** A turn whose call to delete a cache key fails, and nothing else. */
  const STUCK := Turn(0.0, true, true, true, false)
  const ALL_STUCK := [STUCK, STUCK, STUCK, STUCK, STUCK, STUCK, STUCK, STUCK]

  function Root(id: Id, name: string): Category {
    Row(id, name, CategoryFields("", None), 0.0, 0.0)
  }

  /** Look up two roots, then move each under the other while deletions from the cache fail. The first move
      leaves its category's entry behind, and the second one's cycle check still sees a root there. */
  lemma FailedDeletesMakeCycle()
    ensures var table := map[0 := Root(0, "a"), 1 := Root(1, "b")];
            var requests := [(LookUp(0), []), (LookUp(1), []),
                             (Change(0, None, None, Given(1)), ALL_STUCK), (Change(1, None, None, Given(0)), ALL_STUCK)];
            !Forest(ParentsOf(ServeAll(CachedTable.Empty(table, 0.0), requests).table))
  {
    var table := map[0 := Root(0, "a"), 1 := Root(1, "b")];
    var move0, move1 := (Change(0, None, None, Given(1)), ALL_STUCK), (Change(1, None, None, Given(0)), ALL_STUCK);
    var w0 := CachedTable.Empty(table, 0.0);
    var w1 := w0.(cache := map[ById(0) := Entry(table[0], TTL)]);
    var w2 := w0.(cache := map[ById(0) := Entry(table[0], TTL), ById(1) := Entry(table[1], TTL)]);
    hide Serve, NameFree, ParentsOf, Forest, Plain, Calm, Sees;
    ServedFirst(w0, (LookUp(0), []), [(LookUp(1), []), move0, move1]);
    LookedUp(w0, 0);
    ServedFirst(w1, (LookUp(1), []), [move0, move1]);
    LookedUp(w1, 1);
    ServedFirst(w2, move0, [move1]);
    OwnNameFree(w2, 0);
    StuckMove(w2, 0, 1);
    var w3 := Serve(w2.(turns := ALL_STUCK), move0.0).(turns := ALL_STUCK);
    ServedFirst(Serve(w2.(turns := ALL_STUCK), move0.0), move1, []);
    MovedRootsSpoil(w3, table);
  }

  /** Two roots, the first of which has been moved under the second and is still cached as a root. */
  lemma MovedRootsSpoil(w: Store, table: map<Id, Category>)
    requires table == map[0 := Root(0, "a"), 1 := Root(1, "b")] && w.turns == ALL_STUCK && w.now == 0.0
    requires w.dead == map[] && w.cache == map[ById(0) := Entry(table[0], TTL), ById(1) := Entry(table[1], TTL)]
    requires w.table == table[0 := table[0].(fields := CategoryFields("", Some(1)), updated := 0.0)]
    ensures !Forest(ParentsOf(Serve(w, Change(1, None, None, Given(0))).table))
  {
    hide Serve, Forest, Reaches, Leaves, SeenParents, Calm, Plain, ParentsOf;
    TwoParents(w.table);
    OneUnderOther();
    MovedRootsView(w, table);
    SeenRootIsClear(w);
    MoveKeepsForestIff(w, 1, 0);
  }

  lemma TwoParents(table: map<Id, Category>)
    requires table.Keys == {0, 1} && table[0].fields.parent == Some(1) && table[1].fields.parent.None?
    ensures ParentsOf(table) == map[0 := Some(1), 1 := None]
  {
  }

  lemma OneUnderOther()
    ensures Forest(map[0 := Some(1), 1 := None]) && Reaches(map[0 := Some(1), 1 := None], 0, 1)
  {
    var roots: Parents := map[0 := None, 1 := None];
    var p: Parents := map[0 := Some(1), 1 := None];
    RootReachesNothing(roots, 1, 0);
    PutKeepsForestIff(roots, 0, Some(1));
    assert roots[0 := Some(1)] == p;
    assert Up(p, 0, 1) == Up(p, 1, 0) == Some(1);
  }

  lemma MovedRootsView(w: Store, table: map<Id, Category>)
    requires table == map[0 := Root(0, "a"), 1 := Root(1, "b")] && w.turns == ALL_STUCK && w.now == 0.0
    requires w.dead == map[] && w.cache == map[ById(0) := Entry(table[0], TTL), ById(1) := Entry(table[1], TTL)]
    requires w.table == table[0 := table[0].(fields := CategoryFields("", Some(1)), updated := 0.0)]
    ensures Calm(w) && Plain(w) && NameFree(w, "b", 1)
    ensures Sees(w, ById(0)) == Some(table[0]) && Sees(w, ById(1)) == Some(table[1])
  {
    StuckLasts();
    OwnNameFree(w, 1);
    hide Named, NameFree;
  }

  /** A root, as seen: its chain ends there. */
  lemma SeenRootIsClear(w: Store)
    requires Sees(w, ById(0)).Some? && Sees(w, ById(0)).value.fields.parent.None?
    ensures !Reaches(SeenParents(w), 0, 1) && !Leaves(SeenParents(w), 0)
  {
    var seen := SeenParents(w);
    SeenAt(w, 0);
    hide SeenParents;
    assert Traps(seen, {0});
    forall x | Reaches(seen, 0, x) ensures x == 0 { TrappedReaches(seen, {0}, 0, x); }
  }

  lemma StuckLasts()
    ensures Duration(ALL_STUCK) == 0.0 && DbUp(ALL_STUCK) && CacheUp(ALL_STUCK)
  {
    StillTurns(ALL_STUCK);
  }

  lemma {:induction false} StillTurns(turns: seq<Turn>)
    requires forall t <- turns :: t.wait == 0.0
    ensures Duration(turns) == 0.0
  {
    if turns != [] { StillTurns(turns[1..]); }
  }

  /** Look up a category, delete it while deletions from the cache fail, then create one under it: the new
      category's parent does not exist. */
  lemma FailedDeletesLeaveDanglingParent()
    ensures var requests := [(LookUp(0), []), (Deletion(0, Unused), ALL_STUCK), (Creation("b", "", Given(0), 1), [])];
            var end := ServeAll(CachedTable.Empty(map[0 := Root(0, "a")], 0.0), requests).table;
            !Closed(ParentsOf(end)) && !Forest(ParentsOf(end)) && end.Keys == {1}
  {
    var table := map[0 := Root(0, "a")];
    var deletion, creation := (Deletion(0, Unused), ALL_STUCK), (Creation("b", "", Given(0), 1), []);
    var w0 := CachedTable.Empty(table, 0.0);
    var w1 := w0.(cache := map[ById(0) := Entry(table[0], TTL)]);
    hide Serve, ParentsOf, Forest, Closed;
    ServedFirst(w0, (LookUp(0), []), [deletion, creation]);
    LookedUp(w0, 0);
    ServedFirst(w1, deletion, [creation]);
    StuckDeletion(w1, table);
    var w2 := Serve(w1.(turns := ALL_STUCK), deletion.0);
    ServedFirst(w2, creation, []);
    CreatedUnderGone(w2.(turns := []), table);
  }

  lemma StuckDeletion(w: Store, table: map<Id, Category>)
    requires table == map[0 := Root(0, "a")] && w.table == table && w.now == 0.0
    requires w.cache == map[ById(0) := Entry(table[0], TTL)] && w.dead == map[]
    ensures var w' := Serve(w.(turns := ALL_STUCK), Deletion(0, Unused));
            w'.table == map[] && w'.dead == table && w'.cache == w.cache && w'.now == 0.0
  {
    StuckDeletionCheck(w, table);
    StuckDrop(w, table[0]);
    hide CheckDeletion, Drop;
  }

  lemma StuckDeletionCheck(w: Store, table: map<Id, Category>)
    requires table == map[0 := Root(0, "a")] && w.table == table && w.now == 0.0
    requires w.cache == map[ById(0) := Entry(table[0], TTL)]
    ensures CheckDeletion(w.(turns := ALL_STUCK), 0, Unused) == (w.(turns := ALL_STUCK[4..]), Ready(table[0]))
  {
    assert Children(ParentsOf(table), 0) == {};
    hide Children, ParentsOf;
  }

  lemma StuckDrop(w: Store, row: Category)
    requires row.id in w.table
    ensures var (w', ok) := Drop(w.(turns := ALL_STUCK[4..]), row);
            && ok && w'.table == w.table - {row.id} && w'.dead == w.dead[row.id := w.table[row.id]]
            && w'.cache == w.cache && w'.now == w.now
  {
  }

  lemma CreatedUnderGone(w: Store, table: map<Id, Category>)
    requires table == map[0 := Root(0, "a")] && w.table == map[] && w.now == 0.0 && w.turns == []
    requires w.cache == map[ById(0) := Entry(table[0], TTL)] && w.dead == table
    ensures var end := Serve(w, Creation("b", "", Given(0), 1)).table;
            !Closed(ParentsOf(end)) && !Forest(ParentsOf(end)) && end.Keys == {1}
  {
    assert Calm(w) && Plain(w);
    assert Holders(w.table, "b") == {} && Holders(w.dead, "b") == {};
    assert Sees(w, ByName("b")).None? && Sees(w, ById(0)) == Some(table[0]);
    CreateWritesIntended(w, "b", "", Given(0), 1);
    var end := Serve(w, Creation("b", "", Given(0), 1)).table;
    assert end.Keys == {1} && ParentsOf(end) == map[1 := Some(0)];
    hide CreateCategory, Calm, Plain;
  }

  lemma ServedFirst(w: Store, first: (Categories.Request, seq<Turn>), rest: Categories.Script)
    ensures ServeAll(w, [first] + rest) == ServeAll(Serve(w.(turns := first.1), first.0), rest)
    ensures ServeAll(w, []) == w
  {
    assert ([first] + rest)[1..] == rest;
    hide Serve;
  }

  lemma LookedUp(w: Store, id: Id)
    requires id in w.table && ById(id) !in w.cache
    ensures Serve(w.(turns := []), LookUp(id))
            == w.(turns := [], cache := w.cache[ById(id) := Entry(w.table[id], w.now + TTL)])
  {
  }

  /** A move between two categories that are cached as roots, with every deletion from the cache failing. */
  lemma StuckMove(w: Store, id: Id, pid: Id)
    requires id in w.table && id != pid && Live(w, ById(id)) && Live(w, ById(pid))
    requires w.cache[ById(id)].row == w.table[id] && w.table[id].id == id
    requires w.cache[ById(pid)].row.id == pid && w.cache[ById(pid)].row.fields.parent.None?
    requires NameFree(w, w.table[id].name, id)
    ensures var w' := Serve(w.(turns := ALL_STUCK), Change(id, None, None, Given(pid)));
            && w'.table == w.table[id := w.table[id].(fields := w.table[id].fields.(parent := Some(pid)), updated := w.now)]
            && w'.cache == w.cache && w'.now == w.now && w'.dead == w.dead - {id}
  {
    var row := w.table[id].(fields := w.table[id].fields.(parent := Some(pid)));
    StuckCheck(w, id, pid);
    StuckSave(w, row);
    hide PrepareUpdate, SaveCategory, NameFree;
  }

  /** All its lookups are served from the cache. */
  lemma StuckCheck(w: Store, id: Id, pid: Id)
    requires id != pid && Live(w, ById(id)) && Live(w, ById(pid))
    requires w.cache[ById(pid)].row.id == pid && w.cache[ById(pid)].row.fields.parent.None?
    ensures var row := w.cache[ById(id)].row;
            PrepareUpdate(w.(turns := ALL_STUCK), id, None, None, Given(pid))
            == (w.(turns := ALL_STUCK[3..]), Ready(row.(fields := row.fields.(parent := Some(pid)))))
  {
  }

  lemma StuckSave(w: Store, row: Category)
    requires row.id in w.table && NameFree(w, row.name, row.id) && row.name == w.table[row.id].name
    ensures var (w', reply) := SaveCategory(w.(turns := ALL_STUCK[3..]), row);
            && w'.table == w.table[row.id := row.(updated := w.now)]
            && w'.cache == w.cache && w'.now == w.now && w'.dead == w.dead - {row.id}
  {
  }

  lemma RootReachesNothing(p: Parents, a: Node, b: Node)
    requires a in p && p[a].None? && a != b
    ensures !Reaches(p, a, b)
  {
  }
}

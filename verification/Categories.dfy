/** The category hierarchy: the service operations over the cached table, and why they keep a forest. */
module Categories {
  import opened Shared
  import opened CachedTable
  import opened Forests

  datatype CategoryFields = CategoryFields(description: string, parent: Option<Id>)
  type Category = Row<CategoryFields>
  type Store = World<CategoryFields>

  function ParentsOf(table: map<Id, Category>): Parents {
    map id | id in table :: table[id].fields.parent
  }

  /** A request's parent: not given, the empty string, not a UUID, or a UUID. */
  datatype ParentArg = Absent | Empty | Malformed | Given(id: Id)

  datatype Refusal =
    | CategoryNotFound | NameTaken | BadParentFormat | ParentNotFound | OwnParent | WouldCycle
    | ChainNotFound | ChainFailed | HasChildren | HasBooks | Internal

  datatype Reply = Done(category: Category) | Refused(why: Refusal)

  /** What the books table says about a category. */
  datatype BooksAnswer = Used | Unused | Unknown

  // ---------- The cycle check, through the cache ----------

  datatype Check = NoCycle | CycleFound | ChainMissing | ChainError

  /** Every id a lookup could possibly find. */
  function Known(w: Store): set<Id> {
    w.table.Keys + set k | k in w.cache && k.ById? :: k.id
  }

  lemma GetByIDKnown(w: Store, id: Id)
    ensures Known(GetByID(w, id).0) <= Known(w)
    ensures GetByID(w, id).1.Found? ==> id in Known(w)
  {
    var (w1, hit) := CacheGet(w, ById(id));
    assert Known(w1) == Known(w);
    var (w2, found) := DbFind(w1, id);
    assert Known(w2) == Known(w1);
    if hit.Some? {
      assert ById(id) in w.cache;
    } else if found.Found? {
      assert Known(CacheSet(w2, ById(id), found.row)) <= Known(w2) + {id};
    }
  }

  /** Walks up from `current`. It stops in every state, coherent or not: each step visits a new id. */
  function EnsureNoCycle(w: Store, current: Id, child: Id, visited: set<Id>): (Store, Check)
    decreases Known(w) - visited
  {
    if current == child then (w, CycleFound)
    else if current in visited then (w, NoCycle)
    else
      var (w', found) := GetByID(w, current);
      GetByIDKnown(w, current);
      match found
      case NotFound => (w', ChainMissing)
      case Failed => (w', ChainError)
      case Found(category) =>
        if category.fields.parent.Some?
        then EnsureNoCycle(w', category.fields.parent.value, child, visited + {current})
        else (w', NoCycle)
  }

  function Meaning(v: Verdict): Check {
    match v case Cycle => CycleFound case Missing => ChainMissing case Clear => NoCycle
  }

  // ---------- Operations ----------

  datatype Placed = Place(parent: Option<Id>) | NoPlace(why: Refusal)

  /** A creation up to its write: check the name, find the parent. */
  function PlaceCategory(w: Store, name: string, parent: ParentArg): (Store, Placed) {
    var (w1, existing) := GetByName(w, name);
    if existing.Found? then (w1, NoPlace(NameTaken))
    else
      match parent
      case Malformed => (w1, NoPlace(BadParentFormat))
      case Given(id) =>
        var (w2, found) := GetByID(w1, id);
        if found.NotFound? then (w2, NoPlace(ParentNotFound))
        else if found.Failed? then (w2, NoPlace(Internal))
        else (w2, Place(Some(found.row.id)))
      case _ => (w1, Place(None))
  }

  function CreateCategory(w: Store, name: string, description: string, parent: ParentArg, newId: Id): (Store, Reply) {
    var (w', placed) := PlaceCategory(w, name, parent);
    if placed.NoPlace? then (w', Refused(placed.why)) else InsertCategory(w', name, description, placed.parent, newId)
  }

  function InsertCategory(w: Store, name: string, description: string, parent: Option<Id>, newId: Id): (Store, Reply) {
    var category := Row(newId, name, CategoryFields(description, parent), w.now, w.now);
    var (w', ok) := Create(w, category);
    (w', if ok then Done(category) else Refused(Internal))
  }

  /** The parent to store, after all checks, for an update of `id`. */
  function ChooseParent(w: Store, id: Id, present: Option<Id>, parent: ParentArg): (Store, Option<Refusal>, Option<Id>) {
    match parent
    case Absent => (w, None, present)
    case Empty => (w, None, None)
    case Malformed => (w, Some(BadParentFormat), None)
    case Given(pid) =>
      if pid == id then (w, Some(OwnParent), None)
      else
        var (w1, found) := GetByID(w, pid);
        if found.NotFound? then (w1, Some(ParentNotFound), None)
        else if found.Failed? then (w1, Some(Internal), None)
        else
          var (w2, check) := EnsureNoCycle(w1, pid, id, {});
          match check
          case CycleFound => (w2, Some(WouldCycle), None)
          case ChainMissing => (w2, Some(ChainNotFound), None)
          case ChainError => (w2, Some(ChainFailed), None)
          case NoCycle => (w2, None, Some(found.row.id))
  }

  function NameClash(w: Store, category: Category, name: Option<string>, id: Id): (Store, bool) {
    if name.Some? && name.value != category.name then
      var (w', existing) := GetByName(w, name.value);
      (w', existing.Found? && existing.row.id != id)
    else (w, false)
  }

  datatype Prepared = Ready(category: Category) | Rejected(why: Refusal)

  /** An update up to its write: load, check the name, settle the parent, set the fields. */
  function PrepareUpdate(w: Store, id: Id, name: Option<string>, description: Option<string>, parent: ParentArg)
    : (Store, Prepared)
  {
    var (w1, found) := GetByID(w, id);
    match found
    case NotFound => (w1, Rejected(CategoryNotFound))
    case Failed => (w1, Rejected(Internal))
    case Found(category) =>
      var (w2, clash) := NameClash(w1, category, name, id);
      if clash then (w2, Rejected(NameTaken))
      else
        var (w3, refusal, newParent) := ChooseParent(w2, id, category.fields.parent, parent);
        if refusal.Some? then (w3, Rejected(refusal.value))
        else
          var fields := CategoryFields(Or(description, category.fields.description), newParent);
          (w3, Ready(category.(name := Or(name, category.name), fields := fields)))
  }

  function UpdateCategory(w: Store, id: Id, name: Option<string>, description: Option<string>, parent: ParentArg)
    : (Store, Reply)
  {
    var (w', prepared) := PrepareUpdate(w, id, name, description, parent);
    if prepared.Rejected? then (w', Refused(prepared.why)) else SaveCategory(w', prepared.category)
  }

  function SaveCategory(w: Store, category: Category): (Store, Reply) {
    var (w', ok) := Update(w, category);
    if ok && category.id in w'.table then (w', Done(w'.table[category.id])) else (w', Refused(Internal))
  }

  /** A deletion up to its write: load twice, as the service and the repository do, count the children and ask
      for books. */
  function CheckDeletion(w: Store, id: Id, books: BooksAnswer): (Store, Prepared) {
    var (w1, found) := GetByID(w, id);
    match found
    case NotFound => (w1, Rejected(CategoryNotFound))
    case Failed => (w1, Rejected(Internal))
    case Found(_) =>
      var (w2, again) := GetByID(w1, id);
      if !again.Found? then (w2, Rejected(Internal))
      else
        var (w3, objection) := CheckUnused(w2, id, books);
        (w3, if objection.Some? then Rejected(objection.value) else Ready(again.row.(id := id)))
  }

  function CheckUnused(w: Store, id: Id, books: BooksAnswer): (Store, Option<Refusal>) {
    var (w1, counting) := Tick(w);
    if !counting.db then (w1, Some(Internal))
    else if Children(ParentsOf(w1.table), id) != {} then (w1, Some(HasChildren))
    else
      var w2 := Tick(w1).0;
      (w2, match books case Unknown => Some(Internal) case Used => Some(HasBooks) case Unused => None)
  }

  function RemoveCategory(w: Store, category: Category): (Store, Option<Refusal>) {
    var (w', ok) := Drop(w, category);
    (w', if ok then None else Some(Internal))
  }

  function DeleteCategory(w: Store, id: Id, books: BooksAnswer): (Store, Option<Refusal>) {
    var (w', checked) := CheckDeletion(w, id, books);
    if checked.Rejected? then (w', Some(checked.why)) else RemoveCategory(w', checked.category)
  }

  // ---------- Every request keeps the forest ----------

  /** What the forest needs of the cache: each unexpired entry under an id has the parent that the live row
      has. Its other columns may be out of date. */
  ghost predicate ParentsAgree(w: Store) {
    forall id :: Live(w, ById(id)) ==>
      var row := w.cache[ById(id)].row;
      id in w.table && row.id == id && row.fields.parent == w.table[id].fields.parent
  }

  ghost predicate Tied(w: Store) {
    TableOk(w) && ParentsAgree(w)
  }

  /** What reading keeps. */
  ghost predicate Held(w: Store, w': Store) {
    && Tied(w') && w'.table == w.table && w'.dead == w.dead
    && (DbUp(w.turns) ==> DbUp(w'.turns))
  }

  lemma FullyCoherentIsTied(w: Store)
    requires Inv(w)
    ensures Tied(w)
  {
  }

  lemma TickTied(w: Store)
    requires Tied(w)
    ensures Held(w, Tick(w).0)
  {
  }

  lemma CacheSetTied(w: Store, k: Key, row: Category)
    requires Tied(w) && !k.Listing? && (k.ById? ==> k.id == row.id && InTable(w, row))
    ensures Held(w, CacheSet(w, k, row))
  {
    TickTied(w);
    var (w0, t) := Tick(w);
    var w' := CacheSet(w, k, row);
    if t.put {
      assert w'.cache[k].row == row;
      assert forall j :: j != k && Live(w', j) ==> Live(w0, j) && w'.cache[j] == w0.cache[j];
    }
    hide TableOk, Tick, CacheSet;
  }

  lemma ReadParent(w: Store, id: Id)
    requires Tied(w)
    ensures var (w', found) := GetByID(w, id);
            && Held(w, w')
            && (found.NotFound? ==> id !in w.table)
            && (found.Found? ==> id in w.table && found.row.id == id
                                 && found.row.fields.parent == w.table[id].fields.parent)
            && (DbUp(w.turns) ==> !found.Failed?)
  {
    TickTied(w);
    var (w1, hit) := CacheGet(w, ById(id));
    if hit.None? {
      TickTied(w1);
      var (w2, found) := DbFind(w1, id);
      if found.Found? { CacheSetTied(w2, ById(id), found.row); }
      hide TableOk, ParentsAgree, CacheSet;
    } else {
      assert Live(w1, ById(id));
      hide TableOk, DbFind, CacheSet;
    }
  }

  lemma ReadName(w: Store, name: string)
    requires Tied(w)
    ensures Held(w, GetByName(w, name).0)
  {
    TickTied(w);
    var (w1, hit) := CacheGet(w, ByName(name));
    if hit.None? {
      TickTied(w1);
      var (w2, found) := DbFindNamed(w1, name);
      if found.Found? { CacheSetTied(w2, ByName(name), found.row); }
    }
    hide TableOk, ParentsAgree, CacheSet, Named;
  }

  /** When the cached parents agree with the table's, the check computes the walk over the table itself,
      unless the database fails. */
  lemma {:induction false} CheckWalksTable(w: Store, current: Id, child: Id, visited: set<Id>)
    requires Tied(w)
    ensures var (w', check) := EnsureNoCycle(w, current, child, visited);
            && Held(w, w')
            && (check == Meaning(Walk(ParentsOf(w.table), current, child, visited)) || check == ChainError)
            && (DbUp(w.turns) ==> check != ChainError)
    decreases Known(w) - visited
  {
    hide Tied;
    if current != child && current !in visited {
      var (w', found) := GetByID(w, current);
      GetByIDKnown(w, current);
      ReadParent(w, current);
      if found.Found? && found.row.fields.parent.Some? {
        CheckWalksTable(w', found.row.fields.parent.value, child, visited + {current});
      }
    }
  }

  /** Why a parent cannot be set, if there is a reason. */
  ghost function ParentObjection(p: Parents, id: Id, parent: ParentArg): Option<Refusal> {
    match parent
    case Malformed => Some(BadParentFormat)
    case Given(pid) =>
      if pid == id then Some(OwnParent)
      else if pid !in p then Some(ParentNotFound)
      else if Reaches(p, pid, id) then Some(WouldCycle)
      else None
    case _ => None
  }

  function ParentAfter(present: Option<Id>, parent: ParentArg): Option<Id> {
    match parent case Given(pid) => Some(pid) case Empty => None case _ => present
  }

  /** The parent checks let through exactly the parents that keep the forest. */
  lemma ChooseParentIff(w: Store, id: Id, present: Option<Id>, parent: ParentArg)
    requires Tied(w) && Forest(ParentsOf(w.table)) && id in w.table && w.table[id].fields.parent == present
    ensures var (w', refusal, chosen) := ChooseParent(w, id, present, parent);
            var p := ParentsOf(w.table);
            && Held(w, w')
            && (DbUp(w.turns) ==> refusal == ParentObjection(p, id, parent))
            && (refusal.None? ==> ParentObjection(p, id, parent).None?
                                  && chosen == ParentAfter(present, parent) && Forest(p[id := chosen]))
  {
    hide Tied, GetByID, EnsureNoCycle, Acyclic, Closed;
    var p := ParentsOf(w.table);
    match parent
    case Absent => assert p[id := present] == p;
    case Empty => UprootKeepsForest(p, id);
    case Malformed =>
    case Given(pid) =>
      if pid != id {
        ReadParent(w, pid);
        var (w1, found) := GetByID(w, pid);
        if found.Found? {
          CheckWalksTable(w1, pid, id, {});
          ClosedWalk(p, pid, id);
          WalkMeans(p, pid, id);
          HangKeepsForestIff(p, id, pid);
        }
      }
  }

  lemma NameClashHeld(w: Store, category: Category, name: Option<string>, id: Id)
    requires Tied(w)
    ensures Held(w, NameClash(w, category, name, id).0)
  {
    hide Tied, GetByName;
    if name.Some? { ReadName(w, name.value); }
  }

  lemma PreparedKeepsForest(w: Store, id: Id, name: Option<string>, description: Option<string>, parent: ParentArg)
    requires Tied(w) && Forest(ParentsOf(w.table))
    ensures var (w', prepared) := PrepareUpdate(w, id, name, description, parent);
            && Held(w, w')
            && (prepared.Ready? ==>
                  && id in w.table && prepared.category.id == id
                  && prepared.category.fields.parent == ParentAfter(w.table[id].fields.parent, parent)
                  && Forest(ParentsOf(w.table)[id := prepared.category.fields.parent]))
  {
    hide Tied, GetByID, NameClash, ChooseParent, Forest;
    ReadParent(w, id);
    var (w1, found) := GetByID(w, id);
    if found.Found? {
      NameClashHeld(w1, found.row, name, id);
      var (w2, clash) := NameClash(w1, found.row, name, id);
      if !clash {
        ChooseParentIff(w2, id, found.row.fields.parent, parent);
        var (w3, refusal, chosen) := ChooseParent(w2, id, found.row.fields.parent, parent);
        assert refusal.None? ==> Forest(ParentsOf(w.table)[id := chosen]);
      }
    }
  }

  predicate Moved(before: map<Id, Category>, after: map<Id, Category>, id: Id)
    requires id in before
  {
    id !in after || after[id].fields.parent != before[id].fields.parent
  }

  /** Nothing is left in the cache of a category that was just moved or removed: its entry was dropped, or
      there was none. */
  ghost predicate Dropped(w: Store, w': Store) {
    forall id <- w.table :: Moved(w.table, w'.table, id) ==> !Live(w', ById(id))
  }

  /** What every request does from a state with a forest: the forest is kept in any case, and the cached
      parents go on agreeing exactly when nothing is left of what was moved or removed. */
  ghost predicate KeepsForest(w: Store, w': Store) {
    TableOk(w') && Forest(ParentsOf(w'.table)) && (ParentsAgree(w') <==> Dropped(w, w'))
  }

  lemma ReadingKeepsForest(w: Store, w': Store)
    requires Held(w, w') && Forest(ParentsOf(w.table))
    ensures KeepsForest(w, w')
  {
  }

  lemma WritingKeepsForest(w: Store, w': Store)
    requires Tied(w) && TableOk(w') && Forest(ParentsOf(w'.table))
    requires w.now <= w'.now && w'.cache.Items <= w.cache.Items
    ensures KeepsForest(w, w')
  {
    hide TableOk, Forest;
    forall id | Live(w', ById(id)) ensures Live(w, ById(id)) && w'.cache[ById(id)] == w.cache[ById(id)] {
      assert (ById(id), w'.cache[ById(id)]) in w'.cache.Items;
    }
  }

  lemma ParentsAfterWrite(table: map<Id, Category>, row: Category)
    ensures ParentsOf(table[row.id := row]) == ParentsOf(table)[row.id := row.fields.parent]
  {
  }

  lemma InsertKeepsForest(w: Store, name: string, description: string, parent: Option<Id>, newId: Id)
    requires Tied(w) && Forest(ParentsOf(w.table)) && (parent.Some? ==> parent.value in w.table)
    ensures KeepsForest(w, InsertCategory(w, name, description, parent, newId).0)
  {
    hide Create, Insertable, Forest, Tied, TableOk, KeepsForest;
    TiedTable(w);
    var category := Row(newId, name, CategoryFields(description, parent), w.now, w.now);
    var (w', ok) := Create(w, category);
    CreateRows(w, category);
    CreateTableOk(w, category);
    if ok {
      InsertedIsNew(w, category);
      ParentsAfterWrite(w.table, category);
      NewNodeKeepsForest(ParentsOf(w.table), newId, parent);
    }
    WritingKeepsForest(w, w');
  }

  lemma InsertedIsNew(w: Store, category: Category)
    requires Insertable(w, category)
    ensures category.id !in w.table
  {
  }

  lemma PlacedHeld(w: Store, name: string, parent: ParentArg)
    requires Tied(w)
    ensures var (w', placed) := PlaceCategory(w, name, parent);
            && Held(w, w')
            && (placed.Place? ==> placed.parent == (if parent.Given? then Some(parent.id) else None)
                                  && (parent.Given? ==> parent.id in w.table))
  {
    hide Tied, GetByName, GetByID;
    ReadName(w, name);
    if parent.Given? {
      var w1 := GetByName(w, name).0;
      ReadParent(w1, parent.id);
      var (w2, found) := GetByID(w1, parent.id);
      assert found.Found? ==> found.row.id == parent.id && parent.id in w.table;
    }
  }

  lemma CreateCategoryKeepsForest(w: Store, name: string, description: string, parent: ParentArg, newId: Id)
    requires Tied(w) && Forest(ParentsOf(w.table))
    ensures KeepsForest(w, CreateCategory(w, name, description, parent, newId).0)
  {
    hide Tied, PlaceCategory, InsertCategory, Forest, KeepsForest;
    PlacedHeld(w, name, parent);
    var (w1, placed) := PlaceCategory(w, name, parent);
    ReadingKeepsForest(w, w1);
    if placed.Place? {
      InsertKeepsForest(w1, name, description, placed.parent, newId);
      SameStart(w, w1, InsertCategory(w1, name, description, placed.parent, newId).0);
    }
  }

  /** Only the table matters of the state before. */
  lemma SameStart(w: Store, w1: Store, w': Store)
    requires w1.table == w.table && KeepsForest(w1, w')
    ensures KeepsForest(w, w')
  {
  }

  lemma SaveKeepsForest(w: Store, category: Category)
    requires Tied(w) && category.id in w.table && Forest(ParentsOf(w.table))
    requires Forest(ParentsOf(w.table)[category.id := category.fields.parent])
    ensures KeepsForest(w, SaveCategory(w, category).0)
  {
    hide CachedTable.Update, NameFree, Forest, Tied, TableOk, KeepsForest, ParentsOf;
    TiedTable(w);
    UpdateRows(w, category);
    var (w', ok) := Update(w, category);
    if ok { ParentsAfterWrite(w.table, category.(updated := w'.table[category.id].updated)); }
    WritingKeepsForest(w, w');
  }

  lemma UpdateCategoryKeepsForest(w: Store, id: Id, name: Option<string>, description: Option<string>, parent: ParentArg)
    requires Tied(w) && Forest(ParentsOf(w.table))
    ensures KeepsForest(w, UpdateCategory(w, id, name, description, parent).0)
  {
    hide Tied, PrepareUpdate, SaveCategory, Forest, KeepsForest;
    PreparedKeepsForest(w, id, name, description, parent);
    var (w1, prepared) := PrepareUpdate(w, id, name, description, parent);
    if prepared.Ready? {
      SaveKeepsForest(w1, prepared.category);
      SameStart(w, w1, SaveCategory(w1, prepared.category).0);
    } else {
      ReadingKeepsForest(w, w1);
    }
  }

  lemma DeletionHeld(w: Store, id: Id, books: BooksAnswer)
    requires Tied(w)
    ensures var (w', checked) := CheckDeletion(w, id, books);
            && Held(w, w')
            && (checked.Ready? ==> id in w.table && checked.category.id == id && Children(ParentsOf(w.table), id) == {})
  {
    hide Tied, GetByID, Children;
    ReadParent(w, id);
    var (w1, found) := GetByID(w, id);
    if found.Found? {
      ReadParent(w1, id);
      var (w2, again) := GetByID(w1, id);
      TickTied(w2);
      TickTied(Tick(w2).0);
    }
    hide Tick;
  }

  lemma ParentsWithout(table: map<Id, Category>, id: Id)
    ensures ParentsOf(table - {id}) == ParentsOf(table) - {id}
  {
  }

  lemma DropLeafKeepsForest(w: Store, category: Category)
    requires Tied(w) && Forest(ParentsOf(w.table)) && Children(ParentsOf(w.table), category.id) == {}
    ensures KeepsForest(w, Drop(w, category).0)
  {
    hide Drop, Forest, KeepsForest, Tied, TableOk, Children;
    TiedTable(w);
    DropRows(w, category);
    DropTableOk(w, category);
    ParentsWithout(w.table, category.id);
    RemoveLeafKeepsForest(ParentsOf(w.table), category.id);
    WritingKeepsForest(w, Drop(w, category).0);
  }

  lemma TiedTable(w: Store)
    requires Tied(w)
    ensures TableOk(w)
  {
  }

  lemma DeleteCategoryKeepsForest(w: Store, id: Id, books: BooksAnswer)
    requires Tied(w) && Forest(ParentsOf(w.table))
    ensures KeepsForest(w, DeleteCategory(w, id, books).0)
  {
    hide Tied, CheckDeletion, Drop, Forest, KeepsForest, Children;
    DeletionHeld(w, id, books);
    var (w1, checked) := CheckDeletion(w, id, books);
    ReadingKeepsForest(w, w1);
    if checked.Ready? {
      DropLeafKeepsForest(w1, checked.category);
      SameStart(w, w1, Drop(w1, checked.category).0);
    }
  }

  // ---------- Whole runs ----------

  datatype Request =
    | Creation(name: string, description: string, parent: ParentArg, newId: Id)
    | Change(id: Id, newName: Option<string>, newDescription: Option<string>, parent: ParentArg)
    | Deletion(id: Id, books: BooksAnswer)
    | LookUp(id: Id)
    | LookUpName(name: string)

  function Serve(w: Store, r: Request): Store {
    match r
    case Creation(name, description, parent, newId) => CreateCategory(w, name, description, parent, newId).0
    case Change(id, name, description, parent) => UpdateCategory(w, id, name, description, parent).0
    case Deletion(id, books) => DeleteCategory(w, id, books).0
    case LookUp(id) => GetByID(w, id).0
    case LookUpName(name) => GetByName(w, name).0
  }

  /** Requests, each with the turns of the calls it makes. */
  type Script = seq<(Request, seq<Turn>)>

  /** The first request of a script, served with its own turns. */
  function ServeFirst(w: Store, requests: Script): Store
    requires requests != []
  {
    Serve(w.(turns := requests[0].1), requests[0].0)
  }

  function ServeAll(w: Store, requests: Script): Store
    decreases |requests|
  {
    if requests == [] then w else ServeAll(ServeFirst(w, requests), requests[1..])
  }

  lemma ServeKeepsForest(w: Store, r: Request)
    requires Tied(w) && Forest(ParentsOf(w.table))
    ensures KeepsForest(w, Serve(w, r))
  {
    hide Tied, Forest, KeepsForest, GetByID, GetByName, CreateCategory, UpdateCategory, DeleteCategory;
    match r
    case Creation(name, description, parent, newId) => CreateCategoryKeepsForest(w, name, description, parent, newId);
    case Change(id, name, description, parent) => UpdateCategoryKeepsForest(w, id, name, description, parent);
    case Deletion(id, books) => DeleteCategoryKeepsForest(w, id, books);
    case LookUp(id) =>
      ReadParent(w, id);
      ReadingKeepsForest(w, GetByID(w, id).0);
    case LookUpName(name) =>
      ReadName(w, name);
      ReadingKeepsForest(w, GetByName(w, name).0);
  }

  /** A request that moves or removes a category leaves no entry of it behind for the requests after it. */
  ghost predicate AllDropped(w: Store, requests: Script)
    decreases |requests|
  {
    |requests| > 1 ==>
      Dropped(w, ServeFirst(w, requests)) && AllDropped(ServeFirst(w, requests), requests[1..])
  }

  lemma FirstKeepsForest(w: Store, requests: Script)
    requires requests != [] && Tied(w) && Forest(ParentsOf(w.table))
    ensures KeepsForest(w, ServeFirst(w, requests))
  {
    var w0 := w.(turns := requests[0].1);
    assert Tied(w0) by { assert forall k :: Live(w0, k) == Live(w, k); }
    hide Tied, KeepsForest, Serve, Forest;
    ServeKeepsForest(w0, requests[0].0);
    SameStart(w, w0, ServeFirst(w, requests));
  }

  // ---------- What each request does to the rows ----------

  /** A forest over a cache in which every entry under an id is the live row. */
  ghost predicate Sound(w: Store) {
    Inv(w) && Forest(ParentsOf(w.table))
  }

  lemma SoundIsTied(w: Store)
    requires Sound(w)
    ensures Tied(w) && TableOk(w) && Forest(ParentsOf(w.table)) && Inv(w)
  {
  }

  /** Why the request was refused, if it was. */
  function Why(reply: Reply): Option<Refusal> {
    if reply.Refused? then Some(reply.why) else None
  }

  lemma {:induction false} CheckSteady(w: Store, current: Id, child: Id, visited: set<Id>)
    requires Inv(w)
    ensures Steady(w, EnsureNoCycle(w, current, child, visited).0)
    decreases Known(w) - visited
  {
    hide Inv, GetByID;
    if current != child && current !in visited {
      GetByIDKnown(w, current);
      GetByIDSteady(w, current);
      var (w', found) := GetByID(w, current);
      if found.Found? && found.row.fields.parent.Some? {
        CheckSteady(w', found.row.fields.parent.value, child, visited + {current});
      }
    }
  }

  lemma ChooseParentSteady(w: Store, id: Id, present: Option<Id>, parent: ParentArg)
    requires Inv(w)
    ensures Steady(w, ChooseParent(w, id, present, parent).0)
  {
    hide Inv, GetByID, EnsureNoCycle;
    if parent.Given? && parent.id != id {
      GetByIDSteady(w, parent.id);
      CheckSteady(GetByID(w, parent.id).0, parent.id, id, {});
    }
  }

  /** The check of a new name: it may object only to a name that another category has, or that a rename has
      left an entry under. */
  lemma NameClashMeans(w: Store, category: Category, name: Option<string>, id: Id)
    requires Inv(w) && id in w.table && category == w.table[id]
    ensures Steady(w, NameClash(w, category, name, id).0)
    ensures DbUp(w.turns) && (name.Some? ==> !Stale(w, name.value)) ==>
              NameClash(w, category, name, id).1 == TakenByOther(w.table, Or(name, category.name), id)
  {
    OwnNameFree(w, id);
    hide Inv, GetByName, Stale;
    if name.Some? {
      GetByNameSteady(w, name.value);
      if DbUp(w.turns) && !Stale(w, name.value) { LookForOther(w, name.value, id); }
    }
  }

  /** Why an update cannot be done, if there is a reason. The unique index also covers soft-deleted rows, and
      the name check does not look there. */
  ghost function UpdateObjection(w: Store, id: Id, name: Option<string>, parent: ParentArg): Option<Refusal> {
    if id !in w.table then Some(CategoryNotFound)
    else if TakenByOther(w.table, Or(name, w.table[id].name), id) then Some(NameTaken)
    else if ParentObjection(ParentsOf(w.table), id, parent).Some? then ParentObjection(ParentsOf(w.table), id, parent)
    else if !NameFree(w, Or(name, w.table[id].name), id) then Some(Internal)
    else None
  }

  function Edited(row: Category, name: Option<string>, description: Option<string>, parent: ParentArg): Category {
    row.(name := Or(name, row.name),
         fields := CategoryFields(Or(description, row.fields.description), ParentAfter(row.fields.parent, parent)))
  }

  lemma PrepareEffect(w: Store, id: Id, name: Option<string>, description: Option<string>, parent: ParentArg)
    requires Sound(w)
    ensures var (w', prepared) := PrepareUpdate(w, id, name, description, parent);
            && Steady(w, w')
            && (prepared.Ready? ==>
                  && id in w.table && prepared.category == Edited(w.table[id], name, description, parent)
                  && prepared.category.id == id
                  && ParentObjection(ParentsOf(w.table), id, parent).None?)
            && (DbUp(w.turns) && (name.Some? ==> !Stale(w, name.value)) ==>
                  match prepared
                  case Ready(_) => !TakenByOther(w.table, Or(name, w.table[id].name), id)
                  case Rejected(why) => UpdateObjection(w, id, name, parent) == Some(why))
  {
    hide Inv, Sound, Tied, TableOk, GetByID, NameClash, ChooseParent, Forest, Stale, TakenByOther, NameFree,
         ParentObjection, ParentsOf, DbUp, DeletesLand;
    SoundIsTied(w);
    ReadByID(w, id);
    var (w1, found) := GetByID(w, id);
    if found.Found? {
      FullyCoherentIsTied(w1);
      if name.Some? { GetByIDLeavesNames(w, id, name.value); }
      NameClashMeans(w1, found.row, name, id);
      var (w2, clash) := NameClash(w1, found.row, name, id);
      if !clash {
        FullyCoherentIsTied(w2);
        ChooseParentSteady(w2, id, found.row.fields.parent, parent);
        ChooseParentIff(w2, id, found.row.fields.parent, parent);
        ParentsObject(ParentsOf(w.table), id, parent);
      }
    }
  }

  lemma ParentsObject(p: Parents, id: Id, parent: ParentArg)
    ensures ParentObjection(p, id, parent) != Some(Internal)
  {
  }

  lemma SaveEffect(w: Store, category: Category)
    requires Inv(w) && category.id in w.table
    ensures var (w', reply) := SaveCategory(w, category);
            && (DeletesLand(w.turns) ==> Inv(w'))
            && (reply.Refused? ==> reply.why == Internal && w'.table == w.table)
            && (reply.Done? ==>
                  && category.id in w'.table && reply.category == w'.table[category.id]
                  && w'.table[category.id] == category.(updated := w'.table[category.id].updated)
                  && w.now <= w'.table[category.id].updated
                  && w'.table == w.table[category.id := w'.table[category.id]]
                  && NameFree(w, category.name, category.id))
            && (DbUp(w.turns) && NameFree(w, category.name, category.id) ==> reply.Done?)
  {
    hide Inv, CachedTable.Update, NameFree;
    UpdateRows(w, category);
    if DeletesLand(w.turns) { UpdateKeeps(w, category); }
  }

  lemma FreeIsNotTaken(w: Store, name: string, id: Id)
    requires NameFree(w, name, id)
    ensures !TakenByOther(w.table, name, id)
  {
  }

  /** The effect of an update: nothing when it is refused; when it is done, one row, its named fields
      replaced, the others as they were in the table, and the time of writing. It is done only if nothing
      speaks against it; with the database up and no stale entry under the new name, that is when it is
      done, and else the reply says what speaks against it. */
  lemma {:induction false} UpdateCategoryEffect(w: Store, id: Id, name: Option<string>, description: Option<string>,
                                                parent: ParentArg)
    requires Sound(w)
    ensures var (w', reply) := UpdateCategory(w, id, name, description, parent);
            && Forest(ParentsOf(w'.table)) && (DeletesLand(w.turns) ==> Inv(w'))
            && (reply.Refused? ==> w'.table == w.table)
            && (reply.Done? ==>
                  && id in w.table && id in w'.table && reply.category == w'.table[id]
                  && w'.table == w.table[id := w'.table[id]]
                  && var before, after := w.table[id], w'.table[id];
                     && after.id == id && after.created == before.created && w.now <= after.updated
                     && after.name == (if name.Some? then name.value else before.name)
                     && after.fields.description ==
                          (if description.Some? then description.value else before.fields.description)
                     && after.fields.parent == (match parent case Given(pid) => Some(pid)
                                                             case Empty => None
                                                             case _ => before.fields.parent))
            && (reply.Done? ==> UpdateObjection(w, id, name, parent).None?)
            && (DbUp(w.turns) && (name.Some? ==> !Stale(w, name.value)) ==>
                  Why(reply) == UpdateObjection(w, id, name, parent))
  {
    hide Sound, Inv, Forest, UpdateCategory, UpdateObjection, Stale, TableOk, ParentsAgree;
    SoundIsTied(w);
    UpdateCategoryKeepsForest(w, id, name, description, parent);
    WrittenRow(w, id, name, description, parent);
  }

  lemma WrittenRow(w: Store, id: Id, name: Option<string>, description: Option<string>, parent: ParentArg)
    requires Sound(w)
    ensures var (w', reply) := UpdateCategory(w, id, name, description, parent);
            && (DeletesLand(w.turns) ==> Inv(w'))
            && (reply.Refused? ==> w'.table == w.table)
            && (reply.Done? ==>
                  && id in w.table && w.table[id].id == id && id in w'.table && reply.category == w'.table[id]
                  && w'.table[id] == Edited(w.table[id], name, description, parent).(updated := w'.table[id].updated)
                  && w.now <= w'.table[id].updated
                  && w'.table == w.table[id := w'.table[id]]
                  && UpdateObjection(w, id, name, parent).None?)
            && (DbUp(w.turns) && (name.Some? ==> !Stale(w, name.value)) ==>
                  Why(reply) == UpdateObjection(w, id, name, parent))
  {
    hide Sound, Inv, PrepareUpdate, SaveCategory, ParentsOf, NameFree, TakenByOther, ParentObjection, Stale, ParentAfter;
    PrepareEffect(w, id, name, description, parent);
    var (w1, prepared) := PrepareUpdate(w, id, name, description, parent);
    if prepared.Ready? {
      SteadyIsInv(w, w1);
      SaveEffect(w1, prepared.category);
      SameNamesFree(w, w1, prepared.category.name, id);
      if NameFree(w, prepared.category.name, id) { FreeIsNotTaken(w, prepared.category.name, id); }
      var reply := SaveCategory(w1, prepared.category).1;
      if DbUp(w.turns) && (name.Some? ==> !Stale(w, name.value)) {
        assert UpdateObjection(w, id, name, parent) ==
                 if NameFree(w, prepared.category.name, id) then None else Some(Internal);
      }
    }
  }

  lemma SteadyIsInv(w: Store, w1: Store)
    requires Steady(w, w1)
    ensures Inv(w1)
  {
  }

  lemma SameNamesFree(w: Store, w': Store, name: string, id: Id)
    requires w'.table == w.table && w'.dead == w.dead
    ensures NameFree(w', name, id) == NameFree(w, name, id)
  {
  }

  /** Why a category cannot be created, if there is a reason. */
  function CreateObjection(w: Store, name: string, parent: ParentArg, newId: Id): Option<Refusal> {
    if Holders(w.table, name) != {} then Some(NameTaken)
    else match parent
         case Malformed => Some(BadParentFormat)
         case Given(id) => if id !in w.table then Some(ParentNotFound) else IndexObjection(w, name, newId)
         case _ => IndexObjection(w, name, newId)
  }

  function IndexObjection(w: Store, name: string, newId: Id): Option<Refusal> {
    if newId !in w.table && newId !in w.dead && NameFree(w, name, newId) then None else Some(Internal)
  }

  /** The effect of a creation: nothing when it is refused; when it is done, one new row with what was asked
      for, under a live parent. It is done only if nothing speaks against it, and with the database up and no
      stale entry under the name exactly then. */
  lemma {:induction false} CreateCategoryEffect(w: Store, name: string, description: string, parent: ParentArg, newId: Id)
    requires Sound(w)
    ensures var (w', reply) := CreateCategory(w, name, description, parent, newId);
            && Sound(w')
            && (reply.Refused? ==> w'.table == w.table)
            && (reply.Done? ==>
                  && newId !in w.table && w'.table == w.table[newId := reply.category]
                  && reply.category.id == newId && reply.category.name == name
                  && !parent.Malformed? && (parent.Given? ==> parent.id in w.table)
                  && reply.category.fields == CategoryFields(description, if parent.Given? then Some(parent.id) else None)
                  && w.now <= reply.category.created == reply.category.updated <= w'.now)
            && (reply.Done? ==> CreateObjection(w, name, parent, newId).None?)
            && (DbUp(w.turns) && !Stale(w, name) ==> Why(reply) == CreateObjection(w, name, parent, newId))
            && (reply == Refused(NameTaken) ==> Holders(w.table, name) != {} || Stale(w, name))
  {
    hide Inv, TableOk, Tied, Dropped, ParentsAgree, PlaceCategory, InsertCategory, Forest, Stale, Holders,
         IndexObjection, ParentsOf, DbUp;
    SoundIsTied(w);
    CreateCategoryKeepsForest(w, name, description, parent, newId);
    PlaceEffect(w, name, parent);
    var (w1, placed) := PlaceCategory(w, name, parent);
    if placed.Place? {
      InsertEffect(w1, name, description, placed.parent, newId);
      SameIndex(w, w1, name, newId);
    }
  }

  lemma PlaceEffect(w: Store, name: string, parent: ParentArg)
    requires Inv(w)
    ensures var (w', placed) := PlaceCategory(w, name, parent);
            && Steady(w, w')
            && (placed.Place? ==> !parent.Malformed? && (parent.Given? ==> parent.id in w.table)
                                  && placed.parent == (if parent.Given? then Some(parent.id) else None))
            && (placed == NoPlace(NameTaken) ==> Holders(w.table, name) != {} || Stale(w, name))
            && (DbUp(w.turns) && !Stale(w, name) ==>
                  match placed
                  case Place(_) => Holders(w.table, name) == {}
                  case NoPlace(why) => forall newId :: CreateObjection(w, name, parent, newId) == Some(why))
  {
    hide Inv, GetByName, GetByID, Stale, Holders, IndexObjection, DbUp;
    NameCheckMeans(w, name);
    var (w1, existing) := GetByName(w, name);
    if !existing.Found? && parent.Given? { ReadByID(w1, parent.id); }
  }

  lemma NameCheckMeans(w: Store, name: string)
    requires Inv(w)
    ensures var (w', existing) := GetByName(w, name);
            && Steady(w, w')
            && (existing.Found? ==> Holders(w.table, name) != {} || Stale(w, name))
            && (DbUp(w.turns) && !Stale(w, name) ==> existing.Found? == (Holders(w.table, name) != {}))
  {
    GetByNameSteady(w, name);
    GetByNameRefinesDirect(w, name);
    hide Inv, GetByName, Stale, DbUp, Holders;
  }

  lemma SameIndex(w: Store, w': Store, name: string, newId: Id)
    requires w'.table == w.table && w'.dead == w.dead
    ensures IndexObjection(w', name, newId) == IndexObjection(w, name, newId)
    ensures IndexObjection(w, name, newId).None? ==> Holders(w.table, name) == {}
  {
    if h :| h in Holders(w.table, name) && NameFree(w, name, newId) { assert h == newId; }
  }

  lemma InsertEffect(w: Store, name: string, description: string, parent: Option<Id>, newId: Id)
    requires Inv(w)
    ensures var (w', reply) := InsertCategory(w, name, description, parent, newId);
            && Inv(w')
            && (reply.Refused? ==> reply.why == Internal && w'.table == w.table)
            && (reply.Done? ==>
                  && newId !in w.table && w'.table == w.table[newId := reply.category]
                  && reply.category.id == newId && reply.category.name == name
                  && reply.category.fields == CategoryFields(description, parent)
                  && w.now == reply.category.created == reply.category.updated <= w'.now
                  && IndexObjection(w, name, newId).None?)
            && (DbUp(w.turns) ==> Why(reply) == IndexObjection(w, name, newId))
  {
    hide Inv, Create, NameFree;
    var category := Row(newId, name, CategoryFields(description, parent), w.now, w.now);
    CreateKeeps(w, category);
    CreateRows(w, category);
  }

  /** Why a category must not be deleted, if there is a reason. */
  function Objection(table: map<Id, Category>, id: Id, books: BooksAnswer): Option<Refusal> {
    if id !in table then Some(CategoryNotFound)
    else if Children(ParentsOf(table), id) != {} then Some(Refusal.HasChildren)
    else match books case Used => Some(Refusal.HasBooks) case Unknown => Some(Internal) case Unused => None
  }

  /** The effect of a deletion: one row is gone, or nothing changed; and with the database up, which it is. */
  lemma {:induction false} DeleteCategoryEffect(w: Store, id: Id, books: BooksAnswer)
    requires Sound(w)
    ensures var (w', refusal) := DeleteCategory(w, id, books);
            && Forest(ParentsOf(w'.table)) && (DeletesLand(w.turns) ==> Inv(w'))
            && w'.table == (if refusal.None? then w.table - {id} else w.table)
            && (refusal.None? ==> Objection(w.table, id, books).None?)
            && (DbUp(w.turns) ==> refusal == Objection(w.table, id, books))
  {
    hide Inv, Tied, TableOk, Dropped, ParentsAgree, CheckDeletion, Drop, Forest, ParentsOf, Children, DbUp, DeletesLand,
         Objection;
    SoundIsTied(w);
    DeleteCategoryKeepsForest(w, id, books);
    CheckDeletionEffect(w, id, books);
    var (w1, checked) := CheckDeletion(w, id, books);
    if checked.Ready? { RemoveEffect(w1, checked.category); }
  }

  lemma RemoveEffect(w: Store, category: Category)
    requires Inv(w) && InTable(w, category)
    ensures var (w', refusal) := RemoveCategory(w, category);
            && (DeletesLand(w.turns) ==> Inv(w'))
            && w'.table == (if refusal.None? then w.table - {category.id} else w.table)
            && (DbUp(w.turns) ==> refusal.None?)
  {
    hide Inv, Drop;
    DropRows(w, category);
    if DeletesLand(w.turns) { DropKeeps(w, category); }
  }

  lemma CheckDeletionEffect(w: Store, id: Id, books: BooksAnswer)
    requires Inv(w)
    ensures var (w', checked) := CheckDeletion(w, id, books);
            && Steady(w, w')
            && (checked.Ready? ==> Objection(w.table, id, books).None? && id in w.table
                                   && checked.category == w.table[id] && InTable(w', checked.category)
                                   && checked.category.id == id)
            && (DbUp(w.turns) && checked.Rejected? ==> Objection(w.table, id, books) == Some(checked.why))
  {
    hide Inv, GetByID, Children, ParentsOf;
    ReadByID(w, id);
    var (w1, found) := GetByID(w, id);
    if found.Found? {
      ReadByID(w1, id);
      var (w2, again) := GetByID(w1, id);
      if again.Found? {
        TickKeeps(w2);
        TickKeeps(Tick(w2).0);
        TicksOnward(w2);
      }
    }
  }

  lemma ServeKeepsSound(w: Store, r: Request)
    requires Sound(w) && DeletesLand(w.turns)
    ensures Sound(Serve(w, r))
  {
    hide Forest, Inv, GetByID, GetByName, CreateCategory, UpdateCategory, DeleteCategory, UpdateObjection,
         CreateObjection, Objection, Stale;
    match r
    case Creation(name, description, parent, newId) => CreateCategoryEffect(w, name, description, parent, newId);
    case Change(id, name, description, parent) => UpdateCategoryEffect(w, id, name, description, parent);
    case Deletion(id, books) => DeleteCategoryEffect(w, id, books);
    case LookUp(id) => GetByIDKeeps(w, id);
    case LookUpName(name) => GetByNameKeeps(w, name);
  }

  /** A run whose invalidations all succeed leaves nothing in the cache of what it moves or removes. */
  lemma {:induction false} LandingDeletesDrop(w: Store, requests: Script)
    requires Sound(w) && forall i :: 0 <= i < |requests| ==> DeletesLand(requests[i].1)
    ensures AllDropped(w, requests)
    decreases |requests|
  {
    if |requests| > 1 {
      var w0 := w.(turns := requests[0].1);
      NewTurns(w, requests[0].1);
      ServeKeepsSound(w0, requests[0].0);
      SoundIsTied(w);
      var w1 := ServeFirst(w, requests);
      SoundIsTied(w1);
      FirstKeepsForest(w, requests);
      hide Sound, Dropped, Forest, Inv, ServeFirst;
      LandingDeletesDrop(w1, requests[1..]);
    }
  }

  // ---------- The check is exact ----------

  /** With the database up, moving a live category under a live one is done exactly when the result is
      still a forest, and then that is the result. */
  lemma MoveDoneIffForest(w: Store, id: Id, pid: Id)
    requires Sound(w) && DbUp(w.turns) && id in w.table && pid in w.table
    ensures var (w', reply) := UpdateCategory(w, id, None, None, Given(pid));
            && (reply.Done? <==> Forest(ParentsOf(w.table)[id := Some(pid)]))
            && (reply.Done? ==> ParentsOf(w'.table) == ParentsOf(w.table)[id := Some(pid)])
            && (!reply.Done? ==> reply.why == (if pid == id then OwnParent else WouldCycle) && w'.table == w.table)
  {
    hide Sound, Inv, UpdateCategory, Forest, Reaches, NameFree, TakenByOther, UpdateObjection;
    SoundIsTied(w);
    UpdateCategoryEffect(w, id, None, None, Given(pid));
    MoveObjection(w, id, pid);
    var p := ParentsOf(w.table);
    HangKeepsForestIff(p, id, pid);
    SelfReach(p, id);
    assert Why(UpdateCategory(w, id, None, None, Given(pid)).1).None? <==> !Reaches(p, pid, id);
    assert UpdateCategory(w, id, None, None, Given(pid)).1.Done? <==> !Reaches(p, pid, id);
  }

  lemma MoveObjection(w: Store, id: Id, pid: Id)
    requires TableOk(w) && id in w.table && pid in w.table
    ensures UpdateObjection(w, id, None, Given(pid)) ==
              if pid == id then Some(OwnParent)
              else if Reaches(ParentsOf(w.table), pid, id) then Some(WouldCycle)
              else None
  {
    OwnNameFree(w, id);
    FreeIsNotTaken(w, w.table[id].name, id);
    hide NameFree, TakenByOther, Reaches;
  }

  /** Over a coherent cache, an update that names no field changes nothing but the timestamp. */
  lemma {:induction false} EmptyUpdateIsLossless(w: Store, id: Id)
    requires Sound(w) && id in w.table
    ensures var (w', reply) := UpdateCategory(w, id, None, None, Absent);
            && w'.table.Keys == w.table.Keys
            && w'.table == w.table[id := w.table[id].(updated := w'.table[id].updated)]
            && (DbUp(w.turns) ==> reply.Done?)
  {
    SoundIsTied(w);
    OwnNameFree(w, id);
    assert w.table[id].id == id;
    FreeIsNotTaken(w, w.table[id].name, id);
    UpdateCategoryEffect(w, id, None, None, Absent);
    hide Sound, Inv, UpdateCategory, Forest, NameFree, TakenByOther;
    var (w', reply) := UpdateCategory(w, id, None, None, Absent);
    if reply.Done? {
      var before, after := w.table[id], w'.table[id];
      assert after == Row(id, before.name, CategoryFields(before.fields.description, before.fields.parent),
                          before.created, after.updated);
    }
  }
}

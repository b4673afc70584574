/** Category requests that overlap: each runs its checks before the other one writes. */
module Overlaps {
  import opened Shared
  import opened CachedTable
  import opened Forests
  import opened Categories

  // ---------- Two moves ----------

  /** Two moves whose requests both run their checks before either of them saves: what each is told by its
      checks, and the state after the saves of those that were let through. */
  function OverlappingMoves(w: Store, a: Id, x: Id, c: Id, y: Id): (Store, Prepared, Prepared) {
    var (w1, first) := PrepareUpdate(w, a, None, None, Given(x));
    var (w2, second) := PrepareUpdate(w1, c, None, None, Given(y));
    var w3 := if first.Ready? then SaveCategory(w2, first.category).0 else w2;
    (if second.Ready? then SaveCategory(w3, second.category).0 else w3, first, second)
  }

  lemma MovePrepared(w: Store, id: Id, pid: Id)
    requires Sound(w) && DbUp(w.turns) && id in w.table && pid in w.table
    ensures var (w', prepared) := PrepareUpdate(w, id, None, None, Given(pid));
            && Steady(w, w')
            && (prepared.Ready? <==> !Reaches(ParentsOf(w.table), pid, id))
            && (prepared.Ready? ==>
                  var row := prepared.category;
                  row.id == id && row.name == w.table[id].name && row.fields.parent == Some(pid))
  {
    hide Inv, Forest, PrepareUpdate, Reaches, NameFree, TakenByOther, UpdateObjection;
    SoundIsTied(w);
    PrepareEffect(w, id, None, None, Given(pid));
    MoveObjection(w, id, pid);
    SelfReach(ParentsOf(w.table), id);
  }

  lemma MoveSaved(w: Store, row: Category, id: Id, pid: Id)
    requires TableOk(w) && DbUp(w.turns) && id in w.table
    requires row.id == id && row.name == w.table[id].name && row.fields.parent == Some(pid)
    ensures var w' := SaveCategory(w, row).0;
            && TableOk(w') && DbUp(w'.turns) && id in w'.table
            && w'.table == w.table[id := row.(updated := w'.table[id].updated)]
            && ParentsOf(w'.table) == ParentsOf(w.table)[id := Some(pid)]
  {
    hide CachedTable.Update, NameFree, TableOk, ParentsOf, DbUp;
    OwnNameFree(w, id);
    UpdateRows(w, row);
    ParentsAfterWrite(w.table, row.(updated := Update(w, row).0.table[id].updated));
  }

  /** Exactly when overlapping is harmless. Each move is let through when its own new parent is not below its
      category at the start, and both are saved; the result is a forest unless each of the two new parents is
      the other's category, or below it. */
  lemma {:induction false} OverlappingMovesKeepForestIff(w: Store, a: Id, x: Id, c: Id, y: Id)
    requires Sound(w) && DbUp(w.turns) && a != c
    requires a in w.table && x in w.table && c in w.table && y in w.table
    ensures var (w', first, second) := OverlappingMoves(w, a, x, c, y);
            var p := ParentsOf(w.table);
            && (first.Ready? <==> !Reaches(p, x, a)) && (second.Ready? <==> !Reaches(p, y, c))
            && ParentsOf(w'.table) == (var p1 := if first.Ready? then p[a := Some(x)] else p;
                                       if second.Ready? then p1[c := Some(y)] else p1)
            && (Forest(ParentsOf(w'.table)) <==>
                  !(first.Ready? && second.Ready? && Reaches(p, x, c) && Reaches(p, y, a)))
  {
    hide Inv, PrepareUpdate, SaveCategory, Forest, Reaches, TableOk, ParentsOf;
    SoundIsTied(w);
    var p := ParentsOf(w.table);
    MovePrepared(w, a, x);
    var (w1, first) := PrepareUpdate(w, a, None, None, Given(x));
    MovePrepared(w1, c, y);
    var (w2, second) := PrepareUpdate(w1, c, None, None, Given(y));
    SteadyIsInv(w1, w2);
    InvIsTableOk(w2);
    var w3 := if first.Ready? then SaveCategory(w2, first.category).0 else w2;
    if first.Ready? { MoveSaved(w2, first.category, a, x); }
    if second.Ready? { MoveSaved(w3, second.category, c, y); }
    InParents(w.table);
    HangKeepsForestIff(p, a, x);
    HangKeepsForestIff(p, c, y);
    if first.Ready? && second.Ready? { TwoHangsKeepForestIff(p, a, x, c, y); }
  }

  lemma InvIsTableOk(w: Store)
    requires Inv(w)
    ensures TableOk(w)
  {
  }

  lemma InParents(table: map<Id, Category>)
    ensures ParentsOf(table).Keys == table.Keys
  {
  }

  /** The smallest failure: two roots, each being moved under the other by its own request, end in a loop. */
  lemma {:induction false} InterleavedMovesMakeCycle(w: Store, a: Id, b: Id)
    requires Sound(w) && DbUp(w.turns) && a in w.table && b in w.table && a != b
    requires w.table[a].fields.parent.None? && w.table[b].fields.parent.None?
    ensures var (w', first, second) := OverlappingMoves(w, a, b, b, a);
            first.Ready? && second.Ready? && !Forest(ParentsOf(w'.table))
  {
    hide Inv, OverlappingMoves, Forest;
    var p := ParentsOf(w.table);
    OverlappingMovesKeepForestIff(w, a, b, b, a);
    RootReachesNothing(p, a, b);
    RootReachesNothing(p, b, a);
    SelfReach(p, a);
    SelfReach(p, b);
  }

  lemma RootReachesNothing(p: Parents, a: Node, b: Node)
    requires a in p && p[a].None? && a != b
    ensures !Reaches(p, a, b)
  {
  }

  lemma LoopOfTwo(p: Parents, a: Node, b: Node)
    requires a in p && b in p && p[a] == Some(b) && p[b] == Some(a)
    ensures !Forest(p)
  {
    assert Up(p, a, 2) == Up(p, b, 1) == Up(p, a, 0) == Some(a);
  }

  // ---------- A deletion with an update or a creation ----------

  /** An update and a deletion that both run their checks before either writes, and the order of the writes:
      the state after them, and which were carried out. */
  function UpdateMeetsDeletion(w: Store, a: Id, name: Option<string>, description: Option<string>, parent: ParentArg,
                               d: Id, books: BooksAnswer, updateFirst: bool): (Store, bool, bool)
  {
    var (w1, update) := PrepareUpdate(w, a, name, description, parent);
    var (w2, deletion) := CheckDeletion(w1, d, books);
    if updateFirst then
      var (w3, updated) := SaveReady(w2, update);
      var (w4, removed) := RemoveReady(w3, deletion);
      (w4, updated, removed)
    else
      var (w3, removed) := RemoveReady(w2, deletion);
      var (w4, updated) := SaveReady(w3, update);
      (w4, updated, removed)
  }

  function SaveReady(w: Store, update: Prepared): (Store, bool) {
    if update.Rejected? then (w, false)
    else
      var (w', reply) := SaveCategory(w, update.category);
      (w', reply.Done?)
  }

  function RemoveReady(w: Store, deletion: Prepared): (Store, bool) {
    if deletion.Rejected? then (w, false)
    else
      var (w', refusal) := RemoveCategory(w, deletion.category);
      (w', refusal.None?)
  }

  lemma SaveReadyRows(w: Store, update: Prepared)
    ensures var (w', done) := SaveReady(w, update);
            && ParentsOf(w'.table) == (if done then ParentsOf(w.table)[update.category.id := update.category.fields.parent]
                                       else ParentsOf(w.table))
            && (done ==> update.Ready?)
  {
    hide CachedTable.Update, NameFree, TableOk, ParentsOf;
    if update.Ready? {
      UpdateRows(w, update.category);
      var (w', ok) := Update(w, update.category);
      if ok { ParentsAfterWrite(w.table, update.category.(updated := w'.table[update.category.id].updated)); }
    }
  }

  lemma RemoveReadyRows(w: Store, deletion: Prepared)
    ensures var (w', done) := RemoveReady(w, deletion);
            && ParentsOf(w'.table) == (if done then ParentsOf(w.table) - {deletion.category.id} else ParentsOf(w.table))
            && (done ==> deletion.Ready? && (deletion.category.id in w.table ==> deletion.category.id in w'.dead)
                         && w'.table.Keys == w.table.Keys - {deletion.category.id})
            && (!done ==> w'.table == w.table)
  {
    hide Drop, ParentsOf;
    if deletion.Ready? {
      DropRows(w, deletion.category);
      ParentsWithout(w.table, deletion.category.id);
    }
  }

  /** Exactly when an overlap with a deletion is harmless: the forest is kept unless both are carried out and
      the parent that the update writes is the deleted category. The order of the writes does not matter. */
  lemma {:induction false} UpdateMeetsDeletionIff(w: Store, a: Id, name: Option<string>, description: Option<string>,
                                                  parent: ParentArg, d: Id, books: BooksAnswer, updateFirst: bool)
    requires Tied(w) && Forest(ParentsOf(w.table))
    ensures var (w', updated, removed) := UpdateMeetsDeletion(w, a, name, description, parent, d, books, updateFirst);
            Forest(ParentsOf(w'.table)) <==>
            !(updated && removed && a in w.table && ParentAfter(w.table[a].fields.parent, parent) == Some(d))
  {
    hide Tied, PrepareUpdate, CheckDeletion, SaveReady, RemoveReady, Forest, ParentsOf, Children;
    var p := ParentsOf(w.table);
    InParents(w.table);
    PreparedKeepsForest(w, a, name, description, parent);
    var (w1, update) := PrepareUpdate(w, a, name, description, parent);
    DeletionHeld(w1, d, books);
    var (w2, deletion) := CheckDeletion(w1, d, books);
    SaveReadyRows(w2, update);
    RemoveReadyRows(w2, deletion);
    SaveReadyRows(RemoveReady(w2, deletion).0, update);
    RemoveReadyRows(SaveReady(w2, update).0, deletion);
    if update.Ready? {
      PutKeepsForestIff(p, a, update.category.fields.parent);
      if deletion.Ready? { PutAndRemove(p, a, update.category.fields.parent, d); }
    }
    if deletion.Ready? { RemoveLeafKeepsForest(p, d); }
    if update.Ready? && deletion.Ready? { PutKeepsForestIff(p - {d}, a, update.category.fields.parent); }
  }

  /** A creation and a deletion, in the same way. */
  function CreationMeetsDeletion(w: Store, name: string, description: string, parent: ParentArg, newId: Id,
                                 d: Id, books: BooksAnswer, createFirst: bool): (Store, bool, bool)
  {
    var (w1, placed) := PlaceCategory(w, name, parent);
    var (w2, deletion) := CheckDeletion(w1, d, books);
    if createFirst then
      var (w3, created) := InsertPlaced(w2, name, description, placed, newId);
      var (w4, removed) := RemoveReady(w3, deletion);
      (w4, created, removed)
    else
      var (w3, removed) := RemoveReady(w2, deletion);
      var (w4, created) := InsertPlaced(w3, name, description, placed, newId);
      (w4, created, removed)
  }

  function InsertPlaced(w: Store, name: string, description: string, placed: Placed, newId: Id): (Store, bool) {
    if placed.NoPlace? then (w, false)
    else
      var (w', reply) := InsertCategory(w, name, description, placed.parent, newId);
      (w', reply.Done?)
  }

  lemma InsertPlacedRows(w: Store, name: string, description: string, placed: Placed, newId: Id)
    ensures var (w', done) := InsertPlaced(w, name, description, placed, newId);
            && ParentsOf(w'.table) == (if done then ParentsOf(w.table)[newId := placed.parent] else ParentsOf(w.table))
            && (done ==> placed.Place? && newId !in w.table && newId !in w.dead)
  {
    hide Create, NameFree, ParentsOf;
    if placed.Place? {
      var category := Row(newId, name, CategoryFields(description, placed.parent), w.now, w.now);
      CreateRows(w, category);
      ParentsAfterWrite(w.table, category);
    }
  }

  /** The forest is kept unless both are carried out and the new category's parent is the deleted one. */
  lemma {:induction false} CreationMeetsDeletionIff(w: Store, name: string, description: string, parent: ParentArg,
                                                    newId: Id, d: Id, books: BooksAnswer, createFirst: bool)
    requires Tied(w) && Forest(ParentsOf(w.table))
    ensures var (w', created, removed) :=
              CreationMeetsDeletion(w, name, description, parent, newId, d, books, createFirst);
            Forest(ParentsOf(w'.table)) <==> !(created && removed && parent == Given(d))
  {
    hide Tied, PlaceCategory, CheckDeletion, InsertPlaced, RemoveReady, Forest, ParentsOf, Children;
    var p := ParentsOf(w.table);
    PlacedHeld(w, name, parent);
    var (w1, placed) := PlaceCategory(w, name, parent);
    DeletionHeld(w1, d, books);
    var (w2, deletion) := CheckDeletion(w1, d, books);
    InsertPlacedRows(w2, name, description, placed, newId);
    RemoveReadyRows(w2, deletion);
    InsertPlacedRows(RemoveReady(w2, deletion).0, name, description, placed, newId);
    RemoveReadyRows(InsertPlaced(w2, name, description, placed, newId).0, deletion);
    InParents(w.table);
    if placed.Place? && newId !in w.table {
      NewNodeKeepsForest(p, newId, placed.parent);
      PutKeepsForestIff(p, newId, placed.parent);
      if deletion.Ready? { PutAndRemove(p, newId, placed.parent, d); }
    }
    if deletion.Ready? { RemoveLeafKeepsForest(p, d); }
  }
}

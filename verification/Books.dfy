/** The book service: read-modify-write through the cached repository, where a row's second key is its ISBN. */
module Books {
  import opened Shared
  import opened CachedTable
  import opened Lookups
  import opened Repositories

  datatype BookFields = BookFields(
    title: string, author: string, publishedYear: int, publisher: string, description: string, language: string,
    pageCount: int, status: string, coverImage: string, averageRating: real, quantity: int, available: int)

  /** `name` holds the ISBN; links to categories live in another table and are not part of the row. */
  type Book = Row<BookFields>
  type Shelf = World<BookFields>

  datatype BookUpdate = BookUpdate(
    title: Option<string>, author: Option<string>, isbn: Option<string>, publishedYear: Option<int>,
    publisher: Option<string>, description: Option<string>, language: Option<string>, pageCount: Option<int>,
    status: Option<string>, coverImage: Option<string>, quantity: Option<int>, available: Option<int>)

  const NOTHING := BookUpdate(None, None, None, None, None, None, None, None, None, None, None, None)

  datatype Refusal = BookNotFound | IsbnTaken | TooManyAvailable | BadCategories | Internal
  datatype Reply = Done(book: Book) | Refused(why: Refusal)

  /** All fields but the two counts. */
  function Describe(b: BookFields, u: BookUpdate): BookFields {
    b.(title := Or(u.title, b.title), author := Or(u.author, b.author),
       publishedYear := Or(u.publishedYear, b.publishedYear), publisher := Or(u.publisher, b.publisher),
       description := Or(u.description, b.description), language := Or(u.language, b.language),
       pageCount := Or(u.pageCount, b.pageCount), status := Or(u.status, b.status),
       coverImage := Or(u.coverImage, b.coverImage))
  }

  /** The counts. The quantity is overwritten before the difference to it is taken, so naming a quantity
      alone moves the available count by 0. */
  function Recount(b: BookFields, u: BookUpdate): Option<BookFields> {
    var b1 :=
      if u.quantity.None? then b
      else
        var b0 := b.(quantity := u.quantity.value);
        if u.available.Some? then b0
        else
          var moved := b0.available + (u.quantity.value - b0.quantity);
          b0.(available := if moved < 0 then 0 else moved);
    if u.available.None? then Some(b1)
    else if u.available.value > b1.quantity then None
    else Some(b1.(available := u.available.value))
  }

  function IsbnClash(w: Shelf, book: Book, isbn: Option<string>, id: Id): (Shelf, bool) {
    if isbn.Some? && isbn.value != book.name then
      var (w', existing) := GetByName(w, isbn.value);
      (w', existing.Found? && existing.row.id != id)
    else (w, false)
  }

  /** `linksOk` is the outcome of validating the named categories with the category service. */
  function Modify(w: Shelf, id: Id, u: BookUpdate, linksOk: bool): (Shelf, Reply) {
    var (w1, found) := GetByID(w, id);
    match found
    case NotFound => (w1, Refused(BookNotFound))
    case Failed => (w1, Refused(Internal))
    case Found(book) =>
      var (w2, clash) := IsbnClash(w1, book, u.isbn, id);
      if clash then (w2, Refused(IsbnTaken))
      else
        match Recount(Describe(book.fields, u), u)
        case None => (w2, Refused(TooManyAvailable))
        case Some(fields) =>
          if !linksOk then (w2, Refused(BadCategories))
          else Store(w2, book.(name := Or(u.isbn, book.name), fields := fields))
  }

  function Store(w: Shelf, book: Book): (Shelf, Reply) {
    var (w', ok) := Update(w, book);
    if ok && book.id in w'.table then (w', Done(w'.table[book.id])) else (w', Refused(Internal))
  }

  datatype BookCreate = BookCreate(
    title: string, author: string, isbn: string, publishedYear: int, publisher: string, description: string,
    language: string, pageCount: int, coverImage: string, quantity: int)

  function NewFields(r: BookCreate): BookFields {
    var copies := if r.quantity > 0 then r.quantity else 1;
    BookFields(r.title, r.author, r.publishedYear, r.publisher, r.description, r.language, r.pageCount,
               "available", r.coverImage, 0.0, copies, copies)
  }

  function Add(w: Shelf, r: BookCreate, newId: Id, linksOk: bool): (Shelf, Reply) {
    var (w1, existing) := if r.isbn != "" then GetByName(w, r.isbn) else (w, NotFound);
    if existing.Found? then (w1, Refused(IsbnTaken))
    else if !linksOk then (w1, Refused(BadCategories))
    else
      var book := Row(newId, r.isbn, NewFields(r), w1.now, w1.now);
      var (w', ok) := Create(w1, book);
      (w', if ok then Done(book) else Refused(Internal))
  }

  function Discard(w: Shelf, id: Id): (Shelf, Option<Refusal>) {
    var (w1, found) := GetByID(w, id);
    match found
    case NotFound => (w1, Some(BookNotFound))
    case Failed => (w1, Some(Internal))
    case Found(_) =>
      var (w2, again) := GetByID(w1, id);
      if !again.Found? then (w2, Some(Internal))
      else
        var (w3, ok) := Drop(w2, again.row.(id := id));
        (w3, if ok then None else Some(Internal))
  }

  // ---------- Read-modify-write loses nothing ----------

  lemma StoreEffect(w: Shelf, book: Book)
    requires Inv(w) && book.id in w.table
    ensures var (w', reply) := Store(w, book);
            && (DeletesLand(w.turns) ==> Inv(w'))
            && (reply.Refused? ==> reply.why == Internal && w'.table == w.table)
            && (reply.Done? ==>
                  && book.id in w'.table && reply.book == w'.table[book.id]
                  && w'.table[book.id] == book.(updated := w'.table[book.id].updated)
                  && w.now <= w'.table[book.id].updated
                  && w'.table == w.table[book.id := w'.table[book.id]]
                  && NameFree(w, book.name, book.id))
            && (DbUp(w.turns) && NameFree(w, book.name, book.id) ==> reply.Done?)
  {
    hide Inv, CachedTable.Update, NameFree;
    UpdateRows(w, book);
    if DeletesLand(w.turns) { UpdateKeeps(w, book); }
  }

  /** The check of a new ISBN: it may object only to one that another book has, or that a change of ISBN has
      left an entry under. */
  lemma IsbnClashMeans(w: Shelf, book: Book, isbn: Option<string>, id: Id)
    requires Inv(w) && id in w.table && book == w.table[id]
    ensures Steady(w, IsbnClash(w, book, isbn, id).0)
    ensures DbUp(w.turns) && (isbn.Some? ==> !Stale(w, isbn.value)) ==>
              IsbnClash(w, book, isbn, id).1 == TakenByOther(w.table, Or(isbn, book.name), id)
  {
    OwnNameFree(w, id);
    hide Inv, GetByName, Stale;
    if isbn.Some? {
      GetByNameSteady(w, isbn.value);
      if DbUp(w.turns) && !Stale(w, isbn.value) { LookForOther(w, isbn.value, id); }
    }
  }

  /** Why a change cannot be done, if there is a reason. The unique index also covers soft-deleted rows, and
      the ISBN check does not look there. */
  function Objection(w: Shelf, id: Id, u: BookUpdate, linksOk: bool): Option<Refusal> {
    if id !in w.table then Some(BookNotFound)
    else
      var isbn := Or(u.isbn, w.table[id].name);
      if TakenByOther(w.table, isbn, id) then Some(IsbnTaken)
      else if u.available.Some? && u.available.value > Or(u.quantity, w.table[id].fields.quantity)
      then Some(TooManyAvailable)
      else if !linksOk then Some(BadCategories)
      else if !NameFree(w, isbn, id) then Some(Internal)
      else None
  }

  /** Why the request was refused, if it was. */
  function Why(reply: Reply): Option<Refusal> {
    if reply.Refused? then Some(reply.why) else None
  }

  /** What a change leaves of the fields: what it names is replaced, the rest is as it was. Naming a quantity
      alone leaves the available count alone, except that a negative one becomes 0. */
  ghost function Changed(b: BookFields, u: BookUpdate): BookFields {
    BookFields(
      if u.title.Some? then u.title.value else b.title,
      if u.author.Some? then u.author.value else b.author,
      if u.publishedYear.Some? then u.publishedYear.value else b.publishedYear,
      if u.publisher.Some? then u.publisher.value else b.publisher,
      if u.description.Some? then u.description.value else b.description,
      if u.language.Some? then u.language.value else b.language,
      if u.pageCount.Some? then u.pageCount.value else b.pageCount,
      if u.status.Some? then u.status.value else b.status,
      if u.coverImage.Some? then u.coverImage.value else b.coverImage,
      b.averageRating,
      if u.quantity.Some? then u.quantity.value else b.quantity,
      if u.available.Some? then u.available.value
      else if u.quantity.Some? && b.available < 0 then 0 else b.available)
  }

  lemma RecountMeans(b: BookFields, u: BookUpdate)
    ensures Recount(Describe(b, u), u).None? <==>
            u.available.Some? && u.available.value > if u.quantity.Some? then u.quantity.value else b.quantity
    ensures Recount(Describe(b, u), u).Some? ==> Recount(Describe(b, u), u).value == Changed(b, u)
  {
  }

  /** When every entry under an id is the live row, a change that is done replaces exactly what it names in the
      table's row. (`ModifyWritesLoaded` says what it does over any cache.) It is done only if nothing speaks
      against it; with the database up and no stale entry under the new ISBN, that is when it is done, and else
      the reply says what speaks against it. */
  lemma {:induction false} ModifyEffect(w: Shelf, id: Id, u: BookUpdate, linksOk: bool)
    requires Inv(w)
    ensures var (w', reply) := Modify(w, id, u, linksOk);
            && (DeletesLand(w.turns) ==> Inv(w'))
            && (reply.Refused? ==> w'.table == w.table)
            && (reply.Done? ==>
                  && id in w.table && id in w'.table && w'.table == w.table[id := w'.table[id]]
                  && var before, after := w.table[id], w'.table[id];
                     && after.id == id && after.created == before.created && w.now <= after.updated
                     && after.name == (if u.isbn.Some? then u.isbn.value else before.name)
                     && after.fields == Changed(before.fields, u)
                     && (u.available.Some? ==> after.fields.available <= after.fields.quantity))
            && (reply.Done? ==> Objection(w, id, u, linksOk).None?)
            && (DbUp(w.turns) && (u.isbn.Some? ==> !Stale(w, u.isbn.value)) ==>
                  Why(reply) == Objection(w, id, u, linksOk))
  {
    hide Inv, GetByID, IsbnClash, Store, Recount, Describe, Stale, TakenByOther, NameFree, DbUp, DeletesLand;
    ReadByID(w, id);
    var (w1, found) := GetByID(w, id);
    if found.Found? {
      if u.isbn.Some? { GetByIDLeavesNames(w, id, u.isbn.value); }
      IsbnClashMeans(w1, found.row, u.isbn, id);
      var (w2, clash) := IsbnClash(w1, found.row, u.isbn, id);
      var fields := Recount(Describe(found.row.fields, u), u);
      RecountMeans(found.row.fields, u);
      if !clash && linksOk && fields.Some? {
        var book := found.row.(name := Or(u.isbn, found.row.name), fields := fields.value);
        StoreEffect(w2, book);
        SameNamesFree(w, w2, book.name, id);
        if DbUp(w.turns) && (u.isbn.Some? ==> !Stale(w, u.isbn.value)) {
          assert Objection(w, id, u, linksOk) == if NameFree(w, book.name, id) then None else Some(Internal);
          assert NameFree(w, book.name, id) <==> Store(w2, book).1.Done?;
        }
      }
    }
  }

  lemma SameNamesFree(w: Shelf, w': Shelf, name: string, id: Id)
    requires w'.table == w.table && w'.dead == w.dead
    ensures NameFree(w', name, id) == NameFree(w, name, id)
    ensures NameFree(w, name, id) ==> !TakenByOther(w.table, name, id)
  {
  }

  /** Over any cache: a change that is done replaces exactly what it names in the row it loaded, which is the
      cached one on a hit, and writes the result over the table's row. */
  lemma ModifyWritesLoaded(w: Shelf, id: Id, u: BookUpdate, linksOk: bool)
    requires Plain(w)
    ensures var hit := CacheGet(w, ById(id)).1;
            var (w', reply) := Modify(w, id, u, linksOk);
            && (reply.Refused? ==> w'.table == w.table)
            && (reply.Done? ==>
                  && (hit.Some? || id in w.table) && id in w'.table && w'.table == w.table[id := w'.table[id]]
                  && var loaded := if hit.Some? then hit.value else w.table[id];
                     w'.table[id] == Row(loaded.id, if u.isbn.Some? then u.isbn.value else loaded.name,
                                         Changed(loaded.fields, u), loaded.created, w'.table[id].updated))
  {
    hide Plain, GetByID, GetByName, CacheGet, CachedTable.Update, Recount, Describe, NameFree, TableOk, DbUp;
    LoadedByID(w, id);
    GetByIDPlain(w, id);
    var (w1, found) := GetByID(w, id);
    if found.Found? {
      if u.isbn.Some? { GetByNamePlain(w1, u.isbn.value); }
      var w2 := IsbnClash(w1, found.row, u.isbn, id).0;
      var fields := Recount(Describe(found.row.fields, u), u);
      RecountMeans(found.row.fields, u);
      if fields.Some? { UpdateRows(w2, found.row.(name := Or(u.isbn, found.row.name), fields := fields.value)); }
    }
  }

  /** Over any cache: an update that names no field leaves every row as it was, apart from its timestamp, exactly
      when it is refused, or the book is read from the database, or the cached row agrees with the table's apart
      from the timestamp. With the database up it is refused exactly for bad categories or when the ISBN that it
      saves is not free. */
  lemma EmptyModifyLosslessIff(w: Shelf, id: Id, linksOk: bool)
    requires Plain(w) && id in w.table
    ensures var hit := CacheGet(w, ById(id)).1;
            var (w', reply) := Modify(w, id, NOTHING, linksOk);
            && id in w'.table
            && (w'.table == w.table[id := w.table[id].(updated := w'.table[id].updated)] <==>
                  reply.Refused? || hit.None? || hit.value.(updated := w.table[id].updated) == w.table[id])
            && (DbUp(w.turns) ==>
                  (reply.Done? <==> linksOk && NameFree(w, if hit.Some? then hit.value.name else w.table[id].name, id)))
  {
    hide Plain, GetByID, CacheGet, CachedTable.Update, NameFree, TableOk, DbUp, Changed, Recount, Describe, Modify;
    ModifyWritesLoaded(w, id, NOTHING, linksOk);
    EmptyModifyOutcome(w, id, linksOk);
    var hit := CacheGet(w, ById(id)).1;
    var loaded := if hit.Some? then hit.value else w.table[id];
    ChangedByNothing(loaded.fields);
    var (w', reply) := Modify(w, id, NOTHING, linksOk);
    if reply.Done? {
      assert w'.table[id] == loaded.(updated := w'.table[id].updated);
      assert w'.table == w.table[id := loaded.(updated := w'.table[id].updated)];
    }
  }

  lemma ChangedByNothing(b: BookFields)
    ensures Changed(b, NOTHING) == b
  {
  }

  lemma EmptyModifyOutcome(w: Shelf, id: Id, linksOk: bool)
    requires Plain(w) && id in w.table
    ensures var hit := CacheGet(w, ById(id)).1;
            DbUp(w.turns) ==>
              (Modify(w, id, NOTHING, linksOk).1.Done? <==>
                 linksOk && NameFree(w, if hit.Some? then hit.value.name else w.table[id].name, id))
  {
    hide Plain, GetByID, CacheGet, CachedTable.Update, Recount, Describe, NameFree, TableOk, DbUp;
    LoadedByID(w, id);
    GetByIDPlain(w, id);
    var (w1, found) := GetByID(w, id);
    if found.Found? {
      var fields := Recount(Describe(found.row.fields, NOTHING), NOTHING);
      RecountMeans(found.row.fields, NOTHING);
      if fields.Some? {
        UpdateRows(w1, found.row.(fields := fields.value));
        SameNamesFree(w, w1, found.row.name, id);
      }
    }
  }

  /** So over a coherent cache an update that names no field leaves the stored row as it was, apart from its
      timestamp. */
  lemma {:induction false} EmptyModifyIsLossless(w: Shelf, id: Id, linksOk: bool)
    requires Inv(w) && id in w.table
    ensures var w' := Modify(w, id, NOTHING, linksOk).0;
            id in w'.table && w'.table == w.table[id := w.table[id].(updated := w'.table[id].updated)]
  {
    hide Inv, GetByID, IsbnClash, Store, Modify, Objection;
    ModifyEffect(w, id, NOTHING, linksOk);
    RowId(w, id);
  }

  lemma RowId(w: Shelf, id: Id)
    requires Inv(w) && id in w.table
    ensures w.table[id].id == id
  {
  }

  // ---------- Whole runs of the service ----------

  datatype Request =
    | Adding(book: BookCreate, newId: Id, linksOk: bool)
    | Changing(id: Id, update: BookUpdate, linksOk: bool)
    | Discarding(id: Id)
    | LookUp(id: Id)
    | LookUpIsbn(isbn: string)

  function Serve(w: Shelf, r: Request): Shelf {
    match r
    case Adding(book, newId, linksOk) => Add(w, book, newId, linksOk).0
    case Changing(id, update, linksOk) => Modify(w, id, update, linksOk).0
    case Discarding(id) => Discard(w, id).0
    case LookUp(id) => GetByID(w, id).0
    case LookUpIsbn(isbn) => GetByName(w, isbn).0
  }

  /** Requests, each with the turns of the calls it makes. */
  type Script = seq<(Request, seq<Turn>)>

  function ServeAll(w: Shelf, requests: Script): Shelf
    decreases |requests|
  {
    if requests == [] then w
    else ServeAll(Serve(w.(turns := requests[0].1), requests[0].0), requests[1..])
  }

  /** Why a book cannot be created, if there is a reason; a blank ISBN is not looked up. */
  function AddObjection(w: Shelf, r: BookCreate, newId: Id, linksOk: bool): Option<Refusal> {
    if r.isbn != "" && CachedTable.Holders(w.table, r.isbn) != {} then Some(IsbnTaken)
    else if !linksOk then Some(BadCategories)
    else if newId !in w.table && newId !in w.dead && NameFree(w, r.isbn, newId) then None
    else Some(Internal)
  }

  lemma IsbnCheckMeans(w: Shelf, isbn: string)
    requires Inv(w)
    ensures var (w', existing) := GetByName(w, isbn);
            && Steady(w, w')
            && (DbUp(w.turns) && !Stale(w, isbn) ==> existing.Found? == (CachedTable.Holders(w.table, isbn) != {}))
  {
    GetByNameSteady(w, isbn);
    GetByNameRefinesDirect(w, isbn);
    hide Inv, GetByName, Stale, DbUp, CachedTable.Holders;
  }

  /** A creation that is done adds one row with the requested fields, as many copies as requested (1 when no
      positive number is), all of them available. It is done only if nothing speaks against it, and with the
      database up and no stale entry under the ISBN exactly then. */
  lemma AddEffect(w: Shelf, r: BookCreate, newId: Id, linksOk: bool)
    requires Inv(w)
    ensures var (w', reply) := Add(w, r, newId, linksOk);
            && Inv(w')
            && (reply.Refused? ==> w'.table == w.table)
            && (reply.Done? ==>
                  && newId !in w.table && w'.table == w.table[newId := reply.book]
                  && reply.book.id == newId && reply.book.name == r.isbn
                  && reply.book.fields.quantity == (if r.quantity > 0 then r.quantity else 1)
                  && reply.book.fields.available == reply.book.fields.quantity && reply.book.fields.averageRating == 0.0
                  && reply.book.fields.title == r.title && reply.book.fields.author == r.author
                  && reply.book.fields.publishedYear == r.publishedYear && reply.book.fields.publisher == r.publisher
                  && reply.book.fields.description == r.description && reply.book.fields.language == r.language
                  && reply.book.fields.pageCount == r.pageCount && reply.book.fields.coverImage == r.coverImage
                  && reply.book.fields.status == "available"
                  && w.now <= reply.book.created == reply.book.updated <= w'.now)
            && (reply.Done? ==> AddObjection(w, r, newId, linksOk).None?)
            && (DbUp(w.turns) && !Stale(w, r.isbn) ==> Why(reply) == AddObjection(w, r, newId, linksOk))
  {
    hide Inv, GetByName, Create, Stale, DbUp, NameFree;
    IsbnCheckMeans(w, r.isbn);
    var (w1, existing) := if r.isbn != "" then GetByName(w, r.isbn) else (w, NotFound);
    var book := Row(newId, r.isbn, NewFields(r), w1.now, w1.now);
    CreateKeeps(w1, book);
    CreateRows(w1, book);
    SameNamesFree(w, w1, r.isbn, newId);
    if newId !in w.table && NameFree(w, r.isbn, newId) { FreeForNewId(w, r.isbn, newId); }
  }

  lemma FreeForNewId(w: Shelf, isbn: string, newId: Id)
    requires newId !in w.table && NameFree(w, isbn, newId)
    ensures CachedTable.Holders(w.table, isbn) == {}
  {
    assert CachedTable.Holders(w.table, isbn) <= {newId} && newId !in CachedTable.Holders(w.table, isbn);
  }

  /** A deletion removes one row or changes nothing; with the database up it is done exactly for a live book. */
  lemma DiscardEffect(w: Shelf, id: Id)
    requires Inv(w)
    ensures var (w', refusal) := Discard(w, id);
            && (DeletesLand(w.turns) ==> Inv(w'))
            && w'.table == (if refusal.None? then w.table - {id} else w.table)
            && (refusal.None? ==> id in w.table)
            && (DbUp(w.turns) ==> refusal == if id in w.table then None else Some(BookNotFound))
  {
    hide Inv, GetByID, Drop;
    ReadByID(w, id);
    var (w1, found) := GetByID(w, id);
    if found.Found? {
      ReadByID(w1, id);
      var (w2, again) := GetByID(w1, id);
      if again.Found? {
        DropRows(w2, again.row);
        if DeletesLand(w.turns) { DropKeeps(w2, again.row); }
      }
    }
  }

  lemma ServeKeeps(w: Shelf, r: Request)
    requires Inv(w) && DeletesLand(w.turns)
    ensures Inv(Serve(w, r))
  {
    hide Inv, GetByID, GetByName, Add, Modify, Discard, Objection, AddObjection, NameFree, Stale;
    match r
    case Adding(book, newId, linksOk) => AddEffect(w, book, newId, linksOk);
    case Changing(id, update, linksOk) => ModifyEffect(w, id, update, linksOk);
    case Discarding(id) => DiscardEffect(w, id);
    case LookUp(id) => GetByIDKeeps(w, id);
    case LookUpIsbn(isbn) => GetByNameKeeps(w, isbn);
  }

  lemma {:induction false} ServeAllKeeps(w: Shelf, requests: Script)
    requires Inv(w) && forall i :: 0 <= i < |requests| ==> DeletesLand(requests[i].1)
    ensures Inv(ServeAll(w, requests))
    decreases |requests|
  {
    if requests != [] {
      var w0 := w.(turns := requests[0].1);
      NewTurns(w, requests[0].1);
      hide Inv, Serve;
      ServeKeeps(w0, requests[0].0);
      ServeAllKeeps(Serve(w0, requests[0].0), requests[1..]);
    }
  }

  /** After any run of book requests whose invalidations succeed, a cached lookup by id answers as the table
      itself would, and a book cached under an ISBN is out of date exactly when that ISBN was taken away from a
      book since. */
  lemma {:induction false} BookLookupsAfterAnyRun(table: map<Id, Book>, now: real, requests: Script,
                               turns: seq<Turn>, id: Id, isbn: string)
    requires TableOk(CachedTable.Empty(table, now))
    requires forall i :: 0 <= i < |requests| ==> DeletesLand(requests[i].1)
    requires DbUp(turns)
    ensures var w := ServeAll(CachedTable.Empty(table, now), requests).(turns := turns);
            && GetByID(w, id).1 == Direct(w.table, id)
            && (Live(w, ByName(isbn)) ==>
                  (Named(w.table, isbn) != Some(w.cache[ByName(isbn)].row) <==> RenamedSince(w.log, isbn)))
  {
    EmptyKeeps(table, now);
    ServeAllKeeps(CachedTable.Empty(table, now), requests);
    hide ServeAll;
    var end := ServeAll(CachedTable.Empty(table, now), requests);
    var w := end.(turns := turns);
    NewTurns(end, turns);
    GetByIDRefinesDirect(w, id);
    if Live(w, ByName(isbn)) { NamedIsIn(w, isbn, w.cache[ByName(isbn)].row); }
  }

  // ---------- The service object ----------

  class BookService {
    const repo: Repository<BookFields>

    constructor (repo: Repository<BookFields>)
      ensures this.repo == repo
    {
      this.repo := repo;
    }

    static method SetTexts(b: BookFields, u: BookUpdate) returns (f: BookFields)
      ensures f == b.(title := Or(u.title, b.title), author := Or(u.author, b.author),
                      publishedYear := Or(u.publishedYear, b.publishedYear), publisher := Or(u.publisher, b.publisher))
    {
      f := b;
      if u.title.Some? { f := f.(title := u.title.value); }
      if u.author.Some? { f := f.(author := u.author.value); }
      if u.publishedYear.Some? { f := f.(publishedYear := u.publishedYear.value); }
      if u.publisher.Some? { f := f.(publisher := u.publisher.value); }
    }

    static method SetDetails(b: BookFields, u: BookUpdate) returns (f: BookFields)
      ensures f == b.(description := Or(u.description, b.description), language := Or(u.language, b.language),
                      pageCount := Or(u.pageCount, b.pageCount), status := Or(u.status, b.status),
                      coverImage := Or(u.coverImage, b.coverImage))
    {
      f := b;
      if u.description.Some? { f := f.(description := u.description.value); }
      if u.language.Some? { f := f.(language := u.language.value); }
      if u.pageCount.Some? { f := f.(pageCount := u.pageCount.value); }
      if u.status.Some? { f := f.(status := u.status.value); }
      if u.coverImage.Some? { f := f.(coverImage := u.coverImage.value); }
    }

    static method SetFields(b: BookFields, u: BookUpdate) returns (f: BookFields)
      ensures f == Describe(b, u)
    {
      f := SetTexts(b, u);
      f := SetDetails(f, u);
    }

    static method SetCounts(b: BookFields, u: BookUpdate) returns (counted: Option<BookFields>)
      ensures counted == Recount(b, u)
    {
      var f := b;
      if u.quantity.Some? {
        f := f.(quantity := u.quantity.value);
        if u.available.None? {
          var difference := u.quantity.value - f.quantity;
          f := f.(available := f.available + difference);
          if f.available < 0 {
            f := f.(available := 0);
          }
        }
      }
      if u.available.Some? {
        if u.available.value > f.quantity {
          return None;
        }
        f := f.(available := u.available.value);
      }
      counted := Some(f);
    }

    method UpdateBook(id: Id, u: BookUpdate, linksOk: bool) returns (reply: Reply)
      modifies repo
      ensures (repo.State(), reply) == Modify(old(repo.State()), id, u, linksOk)
    {
      hide CachedTable.GetByID, CachedTable.GetByName, CachedTable.Update;
      var found := repo.GetByID(id);
      if found.NotFound? {
        return Refused(BookNotFound);
      } else if found.Failed? {
        return Refused(Internal);
      }
      var book := found.row;

      if u.isbn.Some? && u.isbn.value != book.name {
        var existing := repo.GetByName(u.isbn.value);
        if existing.Found? && existing.row.id != id {
          return Refused(IsbnTaken);
        }
      }

      var f := SetFields(book.fields, u);
      if u.isbn.Some? {
        book := book.(name := u.isbn.value);
      }
      var counted := SetCounts(f, u);
      if counted.None? {
        return Refused(TooManyAvailable);
      }
      if !linksOk {
        return Refused(BadCategories);
      }

      book := book.(fields := counted.value);
      var ok := repo.Update(book);
      if ok && book.id in repo.table {
        reply := Done(repo.table[book.id]);
      } else {
        reply := Refused(Internal);
      }
    }

    method CreateBook(r: BookCreate, newId: Id, linksOk: bool) returns (reply: Reply)
      modifies repo
      ensures (repo.State(), reply) == Add(old(repo.State()), r, newId, linksOk)
    {
      if r.isbn != "" {
        var existing := repo.GetByName(r.isbn);
        if existing.Found? {
          return Refused(IsbnTaken);
        }
      }
      if !linksOk {
        return Refused(BadCategories);
      }
      var fields := BookFields(r.title, r.author, r.publishedYear, r.publisher, r.description, r.language, r.pageCount,
                               "available", "", 0.0, 1, 1);
      if r.coverImage != "" {
        fields := fields.(coverImage := r.coverImage);
      }
      if r.quantity > 0 {
        fields := fields.(quantity := r.quantity, available := r.quantity);
      }
      var book := Row(newId, r.isbn, fields, repo.now, repo.now);
      var ok := repo.Create(book);
      reply := if ok then Done(book) else Refused(Internal);
    }

    method DeleteBook(id: Id) returns (refusal: Option<Refusal>)
      modifies repo
      ensures (repo.State(), refusal) == Discard(old(repo.State()), id)
    {
      var found := repo.GetByID(id);
      if found.NotFound? {
        return Some(BookNotFound);
      } else if found.Failed? {
        return Some(Internal);
      }
      var again := repo.GetByID(id);
      if !again.Found? {
        return Some(Internal);
      }
      var ok := repo.Drop(again.row.(id := id));
      refusal := if ok then None else Some(Internal);
    }
  }
}

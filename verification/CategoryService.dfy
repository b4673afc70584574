/** The category service object over its repository; each method equals its specification in `Categories`. */
module CategoryServices {
  import opened Shared
  import opened CachedTable
  import opened Repositories
  import opened Forests
  import opened Categories

  class CategoryService {
    const repo: Repository<CategoryFields>

    constructor (repo: Repository<CategoryFields>)
      ensures this.repo == repo
    {
      this.repo := repo;
    }

    method Create(name: string, description: string, parent: ParentArg, newId: Id) returns (reply: Reply)
      modifies repo
      ensures (repo.State(), reply) == CreateCategory(old(repo.State()), name, description, parent, newId)
    {
      var existing := repo.GetByName(name);
      if existing.Found? {
        return Refused(NameTaken);
      }

      var parentID := None;
      if parent.Malformed? {
        return Refused(BadParentFormat);
      } else if parent.Given? {
        var found := repo.GetByID(parent.id);
        if found.NotFound? {
          return Refused(ParentNotFound);
        } else if found.Failed? {
          return Refused(Internal);
        }
        parentID := Some(found.row.id);
      }

      var category := Row(newId, name, CategoryFields(description, parentID), repo.now, repo.now);
      var ok := repo.Create(category);
      reply := if ok then Done(category) else Refused(Internal);
    }

    /** The closure of the cycle check: `visited` is what it has marked so far. */
    method CheckCycle(current: Id, child: Id, visited: set<Id>) returns (check: Check)
      modifies repo
      ensures (repo.State(), check) == EnsureNoCycle(old(repo.State()), current, child, visited)
      decreases Known(repo.State()) - visited
    {
      if current == child {
        return CycleFound;
      }
      if current in visited {
        return NoCycle;
      }
      GetByIDKnown(repo.State(), current);
      var found := repo.GetByID(current);
      match found {
        case NotFound => check := ChainMissing;
        case Failed => check := ChainError;
        case Found(category) =>
          if category.fields.parent.Some? {
            check := CheckCycle(category.fields.parent.value, child, visited + {current});
          } else {
            check := NoCycle;
          }
      }
    }

    /** The part of an update that settles the parent. */
    method SettleParent(id: Id, present: Option<Id>, parent: ParentArg)
      returns (refusal: Option<Refusal>, chosen: Option<Id>)
      modifies repo
      ensures (repo.State(), refusal, chosen) == ChooseParent(old(repo.State()), id, present, parent)
    {
      refusal, chosen := None, None;
      match parent {
        case Absent => chosen := present;
        case Empty =>
        case Malformed => refusal := Some(BadParentFormat);
        case Given(pid) =>
          if pid == id {
            return Some(OwnParent), None;
          }
          var found := repo.GetByID(pid);
          if found.NotFound? {
            return Some(ParentNotFound), None;
          } else if found.Failed? {
            return Some(Internal), None;
          }
          var check := CheckCycle(pid, id, {});
          match check {
            case CycleFound => refusal := Some(WouldCycle);
            case ChainMissing => refusal := Some(ChainNotFound);
            case ChainError => refusal := Some(ChainFailed);
            case NoCycle => chosen := Some(found.row.id);
          }
      }
    }

    method Update(id: Id, name: Option<string>, description: Option<string>, parent: ParentArg) returns (reply: Reply)
      modifies repo
      ensures (repo.State(), reply) == UpdateCategory(old(repo.State()), id, name, description, parent)
    {
      hide EnsureNoCycle, CachedTable.GetByID, CachedTable.GetByName, CachedTable.Update, ChooseParent;
      var found := repo.GetByID(id);
      if found.NotFound? {
        return Refused(CategoryNotFound);
      } else if found.Failed? {
        return Refused(Internal);
      }
      var category := found.row;

      if name.Some? && name.value != category.name {
        var existing := repo.GetByName(name.value);
        if existing.Found? && existing.row.id != id {
          return Refused(NameTaken);
        }
      }

      var refusal, chosen := SettleParent(id, category.fields.parent, parent);
      if refusal.Some? {
        return Refused(refusal.value);
      }
      if name.Some? {
        category := category.(name := name.value);
      }
      if description.Some? {
        category := category.(fields := category.fields.(description := description.value));
      }
      category := category.(fields := category.fields.(parent := chosen));

      var ok := repo.Update(category);
      if ok && category.id in repo.table {
        reply := Done(repo.table[category.id]);
      } else {
        reply := Refused(Internal);
      }
    }

    method Delete(id: Id, books: BooksAnswer) returns (refusal: Option<Refusal>)
      modifies repo
      ensures (repo.State(), refusal) == DeleteCategory(old(repo.State()), id, books)
    {
      var found := repo.GetByID(id);
      if found.NotFound? {
        return Some(CategoryNotFound);
      } else if found.Failed? {
        return Some(Internal);
      }

      // From here on the code is the repository's.
      var again := repo.GetByID(id);
      if !again.Found? {
        return Some(Internal);
      }
      var counting := repo.NextTurn();
      if !counting.db {
        return Some(Internal);
      }
      if Children(ParentsOf(repo.table), id) != {} {
        return Some(Refusal.HasChildren);
      }
      var asking := repo.NextTurn();
      match books {
        case Unknown => return Some(Internal);
        case Used => return Some(Refusal.HasBooks);
        case Unused =>
      }
      var ok := repo.Drop(again.row.(id := id));
      refusal := if ok then None else Some(Internal);
    }

    /** Lists the children the table has, in some order. */
    method GetChildren(id: Id) returns (refusal: Option<Refusal>, children: seq<Category>)
      modifies repo
      ensures repo.table == old(repo.table)
      ensures refusal.None? ==>
        && (set c <- children :: c) == (set k <- Children(ParentsOf(repo.table), id) :: repo.table[k])
        && |children| == |Children(ParentsOf(repo.table), id)|
      ensures refusal.Some? ==> children == []
    {
      children := [];
      GetByIDReads(repo.State(), id);
      hide CachedTable.GetByID;
      var found := repo.GetByID(id);
      if found.NotFound? {
        return Some(CategoryNotFound), [];
      } else if found.Failed? {
        return Some(Internal), [];
      }
      var querying := repo.NextTurn();
      if !querying.db {
        return Some(Internal), [];
      }
      ghost var all := Children(ParentsOf(repo.table), id);
      var rest := Children(ParentsOf(repo.table), id);
      while rest != {}
        invariant rest <= all
        invariant |children| + |rest| == |all|
        invariant forall c <- children :: exists k :: k in all - rest && repo.table[k] == c
        invariant forall k <- all - rest :: repo.table[k] in children
        decreases rest
      {
        var k :| k in rest;
        children := children + [repo.table[k]];
        rest := rest - {k};
      }
      refusal := None;
    }
  }
}

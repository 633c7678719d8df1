/** The category service: create for a user, list a user's categories,
    find one, update and delete. Update and delete take no caller, so they
    check no ownership; delete removes the category row only. */
module Categories {
  import opened Wrappers
  import opened Seqs
  import opened Entities
  import opened Database

  /** The column value a nullable input leaves behind when the persistence
      layer writes it over `stored`: an omitted field is not written, a null
      clears the column, a given value replaces it. */
  function WriteField(input: Nullable<string>, stored: Option<string>): (r: Option<string>)
    ensures input.Omitted? ==> r == stored
    ensures input.Null? ==> r.None?
    ensures input.Given? ==> r == Some(input.value)
  {
    match input
    case Omitted => stored
    case Null => None
    case Given(v) => Some(v)
  }

  /** The category an update writes: the input's name, color and icon over
      the stored row, with the same id and owner. */
  function ApplyCategoryInput(stored: Category, data: CategoryInput): (c: Category)
    ensures c.id == stored.id && c.userId == stored.userId && c.name == data.name
    ensures c.color == WriteField(data.color, stored.color)
    ensures c.icon == WriteField(data.icon, stored.icon)
  {
    stored.(name := data.name, color := WriteField(data.color, stored.color), icon := WriteField(data.icon, stored.icon))
  }

  /** Writing the same input twice leaves what writing it once does. */
  lemma ApplyCategoryInputIdempotent(stored: Category, data: CategoryInput)
    ensures ApplyCategoryInput(ApplyCategoryInput(stored, data), data) == ApplyCategoryInput(stored, data)
  {
  }

  class CategoryService {
    const db: Database

    constructor (db: Database)
      ensures this.db == db
    {
      this.db := db;
    }

    /** Creates a category owned by `userId` with the input's name, color
        and icon (a fresh row has no color or icon unless given). `newId` is
        the id the database assigns. */
    method CreateCategory(data: CategoryInput, userId: Id, newId: Id) returns (c: Category)
      requires db.Valid()
      requires forall x :: x in db.categories ==> x.id != newId
      modifies db
      ensures db.Valid()
      ensures db.users == old(db.users) && db.transactions == old(db.transactions)
      ensures c.id == newId && c.userId == userId && c.name == data.name
      ensures c.color == WriteField(data.color, None) && c.icon == WriteField(data.icon, None)
      ensures db.categories == old(db.categories) + [c]
    {
      c := Category(newId, data.name, WriteField(data.color, None), WriteField(data.icon, None), userId);
      db.categories := db.categories + [c];
    }

    /** `findMany({ where: { userId } })`: exactly the user's categories, in
        table order. */
    function GetCategoriesByUserId(userId: Id): (r: seq<Category>)
      reads db
      ensures forall c :: c in r <==> c in db.categories && c.userId == userId
      ensures IsSubsequence(r, db.categories)
    {
      SelectIsSubsequence(db.categories, (c: Category) => c.userId == userId);
      Select(db.categories, (c: Category) => c.userId == userId)
    }

    /** The category with id `id`, or "Category not found". */
    function FindCategoryById(id: Id): (r: Result<Category, ServiceError>)
      reads db
      ensures r.Ok? ==> r.value in db.categories && r.value.id == id
      ensures r.Err? <==> forall c :: c in db.categories ==> c.id != id
      ensures r.Err? ==> r.error == NotFound(CATEGORY_NOT_FOUND)
    {
      match db.FindCategory(id)
      case None => Err(NotFound(CATEGORY_NOT_FOUND))
      case Some(c) => Ok(c)
    }

    /** Rewrites the name, color and icon of category `id`, whoever owns it.
        An unknown id fails with "Category not found" and changes nothing;
        otherwise only that row changes, keeping its id and owner. */
    method UpdateCategory(id: Id, data: CategoryInput) returns (r: Result<Category, ServiceError>)
      requires db.Valid()
      modifies db
      ensures db.Valid()
      ensures db.users == old(db.users) && db.transactions == old(db.transactions)
      ensures var found := old(db.FindCategory(id));
              && (found.None? ==> r == Err(NotFound(CATEGORY_NOT_FOUND)))
              && (found.Some? ==> r == Ok(ApplyCategoryInput(found.value, data)))
      ensures r.Err? ==> db.categories == old(db.categories)
      ensures r.Ok? ==>
                && |db.categories| == |old(db.categories)|
                && forall k :: 0 <= k < |old(db.categories)| ==>
                     db.categories[k] == if old(db.categories)[k].id == id then r.value else old(db.categories)[k]
    {
      var i := db.CategoryIndex(id);
      if i.None? {
        return Err(NotFound(CATEGORY_NOT_FOUND));
      }
      var updated := ApplyCategoryInput(db.categories[i.value], data);
      db.categories := db.categories[i.value := updated];
      r := Ok(updated);
    }

    /** Deletes category `id`, whoever owns it, and answers the deleted row.
        An unknown id fails with "Category not found" and changes nothing.
        No delete is issued on transactions; the database's referential
        action on them is not part of this model, which leaves that table as
        it is. */
    method DeleteCategory(id: Id) returns (r: Result<Category, ServiceError>)
      requires db.Valid()
      modifies db
      ensures db.Valid()
      ensures db.users == old(db.users) && db.transactions == old(db.transactions)
      ensures var found := old(db.FindCategory(id));
              && (found.None? ==> r == Err(NotFound(CATEGORY_NOT_FOUND)))
              && (found.Some? ==> r == Ok(found.value))
      ensures r.Err? ==> db.categories == old(db.categories)
      ensures r.Ok? ==>
                && |db.categories| == |old(db.categories)| - 1
                && forall c :: c in db.categories <==> c in old(db.categories) && c.id != id
    {
      var i := db.CategoryIndex(id);
      if i.None? {
        return Err(NotFound(CATEGORY_NOT_FOUND));
      }
      var k := i.value;
      var category := db.categories[k];
      RemoveAtDropsOnlyItsKey(db.categories, k, (c: Category) => c.id);
      db.categories := db.categories[..k] + db.categories[k + 1..];
      r := Ok(category);
    }
  }
}

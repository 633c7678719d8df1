/** The transaction service: creation against a category the caller owns,
    ownership-checked update and delete, per-user and per-category reads,
    and the filtered, paged query. */
module Transactions {
  import opened Wrappers
  import opened Seqs
  import opened Entities
  import opened Database
  import opened Pagination
  import opened TransactionFilter
  import opened DateOrder

  /** One page of the paged query: its items and their metadata. */
  datatype TransactionConnection = TransactionConnection(
    transactions: seq<Transaction>,
    pagination: PaginationInfo)

  /** The record an update writes: a field the input gives replaces the
      stored one, a null or omitted field keeps it (`input ?? previous`);
      the id and the owner never change. */
  function MergeUpdate(prev: Transaction, data: UpdateTransactionInput): (t: Transaction)
    ensures t.id == prev.id && t.userId == prev.userId
    ensures t.title == data.title.GetOr(prev.title)
    ensures t.description == (if data.description.Some? then data.description else prev.description)
    ensures t.amount == data.amount.GetOr(prev.amount)
    ensures t.transactionType == data.transactionType.GetOr(prev.transactionType)
    ensures t.categoryId == data.categoryId.GetOr(prev.categoryId)
    ensures t.date == data.date.GetOr(prev.date)
  {
    prev.(
      title := data.title.GetOr(prev.title),
      description := if data.description.Some? then data.description else prev.description,
      amount := data.amount.GetOr(prev.amount),
      transactionType := data.transactionType.GetOr(prev.transactionType),
      categoryId := data.categoryId.GetOr(prev.categoryId),
      date := data.date.GetOr(prev.date))
  }

  /** An update that gives no field leaves the record as it was. */
  lemma EmptyUpdateKeepsRecord(prev: Transaction)
    ensures MergeUpdate(prev, UpdateTransactionInput(None, None, None, None, None, None)) == prev
  {
  }

  /** Applying the same update twice is the same as applying it once. */
  lemma MergeUpdateIdempotent(prev: Transaction, data: UpdateTransactionInput)
    ensures MergeUpdate(MergeUpdate(prev, data), data) == MergeUpdate(prev, data)
  {
  }

  /** The update checks nothing about a new `categoryId`: an owner can move
      a transaction into a category that belongs to another user, which
      creation refuses. */
  lemma UpdateDoesNotCheckCategoryOwner(prev: Transaction, other: Category)
    requires other.userId != prev.userId
    ensures var t := MergeUpdate(prev, UpdateTransactionInput(None, None, None, None, Some(other.id), None));
            t.categoryId == other.id && t.userId != other.userId
  {
  }

  /** A window of the newest-first ordering of `s` holds rows of `s`, still
      newest first. */
  lemma PageOfNewestFirst(s: seq<Transaction>, skip: nat, take: nat)
    ensures var w := Window(SortByDateDesc(s), skip, take);
            NewestFirst(w) && forall t :: t in w ==> t in s
  {
    var sorted := SortByDateDesc(s);
    var w := Window(sorted, skip, take);
    forall t | t in w ensures t in s {
      var i :| 0 <= i < |w| && w[i] == t;
      assert t == sorted[skip + i];
      assert t in multiset(sorted);
    }
  }

  /** The transactions whose `categoryId` is `categoryId`. */
  function InCategory(categoryId: Id): Transaction -> bool {
    (t: Transaction) => t.categoryId == categoryId
  }

  class TransactionService {
    const db: Database

    constructor (db: Database)
      ensures this.db == db
    {
      this.db := db;
    }

    /** Records a transaction in category `data.categoryId` for `userId`.
        The category must exist ("Category not found") and belong to the
        caller (a permission error); either failure inserts nothing. The
        owner is the caller, never taken from the input; a missing date
        becomes the server's `now`. `newId` is the id the database assigns. */
    method CreateTransaction(data: CreateTransactionInput, userId: Id, newId: Id, now: Date)
      returns (r: Result<Transaction, ServiceError>)
      requires db.Valid()
      requires forall t :: t in db.transactions ==> t.id != newId
      modifies db
      ensures db.Valid()
      ensures db.users == old(db.users) && db.categories == old(db.categories)
      ensures old(db.FindCategory(data.categoryId)).None? ==> r == Err(NotFound(CATEGORY_NOT_FOUND))
      ensures var found := old(db.FindCategory(data.categoryId));
              found.Some? && found.value.userId != userId ==> r == Err(Forbidden(CANNOT_USE_CATEGORY))
      ensures r.Ok? <==> exists c :: c in old(db.categories) && c.id == data.categoryId && c.userId == userId
      ensures r.Err? ==> db.transactions == old(db.transactions)
      ensures r.Ok? ==>
                && r.value == Transaction(newId, data.title, data.description, data.amount,
                                          data.transactionType, data.date.GetOr(now), userId, data.categoryId)
                && db.transactions == old(db.transactions) + [r.value]
    {
      var category := db.FindCategory(data.categoryId);
      if category.None? {
        return Err(NotFound(CATEGORY_NOT_FOUND));
      }
      if category.value.userId != userId {
        forall c | c in db.categories && c.id == data.categoryId ensures c.userId != userId {
          var i :| 0 <= i < |db.categories| && db.categories[i] == c;
          var j :| 0 <= j < |db.categories| && db.categories[j] == category.value;
          assert i == j;
        }
        return Err(Forbidden(CANNOT_USE_CATEGORY));
      }
      var t := Transaction(newId, data.title, data.description, data.amount,
                           data.transactionType, data.date.GetOr(now), userId, data.categoryId);
      db.transactions := db.transactions + [t];
      r := Ok(t);
    }

    /** `findMany({ where: { userId } })`: all of the user's transactions. */
    function GetTransactionsByUserId(userId: Id): (r: seq<Transaction>)
      reads db
      ensures forall t :: t in r <==> t in db.transactions && t.userId == userId
      ensures IsSubsequence(r, db.transactions)
    {
      SelectIsSubsequence(db.transactions, (t: Transaction) => t.userId == userId);
      Select(db.transactions, (t: Transaction) => t.userId == userId)
    }

    /** The transactions of a category, for a caller who must be its owner:
        `categoryUserId` is the owner the caller resolved beforehand. The
        read itself is by category only. */
    function GetTransactionsByCategoryId(categoryId: Id, categoryUserId: Id, userId: Id)
      : (r: Result<seq<Transaction>, ServiceError>)
      reads db
      ensures r.Err? <==> categoryUserId != userId
      ensures r.Err? ==> r.error == Forbidden(CANNOT_READ_CATEGORY_TRANSACTIONS)
      ensures r.Ok? ==> forall t :: t in r.value <==> t in db.transactions && t.categoryId == categoryId
    {
      if categoryUserId != userId then Err(Forbidden(CANNOT_READ_CATEGORY_TRANSACTIONS))
      else Ok(Select(db.transactions, InCategory(categoryId)))
    }

    /** `count({ where: { categoryId } })`: as many as the rows a `findMany`
        with the same `where` returns. */
    function CountTransactionsByCategoryId(categoryId: Id): (n: nat)
      reads db
      ensures n == |Select(db.transactions, InCategory(categoryId))|
    {
      CountIsSizeOfSelect(db.transactions, InCategory(categoryId));
      Count(db.transactions, InCategory(categoryId))
    }

    /** Updates transaction `id` for `userId`: "Transaction not found" when
        there is none, a permission error when it belongs to someone else
        (nothing changes in either case); otherwise the merged record
        replaces it and no other row changes. */
    method UpdateTransaction(id: Id, data: UpdateTransactionInput, userId: Id)
      returns (r: Result<Transaction, ServiceError>)
      requires db.Valid()
      modifies db
      ensures db.Valid()
      ensures db.users == old(db.users) && db.categories == old(db.categories)
      ensures var found := old(db.FindTransaction(id));
              && (found.None? ==> r == Err(NotFound(TRANSACTION_NOT_FOUND)))
              && (found.Some? && found.value.userId != userId ==> r == Err(Forbidden(CANNOT_UPDATE_TRANSACTION)))
              && (found.Some? && found.value.userId == userId ==> r == Ok(MergeUpdate(found.value, data)))
      ensures r.Err? ==> db.transactions == old(db.transactions)
      ensures r.Ok? ==>
                && |db.transactions| == |old(db.transactions)|
                && forall k :: 0 <= k < |old(db.transactions)| ==>
                     db.transactions[k] == if old(db.transactions)[k].id == id then r.value else old(db.transactions)[k]
    {
      var i := db.TransactionIndex(id);
      if i.None? {
        return Err(NotFound(TRANSACTION_NOT_FOUND));
      }
      var transaction := db.transactions[i.value];
      if transaction.userId != userId {
        return Err(Forbidden(CANNOT_UPDATE_TRANSACTION));
      }
      var updated := MergeUpdate(transaction, data);
      db.transactions := db.transactions[i.value := updated];
      r := Ok(updated);
    }

    /** Deletes transaction `id` for `userId`, with the same two failures as
        the update; on success exactly that row is gone and the answer is
        `true`. */
    method DeleteTransaction(id: Id, userId: Id) returns (r: Result<bool, ServiceError>)
      requires db.Valid()
      modifies db
      ensures db.Valid()
      ensures db.users == old(db.users) && db.categories == old(db.categories)
      ensures var found := old(db.FindTransaction(id));
              && (found.None? ==> r == Err(NotFound(TRANSACTION_NOT_FOUND)))
              && (found.Some? && found.value.userId != userId ==> r == Err(Forbidden(CANNOT_DELETE_TRANSACTION)))
              && (found.Some? && found.value.userId == userId ==> r == Ok(true))
      ensures r.Err? ==> db.transactions == old(db.transactions)
      ensures r.Ok? ==>
                && |db.transactions| == |old(db.transactions)| - 1
                && forall t :: t in db.transactions <==> t in old(db.transactions) && t.id != id
    {
      var i := db.TransactionIndex(id);
      if i.None? {
        return Err(NotFound(TRANSACTION_NOT_FOUND));
      }
      var k := i.value;
      if db.transactions[k].userId != userId {
        return Err(Forbidden(CANNOT_DELETE_TRANSACTION));
      }
      RemoveAtDropsOnlyItsKey(db.transactions, k, (t: Transaction) => t.id);
      db.transactions := db.transactions[..k] + db.transactions[k + 1..];
      r := Ok(true);
    }

    /** Page `page` of `limit` of the caller's transactions that pass
        `filters`, newest first, with its metadata. `page` is raised to at
        least 1 and `limit` clamped to 1..100; the items are the matches
        from position `(page - 1) * limit` on, at most `limit` of them, and
        none past the end; `totalItems` counts every match. The fetch and
        the count read the same state. */
    method GetTransactionsPaginated(userId: Id, page: int, limit: int, filters: Option<TransactionFilters>)
      returns (r: TransactionConnection)
      ensures var validPage, validLimit := ValidPage(page), ValidLimit(limit);
              var matching := Select(db.transactions, t => Accepts(userId, filters, t));
              && r.transactions == Window(SortByDateDesc(matching), Skip(validPage, validLimit), validLimit)
              && r.pagination == PageMetadata(validPage, validLimit, |matching|)
      ensures |r.transactions| <= r.pagination.itemsPerPage <= MAX_LIMIT
      ensures forall t :: t in r.transactions ==> t in db.transactions && Accepts(userId, filters, t)
      ensures NewestFirst(r.transactions)
    {
      var validPage := ValidPage(page);
      var validLimit := ValidLimit(limit);
      var skip := Skip(validPage, validLimit);

      var where := BuildWhere(userId, filters);

      var matching := Select(db.transactions, t => Satisfies(where, t));
      var transactions := Window(SortByDateDesc(matching), skip, validLimit);
      var totalItems := Count(db.transactions, t => Satisfies(where, t));

      SelectCongruent(db.transactions, t => Satisfies(where, t), t => Accepts(userId, filters, t));
      CountIsSizeOfSelect(db.transactions, t => Satisfies(where, t));
      PageOfNewestFirst(matching, skip, validLimit);

      r := TransactionConnection(transactions, PageMetadata(validPage, validLimit, totalItems));
    }
  }
}

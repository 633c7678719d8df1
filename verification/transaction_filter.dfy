/** The `where` clause of the paged transaction query: always the caller's
    transactions, narrowed by each filter field that is present and truthy. */
module TransactionFilter {
  import opened Wrappers
  import opened Seqs
  import opened Entities

  /** The date part of a `where`: `gte` and `lte` bounds, each optional. */
  datatype DateRange = DateRange(gte: Option<Date>, lte: Option<Date>)

  /** A `where` over transactions, as the persistence layer reads it: an
      absent part imposes nothing. */
  datatype TransactionWhere = TransactionWhere(
    userId: Id,
    titleContains: Option<string>,
    transactionType: Option<TransactionType>,
    categoryId: Option<Id>,
    date: Option<DateRange>)

  /** Whether the persistence layer returns `t` for the `where` clause `w`.
      Title matching is a case-sensitive substring test. */
  predicate Satisfies(w: TransactionWhere, t: Transaction) {
    && t.userId == w.userId
    && (w.titleContains.Some? ==> Contains(t.title, w.titleContains.value))
    && (w.transactionType.Some? ==> t.transactionType == w.transactionType.value)
    && (w.categoryId.Some? ==> t.categoryId == w.categoryId.value)
    && (w.date.Some? ==>
          && (w.date.value.gte.Some? ==> w.date.value.gte.value <= t.date)
          && (w.date.value.lte.Some? ==> t.date <= w.date.value.lte.value))
  }

  /** A string field is truthy when present and not empty. */
  predicate Truthy(s: Option<string>) {
    s.Some? && s.value != ""
  }

  /** What the paged query promises to return to `userId` under `filters`:
      the caller's own transactions, and of those only the ones each
      truthy filter field admits. A missing filter, or a missing or empty
      field, admits everything. */
  predicate Accepts(userId: Id, filters: Option<TransactionFilters>, t: Transaction) {
    && t.userId == userId
    && (filters.Some? ==>
          var f := filters.value;
          && (Truthy(f.title) ==> Contains(t.title, f.title.value))
          && (f.transactionType.Some? ==> t.transactionType == f.transactionType.value)
          && (Truthy(f.categoryId) ==> t.categoryId == f.categoryId.value)
          && (f.startDate.Some? ==> f.startDate.value <= t.date)
          && (f.endDate.Some? ==> t.date <= f.endDate.value))
  }

  /** Builds the `where` clause field by field, as the service does. */
  method BuildWhere(userId: Id, filters: Option<TransactionFilters>) returns (w: TransactionWhere)
    ensures w.userId == userId
    ensures forall t :: Satisfies(w, t) <==> Accepts(userId, filters, t)
  {
    w := TransactionWhere(userId, None, None, None, None);
    if filters.None? {
      return;
    }
    var f := filters.value;
    if Truthy(f.title) {
      w := w.(titleContains := f.title);
    }
    if f.transactionType.Some? {
      w := w.(transactionType := f.transactionType);
    }
    if Truthy(f.categoryId) {
      w := w.(categoryId := f.categoryId);
    }
    if f.startDate.Some? || f.endDate.Some? {
      var date := DateRange(None, None);
      if f.startDate.Some? {
        date := date.(gte := f.startDate);
      }
      if f.endDate.Some? {
        date := date.(lte := f.endDate);
      }
      w := w.(date := Some(date));
    }
  }

  /** With no filter, or a filter whose fields are all absent or empty, the
      query matches every transaction of the caller and no other. */
  lemma EmptyFilterMatchesAllOwn(userId: Id, filters: Option<TransactionFilters>, t: Transaction)
    requires filters.Some? ==>
               && !Truthy(filters.value.title) && filters.value.transactionType.None?
               && !Truthy(filters.value.categoryId)
               && filters.value.startDate.None? && filters.value.endDate.None?
    ensures Accepts(userId, filters, t) <==> t.userId == userId
  {
  }

  /** Adding a type to a filter that has none splits its matches into the
      income ones and the outcome ones: the two counts add up to the
      unrestricted count. */
  lemma {:induction false} TypeFilterPartitions(rows: seq<Transaction>, userId: Id, f: TransactionFilters)
    requires f.transactionType.None?
    ensures Count(rows, t => Accepts(userId, Some(f), t))
         == Count(rows, t => Accepts(userId, Some(f.(transactionType := Some(Income))), t))
          + Count(rows, t => Accepts(userId, Some(f.(transactionType := Some(Outcome))), t))
  {
    if rows != [] {
      TypeFilterPartitions(rows[1..], userId, f);
    }
  }
}

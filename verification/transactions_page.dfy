/** The list logic of the transactions page: the distinct categories and
    periods offered as filter options, and the four-way filter of the
    fetched transactions. Turning a date into its period label (month and
    year, lower-cased) and the search key of a title (lower-cased, accents
    removed) are library calls, given here as functions. */
module TransactionsPage {
  import opened Wrappers
  import opened Seqs
  import opened UiTypes

  /** The filter value meaning "no restriction" for type, category and
      period. */
  const ALL := "all"

  /** The filter form: a search text and three selections. */
  datatype UiFilters = UiFilters(title: string, transactionType: string, category: string, period: string)

  /** The key categories are told apart by. */
  function CategoryId(c: UiCategory): string { c.id }

  /** The key periods are told apart by: the label itself. */
  function Label(p: string): string { p }

  /** The category of each transaction, in list order. */
  function CategoriesOf(ts: seq<UiTransaction>): (cs: seq<UiCategory>)
    ensures |cs| == |ts| && forall i :: 0 <= i < |ts| ==> cs[i] == ts[i].category
  {
    seq(|ts|, i requires 0 <= i < |ts| => ts[i].category)
  }

  /** The period of each transaction, in list order. */
  function PeriodsOf(ts: seq<UiTransaction>, periodOf: string -> string): (ps: seq<string>)
    ensures |ps| == |ts| && forall i :: 0 <= i < |ts| ==> ps[i] == periodOf(ts[i].date)
  {
    seq(|ts|, i requires 0 <= i < |ts| => periodOf(ts[i].date))
  }

  /** From what `r` says about the keys of `s`, the consequences for the
      elements: no key twice, every element's key present, every entry an
      element of `s`. */
  lemma FirstOccurrencesMembers<T, K>(r: seq<T>, s: seq<T>, key: T -> K)
    requires FirstOccurrences(r, s, key)
    ensures forall i, j :: 0 <= i < j < |r| ==> key(r[i]) != key(r[j])
    ensures forall x :: x in s ==> exists y :: y in r && key(y) == key(x)
    ensures forall y :: y in r ==> y in s
  {
    forall x | x in s ensures exists y :: y in r && key(y) == key(x) {
      var i :| 0 <= i < |r| && key(r[i]) == key(x);
      assert r[i] in r;
    }
    forall y | y in r ensures y in s {
      var i :| 0 <= i < |r| && r[i] == y;
      var k := FirstKeyIndex(s, key, key(r[i]));
      assert s[k] == y;
    }
  }

  /** The category list of a first-occurrence walk names each category id
      once, covers every transaction's category and holds only categories
      of transactions. */
  lemma CategoryListCovers(transactions: seq<UiTransaction>, categories: seq<UiCategory>)
    requires FirstOccurrences(categories, CategoriesOf(transactions), CategoryId)
    ensures forall i, j :: 0 <= i < j < |categories| ==> categories[i].id != categories[j].id
    ensures forall t :: t in transactions ==> exists c :: c in categories && c.id == t.category.id
    ensures forall c :: c in categories ==> exists t :: t in transactions && t.category == c
  {
    var all := CategoriesOf(transactions);
    FirstOccurrencesMembers(categories, all, CategoryId);
    forall t | t in transactions ensures exists c :: c in categories && c.id == t.category.id {
      var k :| 0 <= k < |transactions| && transactions[k] == t;
      assert all[k] in all;
    }
    forall c | c in categories ensures exists t :: t in transactions && t.category == c {
      var k :| 0 <= k < |all| && all[k] == c;
      assert transactions[k] in transactions;
    }
  }

  /** The period list of a first-occurrence walk holds no label twice and
      holds exactly the periods of the transactions. */
  lemma PeriodListCovers(transactions: seq<UiTransaction>, periodOf: string -> string, periods: seq<string>)
    requires FirstOccurrences(periods, PeriodsOf(transactions, periodOf), Label)
    ensures forall i, j :: 0 <= i < j < |periods| ==> periods[i] != periods[j]
    ensures forall p :: p in periods <==> exists t :: t in transactions && periodOf(t.date) == p
  {
    var all := PeriodsOf(transactions, periodOf);
    FirstOccurrencesMembers(periods, all, Label);
    forall p ensures p in periods <==> exists t :: t in transactions && periodOf(t.date) == p {
      if p in periods {
        var k :| 0 <= k < |all| && all[k] == p;
        assert transactions[k] in transactions;
      }
      if exists t :: t in transactions && periodOf(t.date) == p {
        var t :| t in transactions && periodOf(t.date) == p;
        var k :| 0 <= k < |transactions| && transactions[k] == t;
        assert all[k] in all;
        var q :| q in periods && Label(q) == Label(p);
      }
    }
  }

  /** The categories whose id is `id` (the `find` callback). */
  function HasId(id: string): UiCategory -> bool {
    (c: UiCategory) => c.id == id
  }

  /** One step of the walk on the periods: `includes` decides whether the
      period is new. */
  lemma PeriodStep(all: seq<string>, i: nat, periods: seq<string>)
    requires i < |all| && periods == DedupBy(all[..i], Label)
    ensures DedupBy(all[..i + 1], Label) == if all[i] in periods then periods else periods + [all[i]]
  {
    DedupByStep(all, i, Label);
    if all[i] in periods {
      var k :| 0 <= k < |periods| && periods[k] == all[i];
      assert Label(periods[k]) == Label(all[i]);
    }
  }

  /** One step of the walk on the categories: `find` by id decides whether
      the category is new. */
  lemma CategoryStep(all: seq<UiCategory>, i: nat, categories: seq<UiCategory>)
    requires i < |all| && categories == DedupBy(all[..i], CategoryId)
    ensures DedupBy(all[..i + 1], CategoryId)
              == if Find(categories, HasId(all[i].id)).None? then categories + [all[i]] else categories
  {
    DedupByStep(all, i, CategoryId);
    if Find(categories, HasId(all[i].id)).Some? {
      var k :| 0 <= k < |categories| && categories[k] == Find(categories, HasId(all[i].id)).value;
      assert CategoryId(categories[k]) == CategoryId(all[i]);
    } else {
      forall k | 0 <= k < |categories| ensures CategoryId(categories[k]) != CategoryId(all[i]) {
        assert categories[k] in categories;
      }
    }
  }

  /** The `useMemo` loop: walks the transactions once, adding a category
      when none with its id is listed yet and a period when it is not listed
      yet. Both lists are the first-occurrence walks of the transactions'
      categories and periods, whose properties `DistinctCategoriesOf` and
      `DistinctPeriodsOf` state. */
  method DistinctCategoriesAndPeriods(transactions: seq<UiTransaction>, periodOf: string -> string)
    returns (categories: seq<UiCategory>, periods: seq<string>)
    ensures categories == DedupBy(CategoriesOf(transactions), CategoryId)
    ensures periods == DedupBy(PeriodsOf(transactions, periodOf), Label)
  {
    var allCategories, allPeriods := CategoriesOf(transactions), PeriodsOf(transactions, periodOf);
    categories, periods := [], [];
    for i := 0 to |transactions|
      invariant categories == DedupBy(allCategories[..i], CategoryId)
      invariant periods == DedupBy(allPeriods[..i], Label)
    {
      var transaction := transactions[i];
      var transactionPeriod := periodOf(transaction.date);
      var transactionCategoryId := transaction.category.id;
      PeriodStep(allPeriods, i, periods);
      CategoryStep(allCategories, i, categories);

      if transactionPeriod !in periods {
        periods := periods + [transactionPeriod];
      }

      if Find(categories, HasId(transactionCategoryId)).None? {
        categories := categories + [transaction.category];
      }
    }
    assert allCategories[..|transactions|] == allCategories;
    assert allPeriods[..|transactions|] == allPeriods;
  }

  /** The category options: no category id twice, every transaction's
      category id present, every entry the category of some transaction, and
      each the first such category in list order. */
  lemma DistinctCategoriesOf(transactions: seq<UiTransaction>)
    ensures var categories := DedupBy(CategoriesOf(transactions), CategoryId);
            && (forall i, j :: 0 <= i < j < |categories| ==> categories[i].id != categories[j].id)
            && (forall t :: t in transactions ==> exists c :: c in categories && c.id == t.category.id)
            && (forall c :: c in categories ==> exists t :: t in transactions && t.category == c)
            && FirstOccurrences(categories, CategoriesOf(transactions), CategoryId)
  {
    var categories := DedupBy(CategoriesOf(transactions), CategoryId);
    DedupByFirstOccurrences(CategoriesOf(transactions), CategoryId);
    CategoryListCovers(transactions, categories);
  }

  /** The period options: no label twice, exactly the transactions'
      periods, in order of first occurrence. */
  lemma DistinctPeriodsOf(transactions: seq<UiTransaction>, periodOf: string -> string)
    ensures var periods := DedupBy(PeriodsOf(transactions, periodOf), Label);
            && (forall i, j :: 0 <= i < j < |periods| ==> periods[i] != periods[j])
            && (forall p :: p in periods <==> exists t :: t in transactions && periodOf(t.date) == p)
            && FirstOccurrences(periods, PeriodsOf(transactions, periodOf), Label)
  {
    var periods := DedupBy(PeriodsOf(transactions, periodOf), Label);
    DedupByFirstOccurrences(PeriodsOf(transactions, periodOf), Label);
    PeriodListCovers(transactions, periodOf, periods);
  }

  /** The search test: the title's search key contains the search text's. */
  predicate MatchesTitle(filters: UiFilters, searchKey: string -> string, t: UiTransaction) {
    Contains(searchKey(t.title), searchKey(filters.title))
  }

  predicate MatchesType(filters: UiFilters, t: UiTransaction) {
    filters.transactionType == ALL || t.transactionType.Name() == filters.transactionType
  }

  predicate MatchesCategory(filters: UiFilters, t: UiTransaction) {
    filters.category == ALL || t.category.id == filters.category
  }

  predicate MatchesPeriod(filters: UiFilters, periodOf: string -> string, t: UiTransaction) {
    filters.period == ALL || periodOf(t.date) == filters.period
  }

  /** The filter callback: all four tests pass. */
  function Keep(filters: UiFilters, searchKey: string -> string, periodOf: string -> string): UiTransaction -> bool {
    (t: UiTransaction) =>
      MatchesTitle(filters, searchKey, t) && MatchesType(filters, t)
      && MatchesCategory(filters, t) && MatchesPeriod(filters, periodOf, t)
  }

  /** `filteredTransactions`: the transactions passing the four tests, in
      their list order. A type or category selection other than "all" keeps
      only transactions with exactly that type or category. */
  function FilteredTransactions(transactions: seq<UiTransaction>, filters: UiFilters,
                                searchKey: string -> string, periodOf: string -> string)
    : (r: seq<UiTransaction>)
    ensures IsSubsequence(r, transactions)
    ensures forall t :: t in r <==>
              && t in transactions
              && MatchesTitle(filters, searchKey, t) && MatchesType(filters, t)
              && MatchesCategory(filters, t) && MatchesPeriod(filters, periodOf, t)
    ensures filters.transactionType != ALL ==>
              forall t :: t in r ==> t.transactionType.Name() == filters.transactionType
    ensures filters.category != ALL ==> forall t :: t in r ==> t.category.id == filters.category
  {
    SelectIsSubsequence(transactions, Keep(filters, searchKey, periodOf));
    Select(transactions, Keep(filters, searchKey, periodOf))
  }

  /** The initial form (empty search, everything "all") shows every
      transaction, provided the search key of the empty text is empty. */
  lemma DefaultFiltersKeepAll(transactions: seq<UiTransaction>, searchKey: string -> string, periodOf: string -> string)
    requires searchKey("") == ""
    ensures FilteredTransactions(transactions, UiFilters("", ALL, ALL, ALL), searchKey, periodOf) == transactions
  {
    var filters := UiFilters("", ALL, ALL, ALL);
    forall t | t in transactions ensures Keep(filters, searchKey, periodOf)(t) {
      assert [] <= searchKey(t.title);
    }
    SelectAll(transactions, Keep(filters, searchKey, periodOf));
  }
}

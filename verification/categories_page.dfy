/** The summary cards of the categories page: how many categories, how many
    transactions across them, and the most used category. */
module CategoriesPage {
  import opened Wrappers
  import opened UiTypes

  /** The total of the categories' transaction counts. */
  function SumCounts(cs: seq<UiCategory>): nat {
    if cs == [] then 0 else cs[0].countTransactions + SumCounts(cs[1..])
  }

  /** `reduce((acc, category) => acc + category.countTransactions, acc)`. */
  function SumFold(cs: seq<UiCategory>, acc: int): int {
    if cs == [] then acc else SumFold(cs[1..], acc + cs[0].countTransactions)
  }

  /** The running sum ends at the starting value plus the total. */
  lemma {:induction false} SumFoldIsSum(cs: seq<UiCategory>, acc: int)
    ensures SumFold(cs, acc) == acc + SumCounts(cs)
  {
    if cs != [] {
      SumFoldIsSum(cs[1..], acc + cs[0].countTransactions);
    }
  }

  /** `reduce((prev, current) => prev.countTransactions >
      current.countTransactions ? prev : current, best)`: the current
      category replaces the best so far unless the best has strictly more
      transactions. */
  function MostUsedFold(cs: seq<UiCategory>, best: UiCategory): (r: UiCategory)
    ensures r == best || r in cs
    ensures r.countTransactions >= best.countTransactions
    ensures forall c :: c in cs ==> r.countTransactions >= c.countTransactions
  {
    if cs == [] then best
    else
      var next := if best.countTransactions > cs[0].countTransactions then best else cs[0];
      var r := MostUsedFold(cs[1..], next);
      assert forall c :: c in cs ==> c == cs[0] || c in cs[1..];
      r
  }

  /** Position `i` holds a largest count, and every later position holds a
      strictly smaller one: `cs[i]` is the last category with the largest
      count. */
  predicate IsLastMax(cs: seq<UiCategory>, i: int) {
    && 0 <= i < |cs|
    && (forall k :: 0 <= k < |cs| ==> cs[k].countTransactions <= cs[i].countTransactions)
    && (forall k :: i < k < |cs| ==> cs[k].countTransactions < cs[i].countTransactions)
  }

  /** The head is the last largest when every later count is smaller. */
  lemma LastMaxAtHead(cs: seq<UiCategory>)
    requires cs != []
    requires forall k :: 0 <= k < |cs[1..]| ==> cs[1..][k].countTransactions < cs[0].countTransactions
    ensures IsLastMax(cs, 0)
  {
    forall k | 0 < k < |cs| ensures cs[k].countTransactions < cs[0].countTransactions {
      assert cs[k] == cs[1..][k - 1];
    }
  }

  /** The last largest of the tail is the last largest of the whole list
      when the head's count does not exceed it. */
  lemma LastMaxOfTail(cs: seq<UiCategory>, j: int)
    requires cs != [] && IsLastMax(cs[1..], j)
    requires cs[0].countTransactions <= cs[1..][j].countTransactions
    ensures IsLastMax(cs, j + 1) && cs[j + 1] == cs[1..][j]
  {
    var tail := cs[1..];
    forall k | 0 < k < |cs| ensures cs[k] == tail[k - 1] {
    }
  }

  /** The fold keeps its starting value only when that beats every count;
      otherwise it ends on the last category with the largest count. */
  lemma {:induction false} MostUsedFoldIsLastMax(cs: seq<UiCategory>, best: UiCategory)
    ensures var r := MostUsedFold(cs, best);
            || (r == best && forall k :: 0 <= k < |cs| ==> cs[k].countTransactions < best.countTransactions)
            || (exists i :: IsLastMax(cs, i) && r == cs[i] && cs[i].countTransactions >= best.countTransactions)
  {
    if cs != [] {
      var replaced := !(best.countTransactions > cs[0].countTransactions);
      var next := if replaced then cs[0] else best;
      var tail := cs[1..];
      MostUsedFoldIsLastMax(tail, next);
      var r := MostUsedFold(tail, next);
      assert r == MostUsedFold(cs, best);
      if r == next && forall k :: 0 <= k < |tail| ==> tail[k].countTransactions < next.countTransactions {
        if replaced {
          LastMaxAtHead(cs);
        } else {
          forall k | 0 < k < |cs| ensures cs[k].countTransactions < best.countTransactions {
            assert cs[k] == tail[k - 1];
          }
        }
      } else {
        var j :| IsLastMax(tail, j) && r == tail[j] && tail[j].countTransactions >= next.countTransactions;
        LastMaxOfTail(cs, j);
      }
    }
  }

  /** The three summary cards. */
  datatype CategorySummary = CategorySummary(
    totalCategories: nat,
    totalTransactions: int,
    mostUsedCategory: Option<UiCategory>)

  /** `totalCategories`, `totalTransactions` and `mostUsedCategory`: the
      list's length, the sum of its counts, and, unless the list is empty,
      the category with the most transactions. */
  function Summarize(categories: seq<UiCategory>): (s: CategorySummary)
    ensures s.totalCategories == |categories|
    ensures s.totalTransactions == SumCounts(categories)
    ensures s.mostUsedCategory.None? <==> categories == []
    ensures s.mostUsedCategory.Some? ==>
              && s.mostUsedCategory.value in categories
              && forall c :: c in categories ==> s.mostUsedCategory.value.countTransactions >= c.countTransactions
  {
    SumFoldIsSum(categories, 0);
    CategorySummary(
      |categories|,
      SumFold(categories, 0),
      if |categories| > 0 then Some(MostUsedFold(categories, categories[0])) else None)
  }

  /** On ties the later category wins: the most used category is the last
      one with the largest count. */
  lemma {:induction false} MostUsedIsLastMax(categories: seq<UiCategory>)
    requires categories != []
    ensures exists i :: IsLastMax(categories, i) && Summarize(categories).mostUsedCategory == Some(categories[i])
  {
    MostUsedFoldIsLastMax(categories, categories[0]);
    assert !(categories[0].countTransactions < categories[0].countTransactions);
  }

  /** Two categories with the same count: the second is the most used. */
  lemma TieGoesToLater(a: UiCategory, b: UiCategory)
    requires a.countTransactions == b.countTransactions
    ensures Summarize([a, b]).mostUsedCategory == Some(b)
  {
    assert [a, b][1..] == [b];
    assert MostUsedFold([a, b], a) == MostUsedFold([b], a);
    assert MostUsedFold([b], a) == MostUsedFold([], b);
  }
}

/** The `orderBy: { date: "desc" }` of the paged query: newest first. Rows
    with equal dates keep their table order. */
module DateOrder {
  import opened Entities

  /** Dates never increase along `s`. */
  predicate NewestFirst(s: seq<Transaction>) {
    forall i, j :: 0 <= i < j < |s| ==> s[i].date >= s[j].date
  }

  /** A row no older than every row of a newest-first list can go in front. */
  lemma ConsNewestFirst(x: Transaction, s: seq<Transaction>)
    requires NewestFirst(s)
    requires forall y :: y in s ==> x.date >= y.date
    ensures NewestFirst([x] + s)
  {
    var r := [x] + s;
    forall i, j | 0 <= i < j < |r| ensures r[i].date >= r[j].date {
      assert r[j] == s[j - 1];
      if i > 0 {
        assert r[i] == s[i - 1];
      } else {
        assert s[j - 1] in s;
      }
    }
  }

  /** The head of a newest-first list is no older than any of its rows. */
  lemma HeadIsNewest(s: seq<Transaction>)
    requires s != [] && NewestFirst(s)
    ensures forall y :: y in s ==> s[0].date >= y.date
  {
    forall y | y in s ensures s[0].date >= y.date {
      var k :| 0 <= k < |s| && s[k] == y;
    }
  }

  /** Puts `t` before the first row that is not newer than it. */
  function InsertByDate(t: Transaction, s: seq<Transaction>): (r: seq<Transaction>)
    ensures multiset(r) == multiset(s) + multiset{t}
  {
    if s == [] then [t]
    else if t.date >= s[0].date then [t] + s
    else
      assert s == [s[0]] + s[1..];
      [s[0]] + InsertByDate(t, s[1..])
  }

  /** Inserting into a newest-first list keeps it newest first. */
  lemma {:induction false} InsertByDateKeepsOrder(t: Transaction, s: seq<Transaction>)
    requires NewestFirst(s)
    ensures NewestFirst(InsertByDate(t, s))
  {
    if s != [] {
      HeadIsNewest(s);
      if t.date >= s[0].date {
        ConsNewestFirst(t, s);
      } else {
        var rest := InsertByDate(t, s[1..]);
        InsertByDateKeepsOrder(t, s[1..]);
        forall y | y in rest ensures s[0].date >= y.date {
          assert y in multiset(rest);
          if y != t {
            assert y in s[1..];
          }
        }
        ConsNewestFirst(s[0], rest);
      }
    }
  }

  /** The rows of `s`, newest first: the same rows, rearranged. */
  function SortByDateDesc(s: seq<Transaction>): (r: seq<Transaction>)
    ensures NewestFirst(r)
    ensures multiset(r) == multiset(s)
    ensures |r| == |s|
  {
    if s == [] then []
    else
      assert s == [s[0]] + s[1..];
      InsertByDateKeepsOrder(s[0], SortByDateDesc(s[1..]));
      InsertByDate(s[0], SortByDateDesc(s[1..]))
  }
}

/** The persistence layer, replaced by in-memory tables. Each table is a
    sequence of rows in insertion order; `findUnique` is a lookup on a
    unique key. */
module Database {
  import opened Wrappers
  import opened Seqs
  import opened Entities

  /** No two rows of `s` share a key (a unique column). */
  ghost predicate KeysDistinct<T, K>(s: seq<T>, key: T -> K) {
    forall i, j :: 0 <= i < j < |s| ==> key(s[i]) != key(s[j])
  }

  /** Removing the row at position `k` of a table with a unique key drops
      exactly the rows with that row's key, which is that row alone. */
  lemma RemoveAtDropsOnlyItsKey<T, K>(s: seq<T>, k: nat, key: T -> K)
    requires k < |s| && KeysDistinct(s, key)
    ensures |s[..k] + s[k + 1..]| == |s| - 1
    ensures forall x :: x in s[..k] + s[k + 1..] <==> x in s && key(x) != key(s[k])
  {
    var rest := s[..k] + s[k + 1..];
    forall x ensures x in rest <==> x in s && key(x) != key(s[k]) {
      if x in rest {
        var j :| 0 <= j < |rest| && rest[j] == x;
        if j < k {
          assert x == s[j];
        } else {
          assert x == s[j + 1];
        }
      }
      if x in s && key(x) != key(s[k]) {
        var j :| 0 <= j < |s| && s[j] == x;
        if j < k {
          assert rest[j] == x;
        } else {
          assert j != k;
          assert rest[j - 1] == x;
        }
      }
    }
  }

  class Database {
    var users: seq<User>
    var categories: seq<Category>
    var transactions: seq<Transaction>

    /** The unique constraints: ids in every table, and users' emails. */
    ghost predicate Valid()
      reads this
    {
      && KeysDistinct(users, (u: User) => u.id)
      && KeysDistinct(users, (u: User) => u.email)
      && KeysDistinct(categories, (c: Category) => c.id)
      && KeysDistinct(transactions, (t: Transaction) => t.id)
    }

    constructor ()
      ensures Valid()
      ensures users == [] && categories == [] && transactions == []
    {
      users, categories, transactions := [], [], [];
    }

    /** The position of the transaction with id `id`, if there is one. */
    function TransactionIndex(id: Id): (r: Option<nat>)
      reads this
      ensures r.Some? ==> r.value < |transactions| && transactions[r.value].id == id
      ensures r.None? <==> forall t :: t in transactions ==> t.id != id
    {
      FirstIndex(transactions, (t: Transaction) => t.id == id)
    }

    /** `prisma.transaction.findUnique({ where: { id } })`. */
    function FindTransaction(id: Id): (r: Option<Transaction>)
      reads this
      ensures r.Some? ==> r.value in transactions && r.value.id == id
      ensures r.None? <==> forall t :: t in transactions ==> t.id != id
    {
      match TransactionIndex(id)
      case None => None
      case Some(i) => Some(transactions[i])
    }

    /** The position of the category with id `id`, if there is one. */
    function CategoryIndex(id: Id): (r: Option<nat>)
      reads this
      ensures r.Some? ==> r.value < |categories| && categories[r.value].id == id
      ensures r.None? <==> forall c :: c in categories ==> c.id != id
    {
      FirstIndex(categories, (c: Category) => c.id == id)
    }

    /** `prisma.category.findUnique({ where: { id } })`. */
    function FindCategory(id: Id): (r: Option<Category>)
      reads this
      ensures r.Some? ==> r.value in categories && r.value.id == id
      ensures r.None? <==> forall c :: c in categories ==> c.id != id
    {
      match CategoryIndex(id)
      case None => None
      case Some(i) => Some(categories[i])
    }

    /** `prisma.user.findUnique({ where: { email } })`. */
    function FindUserByEmail(email: string): (r: Option<User>)
      reads this
      ensures r.Some? ==> r.value in users && r.value.email == email
      ensures r.None? <==> forall u :: u in users ==> u.email != email
    {
      Find(users, (u: User) => u.email == email)
    }
  }
}

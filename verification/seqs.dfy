/** Sequence operations shared by the services and the pages: a filter
    (`Array.prototype.filter`, or `findMany` with a `where`), a count
    (`count` with the same `where`), `find`, substring search (`includes`,
    Prisma's `contains`) and a first-occurrence de-duplication. */
module Seqs {
  import opened Wrappers

  // ---------------------------------------------------------------------
  // Filtering and counting

  /** The elements of `s` that satisfy `p`, in their original order. */
  function Select<T(!new)>(s: seq<T>, p: T -> bool): (r: seq<T>)
    ensures |r| <= |s|
    ensures forall x :: x in r <==> x in s && p(x)
  {
    if s == [] then []
    else
      var rest := Select(s[1..], p);
      assert forall x :: x in s <==> x == s[0] || x in s[1..];
      if p(s[0]) then [s[0]] + rest else rest
  }

  /** Filtering depends only on which elements satisfy the predicate. */
  lemma {:induction false} SelectCongruent<T(!new)>(s: seq<T>, p: T -> bool, q: T -> bool)
    requires forall x :: x in s ==> (p(x) <==> q(x))
    ensures Select(s, p) == Select(s, q)
  {
    if s != [] {
      SelectCongruent(s[1..], p, q);
    }
  }

  /** A filter that every element passes keeps the whole sequence. */
  lemma {:induction false} SelectAll<T(!new)>(s: seq<T>, p: T -> bool)
    requires forall x :: x in s ==> p(x)
    ensures Select(s, p) == s
  {
    if s != [] {
      SelectAll(s[1..], p);
    }
  }

  /** `r` is `s` with some elements left out and the rest kept in order:
      `idx` picks, for each element of `r`, its position in `s`. */
  ghost predicate IsSubsequence<T>(r: seq<T>, s: seq<T>) {
    exists idx: seq<nat> :: PicksFrom(idx, r, s)
  }

  ghost predicate PicksFrom<T>(idx: seq<nat>, r: seq<T>, s: seq<T>) {
    && |idx| == |r|
    && (forall k :: 0 <= k < |idx| ==> idx[k] < |s| && r[k] == s[idx[k]])
    && (forall k, l :: 0 <= k < l < |idx| ==> idx[k] < idx[l])
  }

  function ShiftAll(idx: seq<nat>): (r: seq<nat>)
    ensures |r| == |idx| && forall k :: 0 <= k < |idx| ==> r[k] == idx[k] + 1
  {
    if idx == [] then [] else [idx[0] + 1] + ShiftAll(idx[1..])
  }

  /** Positions picked from `s[1..]`, shifted by one, pick the same
      elements from `s`; putting position 0 first also picks `s[0]`. */
  lemma ShiftPicks<T>(idx: seq<nat>, r: seq<T>, s: seq<T>)
    requires s != [] && PicksFrom(idx, r, s[1..])
    ensures PicksFrom(ShiftAll(idx), r, s)
    ensures PicksFrom([0] + ShiftAll(idx), [s[0]] + r, s)
  {
    var shifted := ShiftAll(idx);
    forall k | 0 <= k < |shifted| ensures shifted[k] < |s| && r[k] == s[shifted[k]] {
      assert s[1..][idx[k]] == s[idx[k] + 1];
    }
    var picks := [0] + shifted;
    forall k | 0 <= k < |picks| ensures picks[k] < |s| && ([s[0]] + r)[k] == s[picks[k]] {
      if k > 0 {
        assert picks[k] == shifted[k - 1];
      }
    }
  }

  /** Filtering keeps the survivors in their original order. */
  lemma {:induction false} SelectIsSubsequence<T(!new)>(s: seq<T>, p: T -> bool)
    ensures IsSubsequence(Select(s, p), s)
  {
    if s == [] {
      assert PicksFrom([], Select(s, p), s);
    } else {
      SelectIsSubsequence(s[1..], p);
      var rest := Select(s[1..], p);
      var idx :| PicksFrom(idx, rest, s[1..]);
      ShiftPicks(idx, rest, s);
      if p(s[0]) {
        assert Select(s, p) == [s[0]] + rest;
        assert PicksFrom([0] + ShiftAll(idx), Select(s, p), s);
      } else {
        assert Select(s, p) == rest;
        assert PicksFrom(ShiftAll(idx), Select(s, p), s);
      }
    }
  }

  /** How many elements of `s` satisfy `p`. */
  function Count<T>(s: seq<T>, p: T -> bool): nat {
    if s == [] then 0 else (if p(s[0]) then 1 else 0) + Count(s[1..], p)
  }

  /** Counting with a predicate agrees with filtering with it. */
  lemma {:induction false} CountIsSizeOfSelect<T(!new)>(s: seq<T>, p: T -> bool)
    ensures Count(s, p) == |Select(s, p)|
  {
    if s != [] {
      CountIsSizeOfSelect(s[1..], p);
    }
  }

  // ---------------------------------------------------------------------
  // Searching

  /** The position of the first element satisfying `p` (`findIndex`). */
  function FirstIndex<T>(s: seq<T>, p: T -> bool): (r: Option<nat>)
    ensures r.Some? ==> r.value < |s| && p(s[r.value])
    ensures r.Some? ==> forall j :: 0 <= j < r.value ==> !p(s[j])
    ensures r.None? <==> forall j :: 0 <= j < |s| ==> !p(s[j])
  {
    if s == [] then None
    else if p(s[0]) then Some(0)
    else
      match FirstIndex(s[1..], p)
      case None => None
      case Some(i) => Some(i + 1)
  }

  /** The first element satisfying `p`, if any (`Array.prototype.find`). */
  function Find<T(!new)>(s: seq<T>, p: T -> bool): (r: Option<T>)
    ensures r.Some? ==> r.value in s && p(r.value)
    ensures r.None? <==> forall x :: x in s ==> !p(x)
    ensures r.Some? ==> exists i :: 0 <= i < |s| && s[i] == r.value && forall j :: 0 <= j < i ==> !p(s[j])
  {
    match FirstIndex(s, p)
    case None => None
    case Some(i) => Some(s[i])
  }

  // ---------------------------------------------------------------------
  // Substrings

  /** `sub` occurs in `s` starting at position `i`. */
  predicate OccursAt<T(==)>(s: seq<T>, sub: seq<T>, i: int) {
    0 <= i && i + |sub| <= |s| && s[i..i + |sub|] == sub
  }

  /** Substring search, scanning left to right (`String.prototype.includes`;
      Prisma's `contains` filter). */
  predicate Contains<T(==)>(s: seq<T>, sub: seq<T>) {
    sub <= s || (s != [] && Contains(s[1..], sub))
  }

  /** The scan finds `sub` exactly when it occurs at some position. */
  lemma {:induction false} ContainsIffOccurs<T>(s: seq<T>, sub: seq<T>)
    ensures Contains(s, sub) <==> exists i :: OccursAt(s, sub, i)
  {
    if sub <= s {
      assert OccursAt(s, sub, 0);
    } else if s == [] {
      assert forall i :: !OccursAt(s, sub, i);
    } else {
      ContainsIffOccurs(s[1..], sub);
      assert !OccursAt(s, sub, 0);
      forall i | OccursAt(s[1..], sub, i) ensures OccursAt(s, sub, i + 1) {
        assert s[1..][i..i + |sub|] == s[i + 1..i + 1 + |sub|];
      }
      forall i | OccursAt(s, sub, i) ensures OccursAt(s[1..], sub, i - 1) {
        assert i != 0;
        assert s[1..][i - 1..i - 1 + |sub|] == s[i..i + |sub|];
      }
    }
  }

  // ---------------------------------------------------------------------
  // First-occurrence de-duplication

  /** Some element of `s` has key `k`. */
  predicate HasKey<T, K(==)>(s: seq<T>, key: T -> K, k: K) {
    exists i :: 0 <= i < |s| && key(s[i]) == k
  }

  /** Walk `s` left to right and keep an element only when no element kept
      so far has its key. */
  function DedupBy<T, K(==)>(s: seq<T>, key: T -> K): seq<T>
    decreases |s|
  {
    if s == [] then []
    else
      var kept := DedupBy(s[..|s| - 1], key);
      if HasKey(kept, key, key(s[|s| - 1])) then kept else kept + [s[|s| - 1]]
  }

  /** One more step of the walk over `s`: the element at `i` is kept exactly
      when no kept element has its key. */
  lemma DedupByStep<T, K>(s: seq<T>, i: nat, key: T -> K)
    requires i < |s|
    ensures var kept := DedupBy(s[..i], key);
            && ((exists k :: 0 <= k < |kept| && key(kept[k]) == key(s[i])) ==> DedupBy(s[..i + 1], key) == kept)
            && ((forall k :: 0 <= k < |kept| ==> key(kept[k]) != key(s[i])) ==> DedupBy(s[..i + 1], key) == kept + [s[i]])
  {
    assert s[..i + 1][..i] == s[..i];
  }

  /** The position in `s` of the first element with key `k`. */
  ghost function FirstKeyIndex<T, K>(s: seq<T>, key: T -> K, k: K): (i: nat)
    requires HasKey(s, key, k)
    ensures i < |s| && key(s[i]) == k
    ensures forall j :: 0 <= j < i ==> key(s[j]) != k
  {
    if key(s[0]) == k then 0
    else
      assert HasKey(s[1..], key, k) by {
        var i :| 0 <= i < |s| && key(s[i]) == k;
        assert s[1..][i - 1] == s[i];
      }
      1 + FirstKeyIndex(s[1..], key, k)
  }

  /** `r` lists one element per key of `s`, each the first one in `s` with
      that key, in the order those first occurrences appear in `s`. */
  ghost predicate FirstOccurrences<T, K>(r: seq<T>, s: seq<T>, key: T -> K) {
    && (forall i, j :: 0 <= i < j < |r| ==> key(r[i]) != key(r[j]))
    && (forall x :: x in s ==> HasKey(r, key, key(x)))
    && (forall i :: 0 <= i < |r| ==> HasKey(s, key, key(r[i])) && r[i] == s[FirstKeyIndex(s, key, key(r[i]))])
    && (forall i, j :: 0 <= i < j < |r| ==>
          FirstKeyIndex(s, key, key(r[i])) < FirstKeyIndex(s, key, key(r[j])))
  }

  lemma FirstKeyIndexOfPrefix<T, K>(s: seq<T>, m: nat, key: T -> K, k: K)
    requires m <= |s| && HasKey(s[..m], key, k)
    ensures HasKey(s, key, k) && FirstKeyIndex(s, key, k) == FirstKeyIndex(s[..m], key, k)
  {
    var b := FirstKeyIndex(s[..m], key, k);
    assert s[..m][b] == s[b];
    forall j | 0 <= j < b ensures key(s[j]) != k {
      assert s[..m][j] == s[j];
    }
  }

  /** Keys found in a prefix are first found at the same position in the
      whole sequence. */
  lemma PrefixFirstIndices<T, K>(s: seq<T>, m: nat, r: seq<T>, key: T -> K)
    requires m <= |s| && forall i :: 0 <= i < |r| ==> HasKey(s[..m], key, key(r[i]))
    ensures forall i :: 0 <= i < |r| ==>
              HasKey(s, key, key(r[i])) && FirstKeyIndex(s, key, key(r[i])) == FirstKeyIndex(s[..m], key, key(r[i]))
  {
    forall i | 0 <= i < |r|
      ensures HasKey(s, key, key(r[i])) && FirstKeyIndex(s, key, key(r[i])) == FirstKeyIndex(s[..m], key, key(r[i]))
    {
      FirstKeyIndexOfPrefix(s, m, key, key(r[i]));
    }
  }

  /** A last element whose key is already kept adds nothing. */
  lemma FirstOccurrencesOldKey<T, K>(s: seq<T>, kept: seq<T>, key: T -> K)
    requires s != [] && FirstOccurrences(kept, s[..|s| - 1], key)
    requires HasKey(kept, key, key(s[|s| - 1]))
    ensures FirstOccurrences(kept, s, key)
  {
    var n := |s| - 1;
    PrefixFirstIndices(s, n, kept, key);
    forall x | x in s ensures HasKey(kept, key, key(x)) {
      var k :| 0 <= k < |s| && s[k] == x;
      if k < n {
        assert s[..n][k] == x;
      }
    }
  }

  /** A key absent before the last position is first found there. */
  lemma FirstKeyAtEnd<T, K>(s: seq<T>, key: T -> K)
    requires s != [] && !HasKey(s[..|s| - 1], key, key(s[|s| - 1]))
    ensures HasKey(s, key, key(s[|s| - 1])) && FirstKeyIndex(s, key, key(s[|s| - 1])) == |s| - 1
  {
    var n := |s| - 1;
    forall j | 0 <= j < n ensures key(s[j]) != key(s[n]) {
      assert s[..n][j] == s[j];
    }
  }

  /** Appending the last element keeps every key of `s` covered. */
  lemma AppendCovers<T, K>(s: seq<T>, kept: seq<T>, key: T -> K)
    requires s != [] && forall x :: x in s[..|s| - 1] ==> HasKey(kept, key, key(x))
    ensures forall x :: x in s ==> HasKey(kept + [s[|s| - 1]], key, key(x))
  {
    var n := |s| - 1;
    var r := kept + [s[n]];
    forall x | x in s ensures HasKey(r, key, key(x)) {
      var k :| 0 <= k < |s| && s[k] == x;
      if k < n {
        assert s[..n][k] == x;
        var j :| 0 <= j < |kept| && key(kept[j]) == key(x);
        assert r[j] == kept[j];
      } else {
        assert r[|r| - 1] == x;
      }
    }
  }

  /** A last element with a new key: it is first found at the end, and
      every key of `s` is a key of the list with it appended. */
  lemma NewKeyCovers<T, K>(s: seq<T>, kept: seq<T>, key: T -> K)
    requires s != [] && forall x :: x in s[..|s| - 1] ==> HasKey(kept, key, key(x))
    requires !HasKey(kept, key, key(s[|s| - 1]))
    ensures HasKey(s, key, key(s[|s| - 1])) && FirstKeyIndex(s, key, key(s[|s| - 1])) == |s| - 1
    ensures forall x :: x in s ==> HasKey(kept + [s[|s| - 1]], key, key(x))
  {
    var n := |s| - 1;
    assert !HasKey(s[..n], key, key(s[n]));
    FirstKeyAtEnd(s, key);
    AppendCovers(s, kept, key);
  }

  /** A last element with a new key is appended, and its key is first found
      at the end. */
  lemma FirstOccurrencesNewKey<T, K>(s: seq<T>, kept: seq<T>, key: T -> K)
    requires s != [] && FirstOccurrences(kept, s[..|s| - 1], key)
    requires !HasKey(kept, key, key(s[|s| - 1]))
    ensures FirstOccurrences(kept + [s[|s| - 1]], s, key)
  {
    var n := |s| - 1;
    var init, last := s[..n], s[n];
    var r := kept + [last];
    PrefixFirstIndices(s, n, kept, key);
    NewKeyCovers(s, kept, key);
    forall i | 0 <= i < |r|
      ensures HasKey(s, key, key(r[i])) && r[i] == s[FirstKeyIndex(s, key, key(r[i]))]
    {
      if i < |kept| {
        assert r[i] == kept[i] && init[FirstKeyIndex(init, key, key(kept[i]))] == s[FirstKeyIndex(init, key, key(kept[i]))];
      }
    }
    forall i, j | 0 <= i < j < |r|
      ensures key(r[i]) != key(r[j])
      ensures FirstKeyIndex(s, key, key(r[i])) < FirstKeyIndex(s, key, key(r[j]))
    {
      assert r[i] == kept[i];
      if j < |kept| {
        assert r[j] == kept[j];
      } else {
        assert r[j] == last;
        assert FirstKeyIndex(init, key, key(kept[i])) < n;
      }
    }
  }

  /** The walk keeps exactly the first occurrence of every key, in order. */
  lemma {:induction false} DedupByFirstOccurrences<T, K>(s: seq<T>, key: T -> K)
    ensures FirstOccurrences(DedupBy(s, key), s, key)
    decreases |s|
  {
    if s != [] {
      var init := s[..|s| - 1];
      DedupByFirstOccurrences(init, key);
      if HasKey(DedupBy(init, key), key, key(s[|s| - 1])) {
        FirstOccurrencesOldKey(s, DedupBy(init, key), key);
      } else {
        FirstOccurrencesNewKey(s, DedupBy(init, key), key);
      }
    }
  }
}

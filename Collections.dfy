/**
 * The handful of Kotlin list operations the feed and detail screens rely on:
 * `indexOfFirst`, `firstOrNull`/`find`, replacing the first or every element with a
 * given id, the set of ids of a list, and reversal. Elements are identified by an
 * integer key, so the same definitions serve notes and comments.
 */
module Collections {

  /** Kotlin's nullable value. */
  datatype Option<+T> = None | Some(value: T)

  /** `indexOfFirst { key(it) == k }`: the first index whose key is k, or -1. */
  function IndexOfFirst<T>(s: seq<T>, key: T -> int, k: int): (r: int)
    ensures -1 <= r < |s|
    ensures r == -1 <==> forall i :: 0 <= i < |s| ==> key(s[i]) != k
    ensures r >= 0 ==> key(s[r]) == k && forall i :: 0 <= i < r ==> key(s[i]) != k
  {
    if s == [] then -1
    else if key(s[0]) == k then 0
    else
      var r := IndexOfFirst(s[1..], key, k);
      if r == -1 then -1 else r + 1
  }

  /** `firstOrNull { key(it) == k }` (also `find`): the first element with key k, if any. */
  function FirstOrNone<T>(s: seq<T>, key: T -> int, k: int): (r: Option<T>)
    ensures r.None? <==> IndexOfFirst(s, key, k) == -1
    ensures r.Some? ==> r.value == s[IndexOfFirst(s, key, k)]
  {
    if s == [] then None
    else if key(s[0]) == k then Some(s[0])
    else FirstOrNone(s[1..], key, k)
  }

  /** The set of keys occurring in s. */
  function KeySet<T>(s: seq<T>, key: T -> int): set<int>
  {
    set i | 0 <= i < |s| :: key(s[i])
  }

  /** No key occurs twice in s. */
  predicate DistinctKeys<T>(s: seq<T>, key: T -> int)
  {
    forall i, j :: 0 <= i < j < |s| ==> key(s[i]) != key(s[j])
  }

  /**
   * Indexed replacement of the first element carrying x's key:
   * `val i = indexOfFirst { it.id == x.id }; if (i != -1) list[i] = x`.
   */
  function ReplaceFirst<T>(s: seq<T>, key: T -> int, x: T): (r: seq<T>)
    ensures |r| == |s|
    ensures forall i :: 0 <= i < |s| ==> key(r[i]) == key(s[i])
    ensures IndexOfFirst(s, key, key(x)) == -1 ==> r == s
    ensures IndexOfFirst(s, key, key(x)) >= 0 ==>
      && r[IndexOfFirst(s, key, key(x))] == x
      && forall i :: 0 <= i < |s| && i != IndexOfFirst(s, key, key(x)) ==> r[i] == s[i]
  {
    var i := IndexOfFirst(s, key, key(x));
    if i == -1 then s else s[i := x]
  }

  /** `map { if (key(it) == key(x)) x else it }`: every element with x's key becomes x. */
  function ReplaceEvery<T>(s: seq<T>, key: T -> int, x: T): (r: seq<T>)
    ensures |r| == |s|
    ensures forall i :: 0 <= i < |s| ==> r[i] == if key(s[i]) == key(x) then x else s[i]
  {
    if s == [] then []
    else [if key(s[0]) == key(x) then x else s[0]] + ReplaceEvery(s[1..], key, x)
  }

  /** The elements of s in the opposite order. */
  function Reversed<T>(s: seq<T>): (r: seq<T>)
    ensures |r| == |s|
  {
    if s == [] then [] else [s[|s| - 1]] + Reversed(s[..|s| - 1])
  }

  /** A non-empty list is its front followed by its last element. */
  lemma SplitLast<T>(s: seq<T>)
    requires s != []
    ensures s == s[..|s| - 1] + [s[|s| - 1]]
  {
  }

  /** Index i of the reversal holds the element at the mirror position. */
  lemma {:induction false} ReversedAt<T>(s: seq<T>)
    ensures forall i :: 0 <= i < |s| ==> Reversed(s)[i] == s[|s| - 1 - i]
  {
    if s != [] {
      ReversedAt(s[..|s| - 1]);
    }
  }

  /** Reversal keeps the elements: the same multiset, so the same members. */
  lemma {:induction false} ReversedMultiset<T>(s: seq<T>)
    ensures multiset(Reversed(s)) == multiset(s)
    ensures forall x {:trigger x in s} :: x in Reversed(s) <==> x in s
  {
    if s != [] {
      ReversedMultiset(s[..|s| - 1]);
      assert s == s[..|s| - 1] + [s[|s| - 1]];
    }
  }

  lemma ReversedSnoc<T>(s: seq<T>, x: T)
    ensures Reversed(s + [x]) == [x] + Reversed(s)
  {
    assert (s + [x])[..|s|] == s;
  }

  /** Reversing a list with x put in front puts x last. */
  lemma {:induction false} ReversedCons<T>(x: T, s: seq<T>)
    ensures Reversed([x] + s) == Reversed(s) + [x]
  {
    if s != [] {
      var front := s[..|s| - 1];
      assert ([x] + s)[..|s|] == [x] + front;
      ReversedCons(x, front);
    }
  }

  /** The keys of a list with one more element at the end. */
  lemma KeySetSnoc<T>(s: seq<T>, key: T -> int)
    requires s != []
    ensures KeySet(s, key) == KeySet(s[..|s| - 1], key) + {key(s[|s| - 1])}
  {
    var front := s[..|s| - 1];
    forall k | k in KeySet(s, key) ensures k in KeySet(front, key) + {key(s[|s| - 1])} {
      var i :| 0 <= i < |s| && key(s[i]) == k;
      if i < |front| {
        assert front[i] == s[i];
      }
    }
    forall k | k in KeySet(front, key) ensures k in KeySet(s, key) {
      var i :| 0 <= i < |front| && key(front[i]) == k;
      assert s[i] == front[i];
    }
  }

  /** indexOfFirst depends on the keys only: lists with the same key at every index agree. */
  lemma {:induction false} IndexOfFirstSameKeys<T>(s: seq<T>, t: seq<T>, key: T -> int, k: int)
    requires |s| == |t|
    requires forall i :: 0 <= i < |s| ==> key(s[i]) == key(t[i])
    ensures IndexOfFirst(s, key, k) == IndexOfFirst(t, key, k)
  {
    if s != [] && key(s[0]) != k {
      IndexOfFirstSameKeys(s[1..], t[1..], key, k);
    }
  }

  /** After ReplaceFirst, looking x's key up again finds x, at the same index as before. */
  lemma ReplaceFirstThenLookup<T>(s: seq<T>, key: T -> int, x: T)
    requires IndexOfFirst(s, key, key(x)) >= 0
    ensures IndexOfFirst(ReplaceFirst(s, key, x), key, key(x)) == IndexOfFirst(s, key, key(x))
    ensures FirstOrNone(ReplaceFirst(s, key, x), key, key(x)) == Some(x)
  {
    IndexOfFirstSameKeys(s, ReplaceFirst(s, key, x), key, key(x));
  }

  /** Writing back the element that is already first with its key changes nothing. */
  lemma ReplaceFirstWithOwnEntry<T>(s: seq<T>, key: T -> int, x: T)
    requires IndexOfFirst(s, key, key(x)) >= 0 && s[IndexOfFirst(s, key, key(x))] == x
    ensures ReplaceFirst(s, key, x) == s
  {
  }

  /** Replacing by id is idempotent, and keeps every index's key. */
  lemma ReplaceEveryIdempotent<T>(s: seq<T>, key: T -> int, x: T)
    ensures ReplaceEvery(ReplaceEvery(s, key, x), key, x) == ReplaceEvery(s, key, x)
    ensures KeySet(ReplaceEvery(s, key, x), key) == KeySet(s, key)
  {
    var r := ReplaceEvery(s, key, x);
    assert forall i :: 0 <= i < |s| ==> key(r[i]) == key(s[i]);
    assert KeySet(r, key) == KeySet(s, key) by {
      forall k | k in KeySet(s, key) ensures k in KeySet(r, key) {
        var i :| 0 <= i < |s| && key(s[i]) == k;
        assert key(r[i]) == k;
      }
    }
  }
}

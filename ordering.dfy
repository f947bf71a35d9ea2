/** `ORDER BY <column> DESC`: a permutation of the rows whose key never increases. */
module Ordering {

  /** Every row comes no later (by `key`) than the rows before it. */
  ghost predicate NonIncreasing<T>(s: seq<T>, key: T -> int)
  {
    forall i, j :: 0 <= i < j < |s| ==> key(s[i]) >= key(s[j])
  }

  /** Puts `x` into a sequence ahead of the first row with a key not above its own. */
  function Insert<T>(x: T, s: seq<T>, key: T -> int): seq<T>
  {
    if s == [] then [x]
    else if key(x) >= key(s[0]) then [x] + s
    else [s[0]] + Insert(x, s[1..], key)
  }

  /** Inserting into a non-increasing sequence keeps it non-increasing; the head is `x` or the old head. */
  lemma {:induction false} InsertKeepsOrder<T>(x: T, s: seq<T>, key: T -> int)
    requires NonIncreasing(s, key)
    ensures NonIncreasing(Insert(x, s, key), key)
    ensures |Insert(x, s, key)| == |s| + 1
    ensures Insert(x, s, key)[0] == x || (|s| > 0 && Insert(x, s, key)[0] == s[0])
  {
    if s == [] {
    } else if key(x) >= key(s[0]) {
      ConsNonIncreasing(x, s, key);
    } else {
      var tail := s[1..];
      assert NonIncreasing(tail, key) by {
        forall i, j | 0 <= i < j < |tail| ensures key(tail[i]) >= key(tail[j]) {
          assert tail[i] == s[i + 1] && tail[j] == s[j + 1];
        }
      }
      InsertKeepsOrder(x, tail, key);
      var t := Insert(x, tail, key);
      assert key(s[0]) >= key(t[0]) by {
        if t[0] != x {
          assert t[0] == s[1] && key(s[0]) >= key(s[1]);
        }
      }
      ConsNonIncreasing(s[0], t, key);
    }
  }

  /** Inserting adds exactly `x` to the rows. */
  lemma {:induction false} InsertAddsOne<T>(x: T, s: seq<T>, key: T -> int)
    ensures multiset(Insert(x, s, key)) == multiset(s) + multiset{x}
  {
    if s != [] && key(x) < key(s[0]) {
      InsertAddsOne(x, s[1..], key);
      assert s == [s[0]] + s[1..];
      assert multiset(s) == multiset{s[0]} + multiset(s[1..]);
    }
  }

  /** A row with a key no smaller than the head's can go in front. */
  lemma ConsNonIncreasing<T>(h: T, t: seq<T>, key: T -> int)
    requires NonIncreasing(t, key)
    requires |t| > 0 ==> key(h) >= key(t[0])
    ensures NonIncreasing([h] + t, key)
  {
    var r := [h] + t;
    forall i, j | 0 <= i < j < |r| ensures key(r[i]) >= key(r[j]) {
      if i == 0 {
        assert r[j] == t[j - 1];
        assert key(t[0]) >= key(t[j - 1]) || j == 1;
      } else {
        assert r[i] == t[i - 1] && r[j] == t[j - 1];
      }
    }
  }

  /** Insertion sort, newest (largest key) first. Rows with equal keys may come in any order. */
  function SortDesc<T>(s: seq<T>, key: T -> int): seq<T>
  {
    if s == [] then [] else Insert(s[0], SortDesc(s[1..], key), key)
  }

  /** The sort yields a non-increasing sequence of the same length. */
  lemma {:induction false} SortDescOrders<T>(s: seq<T>, key: T -> int)
    ensures NonIncreasing(SortDesc(s, key), key)
    ensures |SortDesc(s, key)| == |s|
  {
    if s != [] {
      SortDescOrders(s[1..], key);
      InsertKeepsOrder(s[0], SortDesc(s[1..], key), key);
    }
  }

  /** The sort neither drops nor duplicates a row. */
  lemma {:induction false} SortDescPermutes<T>(s: seq<T>, key: T -> int)
    ensures multiset(SortDesc(s, key)) == multiset(s)
  {
    if s != [] {
      SortDescPermutes(s[1..], key);
      InsertAddsOne(s[0], SortDesc(s[1..], key), key);
      assert s == [s[0]] + s[1..];
    }
  }
}

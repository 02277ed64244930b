/**
 * The stable sort behind `List.sort` with a "descending by key" comparator,
 * as both the preset generator and the battle simulator use it: elements end
 * up in non-increasing key order, and elements with equal keys keep the
 * order they had in the input.
 */
module StableSort {

  /** A sort key compared lexicographically: primary first, secondary on ties. */
  datatype Key = Key(primary: real, secondary: real)

  /** `a` must come strictly before `b` in a descending order. */
  predicate Outranks(a: Key, b: Key)
  {
    a.primary > b.primary || (a.primary == b.primary && a.secondary > b.secondary)
  }

  /** No element is outranked by an element that comes after it. */
  ghost predicate NonIncreasing<T>(s: seq<T>, key: T -> Key)
  {
    forall i, j :: 0 <= i < j < |s| ==> !Outranks(key(s[j]), key(s[i]))
  }

  /** The elements of `s` whose key is exactly `k`, in their order in `s`. */
  function WithKey<T>(s: seq<T>, key: T -> Key, k: Key): seq<T>
  {
    if s == [] then []
    else if key(s[0]) == k then [s[0]] + WithKey(s[1..], key, k)
    else WithKey(s[1..], key, k)
  }

  /** Places `x` in front of the first element that does not outrank it. */
  function Insert<T>(x: T, s: seq<T>, key: T -> Key): (r: seq<T>)
    ensures multiset(r) == multiset(s) + multiset{x}
    ensures |r| == |s| + 1
  {
    if s == [] || !Outranks(key(s[0]), key(x)) then [x] + s
    else
      assert s == [s[0]] + s[1..];
      [s[0]] + Insert(x, s[1..], key)
  }

  /** Stable insertion sort into non-increasing key order. */
  function SortDescending<T>(s: seq<T>, key: T -> Key): (r: seq<T>)
    ensures multiset(r) == multiset(s)
    ensures |r| == |s|
  {
    if s == [] then []
    else
      assert s == [s[0]] + s[1..];
      Insert(s[0], SortDescending(s[1..], key), key)
  }

  lemma {:induction false} InsertNonIncreasing<T>(x: T, s: seq<T>, key: T -> Key)
    requires NonIncreasing(s, key)
    ensures NonIncreasing(Insert(x, s, key), key)
    decreases |s|
  {
    var r := Insert(x, s, key);
    if s == [] || !Outranks(key(s[0]), key(x)) {
      forall i, j | 0 <= i < j < |r| ensures !Outranks(key(r[j]), key(r[i])) {
        if i > 0 {
          assert r[i] == s[i - 1] && r[j] == s[j - 1];
        } else {
          assert r[j] == s[j - 1];
        }
      }
    } else {
      var t := Insert(x, s[1..], key);
      InsertNonIncreasing(x, s[1..], key);
      assert r == [s[0]] + t;
      forall i, j | 0 <= i < j < |r| ensures !Outranks(key(r[j]), key(r[i])) {
        if i == 0 {
          assert r[j] == t[j - 1];
          assert r[j] in multiset(t);
          if r[j] != x {
            assert r[j] in multiset(s[1..]);
            var m :| 0 <= m < |s[1..]| && s[1..][m] == r[j];
            assert s[m + 1] == r[j];
          }
        } else {
          assert r[i] == t[i - 1] && r[j] == t[j - 1];
        }
      }
    }
  }

  /** The sorted sequence is in non-increasing key order. */
  lemma {:induction false} SortIsNonIncreasing<T>(s: seq<T>, key: T -> Key)
    ensures NonIncreasing(SortDescending(s, key), key)
    decreases |s|
  {
    if s != [] {
      SortIsNonIncreasing(s[1..], key);
      InsertNonIncreasing(s[0], SortDescending(s[1..], key), key);
    }
  }

  lemma {:induction false} InsertKeepsTies<T>(x: T, s: seq<T>, key: T -> Key, k: Key)
    ensures WithKey(Insert(x, s, key), key, k) == WithKey([x] + s, key, k)
    decreases |s|
  {
    assert ([x] + s)[1..] == s;
    if s != [] && Outranks(key(s[0]), key(x)) {
      var t := Insert(x, s[1..], key);
      assert Insert(x, s, key) == [s[0]] + t;
      assert ([s[0]] + t)[1..] == t;
      InsertKeepsTies(x, s[1..], key, k);
      assert ([x] + s[1..])[1..] == s[1..];
      if key(x) == k {
        // s[0] outranks x, so its key is not k and it is dropped by WithKey.
        assert key(s[0]) != k;
      }
    }
  }

  /**
   * Stability: among the elements with any one key, the sorted sequence
   * lists exactly the input's elements in the input's order.
   */
  lemma {:induction false} SortKeepsTies<T>(s: seq<T>, key: T -> Key, k: Key)
    ensures WithKey(SortDescending(s, key), key, k) == WithKey(s, key, k)
    decreases |s|
  {
    if s != [] {
      SortKeepsTies(s[1..], key, k);
      InsertKeepsTies(s[0], SortDescending(s[1..], key), key, k);
      assert s == [s[0]] + s[1..];
    }
  }
}

/** Order-preserving selection from a sequence. */
module Sequences {

  /** `a` can be obtained from `b` by deleting elements, keeping the order of the rest. */
  predicate IsSubsequence<T(==)>(a: seq<T>, b: seq<T>)
    decreases |b|
  {
    if a == [] then true
    else if b == [] then false
    else (a[0] == b[0] && IsSubsequence(a[1..], b[1..])) || IsSubsequence(a, b[1..])
  }

  /** A non-empty sequence is its front followed by its last element. */
  lemma SplitLast<T>(s: seq<T>)
    requires s != []
    ensures s[..|s| - 1] + [s[|s| - 1]] == s
  {
  }

  lemma AppendAssoc<T>(a: seq<T>, b: seq<T>, c: seq<T>)
    ensures (a + b) + c == a + (b + c)
  {
  }

  /** A subsequence is no longer than the whole, and each of its elements is one of the whole's. */
  lemma {:induction false} SubsequenceMembers<T>(a: seq<T>, b: seq<T>)
    requires IsSubsequence(a, b)
    ensures |a| <= |b|
    ensures forall x :: x in a ==> x in b
    decreases |b|
  {
    if a != [] {
      if a[0] == b[0] && IsSubsequence(a[1..], b[1..]) {
        SubsequenceMembers(a[1..], b[1..]);
        assert a == [a[0]] + a[1..];
        assert b == [b[0]] + b[1..];
      } else {
        SubsequenceMembers(a, b[1..]);
        assert b == [b[0]] + b[1..];
      }
    }
  }

  /** Extending the whole by one element, optionally taking it into the subsequence too. */
  lemma {:induction false} SubsequenceAppend<T>(a: seq<T>, b: seq<T>, x: T, take: bool)
    requires IsSubsequence(a, b)
    ensures IsSubsequence(a + (if take then [x] else []), b + [x])
    decreases |b|
  {
    var a' := a + (if take then [x] else []);
    if a == [] {
      if take {
        if b != [] {
          SubsequenceAppend(a, b[1..], x, take);
          assert (b + [x])[1..] == b[1..] + [x];
        }
      }
    } else {
      assert a'[0] == a[0];
      assert (b + [x])[1..] == b[1..] + [x];
      if a[0] == b[0] && IsSubsequence(a[1..], b[1..]) {
        SubsequenceAppend(a[1..], b[1..], x, take);
        assert a'[1..] == a[1..] + (if take then [x] else []);
      } else {
        SubsequenceAppend(a, b[1..], x, take);
      }
    }
  }
}

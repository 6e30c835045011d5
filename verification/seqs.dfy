/** Facts about sequences read as multisets, shared by the modules that
    reason about orders nothing fixes. */
module Seqs {
  /** No element occurs twice. */
  predicate Distinct<T(==)>(s: seq<T>) {
    forall i, j :: 0 <= i < j < |s| ==> s[i] != s[j]
  }

  /** In a sequence without repeats every element occurs once. */
  lemma {:induction false} DistinctCount<T>(s: seq<T>, x: T)
    requires Distinct(s)
    ensures multiset(s)[x] == if x in s then 1 else 0
  {
    if |s| > 0 {
      assert s == [s[0]] + s[1..];
      DistinctCount(s[1..], x);
    }
  }

  /** A sequence of copies of `x` holds `x` as often as it is long. */
  lemma {:induction false} AllCount<T>(s: seq<T>, x: T)
    requires forall i :: 0 <= i < |s| ==> s[i] == x
    ensures multiset(s)[x] == |s|
  {
    if |s| > 0 {
      assert s == [s[0]] + s[1..];
      AllCount(s[1..], x);
    }
  }

  /** Taking one element out of a sequence takes it out of its multiset. */
  lemma RemoveOne<T>(s: seq<T>, i: nat)
    requires i < |s|
    ensures multiset(s[..i] + s[i + 1..]) == multiset(s) - multiset{s[i]}
  {
    assert s == s[..i] + [s[i]] + s[i + 1..];
  }

  lemma PutBack<T>(ms: multiset<T>, x: T)
    requires x in ms
    ensures multiset{x} + (ms - multiset{x}) == ms
  {
  }
}

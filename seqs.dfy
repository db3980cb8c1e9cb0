/**
 * Order-preserving selection from a sequence, quantifiers over its
 * elements, and the search for the first element that fails a check. The loops of the command-line layer append
 * to the back of vectors, so Filter and Reject are defined from the back.
 */
module Seqs {

  /** Every element of s satisfies p. */
  predicate All<T>(s: seq<T>, p: T -> bool) {
    forall i :: 0 <= i < |s| ==> p(s[i])
  }

  /** Some element of s satisfies p. */
  predicate Any<T>(s: seq<T>, p: T -> bool) {
    exists i :: 0 <= i < |s| && p(s[i])
  }

  /** The elements of s that satisfy p, in their original order. */
  function Filter<T>(s: seq<T>, p: T -> bool): (r: seq<T>)
    ensures |r| <= |s|
    ensures forall k :: 0 <= k < |r| ==> p(r[k])
    decreases |s|
  {
    if s == [] then []
    else Filter(s[..|s| - 1], p) + (if p(s[|s| - 1]) then [s[|s| - 1]] else [])
  }

  /** The elements of s that do not satisfy p, in their original order. */
  function Reject<T>(s: seq<T>, p: T -> bool): (r: seq<T>)
    ensures |r| <= |s|
    ensures forall k :: 0 <= k < |r| ==> !p(r[k])
    decreases |s|
  {
    if s == [] then []
    else Reject(s[..|s| - 1], p) + (if p(s[|s| - 1]) then [] else [s[|s| - 1]])
  }

  /**
   * The index of the first element of s that fails p, or |s| when every
   * element passes.
   */
  function FirstFailure<T>(s: seq<T>, p: T -> bool): (i: nat)
    ensures i <= |s|
    ensures forall j :: 0 <= j < i ==> p(s[j])
    ensures i < |s| ==> !p(s[i])
  {
    if s == [] then 0
    else if !p(s[0]) then 0
    else 1 + FirstFailure(s[1..], p)
  }

  /** The index of the last element of s that satisfies p, or -1 when none does. */
  function LastWhere<T>(s: seq<T>, p: T -> bool): (j: int)
    ensures -1 <= j < |s|
    ensures j >= 0 ==> p(s[j])
    ensures forall i :: j < i < |s| ==> !p(s[i])
    decreases |s|
  {
    if s == [] then -1
    else if p(s[|s| - 1]) then |s| - 1
    else
      var j := LastWhere(s[..|s| - 1], p);
      assert forall i :: j < i < |s| - 1 ==> s[i] == s[..|s| - 1][i];
      j
  }

  /** The first failure is the failing element that all before it pass. */
  lemma FirstFailureAt<T>(s: seq<T>, p: T -> bool, i: nat)
    requires i < |s| && !p(s[i])
    requires forall j :: 0 <= j < i ==> p(s[j])
    ensures FirstFailure(s, p) == i
  {
  }

  /** When every element passes, the first failure is |s|. */
  lemma FirstFailureNone<T>(s: seq<T>, p: T -> bool)
    requires forall j :: 0 <= j < |s| ==> p(s[j])
    ensures FirstFailure(s, p) == |s|
  {
  }

  /** Filter and Reject split s: together they hold each element once. */
  lemma {:induction false} FilterRejectPartition<T>(s: seq<T>, p: T -> bool)
    ensures multiset(Filter(s, p)) + multiset(Reject(s, p)) == multiset(s)
    ensures |Filter(s, p)| + |Reject(s, p)| == |s|
    decreases |s|
  {
    if s != [] {
      var init, last := s[..|s| - 1], s[|s| - 1];
      FilterRejectPartition(init, p);
      assert s == init + [last];
      assert multiset(s) == multiset(init) + multiset{last};
      if p(last) {
        assert Filter(s, p) == Filter(init, p) + [last];
        assert Reject(s, p) == Reject(init, p);
        assert multiset(Filter(s, p)) == multiset(Filter(init, p)) + multiset{last};
      } else {
        assert Filter(s, p) == Filter(init, p);
        assert Reject(s, p) == Reject(init, p) + [last];
        assert multiset(Reject(s, p)) == multiset(Reject(init, p)) + multiset{last};
      }
    }
  }

  /** Filter keeps everything exactly when every element satisfies p. */
  lemma {:induction false} FilterKeepsAll<T>(s: seq<T>, p: T -> bool)
    ensures Filter(s, p) == s <==> forall k :: 0 <= k < |s| ==> p(s[k])
    ensures Reject(s, p) == [] <==> forall k :: 0 <= k < |s| ==> p(s[k])
    decreases |s|
  {
    if s != [] {
      var init, last := s[..|s| - 1], s[|s| - 1];
      FilterKeepsAll(init, p);
      assert forall k :: 0 <= k < |init| ==> init[k] == s[k];
      if p(last) {
        assert Filter(s, p) == Filter(init, p) + [last];
        assert Reject(s, p) == Reject(init, p);
        if Filter(s, p) == s {
          assert Filter(init, p) == Filter(s, p)[..|s| - 1] == init;
        }
      } else {
        assert Filter(s, p) == Filter(init, p);
        assert Reject(s, p) == Reject(init, p) + [last];
        assert |Filter(s, p)| < |s|;
      }
    }
  }

  /** Filter distributes over concatenation. */
  lemma {:induction false} FilterAppend<T>(a: seq<T>, b: seq<T>, p: T -> bool)
    ensures Filter(a + b, p) == Filter(a, p) + Filter(b, p)
    ensures Reject(a + b, p) == Reject(a, p) + Reject(b, p)
    decreases |b|
  {
    if b == [] {
      assert a + b == a;
    } else {
      var init, last := b[..|b| - 1], b[|b| - 1];
      FilterAppend(a, init, p);
      var ab := a + b;
      assert ab[..|ab| - 1] == a + init;
      assert ab[|ab| - 1] == last;
      var kept, dropped := (if p(last) then [last] else []), (if p(last) then [] else [last]);
      assert Filter(ab, p) == Filter(a + init, p) + kept;
      assert Reject(ab, p) == Reject(a + init, p) + dropped;
      Associative(Filter(a, p), Filter(init, p), kept);
      Associative(Reject(a, p), Reject(init, p), dropped);
    }
  }

  lemma Associative<T>(x: seq<T>, y: seq<T>, z: seq<T>)
    ensures (x + y) + z == x + (y + z)
  {
  }

  /** Extending the examined prefix of s by one element. */
  lemma PrefixStep<T>(s: seq<T>, i: nat, p: T -> bool)
    requires i < |s|
    ensures Filter(s[..i + 1], p) == Filter(s[..i], p) + (if p(s[i]) then [s[i]] else [])
    ensures Reject(s[..i + 1], p) == Reject(s[..i], p) + (if p(s[i]) then [] else [s[i]])
  {
    assert s[..i + 1][..i] == s[..i];
  }
}

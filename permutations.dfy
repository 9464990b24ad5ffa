/** Element-wise maps over sequences and how they act on multisets. */
module Permutations {

  /** `f` applied to every element of `s`, in order. */
  function MapSeq<A, B>(f: A -> B, s: seq<A>): (r: seq<B>)
    ensures |r| == |s|
  {
    seq(|s|, i requires 0 <= i < |s| => f(s[i]))
  }

  lemma MapSeqConcat<A, B>(f: A -> B, a: seq<A>, b: seq<A>)
    ensures MapSeq(f, a + b) == MapSeq(f, a) + MapSeq(f, b)
  {
    assert forall i :: 0 <= i < |a| + |b| ==> MapSeq(f, a + b)[i] == (MapSeq(f, a) + MapSeq(f, b))[i];
  }

  /** Taking the same element out of two permutations of each other leaves
      permutations of each other. */
  lemma MultisetRemove<T>(a: seq<T>, b: seq<T>, j: nat)
    requires a != [] && j < |b| && b[j] == a[0] && multiset(a) == multiset(b)
    ensures multiset(a[1..]) == multiset(b[..j] + b[j + 1..])
  {
    assert a == [a[0]] + a[1..];
    assert b == b[..j] + ([b[j]] + b[j + 1..]);
    CancelOne(a[0], a[1..], b[..j], b[j + 1..]);
  }

  lemma CancelOne<T>(x: T, rest: seq<T>, left: seq<T>, right: seq<T>)
    requires multiset([x] + rest) == multiset(left + ([x] + right))
    ensures multiset(rest) == multiset(left + right)
  {
    MultisetMiddle(left, x, right);
    assert multiset([x] + rest) == multiset{x} + multiset(rest);
    assert multiset(rest) == multiset([x] + rest) - multiset{x};
  }

  /** Mapping removes the image of the element at `j` with the element. */
  lemma MapSeqRemoveAt<A, B>(f: A -> B, s: seq<A>, j: nat)
    requires j < |s|
    ensures multiset(MapSeq(f, s)) == multiset{f(s[j])} + multiset(MapSeq(f, s[..j] + s[j + 1..]))
  {
    assert [s[j]] + s[j + 1..] == s[j..];
    assert s[..j] + s[j..] == s;
    MapSeqRemoveMiddle(f, s[..j], s[j], s[j + 1..]);
  }

  lemma MapSeqRemoveMiddle<A, B>(f: A -> B, left: seq<A>, x: A, right: seq<A>)
    ensures multiset(MapSeq(f, left + ([x] + right))) == multiset{f(x)} + multiset(MapSeq(f, left + right))
  {
    MapSeqMiddle(f, left, x, right);
    MapSeqConcat(f, left, right);
    MultisetMiddle(MapSeq(f, left), f(x), MapSeq(f, right));
  }

  lemma MapSeqMiddle<A, B>(f: A -> B, left: seq<A>, x: A, right: seq<A>)
    ensures MapSeq(f, left + ([x] + right)) == MapSeq(f, left) + ([f(x)] + MapSeq(f, right))
  {
    MapSeqConcat(f, left, [x] + right);
    MapSeqCons(f, x, right);
  }

  lemma MapSeqOne<A, B>(f: A -> B, x: A)
    ensures MapSeq(f, [x]) == [f(x)]
  {
  }

  lemma MapSeqCons<A, B>(f: A -> B, x: A, rest: seq<A>)
    ensures MapSeq(f, [x] + rest) == [f(x)] + MapSeq(f, rest)
  {
    assert ([x] + rest)[1..] == rest;
  }

  lemma MultisetMiddle<T>(left: seq<T>, x: T, right: seq<T>)
    ensures multiset(left + ([x] + right)) == multiset{x} + multiset(left + right)
  {
  }

  /** Mapping sends permutations to permutations. */
  lemma {:induction false} MapSeqPermutation<A, B>(f: A -> B, a: seq<A>, b: seq<A>)
    requires multiset(a) == multiset(b)
    ensures multiset(MapSeq(f, a)) == multiset(MapSeq(f, b))
    decreases |a|
  {
    if a != [] {
      assert a[0] in multiset(b);
      var j :| 0 <= j < |b| && b[j] == a[0];
      MultisetRemove(a, b, j);
      MapSeqPermutation(f, a[1..], b[..j] + b[j + 1..]);
      MapSeqRemoveAt(f, b, j);
      MapSeqRemoveAt(f, a, 0);
      assert a[..0] + a[1..] == a[1..];
    } else {
      assert |multiset(b)| == 0;
      assert MapSeq(f, a) == [] == MapSeq(f, b);
    }
  }
}

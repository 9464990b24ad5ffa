/** The ranking in main: sort.Slice over the processed records with
    "greater priority score first" as the order. sort.Slice is not stable, so
    the model promises only what it does: the array ends up ordered by
    descending score and holds the same records. */
module Ranker {
  import opened Vulnerabilities
  import opened Permutations

  /** Scores never increase from one position to a later one. */
  predicate SortedByScore(s: seq<Vulnerability>) {
    forall i, j :: 0 <= i < j < |s| ==> s[i].priorityScore >= s[j].priorityScore
  }

  /** Neighbours are in order. */
  predicate AdjacentSorted(s: seq<Vulnerability>) {
    forall i :: 0 < i < |s| ==> s[i - 1].priorityScore >= s[i].priorityScore
  }

  /** Checking neighbours suffices: the order is transitive. */
  lemma AdjacentSortedIsSorted(s: seq<Vulnerability>)
    ensures AdjacentSorted(s) <==> SortedByScore(s)
  {
    if AdjacentSorted(s) {
      forall i, j | 0 <= i < j < |s|
        ensures s[i].priorityScore >= s[j].priorityScore
      {
        AdjacentChain(s, i, j);
      }
    }
  }

  lemma {:induction false} AdjacentChain(s: seq<Vulnerability>, i: nat, j: nat)
    requires AdjacentSorted(s) && i <= j < |s|
    ensures s[i].priorityScore >= s[j].priorityScore
    decreases j - i
  {
    if i < j {
      AdjacentChain(s, i + 1, j);
      assert s[i].priorityScore >= s[i + 1].priorityScore;
    }
  }

  /** The first `n` positions are in order. */
  predicate SortedUpTo(s: seq<Vulnerability>, n: nat)
    requires n <= |s|
  {
    forall p, q :: 0 <= p < q < n ==> s[p].priorityScore >= s[q].priorityScore
  }

  /** The sort in main, as an insertion sort: each record moves left past the
      records with a lower score. */
  method SortByPriority(a: array<Vulnerability>)
    modifies a
    ensures SortedByScore(a[..])
    ensures multiset(a[..]) == multiset(old(a[..]))
  {
    for i := 0 to a.Length
      invariant SortedUpTo(a[..], i)
      invariant multiset(a[..]) == multiset(old(a[..]))
    {
      InsertLeft(a, i);
    }
  }

  /** One step of the sort: the record at `i` moves left until its left
      neighbour scores at least as much, extending the sorted prefix by one. */
  method InsertLeft(a: array<Vulnerability>, i: nat)
    requires i < a.Length && SortedUpTo(a[..], i)
    modifies a
    ensures SortedUpTo(a[..], i + 1)
    ensures multiset(a[..]) == multiset(old(a[..]))
    ensures a[i + 1..] == old(a[i + 1..])
  {
    var j := i;
    ghost var start := a[..];
    InsertStart(start, i);
    while j > 0 && a[j - 1].priorityScore < a[j].priorityScore
      invariant 0 <= j <= i
      invariant multiset(a[..]) == multiset(start)
      invariant a[..][i + 1..] == start[i + 1..]
      invariant Inserting(a[..], i, j)
    {
      ghost var s := a[..];
      InsertStep(s, i, j);
      SwapMultiset(s, j);
      SwapKeepsAfter(s, j, i);
      a[j - 1], a[j] := a[j], a[j - 1];
      assert a[..] == Swap(s, j);
      j := j - 1;
    }
    InsertDone(a[..], i, j);
  }

  /** `s` with the records at `j - 1` and `j` exchanged. */
  function Swap(s: seq<Vulnerability>, j: nat): (t: seq<Vulnerability>)
    requires 0 < j < |s|
    ensures |t| == |s|
  {
    s[j - 1 := s[j]][j := s[j - 1]]
  }

  lemma SwapMultiset(s: seq<Vulnerability>, j: nat)
    requires 0 < j < |s|
    ensures multiset(Swap(s, j)) == multiset(s)
  {
  }

  /** A swap at or before `i` leaves the positions after `i` alone. */
  lemma SwapKeepsAfter(s: seq<Vulnerability>, j: nat, i: nat)
    requires 0 < j <= i < |s|
    ensures Swap(s, j)[i + 1..] == s[i + 1..]
  {
  }

  /** Midway through InsertLeft: apart from the moving record at `j` the
      first i + 1 positions are in order, the moving record scores at least
      as much as every record to its right, and its two neighbours are in
      order with each other. */
  predicate Inserting(s: seq<Vulnerability>, i: nat, j: nat)
    requires j <= i < |s|
  {
    && (forall p, q :: 0 <= p < q <= i && p != j && q != j ==> s[p].priorityScore >= s[q].priorityScore)
    && (forall q :: j < q <= i ==> s[j].priorityScore >= s[q].priorityScore)
    && (0 < j < i ==> s[j - 1].priorityScore >= s[j + 1].priorityScore)
  }

  lemma InsertStart(s: seq<Vulnerability>, i: nat)
    requires i < |s| && SortedUpTo(s, i)
    ensures Inserting(s, i, i)
  {
  }

  lemma InsertStep(s: seq<Vulnerability>, i: nat, j: nat)
    requires 0 < j <= i < |s| && Inserting(s, i, j)
    requires s[j - 1].priorityScore < s[j].priorityScore
    ensures Inserting(Swap(s, j), i, j - 1)
  {
    var t := Swap(s, j);
    forall p, q | 0 <= p < q <= i && p != j - 1 && q != j - 1
      ensures t[p].priorityScore >= t[q].priorityScore
    {
      if q == j {
        assert t[q] == s[j - 1];
        if p < j - 1 {
          assert s[p].priorityScore >= s[j - 1].priorityScore;
        }
      } else if p == j {
        assert t[p] == s[j - 1];
        if q == j + 1 {
          assert s[j - 1].priorityScore >= s[j + 1].priorityScore;
        } else {
          assert s[j - 1].priorityScore >= s[q].priorityScore;
        }
      }
    }
  }

  lemma InsertDone(s: seq<Vulnerability>, i: nat, j: nat)
    requires j <= i < |s| && Inserting(s, i, j)
    requires j == 0 || s[j - 1].priorityScore >= s[j].priorityScore
    ensures SortedUpTo(s, i + 1)
  {
    forall p, q | 0 <= p < q <= i
      ensures s[p].priorityScore >= s[q].priorityScore
    {
      if q == j && p < j - 1 {
        assert s[p].priorityScore >= s[j - 1].priorityScore;
      }
    }
  }

  /** The scores of a ranking do not depend on how it was reached: any two
      score-sorted arrangements of the same records have the same score at
      every position, whatever order the workers returned the records in and
      however the sort broke ties. */
  lemma {:induction false} SortedScoresAgree(s: seq<Vulnerability>, t: seq<Vulnerability>)
    requires SortedByScore(s) && SortedByScore(t) && multiset(s) == multiset(t)
    ensures |s| == |t|
    ensures forall i :: 0 <= i < |s| ==> s[i].priorityScore == t[i].priorityScore
    decreases |s|
  {
    assert |multiset(s)| == |multiset(t)|;
    if s != [] {
      assert s[0] in multiset(t) && t[0] in multiset(s);
      var k :| 0 <= k < |t| && t[k] == s[0];
      var m :| 0 <= m < |s| && s[m] == t[0];
      assert s[0].priorityScore >= s[m].priorityScore;
      assert t[0].priorityScore >= t[k].priorityScore;
      var t' := t[..k] + t[k + 1..];
      MultisetRemove(s, t, k);
      RemoveKeepsSorted(t, k);
      SortedScoresAgree(s[1..], t');
      TopTies(t, k, t');
      forall i | 0 <= i < |s|
        ensures s[i].priorityScore == t[i].priorityScore
      {
        if i > 0 {
          assert s[i] == s[1..][i - 1];
          assert t'[i - 1].priorityScore == t[i].priorityScore;
        }
      }
    }
  }

  lemma RemoveKeepsSorted(t: seq<Vulnerability>, k: nat)
    requires SortedByScore(t) && k < |t|
    ensures SortedByScore(t[..k] + t[k + 1..])
  {
    var t' := t[..k] + t[k + 1..];
    forall i, j | 0 <= i < j < |t'|
      ensures t'[i].priorityScore >= t'[j].priorityScore
    {
      var i0 := if i < k then i else i + 1;
      var j0 := if j < k then j else j + 1;
      assert t'[i] == t[i0] && t'[j] == t[j0];
    }
  }

  /** When the record at `k` ties with the first, removing it leaves the
      same scores as removing the first. */
  lemma TopTies(t: seq<Vulnerability>, k: nat, t': seq<Vulnerability>)
    requires SortedByScore(t) && k < |t| && t[k].priorityScore == t[0].priorityScore
    requires t' == t[..k] + t[k + 1..]
    ensures forall i :: 0 <= i < |t'| ==> t'[i].priorityScore == t[i + 1].priorityScore
  {
    forall i | 0 <= i < |t'|
      ensures t'[i].priorityScore == t[i + 1].priorityScore
    {
      if i < k {
        assert t'[i] == t[i];
        assert t[0].priorityScore >= t[i].priorityScore >= t[i + 1].priorityScore >= t[k].priorityScore;
      } else {
        assert t'[i] == t[i + 1];
      }
    }
  }
}

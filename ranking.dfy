/** The ranking step both tools share: candidates paired with a relevance
    (the FAISS distance), put in place into descending order of relevance by
    Python's stable `list.sort(key=..., reverse=True)`, then cut to the first
    `max_results`. */
module Ranking {
  import opened PyLists

  /** A result dictionary while it still carries its `relevance` entry. */
  datatype Candidate<T> = Candidate(relevance: real, payload: T)

  predicate SortedDesc<T>(s: seq<Candidate<T>>) {
    forall i, j :: 0 <= i < j < |s| ==> s[i].relevance >= s[j].relevance
  }

  /** Places `c` after every element whose relevance is at least its own, so
      that a later candidate never overtakes an earlier one of equal relevance. */
  function Insert<T>(s: seq<Candidate<T>>, c: Candidate<T>): (r: seq<Candidate<T>>)
    ensures |r| == |s| + 1
  {
    if s == [] || s[|s| - 1].relevance >= c.relevance then s + [c]
    else Insert(s[..|s| - 1], c) + [s[|s| - 1]]
  }

  /** The order `sort(key=lambda x: x['relevance'], reverse=True)` leaves. */
  function SortDesc<T>(s: seq<Candidate<T>>): (r: seq<Candidate<T>>)
    ensures |r| == |s|
  {
    if s == [] then [] else Insert(SortDesc(s[..|s| - 1]), s[|s| - 1])
  }

  /** Where `c` goes in a descending sequence: after `s[..j]`, before `s[j..]`. */
  lemma {:induction false} InsertAt<T>(s: seq<Candidate<T>>, c: Candidate<T>, j: nat)
    requires j <= |s|
    requires j == 0 || s[j - 1].relevance >= c.relevance
    requires forall k :: j <= k < |s| ==> s[k].relevance < c.relevance
    ensures Insert(s, c) == s[..j] + [c] + s[j..]
  {
    if j < |s| {
      InsertAt(s[..|s| - 1], c, j);
      assert s[..|s| - 1][..j] == s[..j];
      assert s[..|s| - 1][j..] + [s[|s| - 1]] == s[j..];
    } else {
      assert s[..j] == s;
    }
  }

  /** Inserting into a descending sequence keeps it descending. */
  lemma {:induction false} InsertSorted<T>(s: seq<Candidate<T>>, c: Candidate<T>)
    requires SortedDesc(s)
    ensures SortedDesc(Insert(s, c))
    ensures forall x :: x in Insert(s, c) ==> x in s || x == c
  {
    if s == [] || s[|s| - 1].relevance >= c.relevance {
    } else {
      var p := s[..|s| - 1];
      InsertSorted(p, c);
      var q := Insert(p, c);
      forall i | 0 <= i < |q| ensures q[i].relevance >= s[|s| - 1].relevance {
        assert q[i] in q;
      }
    }
  }

  /** The result is in descending order of relevance. */
  lemma {:induction false} SortDescSorted<T>(s: seq<Candidate<T>>)
    ensures SortedDesc(SortDesc(s))
  {
    if s != [] {
      SortDescSorted(s[..|s| - 1]);
      InsertSorted(SortDesc(s[..|s| - 1]), s[|s| - 1]);
    }
  }

  lemma {:induction false} InsertPermutes<T>(s: seq<Candidate<T>>, c: Candidate<T>)
    ensures multiset(Insert(s, c)) == multiset(s) + multiset{c}
  {
    if s == [] || s[|s| - 1].relevance >= c.relevance {
    } else {
      InsertPermutes(s[..|s| - 1], c);
      assert s == s[..|s| - 1] + [s[|s| - 1]];
    }
  }

  /** Sorting neither loses nor duplicates a candidate. */
  lemma {:induction false} SortDescPermutes<T>(s: seq<Candidate<T>>)
    ensures multiset(SortDesc(s)) == multiset(s)
  {
    if s != [] {
      SortDescPermutes(s[..|s| - 1]);
      InsertPermutes(SortDesc(s[..|s| - 1]), s[|s| - 1]);
      assert s == s[..|s| - 1] + [s[|s| - 1]];
    }
  }

  /** The candidates of one relevance value, in their order. */
  function WithRelevance<T>(s: seq<Candidate<T>>, v: real): seq<Candidate<T>> {
    if s == [] then []
    else WithRelevance(s[..|s| - 1], v) + (if s[|s| - 1].relevance == v then [s[|s| - 1]] else [])
  }

  lemma {:induction false} WithRelevanceAppend<T>(a: seq<Candidate<T>>, b: seq<Candidate<T>>, v: real)
    ensures WithRelevance(a + b, v) == WithRelevance(a, v) + WithRelevance(b, v)
  {
    if b != [] {
      WithRelevanceAppend(a, b[..|b| - 1], v);
      assert (a + b)[..|a + b| - 1] == a + b[..|b| - 1];
    } else {
      assert a + b == a;
    }
  }

  lemma {:induction false} InsertStable<T>(s: seq<Candidate<T>>, c: Candidate<T>, v: real)
    ensures WithRelevance(Insert(s, c), v) == WithRelevance(s, v) + (if c.relevance == v then [c] else [])
  {
    if s == [] || s[|s| - 1].relevance >= c.relevance {
      WithRelevanceAppend(s, [c], v);
      assert [c][..0] == [];
    } else {
      var p, last := s[..|s| - 1], s[|s| - 1];
      InsertStable(p, c, v);
      WithRelevanceAppend(Insert(p, c), [last], v);
      WithRelevanceAppend(p, [last], v);
      assert p + [last] == s;
      assert [last][..0] == [] && [c][..0] == [];
    }
  }

  /** The sort is stable: candidates of equal relevance keep their relative order. */
  lemma {:induction false} SortDescStable<T>(s: seq<Candidate<T>>, v: real)
    ensures WithRelevance(SortDesc(s), v) == WithRelevance(s, v)
  {
    if s != [] {
      SortDescStable(s[..|s| - 1], v);
      InsertStable(SortDesc(s[..|s| - 1]), s[|s| - 1], v);
    }
  }

  /** `results[:max_results]` after the sort: nothing dropped ranks above
      anything kept. */
  lemma KeptDominateDropped<T>(s: seq<Candidate<T>>, n: int)
    ensures var sorted := SortDesc(s);
            var k := SliceStop(n, |sorted|);
            TakePrefix(sorted, n) == sorted[..k]
            && forall i, j :: 0 <= i < k <= j < |sorted| ==> sorted[i].relevance >= sorted[j].relevance
  {
    SortDescSorted(s);
  }

  /** One step of the insertion sort: `a[i]` moves left past every element of
      lower relevance in the already descending `a[..i]`. */
  method InsertInPlace<T>(a: array<Candidate<T>>, i: nat)
    requires i < a.Length
    requires SortedDesc(a[..i])
    modifies a
    ensures a[..i + 1] == Insert(old(a[..i]), old(a[i]))
    ensures a[i + 1..] == old(a[i + 1..])
  {
    ghost var before := a[..];
    ghost var sorted := a[..i];
    var x := a[i];
    var j := i;
    while j > 0 && a[j - 1].relevance < x.relevance
      invariant 0 <= j <= i
      invariant forall k :: 0 <= k < j ==> a[k] == sorted[k]
      invariant forall k :: j < k <= i ==> a[k] == sorted[k - 1]
      invariant forall k :: i < k < a.Length ==> a[k] == before[k]
      invariant forall k :: j <= k < i ==> sorted[k].relevance < x.relevance
    {
      a[j] := a[j - 1];
      j := j - 1;
    }
    a[j] := x;
    InsertAt(sorted, x, j);
    assert a[..i + 1] == sorted[..j] + [x] + sorted[j..];
  }

  /** `results.sort(key=lambda x: x['relevance'], reverse=True)` on the list in
      place, as an insertion sort. */
  method SortByRelevanceDesc<T>(a: array<Candidate<T>>)
    modifies a
    ensures a[..] == SortDesc(old(a[..]))
  {
    ghost var orig := a[..];
    var i := 0;
    while i < a.Length
      invariant 0 <= i <= a.Length
      invariant a[..i] == SortDesc(orig[..i])
      invariant a[i..] == orig[i..]
    {
      SortDescSorted(orig[..i]);
      assert a[i] == a[i..][0] == orig[i];
      assert a[i + 1..] == a[i..][1..];
      InsertInPlace(a, i);
      assert orig[..i + 1][..i] == orig[..i];
      assert orig[i + 1..] == orig[i..][1..];
      i := i + 1;
    }
    assert orig[..a.Length] == orig;
  }
}

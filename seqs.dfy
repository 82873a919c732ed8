/** Array operations the application uses on table rows and lists: `filter`, the order of
    keys, and `[...new Set(xs)]`. */
module Seqs {

  /** `s.filter(keep)`. */
  function Filter<T>(s: seq<T>, keep: T -> bool): (r: seq<T>)
    ensures |r| <= |s|
    ensures forall i :: 0 <= i < |r| ==> r[i] in s && keep(r[i])
    ensures forall i :: 0 <= i < |s| && keep(s[i]) ==> s[i] in r
  {
    if s == [] then []
    else (if keep(s[0]) then [s[0]] else []) + Filter(s[1..], keep)
  }

  /** The elements strictly increase in `key` along the sequence. */
  predicate IncreasingBy<T>(s: seq<T>, key: T -> int) {
    forall i, j :: 0 <= i < j < |s| ==> key(s[i]) < key(s[j])
  }

  /** No element occurs twice. */
  predicate Distinct<T(==)>(s: seq<T>) {
    forall i, j :: 0 <= i < j < |s| ==> s[i] != s[j]
  }

  /** Filtering keeps the order of what it keeps. */
  lemma {:induction false} FilterIncreasing<T>(s: seq<T>, keep: T -> bool, key: T -> int)
    requires IncreasingBy(s, key)
    ensures IncreasingBy(Filter(s, keep), key)
  {
    if s != [] {
      FilterIncreasing(s[1..], keep, key);
      var rest := Filter(s[1..], keep);
      forall x | x in rest ensures key(s[0]) < key(x) {
        var j :| 0 <= j < |s[1..]| && s[1..][j] == x;
        assert s[j + 1] == x;
      }
    }
  }

  /** Filtering distributes over concatenation. */
  lemma {:induction false} FilterAppend<T>(s: seq<T>, t: seq<T>, keep: T -> bool)
    ensures Filter(s + t, keep) == Filter(s, keep) + Filter(t, keep)
  {
    if s == [] {
      assert s + t == t;
    } else {
      assert (s + t)[1..] == s[1..] + t;
      FilterAppend(s[1..], t, keep);
    }
  }

  /** Strictly increasing keys are distinct keys, so the elements are distinct. */
  lemma IncreasingIsDistinct<T>(s: seq<T>, key: T -> int)
    requires IncreasingBy(s, key)
    ensures Distinct(s)
  {
  }

  /** In a sequence without repetitions every element occurs at most once. */
  lemma {:induction false} DistinctCountsOnce<T>(s: seq<T>, x: T)
    requires Distinct(s)
    ensures multiset(s)[x] <= 1
  {
    if s != [] {
      assert s == [s[0]] + s[1..];
      DistinctCountsOnce(s[1..], x);
      if s[0] == x {
        assert x !in s[1..];
      }
    }
  }

  /** A rearrangement of a sequence without repetitions has no repetitions. */
  lemma PermutationKeepsDistinct<T>(x: seq<T>, y: seq<T>)
    requires multiset(x) == multiset(y)
    requires Distinct(y)
    ensures Distinct(x)
  {
    forall i, j | 0 <= i < j < |x| ensures x[i] != x[j] {
      if x[i] == x[j] {
        assert x == x[..j] + x[j..];
        assert x[i] in multiset(x[..j]);
        assert x[j] in multiset(x[j..]);
        assert multiset(x) == multiset(x[..j]) + multiset(x[j..]);
        DistinctCountsOnce(y, x[i]);
        assert false;
      }
    }
  }

  /** `[...new Set(s)]`: the elements of `s` without repetitions, in order of first occurrence. */
  function Dedup<T(==)>(s: seq<T>): seq<T> {
    DedupAfter(s, [])
  }

  /** The elements of `s` not in `seen` and not repeated, in order of first occurrence. */
  function DedupAfter<T(==)>(s: seq<T>, seen: seq<T>): seq<T> {
    if s == [] then []
    else if s[0] in seen then DedupAfter(s[1..], seen)
    else [s[0]] + DedupAfter(s[1..], seen + [s[0]])
  }

  /** The position of the first occurrence of `x` in `s`. */
  function FirstIndex<T(==)>(s: seq<T>, x: T): (k: nat)
    requires x in s
    ensures k < |s| && s[k] == x && x !in s[..k]
  {
    if s[0] == x then 0 else 1 + FirstIndex(s[1..], x)
  }

  /** What the set keeps: exactly the elements of `s`, none of them twice, no more of them than `s` has. */
  lemma DedupElements<T>(s: seq<T>)
    ensures forall x :: x in Dedup(s) <==> x in s
    ensures Distinct(Dedup(s))
    ensures |Dedup(s)| <= |s|
  {
    DedupAfterMembers(s, []);
    DedupAfterDistinct(s, []);
  }

  lemma {:induction false} DedupAfterMembers<T>(s: seq<T>, seen: seq<T>)
    ensures forall x :: x in DedupAfter(s, seen) <==> x in s && x !in seen
    ensures forall k :: 0 <= k < |DedupAfter(s, seen)| ==> DedupAfter(s, seen)[k] in s && DedupAfter(s, seen)[k] !in seen
    ensures |DedupAfter(s, seen)| <= |s|
  {
    if s != [] {
      assert s == [s[0]] + s[1..];
      if s[0] in seen {
        DedupAfterMembers(s[1..], seen);
      } else {
        DedupAfterMembers(s[1..], seen + [s[0]]);
      }
    }
  }

  lemma {:induction false} DedupAfterDistinct<T>(s: seq<T>, seen: seq<T>)
    ensures Distinct(DedupAfter(s, seen))
  {
    if s != [] {
      if s[0] in seen {
        DedupAfterDistinct(s[1..], seen);
      } else {
        var rest := DedupAfter(s[1..], seen + [s[0]]);
        DedupAfterDistinct(s[1..], seen + [s[0]]);
        DedupAfterMembers(s[1..], seen + [s[0]]);
        forall k | 0 <= k < |rest| ensures rest[k] != s[0] {
          assert rest[k] in rest;
        }
      }
    }
  }

  lemma DedupAfterMember<T>(s: seq<T>, seen: seq<T>, k: nat)
    requires k < |DedupAfter(s, seen)|
    ensures DedupAfter(s, seen)[k] in s && DedupAfter(s, seen)[k] !in seen
  {
    DedupAfterMembers(s, seen);
  }

  /** Insertion order: an element that occurs first earlier in `s` comes earlier in `Dedup(s)`. */
  lemma DedupFirstOccurrenceOrder<T>(s: seq<T>, i: nat, j: nat)
    requires i < j < |Dedup(s)|
    ensures Dedup(s)[i] in s && Dedup(s)[j] in s
    ensures FirstIndex(s, Dedup(s)[i]) < FirstIndex(s, Dedup(s)[j])
  {
    DedupAfterOrder(s, [], i, j);
  }

  lemma {:induction false} DedupAfterOrder<T>(s: seq<T>, seen: seq<T>, i: nat, j: nat)
    requires i < j < |DedupAfter(s, seen)|
    ensures DedupAfter(s, seen)[i] in s && DedupAfter(s, seen)[j] in s
    ensures FirstIndex(s, DedupAfter(s, seen)[i]) < FirstIndex(s, DedupAfter(s, seen)[j])
  {
    if s[0] in seen {
      DedupAfterOrder(s[1..], seen, i, j);
      SkippedHeadOrder(s, seen, i, j);
    } else if i == 0 {
      KeptHeadFirst(s, seen, j);
    } else {
      DedupAfterOrder(s[1..], seen + [s[0]], i - 1, j - 1);
      KeptHeadOrder(s, seen, i, j);
    }
  }

  /** The step of `DedupAfterOrder` when the head was seen before and is dropped. */
  lemma SkippedHeadOrder<T>(s: seq<T>, seen: seq<T>, i: nat, j: nat)
    requires s != [] && s[0] in seen
    requires i < j < |DedupAfter(s[1..], seen)|
    requires var d := DedupAfter(s[1..], seen);
      d[i] in s[1..] && d[j] in s[1..] && FirstIndex(s[1..], d[i]) < FirstIndex(s[1..], d[j])
    ensures var d := DedupAfter(s, seen);
      i < j < |d| && d[i] in s && d[j] in s && FirstIndex(s, d[i]) < FirstIndex(s, d[j])
  {
    var d := DedupAfter(s[1..], seen);
    assert DedupAfter(s, seen) == d;
    DedupAfterMember(s[1..], seen, i);
    DedupAfterMember(s[1..], seen, j);
    FirstIndexPastHead(s, d[i]);
    FirstIndexPastHead(s, d[j]);
  }

  /** The step of `DedupAfterOrder` when the head is kept and compared with a later element. */
  lemma KeptHeadFirst<T>(s: seq<T>, seen: seq<T>, j: nat)
    requires s != [] && s[0] !in seen
    requires 0 < j < |DedupAfter(s, seen)|
    ensures var d := DedupAfter(s, seen);
      d[0] in s && d[j] in s && FirstIndex(s, d[0]) < FirstIndex(s, d[j])
  {
    var rest := DedupAfter(s[1..], seen + [s[0]]);
    var d := DedupAfter(s, seen);
    assert d == [s[0]] + rest;
    DedupAfterMember(s[1..], seen + [s[0]], j - 1);
    FirstIndexPastHead(s, rest[j - 1]);
  }

  /** The step of `DedupAfterOrder` when the head is kept and two later elements are compared. */
  lemma KeptHeadOrder<T>(s: seq<T>, seen: seq<T>, i: nat, j: nat)
    requires s != [] && s[0] !in seen
    requires 0 < i < j < |DedupAfter(s, seen)|
    requires var rest := DedupAfter(s[1..], seen + [s[0]]);
      j - 1 < |rest| && rest[i - 1] in s[1..] && rest[j - 1] in s[1..]
      && FirstIndex(s[1..], rest[i - 1]) < FirstIndex(s[1..], rest[j - 1])
    ensures var d := DedupAfter(s, seen);
      d[i] in s && d[j] in s && FirstIndex(s, d[i]) < FirstIndex(s, d[j])
  {
    var rest := DedupAfter(s[1..], seen + [s[0]]);
    assert DedupAfter(s, seen) == [s[0]] + rest;
    DedupAfterMember(s[1..], seen + [s[0]], i - 1);
    DedupAfterMember(s[1..], seen + [s[0]], j - 1);
    FirstIndexPastHead(s, rest[i - 1]);
    FirstIndexPastHead(s, rest[j - 1]);
  }

  /** An element of the tail other than the head is found one further on in the whole. */
  lemma FirstIndexPastHead<T>(s: seq<T>, x: T)
    requires s != [] && x in s[1..] && x != s[0]
    ensures x in s && FirstIndex(s, x) == 1 + FirstIndex(s[1..], x)
  {
    assert s == [s[0]] + s[1..];
  }
}

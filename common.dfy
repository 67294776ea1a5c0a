/** Sequence helpers shared by the server and client models: the option type,
    JavaScript's `filter`, `find`/`findIndex`, `some` and counting. */
module Common {

  datatype Option<T> = None | Some(value: T)

  /** `s.filter(p)`: the elements satisfying `p`, in their original order. */
  function Filter<T(!new)>(s: seq<T>, p: T -> bool): (r: seq<T>)
    ensures |r| <= |s|
    ensures forall x :: x in r <==> x in s && p(x)
    ensures forall i :: 0 <= i < |r| ==> p(r[i])
    decreases |s|
  {
    if s == [] then []
    else if p(s[0]) then [s[0]] + Filter(s[1..], p)
    else Filter(s[1..], p)
  }

  /** `sub` is obtained from `s` by deleting elements: order is kept. */
  ghost predicate IsSubsequence<T>(sub: seq<T>, s: seq<T>)
    decreases |s|
  {
    if sub == [] then true
    else if s == [] then false
    else if sub[0] == s[0] then IsSubsequence(sub[1..], s[1..])
    else IsSubsequence(sub, s[1..])
  }

  lemma {:induction false} FilterIsSubsequence<T(!new)>(s: seq<T>, p: T -> bool)
    ensures IsSubsequence(Filter(s, p), s)
    decreases |s|
  {
    if s != [] {
      FilterIsSubsequence(s[1..], p);
      if !p(s[0]) {
        SubsequenceDropFront(Filter(s[1..], p), s);
      }
    }
  }

  /** A subsequence of the tail is a subsequence of the whole. */
  lemma {:induction false} SubsequenceDropFront<T>(sub: seq<T>, s: seq<T>)
    requires s != [] && IsSubsequence(sub, s[1..])
    ensures IsSubsequence(sub, s)
    decreases |s|, 0
  {
    if sub != [] && sub[0] == s[0] {
      SubsequenceDropHead(sub, s[1..]);
    }
  }

  /** Dropping the first element of a subsequence keeps it a subsequence. */
  lemma {:induction false} SubsequenceDropHead<T>(sub: seq<T>, s: seq<T>)
    requires sub != [] && IsSubsequence(sub, s)
    ensures IsSubsequence(sub[1..], s)
    decreases |s|, 1
  {
    if sub[0] == s[0] {
      if sub[1..] != [] {
        SubsequenceDropFront(sub[1..], s);
      }
    } else {
      SubsequenceDropHead(sub, s[1..]);
      SubsequenceDropFront(sub[1..], s);
    }
  }

  /** A subsequence as long as the sequence is the sequence itself. */
  lemma {:induction false} FullSubsequence<T>(sub: seq<T>, s: seq<T>)
    requires IsSubsequence(sub, s) && |sub| == |s|
    ensures sub == s
    decreases |s|
  {
    if s != [] {
      if sub[0] == s[0] {
        FullSubsequence(sub[1..], s[1..]);
      } else {
        SubsequenceShorter(sub, s[1..]);
      }
    }
  }

  lemma {:induction false} SubsequenceShorter<T>(sub: seq<T>, s: seq<T>)
    requires IsSubsequence(sub, s)
    ensures |sub| <= |s|
    decreases |s|
  {
    if sub != [] {
      if sub[0] == s[0] {
        SubsequenceShorter(sub[1..], s[1..]);
      } else {
        SubsequenceShorter(sub, s[1..]);
      }
    }
  }

  /** A subsequence of a subsequence of `c` is a subsequence of `c`. */
  lemma {:induction false} SubsequenceTransitive<T>(a: seq<T>, b: seq<T>, c: seq<T>)
    requires IsSubsequence(a, b) && IsSubsequence(b, c)
    ensures IsSubsequence(a, c)
    decreases |c|
  {
    if a != [] {
      if b[0] == c[0] {
        if a[0] == b[0] {
          SubsequenceTransitive(a[1..], b[1..], c[1..]);
        } else {
          SubsequenceTransitive(a, b[1..], c[1..]);
          SubsequenceDropFront(a, c);
        }
      } else {
        SubsequenceTransitive(a, b, c[1..]);
        SubsequenceDropFront(a, c);
      }
    }
  }

  /** Filtering by `p` and then by `q` is filtering once by their conjunction `r`. */
  lemma {:induction false} FilterFilter<T(!new)>(s: seq<T>, p: T -> bool, q: T -> bool, r: T -> bool)
    requires forall x :: r(x) == (p(x) && q(x))
    ensures Filter(Filter(s, p), q) == Filter(s, r)
    decreases |s|
  {
    if s != [] {
      FilterFilter(s[1..], p, q, r);
    }
  }

  /** A filter whose predicate holds everywhere keeps everything. */
  lemma {:induction false} FilterAll<T(!new)>(s: seq<T>, p: T -> bool)
    requires forall x :: x in s ==> p(x)
    ensures Filter(s, p) == s
    decreases |s|
  {
    if s != [] {
      FilterAll(s[1..], p);
    }
  }

  /** A filter whose predicate holds nowhere keeps nothing. */
  lemma {:induction false} FilterNone<T(!new)>(s: seq<T>, p: T -> bool)
    requires forall i :: 0 <= i < |s| ==> !p(s[i])
    ensures Filter(s, p) == []
    decreases |s|
  {
    if s != [] {
      FilterNone(s[1..], p);
    }
  }

  /** How often `x` survives a filter: as often as in `s` if it passes, never otherwise. */
  lemma {:induction false} FilterMultiplicity<T(!new)>(s: seq<T>, p: T -> bool, x: T)
    ensures multiset(Filter(s, p))[x] == if p(x) then multiset(s)[x] else 0
    decreases |s|
  {
    if s != [] {
      FilterMultiplicity(s[1..], p, x);
      assert s == [s[0]] + s[1..];
    }
  }

  /** `FilterMultiplicity` for every element at once. */
  lemma FilterMultiplicities<T(!new)>(s: seq<T>, p: T -> bool)
    ensures forall x :: multiset(Filter(s, p))[x] == if p(x) then multiset(s)[x] else 0
  {
    forall x {
      FilterMultiplicity(s, p, x);
    }
  }

  /** Filtering distributes over concatenation. */
  lemma {:induction false} FilterAppend<T(!new)>(a: seq<T>, b: seq<T>, p: T -> bool)
    ensures Filter(a + b, p) == Filter(a, p) + Filter(b, p)
    decreases |a|
  {
    if a != [] {
      FilterAppend(a[1..], b, p);
      assert (a + b)[0] == a[0];
      assert (a + b)[1..] == a[1..] + b;
    } else {
      assert a + b == b;
    }
  }

  /** Filters by predicates that agree on the elements of `s` agree. */
  lemma {:induction false} FilterCongruent<T(!new)>(s: seq<T>, p: T -> bool, q: T -> bool)
    requires forall i :: 0 <= i < |s| ==> p(s[i]) == q(s[i])
    ensures Filter(s, p) == Filter(s, q)
    decreases |s|
  {
    if s != [] {
      assert forall i :: 0 <= i < |s[1..]| ==> s[1..][i] == s[i + 1];
      FilterCongruent(s[1..], p, q);
    }
  }

  /** No two positions of `s` share a key (ids, user references). */
  ghost predicate DistinctKeys<T, K>(s: seq<T>, key: T -> K)
  {
    forall i, j :: 0 <= i < |s| && 0 <= j < |s| && i != j ==> key(s[i]) != key(s[j])
  }

  /** Filtering never makes two keys collide. */
  lemma {:induction false} FilterKeepsDistinctKeys<T(!new), K>(s: seq<T>, p: T -> bool, key: T -> K)
    requires DistinctKeys(s, key)
    ensures DistinctKeys(Filter(s, p), key)
    decreases |s|
  {
    if s != [] {
      var tail := s[1..];
      assert DistinctKeys(tail, key) by {
        forall i, j | 0 <= i < |tail| && 0 <= j < |tail| && i != j
          ensures key(tail[i]) != key(tail[j])
        {
          assert tail[i] == s[i + 1] && tail[j] == s[j + 1];
        }
      }
      FilterKeepsDistinctKeys(tail, p, key);
      if p(s[0]) {
        var rest := Filter(tail, p);
        var r := [s[0]] + rest;
        forall j | 0 < j < |r|
          ensures key(r[j]) != key(s[0])
        {
          assert r[j] == rest[j - 1] && rest[j - 1] in tail;
          var k :| 0 <= k < |tail| && tail[k] == rest[j - 1];
          assert tail[k] == s[k + 1];
        }
      }
    }
  }

  /** `s.findIndex(p)`, with `None` for JavaScript's -1. */
  function FirstIndex<T>(s: seq<T>, p: T -> bool): (r: Option<nat>)
    ensures r.Some? ==> r.value < |s| && p(s[r.value])
    ensures r.Some? ==> forall j :: 0 <= j < r.value ==> !p(s[j])
    ensures r.None? <==> forall j :: 0 <= j < |s| ==> !p(s[j])
    decreases |s|
  {
    if s == [] then None
    else if p(s[0]) then Some(0)
    else match FirstIndex(s[1..], p)
      case None => None
      case Some(i) => Some(i + 1)
  }

  /** `s.find(p)`: the first element satisfying `p`. */
  function Find<T(!new)>(s: seq<T>, p: T -> bool): (r: Option<T>)
    ensures r.Some? ==> r.value in s && p(r.value)
    ensures r.None? <==> forall x :: x in s ==> !p(x)
  {
    match FirstIndex(s, p)
    case None => None
    case Some(i) => Some(s[i])
  }

  /** `s.some(p)`. */
  predicate Any<T>(s: seq<T>, p: T -> bool)
  {
    exists i :: 0 <= i < |s| && p(s[i])
  }

  /** Number of occurrences of `x` in `s`. */
  function Occurrences<T(==)>(s: seq<T>, x: T): (n: nat)
    ensures n <= |s|
    ensures n == 0 <==> x !in s
    decreases |s|
  {
    if s == [] then 0
    else (if s[0] == x then 1 else 0) + Occurrences(s[1..], x)
  }

  lemma {:induction false} OccurrencesAppend<T>(s: seq<T>, t: seq<T>, x: T)
    ensures Occurrences(s + t, x) == Occurrences(s, x) + Occurrences(t, x)
    decreases |s|
  {
    if s != [] {
      assert (s + t)[0] == s[0];
      assert (s + t)[1..] == s[1..] + t;
      OccurrencesAppend(s[1..], t, x);
      assert Occurrences(s + t, x) == (if s[0] == x then 1 else 0) + Occurrences(s[1..] + t, x);
    } else {
      assert s + t == t;
    }
  }
}

/**
 * Sequence operations behind pandas' row selection and aggregation:
 * boolean-mask filtering, drop_duplicates, sort_values and head.
 */
module Seqs {

  /** Boolean-mask selection df[mask]: the elements satisfying p, in order. */
  function Where<T>(s: seq<T>, p: T -> bool): (r: seq<T>)
    ensures |r| <= |s|
    ensures forall x :: x in r ==> x in s && p(x)
    ensures forall x :: x in s && p(x) ==> x in r
  {
    if |s| == 0 then [] else (if p(s[0]) then [s[0]] else []) + Where(s[1..], p)
  }

  /** a can be obtained from b by deleting elements. */
  predicate Subseq<T(==)>(a: seq<T>, b: seq<T>)
    decreases |b|
  {
    |a| == 0 || (|b| > 0 && ((a[0] == b[0] && Subseq(a[1..], b[1..])) || Subseq(a, b[1..])))
  }

  /** Filtering only deletes: the survivors keep their order. */
  lemma {:induction false} WhereIsSubseq<T>(s: seq<T>, p: T -> bool)
    ensures Subseq(Where(s, p), s)
  {
    if |s| > 0 {
      WhereIsSubseq(s[1..], p);
      var w := Where(s[1..], p);
      if p(s[0]) {
        assert Where(s, p) == [s[0]] + w;
        assert ([s[0]] + w)[1..] == w;
      } else {
        assert Where(s, p) == w;
      }
    }
  }

  /** Every sequence is a subsequence of itself (a step that keeps every row). */
  lemma {:induction false} SubseqRefl<T>(s: seq<T>)
    ensures Subseq(s, s)
  {
    if |s| > 0 {
      SubseqRefl(s[1..]);
    }
  }

  /** Deleting twice is deleting once: successive filters compose. */
  lemma {:induction false} SubseqTrans<T>(a: seq<T>, b: seq<T>, c: seq<T>)
    requires Subseq(a, b) && Subseq(b, c)
    ensures Subseq(a, c)
    decreases |c|
  {
    if |a| > 0 {
      if b[0] == c[0] && Subseq(b[1..], c[1..]) {
        if a[0] == b[0] && Subseq(a[1..], b[1..]) {
          SubseqTrans(a[1..], b[1..], c[1..]);
        } else {
          SubseqTrans(a, b[1..], c[1..]);
        }
      } else {
        SubseqTrans(a, b, c[1..]);
      }
    }
  }

  /** A subsequence is no longer than the sequence it is taken from. */
  lemma {:induction false} SubseqLength<T>(a: seq<T>, b: seq<T>)
    requires Subseq(a, b)
    ensures |a| <= |b|
    decreases |b|
  {
    if |a| > 0 {
      if a[0] == b[0] && Subseq(a[1..], b[1..]) {
        SubseqLength(a[1..], b[1..]);
      } else {
        SubseqLength(a, b[1..]);
      }
    }
  }

  /** Two successive masks select what their conjunction selects. */
  lemma {:induction false} WhereWhere<T>(s: seq<T>, p: T -> bool, q: T -> bool, pq: T -> bool)
    requires forall x :: pq(x) == (p(x) && q(x))
    ensures Where(Where(s, p), q) == Where(s, pq)
  {
    if |s| > 0 {
      WhereWhere(s[1..], p, q, pq);
      var w := Where(s[1..], p);
      if p(s[0]) {
        assert Where(s, p) == [s[0]] + w;
        assert ([s[0]] + w)[0] == s[0] && ([s[0]] + w)[1..] == w;
        assert Where(Where(s, p), q) == (if q(s[0]) then [s[0]] else []) + Where(w, q);
      } else {
        assert Where(s, p) == w;
      }
    }
  }

  /** A mask that every element passes keeps everything. */
  lemma {:induction false} WhereAll<T>(s: seq<T>, p: T -> bool)
    requires forall x :: x in s ==> p(x)
    ensures Where(s, p) == s
  {
    if |s| > 0 {
      assert forall x :: x in s[1..] ==> x in s;
      WhereAll(s[1..], p);
    }
  }

  /** Masks that agree on every element select the same elements. */
  lemma {:induction false} WhereSame<T>(s: seq<T>, p: T -> bool, q: T -> bool)
    requires forall x :: x in s ==> p(x) == q(x)
    ensures Where(s, p) == Where(s, q)
  {
    if |s| > 0 {
      assert forall x :: x in s[1..] ==> x in s;
      WhereSame(s[1..], p, q);
    }
  }

  /** Rows kept plus rows removed make up the whole: (~mask).sum() == len - mask.sum(). */
  lemma {:induction false} WhereSplit<T>(s: seq<T>, p: T -> bool, np: T -> bool)
    requires forall x :: np(x) == !p(x)
    ensures |Where(s, p)| + |Where(s, np)| == |s|
  {
    if |s| > 0 {
      WhereSplit(s[1..], p, np);
    }
  }

  lemma {:induction false} WhereAppend<T>(a: seq<T>, b: seq<T>, p: T -> bool)
    ensures Where(a + b, p) == Where(a, p) + Where(b, p)
  {
    if |a| == 0 {
      assert a + b == b;
    } else {
      assert (a + b)[0] == a[0];
      assert (a + b)[1..] == a[1..] + b;
      WhereAppend(a[1..], b, p);
    }
  }

  /** Number of elements satisfying p (mask.sum()). */
  function Count<T>(s: seq<T>, p: T -> bool): nat {
    |Where(s, p)|
  }

  /** Counting a disjoint union: the two parts are counted separately. */
  lemma {:induction false} CountUnion<T>(s: seq<T>, p: T -> bool, q: T -> bool, r: T -> bool)
    requires forall x :: p(x) == (q(x) || r(x))
    requires forall x :: !(q(x) && r(x))
    ensures Count(s, p) == Count(s, q) + Count(s, r)
  {
    if |s| > 0 {
      CountUnion(s[1..], p, q, r);
    }
  }

  /** No element occurs twice: the first is not among the rest, and so on down the sequence. */
  predicate NoDup<T(==)>(s: seq<T>) {
    |s| == 0 || (s[0] !in s[1..] && NoDup(s[1..]))
  }

  /** NoDup is pairwise distinctness. */
  lemma {:induction false} NoDupPairwise<T>(s: seq<T>)
    ensures NoDup(s) <==> forall i, j :: 0 <= i < j < |s| ==> s[i] != s[j]
  {
    if |s| > 0 {
      var t := s[1..];
      NoDupPairwise(t);
      if NoDup(s) {
        forall i, j | 0 <= i < j < |s| ensures s[i] != s[j] {
          if i == 0 {
            assert s[j] == t[j - 1];
          } else {
            assert s[i] == t[i - 1] && s[j] == t[j - 1];
          }
        }
      }
      if forall i, j :: 0 <= i < j < |s| ==> s[i] != s[j] {
        forall i, j | 0 <= i < j < |t| ensures t[i] != t[j] {
          assert t[i] == s[i + 1] && t[j] == s[j + 1];
        }
      }
    }
  }

  /** Appending an element not yet present keeps the elements distinct. */
  lemma NoDupSnoc<T>(s: seq<T>, x: T)
    requires NoDup(s) && x !in s
    ensures NoDup(s + [x])
  {
    NoDupPairwise(s);
    NoDupPairwise(s + [x]);
    assert forall i :: 0 <= i < |s| ==> (s + [x])[i] == s[i];
  }

  /** A sequence without duplicates has as many elements as its set. */
  lemma {:induction false} NoDupCard<T>(s: seq<T>)
    requires NoDup(s)
    ensures |set x | x in s| == |s|
  {
    if |s| > 0 {
      NoDupCard(s[1..]);
      assert (set x | x in s) == (set x | x in s[1..]) + {s[0]};
    }
  }

  /**
   * drop_duplicates() / unique(): keeps the first occurrence of every
   * element, in the order of first occurrence.
   */
  function Distinct<T(==,!new)>(s: seq<T>): (r: seq<T>)
    ensures NoDup(r)
    ensures forall x :: x in r <==> x in s
    ensures |r| <= |s|
  {
    if |s| == 0 then []
    else
      var p := Distinct(s[..|s| - 1]);
      assert forall x :: x in s[..|s| - 1] ==> x in s;
      if s[|s| - 1] in s[..|s| - 1] then p
      else
        assert forall x :: x in s ==> x in s[..|s| - 1] || x == s[|s| - 1];
        NoDupSnoc(p, s[|s| - 1]);
        p + [s[|s| - 1]]
  }

  /** Distinct keeps the earliest occurrence: deduplicating a prefix gives a prefix. */
  lemma {:induction false} DistinctPrefix<T(!new)>(s: seq<T>, k: nat)
    requires k <= |s|
    ensures Distinct(s[..k]) <= Distinct(s)
    decreases |s|
  {
    if k < |s| {
      var p := s[..|s| - 1];
      assert s[..k] == p[..k];
      DistinctPrefix(p, k);
      assert Distinct(p) <= Distinct(s);
    } else {
      assert s[..k] == s;
    }
  }

  lemma {:induction false} DistinctIsSubseq<T(!new)>(s: seq<T>)
    ensures Subseq(Distinct(s), s)
    decreases |s|
  {
    if |s| > 0 {
      var p := s[..|s| - 1];
      var x := s[|s| - 1];
      DistinctIsSubseq(p);
      SubseqAppend(Distinct(p), p, x);
      if x !in p {
        SubseqSnoc(Distinct(p), p, x);
      }
      assert p + [x] == s;
    }
  }

  lemma {:induction false} SubseqAppend<T>(a: seq<T>, b: seq<T>, x: T)
    requires Subseq(a, b)
    ensures Subseq(a, b + [x])
    decreases |b|
  {
    if |a| > 0 {
      assert (b + [x])[0] == b[0];
      assert (b + [x])[1..] == b[1..] + [x];
      if a[0] == b[0] && Subseq(a[1..], b[1..]) {
        SubseqAppend(a[1..], b[1..], x);
      } else {
        SubseqAppend(a, b[1..], x);
      }
    }
  }

  lemma {:induction false} SubseqSnoc<T>(a: seq<T>, b: seq<T>, x: T)
    requires Subseq(a, b)
    ensures Subseq(a + [x], b + [x])
    decreases |b|
  {
    if |a| == 0 {
      assert a + [x] == [x] && [x][1..] == [];
      if |b| > 0 {
        assert (b + [x])[1..] == b[1..] + [x];
        SubseqSnoc(a, b[1..], x);
      } else {
        assert b + [x] == [x];
      }
    } else {
      assert (b + [x])[1..] == b[1..] + [x];
      assert (a + [x])[1..] == a[1..] + [x];
      assert (b + [x])[0] == b[0];
      if a[0] == b[0] && Subseq(a[1..], b[1..]) {
        SubseqSnoc(a[1..], b[1..], x);
      } else {
        SubseqSnoc(a, b[1..], x);
      }
    }
  }

  /** Insert x before the first element that scores strictly less. */
  function Insert<T>(x: T, s: seq<T>, score: T -> real): (r: seq<T>)
    ensures multiset(r) == multiset(s) + multiset{x}
    ensures |r| == |s| + 1
  {
    if |s| == 0 then [x]
    else if score(x) >= score(s[0]) then [x] + s
    else
      assert s == [s[0]] + s[1..];
      [s[0]] + Insert(x, s[1..], score)
  }

  predicate NonIncreasing<T>(s: seq<T>, score: T -> real) {
    forall i, j :: 0 <= i < j < |s| ==> score(s[i]) >= score(s[j])
  }

  lemma {:induction false} InsertKeepsOrder<T>(x: T, s: seq<T>, score: T -> real)
    requires NonIncreasing(s, score)
    ensures NonIncreasing(Insert(x, s, score), score)
  {
    if |s| > 0 && score(x) < score(s[0]) {
      var t := Insert(x, s[1..], score);
      InsertKeepsOrder(x, s[1..], score);
      forall y | y in t ensures score(y) <= score(s[0]) {
        assert y in multiset(t);
        assert y == x || y in multiset(s[1..]);
      }
      assert Insert(x, s, score) == [s[0]] + t;
    }
  }

  /**
   * sort_values(ascending=False) as a stable insertion sort: a permutation
   * of s whose scores never increase.
   */
  function SortDesc<T>(s: seq<T>, score: T -> real): (r: seq<T>)
    ensures multiset(r) == multiset(s)
    ensures NonIncreasing(r, score)
    ensures |r| == |s|
  {
    if |s| == 0 then []
    else
      assert s == [s[0]] + s[1..];
      var t := SortDesc(s[1..], score);
      InsertKeepsOrder(s[0], t, score);
      Insert(s[0], t, score)
  }

  /** No two elements share a key. */
  predicate DistinctBy<T, K(==)>(s: seq<T>, key: T -> K) {
    forall i, j :: 0 <= i < j < |s| ==> key(s[i]) != key(s[j])
  }

  /** Putting in front an element whose key is new keeps keys distinct. */
  lemma ConsDistinctBy<T, K>(h: T, t: seq<T>, key: T -> K)
    requires DistinctBy(t, key)
    requires forall y :: y in t ==> key(y) != key(h)
    ensures DistinctBy([h] + t, key)
  {
    var r := [h] + t;
    forall i, j | 0 <= i < j < |r| ensures key(r[i]) != key(r[j]) {
      if i == 0 {
        assert r[j] == t[j - 1] && t[j - 1] in t;
      } else {
        assert r[i] == t[i - 1] && r[j] == t[j - 1];
      }
    }
  }

  lemma {:induction false} InsertDistinctBy<T, K>(x: T, s: seq<T>, score: T -> real, key: T -> K)
    requires DistinctBy(s, key)
    requires forall y :: y in s ==> key(y) != key(x)
    ensures DistinctBy(Insert(x, s, score), key)
  {
    if |s| > 0 && score(x) < score(s[0]) {
      var tail := s[1..];
      assert DistinctBy(tail, key) by {
        forall i, j | 0 <= i < j < |tail| ensures key(tail[i]) != key(tail[j]) {
          assert tail[i] == s[i + 1] && tail[j] == s[j + 1];
        }
      }
      assert forall y :: y in tail ==> y in s;
      InsertDistinctBy(x, tail, score, key);
      var t := Insert(x, tail, score);
      forall y | y in t ensures key(y) != key(s[0]) {
        assert y in multiset(t);
        if y != x {
          assert y in multiset(tail);
          var k :| 0 <= k < |tail| && tail[k] == y;
          assert s[k + 1] == y;
        } else {
          assert s[0] in s;
        }
      }
      ConsDistinctBy(s[0], t, key);
    } else if |s| > 0 {
      ConsDistinctBy(x, s, key);
    }
  }


  /** Sorting keeps keys distinct. */
  lemma {:induction false} SortDistinctBy<T, K>(s: seq<T>, score: T -> real, key: T -> K)
    requires DistinctBy(s, key)
    ensures DistinctBy(SortDesc(s, score), key)
  {
    if |s| > 0 {
      var t := SortDesc(s[1..], score);
      assert DistinctBy(s[1..], key) by {
        forall i, j | 0 <= i < j < |s[1..]| ensures key(s[1..][i]) != key(s[1..][j]) {
          assert s[1..][i] == s[i + 1] && s[1..][j] == s[j + 1];
        }
      }
      SortDistinctBy(s[1..], score, key);
      forall y | y in t ensures key(y) != key(s[0]) {
        assert y in multiset(s[1..]);
        var k :| 0 <= k < |s[1..]| && s[1..][k] == y;
        assert s[k + 1] == y;
      }
      InsertDistinctBy(s[0], t, score, key);
    }
  }

  /** Filtering keeps keys distinct. */
  lemma {:induction false} WhereDistinctBy<T, K>(s: seq<T>, p: T -> bool, key: T -> K)
    requires DistinctBy(s, key)
    ensures DistinctBy(Where(s, p), key)
  {
    if |s| > 0 {
      assert DistinctBy(s[1..], key) by {
        forall i, j | 0 <= i < j < |s[1..]| ensures key(s[1..][i]) != key(s[1..][j]) {
          assert s[1..][i] == s[i + 1] && s[1..][j] == s[j + 1];
        }
      }
      WhereDistinctBy(s[1..], p, key);
      var w := Where(s[1..], p);
      if p(s[0]) {
        var r := [s[0]] + w;
        assert r == Where(s, p);
        forall i, j | 0 <= i < j < |r| ensures key(r[i]) != key(r[j]) {
          if i == 0 {
            assert w[j - 1] in s[1..];
            var k :| 0 <= k < |s[1..]| && s[1..][k] == w[j - 1];
            assert s[k + 1] == r[j];
          } else {
            assert r[i] == w[i - 1] && r[j] == w[j - 1];
          }
        }
      } else {
        assert Where(s, p) == w;
      }
    }
  }

  /** Taking a prefix keeps keys distinct. */
  lemma TakeDistinctBy<T, K>(s: seq<T>, n: nat, key: T -> K)
    requires DistinctBy(s, key)
    ensures DistinctBy(Take(s, n), key)
  {
    var r := Take(s, n);
    forall i, j | 0 <= i < j < |r| ensures key(r[i]) != key(r[j]) {
      assert r[i] == s[i] && r[j] == s[j];
    }
  }

  /** head(n) */
  function Take<T>(s: seq<T>, n: nat): (r: seq<T>)
    ensures |r| == if |s| <= n then |s| else n
    ensures r <= s
  {
    if |s| <= n then s else s[..n]
  }

  /**
   * The top n by score: at most n, non-increasing, drawn from s, and no
   * element left out scores higher than any element kept.
   */
  lemma TopIsTop<T>(s: seq<T>, score: T -> real, n: nat)
    ensures var r := Take(SortDesc(s, score), n);
      && |r| <= n
      && NonIncreasing(r, score)
      && (forall x :: x in r ==> x in s)
      && (forall x, i :: x in s && x !in r && 0 <= i < |r| ==> score(x) <= score(r[i]))
  {
    var sorted := SortDesc(s, score);
    var r := Take(sorted, n);
    forall x | x in r ensures x in s {
      assert x in multiset(sorted);
    }
    forall x, i | x in s && x !in r && 0 <= i < |r| ensures score(x) <= score(r[i]) {
      assert x in multiset(s);
      assert x in sorted;
      var j :| 0 <= j < |sorted| && sorted[j] == x;
      assert forall k :: 0 <= k < |r| ==> r[k] == sorted[k];
      assert i < j;
    }
  }
}

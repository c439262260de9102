/**
 * groupby(...).size(), value_counts() and sort_values(...).head(n) as the
 * dashboard pages use them: one group per distinct key with the number of
 * cells holding that key.
 */
module Groups {
  import opened Values
  import opened Seqs
  import opened Tables

  /** How many times v occurs in s. */
  function Occurrences(s: seq<Value>, v: Value): nat {
    if |s| == 0 then 0 else (if s[0] == v then 1 else 0) + Occurrences(s[1..], v)
  }

  lemma {:induction false} NoOccurrence(s: seq<Value>, v: Value)
    requires v !in s
    ensures Occurrences(s, v) == 0
  {
    if |s| > 0 {
      assert s[0] in s;
      assert forall x :: x in s[1..] ==> x in s;
      NoOccurrence(s[1..], v);
    }
  }

  lemma {:induction false} OccursOnce(s: seq<Value>, v: Value)
    requires NoDup(s) && v in s
    ensures Occurrences(s, v) == 1
  {
    if s[0] == v {
      NoOccurrence(s[1..], v);
    } else {
      assert v in s[1..];
      OccursOnce(s[1..], v);
    }
  }

  lemma {:induction false} OccursIn(s: seq<Value>, v: Value)
    requires v in s
    ensures Occurrences(s, v) >= 1
  {
    if s[0] != v {
      assert v in s[1..];
      OccursIn(s[1..], v);
    }
  }

  /** notna() on one cell. */
  predicate Present(v: Value) {
    !v.Missing?
  }

  function Min(a: nat, b: nat): nat {
    if a <= b then a else b
  }

  /** The set of present values of a series (what nunique counts). */
  function PresentSet(vs: seq<Value>): set<Value> {
    set v | v in vs && Present(v)
  }

  /** There are as many group keys as distinct present values. */
  lemma KeysCount(vs: seq<Value>)
    ensures |KeysOf(vs, true)| == |PresentSet(vs)|
  {
    var ks := KeysOf(vs, true);
    assert (set v | v in ks) == PresentSet(vs);
    NoDupCard(ks);
  }

  /** The group keys: distinct values in order of first appearance; dropna leaves out missing. */
  function KeysOf(vs: seq<Value>, dropna: bool): (ks: seq<Value>)
    ensures NoDup(ks)
    ensures forall k :: k in ks <==> k in vs && (dropna ==> Present(k))
  {
    Distinct(if dropna then Where(vs, Present) else vs)
  }

  /** One row of groupby(...).size().reset_index(). */
  datatype Group = Group(key: Value, size: nat)

  /** The sort key of sort_values(size). */
  function SizeOf(g: Group): real {
    g.size as real
  }

  function Sizes(vs: seq<Value>, keys: seq<Value>): (gs: seq<Group>)
    ensures |gs| == |keys|
    ensures forall i :: 0 <= i < |keys| ==> gs[i] == Group(keys[i], Occurrences(vs, keys[i]))
  {
    if |keys| == 0 then [] else [Group(keys[0], Occurrences(vs, keys[0]))] + Sizes(vs, keys[1..])
  }

  /**
   * groupby(...).size() on a series of keys: one group per key (missing
   * only when dropna is off), each holding the number of cells with that key.
   */
  function GroupBy(vs: seq<Value>, dropna: bool): (gs: seq<Group>)
    ensures forall g :: g in gs ==>
      && g.key in vs && (dropna ==> Present(g.key))
      && g.size == Occurrences(vs, g.key) && g.size >= 1
    ensures forall v :: v in vs && (dropna ==> Present(v)) ==> Group(v, Occurrences(vs, v)) in gs
    ensures forall i, j :: 0 <= i < j < |gs| ==> gs[i].key != gs[j].key
    ensures |gs| == |KeysOf(vs, dropna)|
  {
    var keys := KeysOf(vs, dropna);
    NoDupPairwise(keys);
    var gs := Sizes(vs, keys);
    forall g | g in gs ensures g.size >= 1 {
      var i :| 0 <= i < |gs| && gs[i] == g;
      OccursIn(vs, keys[i]);
    }
    forall v | v in vs && (dropna ==> Present(v)) ensures Group(v, Occurrences(vs, v)) in gs {
      var i :| 0 <= i < |keys| && keys[i] == v;
      assert gs[i] == Group(v, Occurrences(vs, v));
    }
    gs
  }

  /** The key of a group, as a function value. */
  function KeyOf(g: Group): Value {
    g.key
  }

  /** Sorting groups by size keeps their keys distinct. */
  lemma SortedKeysDistinct(gs: seq<Group>)
    requires forall i, j :: 0 <= i < j < |gs| ==> gs[i].key != gs[j].key
    ensures var r := SortDesc(gs, SizeOf);
      forall i, j :: 0 <= i < j < |r| ==> r[i].key != r[j].key
  {
    assert DistinctBy(gs, KeyOf) by {
      forall i, j | 0 <= i < j < |gs| ensures KeyOf(gs[i]) != KeyOf(gs[j]) {
      }
    }
    SortDistinctBy(gs, SizeOf, KeyOf);
    var r := SortDesc(gs, SizeOf);
    forall i, j | 0 <= i < j < |r| ensures r[i].key != r[j].key {
      assert KeyOf(r[i]) != KeyOf(r[j]);
    }
  }

  /** With distinct keys in, the n largest groups have distinct keys. */
  lemma TopKeysDistinct(gs: seq<Group>, n: nat)
    ensures (forall i, j :: 0 <= i < j < |gs| ==> gs[i].key != gs[j].key) ==>
      var r := Take(SortDesc(gs, SizeOf), n);
      forall i, j :: 0 <= i < j < |r| ==> r[i].key != r[j].key
  {
    if (forall i, j :: 0 <= i < j < |gs| ==> gs[i].key != gs[j].key) {
      assert DistinctBy(gs, KeyOf) by {
        forall i, j | 0 <= i < j < |gs| ensures KeyOf(gs[i]) != KeyOf(gs[j]) {
        }
      }
      var sorted := SortDesc(gs, SizeOf);
      SortDistinctBy(gs, SizeOf, KeyOf);
      var r := Take(sorted, n);
      forall i, j | 0 <= i < j < |r| ensures r[i].key != r[j].key {
        assert r[i] == sorted[i] && r[j] == sorted[j];
        assert KeyOf(sorted[i]) != KeyOf(sorted[j]);
      }
    }
  }

  /** Total of the group sizes. */
  function SizeTotal(gs: seq<Group>): nat {
    if |gs| == 0 then 0 else gs[0].size + SizeTotal(gs[1..])
  }

  /** How many cells of vs are among the keys. */
  function Members(vs: seq<Value>, keys: seq<Value>): nat {
    if |vs| == 0 then 0 else (if vs[0] in keys then 1 else 0) + Members(vs[1..], keys)
  }

  lemma {:induction false} SizesOfNothing(vs: seq<Value>, keys: seq<Value>)
    requires |vs| == 0
    ensures SizeTotal(Sizes(vs, keys)) == 0
  {
    if |keys| > 0 {
      SizesOfNothing(vs, keys[1..]);
    }
  }

  /** Peeling the first cell off every group at once. */
  lemma {:induction false} SizesStep(vs: seq<Value>, keys: seq<Value>)
    requires |vs| > 0
    ensures SizeTotal(Sizes(vs, keys)) == Occurrences(keys, vs[0]) + SizeTotal(Sizes(vs[1..], keys))
  {
    if |keys| > 0 {
      SizesStep(vs, keys[1..]);
    }
  }

  /** With distinct keys, the groups together hold every cell that has a key, once. */
  lemma {:induction false} SizesCountMembers(vs: seq<Value>, keys: seq<Value>)
    requires NoDup(keys)
    ensures SizeTotal(Sizes(vs, keys)) == Members(vs, keys)
  {
    if |vs| == 0 {
      SizesOfNothing(vs, keys);
    } else {
      SizesStep(vs, keys);
      if vs[0] in keys {
        OccursOnce(keys, vs[0]);
      } else {
        NoOccurrence(keys, vs[0]);
      }
      SizesCountMembers(vs[1..], keys);
    }
  }

  lemma {:induction false} MembersAll(vs: seq<Value>, keys: seq<Value>)
    requires forall v :: v in vs ==> v in keys
    ensures Members(vs, keys) == |vs|
  {
    if |vs| > 0 {
      assert vs[0] in vs;
      assert forall v :: v in vs[1..] ==> v in vs;
      MembersAll(vs[1..], keys);
    }
  }

  lemma {:induction false} MembersPresent(vs: seq<Value>, keys: seq<Value>)
    requires forall v :: v in vs ==> (v in keys <==> Present(v))
    ensures Members(vs, keys) == Count(vs, Present)
  {
    if |vs| > 0 {
      assert vs[0] in vs;
      assert forall v :: v in vs[1..] ==> v in vs;
      MembersPresent(vs[1..], keys);
    }
  }

  /**
   * The groups partition the series: their sizes add up to the number of
   * cells, or to the number of present cells when missing keys are dropped.
   */
  lemma GroupByCoversCells(vs: seq<Value>, dropna: bool)
    ensures SizeTotal(GroupBy(vs, dropna)) == if dropna then Count(vs, Present) else |vs|
  {
    var keys := KeysOf(vs, dropna);
    SizesCountMembers(vs, keys);
    if dropna {
      MembersPresent(vs, keys);
    } else {
      MembersAll(vs, keys);
    }
  }

  lemma {:induction false} SizeTotalInsert(g: Group, gs: seq<Group>)
    ensures SizeTotal(Insert(g, gs, SizeOf)) == g.size + SizeTotal(gs)
  {
    if |gs| > 0 && SizeOf(g) < SizeOf(gs[0]) {
      SizeTotalInsert(g, gs[1..]);
      assert Insert(g, gs, SizeOf)[1..] == Insert(g, gs[1..], SizeOf);
    }
  }

  /** Sorting moves groups around and keeps their total. */
  lemma {:induction false} SizeTotalSorted(gs: seq<Group>)
    ensures SizeTotal(SortDesc(gs, SizeOf)) == SizeTotal(gs)
  {
    if |gs| > 0 {
      SizeTotalSorted(gs[1..]);
      SizeTotalInsert(gs[0], SortDesc(gs[1..], SizeOf));
    }
  }

  /**
   * value_counts(dropna=False): every distinct value with its count, the
   * most frequent first; the counts add up to the length of the series.
   */
  function Tally(vs: seq<Value>): (r: seq<Group>)
    ensures forall g :: g in r <==> g in GroupBy(vs, false)
    ensures NonIncreasing(r, SizeOf)
    ensures SizeTotal(r) == |vs|
    ensures forall i, j :: 0 <= i < j < |r| ==> r[i].key != r[j].key
  {
    var gs := GroupBy(vs, false);
    var r := SortDesc(gs, SizeOf);
    SortedKeysDistinct(gs);
    assert forall g :: g in r <==> g in multiset(gs);
    SizeTotalSorted(gs);
    GroupByCoversCells(vs, false);
    r
  }

  /** value_counts looked up at one value: its entry, when it occurs, holds its number of occurrences. */
  lemma TallyOf(vs: seq<Value>, v: Value, n: nat)
    requires Occurrences(vs, v) == n
    ensures forall g :: g in Tally(vs) && g.key == v ==> g.size == n
    ensures n > 0 ==> Group(v, n) in Tally(vs)
  {
    if Occurrences(vs, v) > 0 && v !in vs {
      NoOccurrence(vs, v);
    }
  }

  /**
   * sort_values(size, ascending=False).head(n): at most n groups, largest
   * first, and none left out is larger than one kept.
   */
  function Largest(gs: seq<Group>, n: nat): (r: seq<Group>)
    ensures |r| == if |gs| <= n then |gs| else n
    ensures NonIncreasing(r, SizeOf)
    ensures forall g :: g in r ==> g in gs
    ensures forall g, i :: g in gs && g !in r && 0 <= i < |r| ==> g.size <= r[i].size
    ensures (forall i, j :: 0 <= i < j < |gs| ==> gs[i].key != gs[j].key) ==>
      forall i, j :: 0 <= i < j < |r| ==> r[i].key != r[j].key
  {
    var r := Take(SortDesc(gs, SizeOf), n);
    TopKeysDistinct(gs, n);
    TopIsTop(gs, SizeOf, n);
    assert forall g, i :: g in gs && g !in r && 0 <= i < |r| ==> g.size <= r[i].size by {
      forall g, i | g in gs && g !in r && 0 <= i < |r| ensures g.size <= r[i].size {
        assert SizeOf(g) <= SizeOf(r[i]);
      }
    }
    r
  }

  /**
   * The "top n by number of rows" table of column c: empty when the column
   * is missing or the frame is empty, otherwise the n largest groups of the
   * present values.
   */
  function TopCounts(t: Table, c: string, n: nat): (r: seq<Group>)
    ensures c !in t.cols || |t.rows| == 0 ==> r == []
    ensures |r| <= n
    ensures c in t.cols && |t.rows| > 0 ==> |r| == Min(n, |KeysOf(Column(t, c), true)|)
    ensures NonIncreasing(r, SizeOf)
    ensures forall g :: g in r ==> Present(g.key) && g.size == Occurrences(Column(t, c), g.key) && g.size >= 1
    ensures forall v, i ::
              v in Column(t, c) && Present(v) && Group(v, Occurrences(Column(t, c), v)) !in r && 0 <= i < |r|
              ==> Occurrences(Column(t, c), v) <= r[i].size
    ensures c in t.cols && AnyPresent(t, c) && n > 0 ==> |r| > 0
    ensures forall i, j :: 0 <= i < j < |r| ==> r[i].key != r[j].key
  {
    if c !in t.cols || |t.rows| == 0 then []
    else
      var vs := Column(t, c);
      var gs := GroupBy(vs, true);
      assert AnyPresent(t, c) ==> |gs| > 0 by {
        if AnyPresent(t, c) {
          var i :| 0 <= i < |t.rows| && Present(Get(t.rows[i], c));
          assert vs[i] in vs;
          assert Group(vs[i], Occurrences(vs, vs[i])) in gs;
        }
      }
      Largest(gs, n)
  }
}

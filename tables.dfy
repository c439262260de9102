/**
 * Data frames: an ordered list of column names and a sequence of rows,
 * each row a map from column name to cell. The operations are the pandas
 * ones the pipeline uses: df[c], df[c] = values, df[list], drop(columns=)
 * and boolean-mask selection.
 */
module Tables {
  import opened Values
  import opened Seqs

  type Row = map<string, Value>

  datatype Table = Table(cols: seq<string>, rows: seq<Row>)

  function ColSet(cols: seq<string>): set<string> {
    set c | c in cols
  }

  /** A data frame: distinct column names, and every row has exactly those columns. */
  ghost predicate WF(t: Table) {
    && NoDup(t.cols)
    && forall r :: r in t.rows ==> r.Keys == ColSet(t.cols)
  }

  /** One cell; a column the row lacks reads as missing. */
  function Get(r: Row, c: string): Value {
    if c in r then r[c] else Missing
  }

  /** df[c] as a sequence of cells. */
  function Column(t: Table, c: string): (vs: seq<Value>)
    ensures |vs| == |t.rows|
    ensures forall i :: 0 <= i < |t.rows| ==> vs[i] == Get(t.rows[i], c)
  {
    seq(|t.rows|, i requires 0 <= i < |t.rows| => Get(t.rows[i], c))
  }

  /** A vectorised expression evaluated on every row. */
  function MapRows(t: Table, f: Row -> Value): (vs: seq<Value>)
    ensures |vs| == |t.rows|
    ensures forall i :: 0 <= i < |t.rows| ==> vs[i] == f(t.rows[i])
  {
    seq(|t.rows|, i requires 0 <= i < |t.rows| => f(t.rows[i]))
  }

  /** A sequence of n copies of v (a scalar broadcast to a column). */
  function Repeat(v: Value, n: nat): (vs: seq<Value>)
    ensures |vs| == n && forall i :: 0 <= i < n ==> vs[i] == v
  {
    seq(n, _ => v)
  }

  /** The columns after df[c] = ...: c is added at the end unless it is already a column. */
  function WithName(cols: seq<string>, c: string): (r: seq<string>)
    ensures forall x :: x in r <==> x in cols || x == c
  {
    if c in cols then cols else cols + [c]
  }

  /**
   * df[c] = vals: an existing column keeps its place and gets new cells,
   * a new column is appended at the end.
   */
  function SetColumn(t: Table, c: string, vals: seq<Value>): (r: Table)
    requires |vals| == |t.rows|
    ensures r.cols == if c in t.cols then t.cols else t.cols + [c]
    ensures |r.rows| == |t.rows|
    ensures forall i :: 0 <= i < |t.rows| ==> r.rows[i] == t.rows[i][c := vals[i]]
    ensures WF(t) ==> WF(r)
  {
    var rows := seq(|t.rows|, i requires 0 <= i < |t.rows| => t.rows[i][c := vals[i]]);
    var cols := if c in t.cols then t.cols else t.cols + [c];
    assert ColSet(cols) == ColSet(t.cols) + {c};
    assert WF(t) ==> NoDup(cols) by {
      if WF(t) && c !in t.cols {
        NoDupSnoc(t.cols, c);
      }
    }
    Table(cols, rows)
  }

  /** df[c] = <expression over the row>: SetColumn with the expression evaluated on every row. */
  function WithColumn(t: Table, c: string, f: Row -> Value): (r: Table)
    ensures r.cols == if c in t.cols then t.cols else t.cols + [c]
    ensures |r.rows| == |t.rows|
    ensures forall i :: 0 <= i < |t.rows| ==> r.rows[i] == t.rows[i][c := f(t.rows[i])]
    ensures WF(t) ==> WF(r)
  {
    SetColumn(t, c, MapRows(t, f))
  }

  /** The names of order that are in present, in the order of order (a list comprehension filter). */
  function KeepIn(order: seq<string>, present: set<string>): (r: seq<string>)
    ensures forall c :: c in r <==> c in order && c in present
    ensures |r| <= |order|
  {
    if |order| == 0 then []
    else (if order[0] in present then [order[0]] else []) + KeepIn(order[1..], present)
  }

  /** Filtering a list of distinct names gives distinct names. */
  lemma {:induction false} KeepInNoDup(order: seq<string>, present: set<string>)
    requires NoDup(order)
    ensures NoDup(KeepIn(order, present))
  {
    if |order| > 0 {
      KeepInNoDup(order[1..], present);
      var rest := KeepIn(order[1..], present);
      var r := KeepIn(order, present);
      if order[0] in present {
        assert r[1..] == rest;
      } else {
        assert r == rest;
      }
    }
  }

  lemma {:induction false} KeepInAppend(a: seq<string>, b: seq<string>, present: set<string>)
    ensures KeepIn(a + b, present) == KeepIn(a, present) + KeepIn(b, present)
  {
    if |a| == 0 {
      assert a + b == b;
    } else {
      assert (a + b)[0] == a[0];
      assert (a + b)[1..] == a[1..] + b;
      KeepInAppend(a[1..], b, present);
    }
  }

  /** Filtering twice is filtering by the intersection. */
  lemma {:induction false} KeepInKeepIn(order: seq<string>, a: set<string>, b: set<string>)
    ensures KeepIn(KeepIn(order, a), b) == KeepIn(order, a * b)
  {
    if |order| > 0 {
      KeepInKeepIn(order[1..], a, b);
      KeepInAppend(if order[0] in a then [order[0]] else [], KeepIn(order[1..], a), b);
    }
  }

  /** Only membership of the listed names matters. */
  lemma {:induction false} KeepInSame(order: seq<string>, a: set<string>, b: set<string>)
    requires forall c :: c in order ==> (c in a <==> c in b)
    ensures KeepIn(order, a) == KeepIn(order, b)
  {
    if |order| > 0 {
      assert forall c :: c in order[1..] ==> c in order;
      KeepInSame(order[1..], a, b);
    }
  }

  /** Keeping every listed name keeps the list. */
  lemma {:induction false} KeepInAll(order: seq<string>, present: set<string>)
    requires forall c :: c in order ==> c in present
    ensures KeepIn(order, present) == order
  {
    if |order| > 0 {
      assert forall c :: c in order[1..] ==> c in order;
      KeepInAll(order[1..], present);
      assert order == [order[0]] + order[1..];
    }
  }

  /** Keeping none of the listed names keeps nothing. */
  lemma {:induction false} KeepInNone(order: seq<string>, present: set<string>)
    requires forall c :: c in order ==> c !in present
    ensures KeepIn(order, present) == []
  {
    if |order| > 0 {
      assert forall c :: c in order[1..] ==> c in order;
      KeepInNone(order[1..], present);
    }
  }

  lemma NoDupAppend(a: seq<string>, b: seq<string>)
    requires NoDup(a) && NoDup(b)
    requires forall c :: c in a ==> c !in b
    ensures NoDup(a + b)
  {
    NoDupPairwise(a);
    NoDupPairwise(b);
    NoDupPairwise(a + b);
    forall i, j | 0 <= i < j < |a + b| ensures (a + b)[i] != (a + b)[j] {
      if j >= |a| && i < |a| {
        assert (a + b)[i] in a && (a + b)[j] in b;
      } else if j >= |a| {
        assert (a + b)[i] == b[i - |a|] && (a + b)[j] == b[j - |a|];
      } else {
        assert (a + b)[i] == a[i] && (a + b)[j] == a[j];
      }
    }
  }

  /** One row restricted to the names in cs. */
  function Pick(r: Row, cs: set<string>): (m: Row)
    ensures m.Keys == cs
    ensures forall c :: c in cs ==> m[c] == Get(r, c)
  {
    map c | c in cs :: Get(r, c)
  }

  /** df[cs]: the listed columns, in the listed order. */
  function Select(t: Table, cs: seq<string>): (r: Table)
    requires forall c :: c in cs ==> c in t.cols
    ensures r.cols == cs
    ensures |r.rows| == |t.rows|
    ensures forall i :: 0 <= i < |t.rows| ==> r.rows[i] == Pick(t.rows[i], ColSet(cs))
    ensures WF(t) && NoDup(cs) ==> WF(r)
  {
    Table(cs, seq(|t.rows|, i requires 0 <= i < |t.rows| => Pick(t.rows[i], ColSet(cs))))
  }

  /** Assigning a key twice keeps the second value. */
  lemma Overwrite(m: Row, c: string, a: Value, b: Value)
    ensures m[c := a][c := b] == m[c := b]
  {
  }

  /** drop(columns=[c]) for a column that exists. */
  function DropColumn(t: Table, c: string): (r: Table)
    ensures r.cols == KeepIn(t.cols, ColSet(t.cols) - {c})
    ensures |r.rows| == |t.rows|
    ensures forall i :: 0 <= i < |t.rows| ==> r.rows[i] == t.rows[i] - {c}
    ensures WF(t) ==> WF(r)
  {
    assert WF(t) ==> NoDup(KeepIn(t.cols, ColSet(t.cols) - {c})) by {
      if WF(t) {
        KeepInNoDup(t.cols, ColSet(t.cols) - {c});
      }
    }
    Table(KeepIn(t.cols, ColSet(t.cols) - {c}), seq(|t.rows|, i requires 0 <= i < |t.rows| => t.rows[i] - {c}))
  }

  /** if c in df.columns: df = df.drop(columns=[c]) */
  function DropIfPresent(t: Table, c: string): (r: Table)
    requires WF(t)
    ensures r.cols == KeepIn(t.cols, ColSet(t.cols) - {c})
    ensures |r.rows| == |t.rows|
    ensures forall i :: 0 <= i < |t.rows| ==> r.rows[i] == t.rows[i] - {c}
    ensures WF(r)
  {
    if c in t.cols then DropColumn(t, c)
    else
      assert KeepIn(t.cols, ColSet(t.cols) - {c}) == t.cols by {
        KeepInAll(t.cols, ColSet(t.cols) - {c});
      }
      assert forall i :: 0 <= i < |t.rows| ==> t.rows[i] - {c} == t.rows[i] by {
        forall i | 0 <= i < |t.rows| ensures t.rows[i] - {c} == t.rows[i] {
          assert t.rows[i] in t.rows;
        }
      }
      t
  }

  /** A row restricted to all of its own columns is the row. */
  lemma PickAll(r: Row)
    ensures Pick(r, r.Keys) == r
  {
  }

  /**
   * df[front + [c for c in df.columns if c not in front]], where front
   * already holds only existing columns: the listed columns move to the
   * front in the listed order, the others follow in their old order, and
   * every row is unchanged.
   */
  function MoveToFront(t: Table, front: seq<string>): (r: Table)
    requires WF(t) && NoDup(front)
    ensures r.cols == KeepIn(front, ColSet(t.cols)) + KeepIn(t.cols, ColSet(t.cols) - ColSet(front))
    ensures ColSet(r.cols) == ColSet(t.cols)
    ensures r.rows == t.rows
    ensures WF(r)
  {
    var fr := KeepIn(front, ColSet(t.cols));
    var rest := KeepIn(t.cols, ColSet(t.cols) - ColSet(fr));
    assert rest == KeepIn(t.cols, ColSet(t.cols) - ColSet(front)) by {
      KeepInSame(t.cols, ColSet(t.cols) - ColSet(fr), ColSet(t.cols) - ColSet(front));
    }
    assert NoDup(fr + rest) by {
      KeepInNoDup(front, ColSet(t.cols));
      KeepInNoDup(t.cols, ColSet(t.cols) - ColSet(fr));
      NoDupAppend(fr, rest);
    }
    var s := Select(t, fr + rest);
    assert ColSet(fr + rest) == ColSet(t.cols);
    assert s.rows == t.rows by {
      forall i | 0 <= i < |t.rows| ensures s.rows[i] == t.rows[i] {
        assert t.rows[i] in t.rows;
        PickAll(t.rows[i]);
      }
    }
    s
  }

  /** df[mask]: the rows satisfying p, with the same columns. */
  function Filter(t: Table, p: Row -> bool): (r: Table)
    ensures r.cols == t.cols
    ensures r.rows == Where(t.rows, p)
    ensures WF(t) ==> WF(r)
  {
    Table(t.cols, Where(t.rows, p))
  }

  /** Some cell of the column is present (df[c].notna().any()). */
  predicate AnyPresent(t: Table, c: string) {
    exists i :: 0 <= i < |t.rows| && !Get(t.rows[i], c).Missing?
  }

  /**
   * A pandas DataFrame that is updated in place (df[c] = values) and
   * handed between functions, so callers see the update.
   */
  class Frame {
    var cols: seq<string>
    var rows: seq<Row>

    function Snapshot(): Table
      reads this
    {
      Table(cols, rows)
    }

    constructor (t: Table)
      ensures Snapshot() == t
    {
      cols := t.cols;
      rows := t.rows;
    }

    /** df[c] = vals */
    method Assign(c: string, vals: seq<Value>)
      requires |vals| == |rows|
      modifies this
      ensures Snapshot() == SetColumn(old(Snapshot()), c, vals)
    {
      var t := SetColumn(Snapshot(), c, vals);
      cols := t.cols;
      rows := t.rows;
    }
  }
}

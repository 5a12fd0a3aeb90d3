/** `df.sort_values(c, ascending=False)`: a permutation of the rows that is
    non-increasing in column `c`, missing values last. The tie order pandas
    happens to produce is not promised. */
module Sorting {
  import opened Outcomes
  import opened Values
  import opened Frames

  /** `a` may stand before `b` in a descending sort: larger first, missing last. */
  predicate Before(a: Value, b: Value) {
    if b.Null? then true
    else if a.Null? then false
    else Compare(a, b) == Some(Greater) || Compare(a, b) == Some(Same)
  }

  /** Two cells that Python can order against each other. */
  predicate SameKind(a: Value, b: Value) {
    a.Null? || b.Null? || Kind(a) == Kind(b)
  }

  /** The present cells of a column share one kind; otherwise sorting raises a TypeError. */
  predicate Sortable(cells: seq<Value>) {
    forall i, j :: 0 <= i < |cells| && 0 <= j < |cells| ==> SameKind(cells[i], cells[j])
  }

  ghost predicate SortedDesc(cols: seq<string>, rows: seq<Row>, c: string) {
    forall i, j :: 0 <= i < j < |rows| ==> Before(Get(cols, rows[i], c), Get(cols, rows[j], c))
  }

  lemma BeforeTransitive(a: Value, b: Value, c: Value)
    requires SameKind(a, b) && SameKind(b, c) && SameKind(a, c)
    requires Before(a, b) && Before(b, c)
    ensures Before(a, c)
  {
    if !c.Null? {
      CompareTransitive(a, b, c);
    }
  }

  lemma BeforeTotal(a: Value, b: Value)
    requires SameKind(a, b)
    ensures Before(a, b) || Before(b, a)
  {
    if !a.Null? && !b.Null? {
      CompareSameKind(a, b);
    }
  }

  /** Every pair of rows drawn from `pool` has keys of one kind. */
  ghost predicate KeysSortable(cols: seq<string>, c: string, pool: seq<Row>) {
    forall x, y {:trigger SameKind(Get(cols, x, c), Get(cols, y, c))} ::
      x in pool && y in pool ==> SameKind(Get(cols, x, c), Get(cols, y, c))
  }

  /** `r` placed before the first row it may precede. */
  function Insert(cols: seq<string>, c: string, r: Row, rows: seq<Row>): seq<Row> {
    if |rows| == 0 then [r]
    else if Before(Get(cols, r, c), Get(cols, rows[0], c)) then [r] + rows
    else [rows[0]] + Insert(cols, c, r, rows[1..])
  }

  function InsertionSort(cols: seq<string>, c: string, rows: seq<Row>): seq<Row> {
    if |rows| == 0 then [] else Insert(cols, c, rows[0], InsertionSort(cols, c, rows[1..]))
  }

  lemma {:induction false} InsertSorted(cols: seq<string>, c: string, r: Row, rows: seq<Row>, pool: seq<Row>)
    requires KeysSortable(cols, c, pool) && r in pool && forall x :: x in rows ==> x in pool
    requires SortedDesc(cols, rows, c)
    ensures multiset(Insert(cols, c, r, rows)) == multiset(rows) + multiset{r}
    ensures SortedDesc(cols, Insert(cols, c, r, rows), c)
  {
    if |rows| > 0 {
      if Before(Get(cols, r, c), Get(cols, rows[0], c)) {
        InsertFront(cols, c, r, rows, pool);
      } else {
        var rest := rows[1..];
        assert forall x :: x in rest ==> x in rows;
        InsertSorted(cols, c, r, rest, pool);
        InsertLater(cols, c, r, rows, pool);
      }
    }
  }

  lemma InsertFront(cols: seq<string>, c: string, r: Row, rows: seq<Row>, pool: seq<Row>)
    requires KeysSortable(cols, c, pool) && r in pool && forall x :: x in rows ==> x in pool
    requires SortedDesc(cols, rows, c) && |rows| > 0
    requires Before(Get(cols, r, c), Get(cols, rows[0], c))
    ensures SortedDesc(cols, [r] + rows, c)
  {
    var out := [r] + rows;
    var kr, k0 := Get(cols, r, c), Get(cols, rows[0], c);
    forall i, j | 0 <= i < j < |out| ensures Before(Get(cols, out[i], c), Get(cols, out[j], c)) {
      if i == 0 && j > 1 {
        var kj := Get(cols, rows[j - 1], c);
        assert SameKind(kr, k0) && SameKind(k0, kj) && SameKind(kr, kj);
        BeforeTransitive(kr, k0, kj);
      }
    }
  }

  lemma InsertLater(cols: seq<string>, c: string, r: Row, rows: seq<Row>, pool: seq<Row>)
    requires KeysSortable(cols, c, pool) && r in pool && forall x :: x in rows ==> x in pool
    requires SortedDesc(cols, rows, c) && |rows| > 0
    requires !Before(Get(cols, r, c), Get(cols, rows[0], c))
    requires multiset(Insert(cols, c, r, rows[1..])) == multiset(rows[1..]) + multiset{r}
    requires SortedDesc(cols, Insert(cols, c, r, rows[1..]), c)
    ensures multiset(Insert(cols, c, r, rows)) == multiset(rows) + multiset{r}
    ensures SortedDesc(cols, Insert(cols, c, r, rows), c)
  {
    var kr, k0 := Get(cols, r, c), Get(cols, rows[0], c);
    var rest := rows[1..];
    assert SameKind(kr, k0);
    BeforeTotal(kr, k0);
    var ins := Insert(cols, c, r, rest);
    var out := [rows[0]] + ins;
    assert out == Insert(cols, c, r, rows);
    assert rows == [rows[0]] + rest;
    HeadBeforeInserted(cols, c, r, rows, ins);
    ConsSorted(cols, c, rows[0], ins);
  }

  /** The head of a sorted sequence comes before everything of its tail with a
      later-sorting row inserted. */
  lemma HeadBeforeInserted(cols: seq<string>, c: string, r: Row, rows: seq<Row>, ins: seq<Row>)
    requires SortedDesc(cols, rows, c) && |rows| > 0
    requires Before(Get(cols, rows[0], c), Get(cols, r, c))
    requires multiset(ins) == multiset(rows[1..]) + multiset{r}
    ensures forall j :: 0 <= j < |ins| ==> Before(Get(cols, rows[0], c), Get(cols, ins[j], c))
  {
    var rest := rows[1..];
    forall j | 0 <= j < |ins| ensures Before(Get(cols, rows[0], c), Get(cols, ins[j], c)) {
      assert ins[j] in multiset(ins);
      if ins[j] != r {
        assert ins[j] in multiset(rest);
        var k :| 0 <= k < |rest| && rest[k] == ins[j];
        assert rows[k + 1] == ins[j];
      }
    }
  }

  /** A row that comes before every row of a sorted sequence can go in front. */
  lemma ConsSorted(cols: seq<string>, c: string, x: Row, rows: seq<Row>)
    requires SortedDesc(cols, rows, c)
    requires forall j :: 0 <= j < |rows| ==> Before(Get(cols, x, c), Get(cols, rows[j], c))
    ensures SortedDesc(cols, [x] + rows, c)
  {
    var out := [x] + rows;
    forall i, j | 0 <= i < j < |out| ensures Before(Get(cols, out[i], c), Get(cols, out[j], c)) {
      if i > 0 {
        assert out[i] == rows[i - 1] && out[j] == rows[j - 1];
      }
    }
  }

  lemma {:induction false} InsertionSortCorrect(cols: seq<string>, c: string, rows: seq<Row>, pool: seq<Row>)
    requires KeysSortable(cols, c, pool) && forall x :: x in rows ==> x in pool
    ensures multiset(InsertionSort(cols, c, rows)) == multiset(rows)
    ensures SortedDesc(cols, InsertionSort(cols, c, rows), c)
  {
    if |rows| > 0 {
      InsertionSortCorrect(cols, c, rows[1..], pool);
      var sorted := InsertionSort(cols, c, rows[1..]);
      forall x | x in sorted ensures x in pool {
        assert x in multiset(rows[1..]);
      }
      InsertSorted(cols, c, rows[0], sorted, pool);
      assert rows == [rows[0]] + rows[1..];
    }
  }

  /** `t.sort_values(c, ascending=False)`: a KeyError when `c` is missing, a
      TypeError when its cells cannot be ordered against one another. */
  function SortDesc(t: Table<string>, c: string): (r: Result<Table<string>>)
    requires Rect(t)
    ensures r.Ok? <==> c in t.columns && Sortable(Column(t, c))
    ensures r.Ok? ==> Rect(r.value) && r.value.columns == t.columns
    ensures r.Ok? ==> multiset(r.value.rows) == multiset(t.rows) && |r.value.rows| == |t.rows|
    ensures r.Ok? ==> SortedDesc(t.columns, r.value.rows, c)
  {
    if c !in t.columns then Err(MissingColumn)
    else if !Sortable(Column(t, c)) then Err(TypeMismatch)
    else
      var rows := InsertionSort(t.columns, c, t.rows);
      SortFacts(t, c);
      Ok(Table(t.columns, rows))
  }

  lemma SortFacts(t: Table<string>, c: string)
    requires Rect(t) && Sortable(Column(t, c))
    ensures multiset(InsertionSort(t.columns, c, t.rows)) == multiset(t.rows)
    ensures SortedDesc(t.columns, InsertionSort(t.columns, c, t.rows), c)
    ensures Rect(Table(t.columns, InsertionSort(t.columns, c, t.rows)))
    ensures |InsertionSort(t.columns, c, t.rows)| == |t.rows|
  {
    var col := Column(t, c);
    forall x, y | x in t.rows && y in t.rows ensures SameKind(Get(t.columns, x, c), Get(t.columns, y, c)) {
      var i :| 0 <= i < |t.rows| && t.rows[i] == x;
      var j :| 0 <= j < |t.rows| && t.rows[j] == y;
      assert col[i] == Get(t.columns, x, c) && col[j] == Get(t.columns, y, c);
    }
    InsertionSortCorrect(t.columns, c, t.rows, t.rows);
    var sorted := InsertionSort(t.columns, c, t.rows);
    assert |multiset(sorted)| == |multiset(t.rows)|;
    forall i | 0 <= i < |sorted| ensures |sorted[i]| == |t.columns| {
      assert sorted[i] in multiset(t.rows);
    }
  }

  /** Filtering a sorted frame leaves it sorted. */
  lemma {:induction false} PickKeepsSorted(cols: seq<string>, rows: seq<Row>, keep: seq<bool>, c: string)
    requires |keep| == |rows| && SortedDesc(cols, rows, c)
    ensures SortedDesc(cols, Pick(rows, keep), c)
  {
    if |rows| > 0 {
      var rest := Pick(rows[1..], keep[1..]);
      assert SortedDesc(cols, rows[1..], c) by {
        forall i, j | 0 <= i < j < |rows| - 1
          ensures Before(Get(cols, rows[1..][i], c), Get(cols, rows[1..][j], c))
        {
          assert rows[1..][i] == rows[i + 1] && rows[1..][j] == rows[j + 1];
        }
      }
      PickKeepsSorted(cols, rows[1..], keep[1..], c);
      if keep[0] {
        forall y | y in rest ensures Before(Get(cols, rows[0], c), Get(cols, y, c)) {
          PickMember(rows[1..], keep[1..], y);
          var k :| 0 <= k < |rows| - 1 && keep[1..][k] && rows[1..][k] == y;
          assert rows[k + 1] == y;
        }
        var p := [rows[0]] + rest;
        forall i, j | 0 <= i < j < |p| ensures Before(Get(cols, p[i], c), Get(cols, p[j], c)) {
          if i == 0 {
            assert p[j] in rest;
          } else {
            assert p[i] == rest[i - 1] && p[j] == rest[j - 1];
          }
        }
      }
    }
  }
}

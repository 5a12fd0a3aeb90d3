/** The pandas DataFrame operations the tutorials use, on a frame whose rows
    are positional sequences of cells aligned with the column labels. A label
    is looked up by its first occurrence, so `Get` on a missing label (or a
    short row) reads as a missing value. */
module Frames {
  import opened Outcomes
  import opened Values

  type Row = seq<Value>

  datatype Table<K> = Table(columns: seq<K>, rows: seq<Row>)

  /** Every row has one cell per column. */
  ghost predicate Rect<K>(t: Table<K>) {
    forall i :: 0 <= i < |t.rows| ==> |t.rows[i]| == |t.columns|
  }

  predicate Distinct<K(==)>(s: seq<K>) {
    forall i, j :: 0 <= i < j < |s| ==> s[i] != s[j]
  }

  /** Position of the first occurrence of `c`. */
  function IndexOf<K(==)>(cols: seq<K>, c: K): (r: Option<nat>)
    ensures r.Some? <==> c in cols
    ensures r.Some? ==> r.value < |cols| && cols[r.value] == c
    ensures r.Some? ==> forall j :: 0 <= j < r.value ==> cols[j] != c
  {
    if |cols| == 0 then None
    else if cols[0] == c then Some(0)
    else
      match IndexOf(cols[1..], c)
      case None => None
      case Some(k) => Some(k + 1)
  }

  /** The cell of `row` under label `c` (`row[c]`), missing when there is none. */
  function Get<K(==)>(cols: seq<K>, row: Row, c: K): Value {
    match IndexOf(cols, c)
    case Some(i) => if i < |row| then row[i] else Null
    case None => Null
  }

  /** Under distinct labels, the cell under the `k`-th label is the `k`-th cell. */
  lemma GetAt<K>(cols: seq<K>, row: Row, k: int)
    requires Distinct(cols) && |row| == |cols| && 0 <= k < |cols|
    ensures Get(cols, row, cols[k]) == row[k]
  {
    var j := IndexOf(cols, cols[k]).value;
    assert cols[j] == cols[k];
  }

  /** `df[c]` once `c` is known to exist. */
  function Column<K(==)>(t: Table<K>, c: K): seq<Value> {
    seq(|t.rows|, i requires 0 <= i < |t.rows| => Get(t.columns, t.rows[i], c))
  }

  /** `df[c]`: a KeyError when `c` is not a column. */
  function Col<K(==)>(t: Table<K>, c: K): (r: Result<seq<Value>>)
    ensures r.Ok? <==> c in t.columns
    ensures r.Ok? ==> r.value == Column(t, c)
    ensures r.Err? ==> r.error == MissingColumn
  {
    if c in t.columns then Ok(Column(t, c)) else Err(MissingColumn)
  }

  // ---------------------------------------------------------------------
  // Boolean indexing

  /** The elements of `xs` whose flag in `keep` is set, in their order. */
  function Pick<T>(xs: seq<T>, keep: seq<bool>): seq<T>
    requires |keep| == |xs|
  {
    if |xs| == 0 then [] else (if keep[0] then [xs[0]] else []) + Pick(xs[1..], keep[1..])
  }

  function TrueCount(keep: seq<bool>): nat {
    if |keep| == 0 then 0 else (if keep[0] then 1 else 0) + TrueCount(keep[1..])
  }

  /** `a` is `b` with some elements left out, the rest in the same order. */
  predicate IsSubsequence<T(==)>(a: seq<T>, b: seq<T>)
    decreases |b|
  {
    |a| == 0 || (|b| > 0 && ((a[0] == b[0] && IsSubsequence(a[1..], b[1..])) || IsSubsequence(a, b[1..])))
  }

  lemma {:induction false} PickLength<T>(xs: seq<T>, keep: seq<bool>)
    requires |keep| == |xs|
    ensures |Pick(xs, keep)| == TrueCount(keep)
  {
    if |xs| > 0 {
      PickLength(xs[1..], keep[1..]);
    }
  }

  /** An element survives the filter iff some position holding it is kept. */
  lemma {:induction false} PickMember<T>(xs: seq<T>, keep: seq<bool>, x: T)
    requires |keep| == |xs|
    ensures x in Pick(xs, keep) <==> exists i :: 0 <= i < |xs| && keep[i] && xs[i] == x
  {
    if |xs| > 0 {
      PickMember(xs[1..], keep[1..], x);
      if x in Pick(xs[1..], keep[1..]) {
        var i :| 0 <= i < |xs| - 1 && keep[1..][i] && xs[1..][i] == x;
        assert keep[i + 1] && xs[i + 1] == x;
      }
      if exists i :: 0 <= i < |xs| && keep[i] && xs[i] == x {
        var i :| 0 <= i < |xs| && keep[i] && xs[i] == x;
        if i > 0 {
          assert keep[1..][i - 1] && xs[1..][i - 1] == x;
        }
      }
    }
  }

  /** A filter whose mask implies another's keeps a subsequence of what the other keeps. */
  lemma {:induction false} PickSubsequence<T>(xs: seq<T>, k1: seq<bool>, k2: seq<bool>)
    requires |k1| == |xs| && |k2| == |xs|
    requires forall i :: 0 <= i < |xs| ==> k1[i] ==> k2[i]
    ensures IsSubsequence(Pick(xs, k1), Pick(xs, k2))
  {
    if |xs| > 0 {
      var p1, p2 := Pick(xs[1..], k1[1..]), Pick(xs[1..], k2[1..]);
      PickSubsequence(xs[1..], k1[1..], k2[1..]);
      assert k1[0] ==> k2[0];
      if k1[0] {
        assert Pick(xs, k1) == [xs[0]] + p1 && Pick(xs, k2) == [xs[0]] + p2;
        assert ([xs[0]] + p1)[1..] == p1 && ([xs[0]] + p2)[1..] == p2;
      } else if k2[0] {
        assert Pick(xs, k1) == p1 && Pick(xs, k2) == [xs[0]] + p2;
        assert ([xs[0]] + p2)[1..] == p2;
      } else {
        assert Pick(xs, k1) == p1 && Pick(xs, k2) == p2;
      }
    }
  }

  /** A filter whose mask implies another's keeps no row more often than the other. */
  lemma {:induction false} PickMultisetMono<T>(xs: seq<T>, k1: seq<bool>, k2: seq<bool>)
    requires |k1| == |xs| && |k2| == |xs|
    requires forall i :: 0 <= i < |xs| ==> k1[i] ==> k2[i]
    ensures multiset(Pick(xs, k1)) <= multiset(Pick(xs, k2))
  {
    if |xs| > 0 {
      PickMultisetMono(xs[1..], k1[1..], k2[1..]);
      assert k1[0] ==> k2[0];
    }
  }

  lemma {:induction false} PickNone<T>(xs: seq<T>, keep: seq<bool>)
    requires |keep| == |xs| && forall i :: 0 <= i < |keep| ==> !keep[i]
    ensures Pick(xs, keep) == []
  {
    if |xs| > 0 {
      PickNone(xs[1..], keep[1..]);
    }
  }

  /** A subsequence's elements are elements of the whole. */
  lemma {:induction false} SubsequenceMember<T>(a: seq<T>, b: seq<T>, x: T)
    requires IsSubsequence(a, b) && x in a
    ensures x in b
    decreases |b|
  {
    if a[0] == b[0] && IsSubsequence(a[1..], b[1..]) {
      if x != a[0] {
        SubsequenceMember(a[1..], b[1..], x);
      }
    } else {
      SubsequenceMember(a, b[1..], x);
    }
  }

  /** Where the kept positions include every position holding `c`, filtering a
      row and its labels together leaves the cell under `c` as it was. */
  lemma {:induction false} GetPick<K>(cols: seq<K>, row: Row, keep: seq<bool>, c: K)
    requires |row| == |cols| && |keep| == |cols|
    requires forall j :: 0 <= j < |cols| && cols[j] == c ==> keep[j]
    ensures |Pick(row, keep)| == |Pick(cols, keep)|
    ensures Get(Pick(cols, keep), Pick(row, keep), c) == Get(cols, row, c)
  {
    PickLength(row, keep);
    PickLength(cols, keep);
    if |cols| > 0 {
      var pc, pr := Pick(cols[1..], keep[1..]), Pick(row[1..], keep[1..]);
      GetPick(cols[1..], row[1..], keep[1..], c);
      if cols[0] == c {
        assert Pick(cols, keep) == [c] + pc && Pick(row, keep) == [row[0]] + pr;
      } else {
        GetTail(cols, row, c);
        if keep[0] {
          assert Pick(cols, keep) == [cols[0]] + pc && Pick(row, keep) == [row[0]] + pr;
          GetTail([cols[0]] + pc, [row[0]] + pr, c);
          assert ([cols[0]] + pc)[1..] == pc && ([row[0]] + pr)[1..] == pr;
        } else {
          assert Pick(cols, keep) == pc && Pick(row, keep) == pr;
        }
      }
    }
  }

  /** Dropping a first column labelled other than `c` does not change the cell under `c`. */
  lemma GetTail<K>(cols: seq<K>, row: Row, c: K)
    requires |cols| > 0 && |row| == |cols| && cols[0] != c
    ensures Get(cols, row, c) == Get(cols[1..], row[1..], c)
  {
  }

  // ---------------------------------------------------------------------
  // Column labels

  /** `m.get(c, c)`: how `df.rename(columns=m)` relabels `c`. */
  function Renamed(m: map<string, string>, c: string): string {
    if c in m then m[c] else c
  }

  function RenameAll(cols: seq<string>, m: map<string, string>): seq<string> {
    seq(|cols|, i requires 0 <= i < |cols| => Renamed(m, cols[i]))
  }

  /** `df.rename(columns=m)`: labels change; no cell moves. */
  function Rename(t: Table<string>, m: map<string, string>): Table<string> {
    Table(RenameAll(t.columns, m), t.rows)
  }

  /** `df.columns = names`: a ValueError unless there is one label per column. */
  function SetColumns<K, L>(t: Table<K>, names: seq<L>): Result<Table<L>> {
    if |names| == |t.columns| then Ok(Table(names, t.rows)) else Err(LengthMismatch)
  }

  /** When no other label is renamed onto `Renamed(m, c)`, a renamed frame reads
      under the new label what the original read under `c`. */
  lemma {:induction false} GetRenamed(cols: seq<string>, row: Row, m: map<string, string>, c: string)
    requires |row| == |cols|
    requires forall j :: 0 <= j < |cols| && Renamed(m, cols[j]) == Renamed(m, c) ==> cols[j] == c
    ensures Get(RenameAll(cols, m), row, Renamed(m, c)) == Get(cols, row, c)
  {
    var names := RenameAll(cols, m);
    var n := Renamed(m, c);
    match IndexOf(cols, c)
    case Some(k) =>
      assert names[k] == n;
      var k' := IndexOf(names, n).value;
      assert cols[k'] == c;
    case None =>
  }

  /** The positions of the labels not in `names`. */
  function Keeps(cols: seq<string>, names: seq<string>): (r: seq<bool>)
    ensures |r| == |cols| && forall j :: 0 <= j < |cols| ==> r[j] == (cols[j] !in names)
  {
    seq(|cols|, j requires 0 <= j < |cols| => cols[j] !in names)
  }

  /** Every row cut down to the kept positions. */
  function PickCells(rows: seq<Row>, keep: seq<bool>): (r: seq<Row>)
    requires forall i :: 0 <= i < |rows| ==> |rows[i]| == |keep|
    ensures |r| == |rows| && forall i :: 0 <= i < |rows| ==> r[i] == Pick(rows[i], keep)
  {
    seq(|rows|, i requires 0 <= i < |rows| => Pick(rows[i], keep))
  }

  /** What a successful drop consists of. */
  lemma DropValue(t: Table<string>, names: seq<string>)
    requires Rect(t) && Drop(t, names).Ok?
    ensures Drop(t, names).value == Table(Pick(t.columns, Keeps(t.columns, names)), PickCells(t.rows, Keeps(t.columns, names)))
  {
  }

  /** `df.drop(columns=names)`: a KeyError if any of `names` is missing;
      otherwise every column so labelled goes and the rest keep their order. */
  function Drop(t: Table<string>, names: seq<string>): (r: Result<Table<string>>)
    requires Rect(t)
    ensures r.Ok? <==> forall n :: n in names ==> n in t.columns
    ensures r.Ok? ==> Rect(r.value) && |r.value.rows| == |t.rows|
    ensures r.Ok? ==> IsSubsequence(r.value.columns, t.columns)
    ensures r.Ok? ==> forall c :: c in r.value.columns <==> c in t.columns && c !in names
    ensures r.Ok? ==> forall i, c :: 0 <= i < |t.rows| && c !in names ==>
                        Get(r.value.columns, r.value.rows[i], c) == Get(t.columns, t.rows[i], c)
  {
    if forall n :: n in names ==> n in t.columns then
      var keep := Keeps(t.columns, names);
      var r := Table(Pick(t.columns, keep), PickCells(t.rows, keep));
      DropFacts(t, names, keep, r);
      Ok(r)
    else
      Err(MissingColumn)
  }

  lemma DropFacts(t: Table<string>, names: seq<string>, keep: seq<bool>, r: Table<string>)
    requires Rect(t)
    requires keep == Keeps(t.columns, names)
    requires r == Table(Pick(t.columns, keep), PickCells(t.rows, keep))
    ensures Rect(r) && |r.rows| == |t.rows|
    ensures IsSubsequence(r.columns, t.columns)
    ensures forall c :: c in r.columns <==> c in t.columns && c !in names
    ensures forall i, c :: 0 <= i < |t.rows| && c !in names ==>
              Get(r.columns, r.rows[i], c) == Get(t.columns, t.rows[i], c)
  {
    forall i | 0 <= i < |t.rows| ensures |r.rows[i]| == |r.columns| {
      PickLength(t.rows[i], keep);
      PickLength(t.columns, keep);
    }
    PickSubsequence(t.columns, keep, seq(|t.columns|, j => true));
    assert Pick(t.columns, seq(|t.columns|, j => true)) == t.columns by {
      PickAllIsWhole(t.columns);
    }
    forall c ensures c in r.columns <==> c in t.columns && c !in names {
      PickMember(t.columns, keep, c);
    }
    forall i, c | 0 <= i < |t.rows| && c !in names
      ensures Get(r.columns, r.rows[i], c) == Get(t.columns, t.rows[i], c)
    {
      GetPick(t.columns, t.rows[i], keep, c);
    }
  }

  lemma {:induction false} PickAllIsWhole<T>(xs: seq<T>)
    ensures Pick(xs, seq(|xs|, j => true)) == xs
  {
    if |xs| > 0 {
      assert seq(|xs|, j => true)[1..] == seq(|xs| - 1, j => true);
      PickAllIsWhole(xs[1..]);
    }
  }

  /** One row of `df[names]`. */
  function ProjectRow(cols: seq<string>, row: Row, names: seq<string>): Row {
    seq(|names|, j requires 0 <= j < |names| => Get(cols, row, names[j]))
  }

  /** `df[names]`: a KeyError if any label is missing; otherwise the frame
      with exactly those columns, in that order. */
  function Project(t: Table<string>, names: seq<string>): (r: Result<Table<string>>)
    ensures r.Ok? <==> forall n :: n in names ==> n in t.columns
    ensures r.Ok? ==> Rect(r.value) && r.value.columns == names && |r.value.rows| == |t.rows|
    ensures r.Ok? ==> forall i, c :: 0 <= i < |t.rows| && c in names ==>
                        Get(names, r.value.rows[i], c) == Get(t.columns, t.rows[i], c)
  {
    if forall n :: n in names ==> n in t.columns then
      Ok(Table(names, seq(|t.rows|, i requires 0 <= i < |t.rows| => ProjectRow(t.columns, t.rows[i], names))))
    else
      Err(MissingColumn)
  }

  /** `df[c] = vals`: overwrites column `c` in place, or appends it at the end. */
  function Assign(t: Table<string>, c: string, vals: seq<Value>): (r: Table<string>)
    requires Rect(t) && |vals| == |t.rows|
    ensures Rect(r) && |r.rows| == |t.rows|
    ensures r.columns == if c in t.columns then t.columns else t.columns + [c]
    ensures forall i :: 0 <= i < |t.rows| ==> Get(r.columns, r.rows[i], c) == vals[i]
    ensures forall i, c' :: 0 <= i < |t.rows| && c' != c ==>
              Get(r.columns, r.rows[i], c') == Get(t.columns, t.rows[i], c')
  {
    match IndexOf(t.columns, c)
    case Some(j) =>
      Table(t.columns, seq(|t.rows|, i requires 0 <= i < |t.rows| => t.rows[i][j := vals[i]]))
    case None =>
      var r := Table(t.columns + [c], seq(|t.rows|, i requires 0 <= i < |t.rows| => t.rows[i] + [vals[i]]));
      AppendFacts(t.columns, c);
      r
  }

  lemma {:induction false} AppendFacts(cols: seq<string>, c: string)
    requires c !in cols
    ensures IndexOf(cols + [c], c) == Some(|cols|)
    ensures forall c' :: c' != c ==> IndexOf(cols + [c], c') == IndexOf(cols, c')
  {
    if |cols| > 0 {
      assert (cols + [c])[1..] == cols[1..] + [c];
      AppendFacts(cols[1..], c);
    }
  }

  /** A column holding the same scalar in every row, as `df[c] = "home"` broadcasts it. */
  function Constant(n: nat, v: Value): seq<Value> {
    seq(n, i => v)
  }

  /** Boolean indexing `df[keep]`: the rows whose flag is set, in their order. */
  function Filter(t: Table<string>, keep: seq<bool>): (r: Table<string>)
    requires |keep| == |t.rows|
    requires Rect(t)
    ensures Rect(r) && r.columns == t.columns
    ensures r.rows == Pick(t.rows, keep)
  {
    var r := Table(t.columns, Pick(t.rows, keep));
    FilterRect(t, keep);
    r
  }

  lemma FilterRect(t: Table<string>, keep: seq<bool>)
    requires |keep| == |t.rows| && Rect(t)
    ensures Rect(Table(t.columns, Pick(t.rows, keep)))
  {
    forall x | x in Pick(t.rows, keep) ensures |x| == |t.columns| {
      PickMember(t.rows, keep, x);
    }
  }

  /** Flags of the rows whose cell under `c` is present. */
  function Present(cells: seq<Value>): (r: seq<bool>)
    ensures |r| == |cells| && forall i :: 0 <= i < |cells| ==> r[i] == !cells[i].Null?
  {
    seq(|cells|, i requires 0 <= i < |cells| => !cells[i].Null?)
  }

  /** `df.dropna(subset=c)`: a KeyError when `c` is missing; otherwise the rows
      whose cell under `c` is present, in their order. */
  function DropNa(t: Table<string>, c: string): (r: Result<Table<string>>)
    requires Rect(t)
    ensures r.Ok? <==> c in t.columns
    ensures r.Ok? ==> Rect(r.value) && r.value.columns == t.columns
    ensures r.Ok? ==> r.value.rows == Pick(t.rows, Present(Column(t, c)))
  {
    var cells :- Col(t, c);
    Ok(Filter(t, Present(cells)))
  }

  /** Reading one label commutes with boolean indexing. */
  lemma {:induction false} PickColumn<K>(t: Table<K>, keep: seq<bool>, c: K)
    requires |keep| == |t.rows|
    decreases |t.rows|
    ensures |Pick(t.rows, keep)| == |Pick(Column(t, c), keep)|
    ensures forall j :: 0 <= j < |Pick(t.rows, keep)| ==>
              Get(t.columns, Pick(t.rows, keep)[j], c) == Pick(Column(t, c), keep)[j]
  {
    PickLength(t.rows, keep);
    PickLength(Column(t, c), keep);
    if |t.rows| > 0 {
      var tail := Table(t.columns, t.rows[1..]);
      assert Column(t, c)[1..] == Column(tail, c);
      PickColumn(tail, keep[1..], c);
    }
  }

  /** The column of a filtered frame is the filtered column. */
  lemma FilterColumn(t: Table<string>, keep: seq<bool>, c: string)
    requires Rect(t) && |keep| == |t.rows|
    ensures Column(Filter(t, keep), c) == Pick(Column(t, c), keep)
  {
    PickColumn(t, keep, c);
  }

  lemma {:induction false} TrueCountAppend(a: seq<bool>, b: seq<bool>)
    ensures TrueCount(a + b) == TrueCount(a) + TrueCount(b)
  {
    if |a| > 0 {
      assert (a + b)[1..] == a[1..] + b;
      TrueCountAppend(a[1..], b);
    } else {
      assert a + b == b;
    }
  }

  /** `cells.apply(f)`: `f` cell by cell, stopping at the first failure of `f`
      and raising that failure. */
  function Apply(cells: seq<Value>, f: Value -> Result<Value>): (r: Result<seq<Value>>)
    decreases |cells|
    ensures r.Ok? <==> forall i :: 0 <= i < |cells| ==> f(cells[i]).Ok?
    ensures r.Ok? ==> |r.value| == |cells| && forall i :: 0 <= i < |cells| ==> r.value[i] == f(cells[i]).value
    ensures r.Err? ==> exists i :: 0 <= i < |cells| && f(cells[i]) == Err(r.error) &&
                                   forall j :: 0 <= j < i ==> f(cells[j]).Ok?
  {
    if |cells| == 0 then Ok([])
    else
      match f(cells[0])
      case Err(e) => Err(e)
      case Ok(v) =>
        match Apply(cells[1..], f)
        case Err(e) => ApplyLater(cells, f, e); Err(e)
        case Ok(vs) => Ok([v] + vs)
  }

  /** `out` is `f` applied to every cell, and no cell fails. */
  ghost predicate Applied(cells: seq<Value>, f: Value -> Result<Value>, out: seq<Value>) {
    |out| == |cells| && forall i :: 0 <= i < |cells| ==> f(cells[i]).Ok? && out[i] == f(cells[i]).value
  }

  /** A failure past the first cell, when the first cell succeeds, is the
      first failure of the whole column. */
  lemma ApplyLater(cells: seq<Value>, f: Value -> Result<Value>, e: Error)
    requires |cells| > 0 && f(cells[0]).Ok?
    requires exists i :: 0 <= i < |cells| - 1 && f(cells[1..][i]) == Err(e) &&
                         forall j :: 0 <= j < i ==> f(cells[1..][j]).Ok?
    ensures exists i :: 0 <= i < |cells| && f(cells[i]) == Err(e) &&
                        forall j :: 0 <= j < i ==> f(cells[j]).Ok?
  {
    var i :| 0 <= i < |cells| - 1 && f(cells[1..][i]) == Err(e) &&
             forall j :: 0 <= j < i ==> f(cells[1..][j]).Ok?;
    assert forall j :: 0 <= j < i + 1 ==> f(cells[j]).Ok? by {
      forall j | 0 <= j < i + 1 ensures f(cells[j]).Ok? {
        if j > 0 { assert cells[j] == cells[1..][j - 1]; }
      }
    }
    assert f(cells[i + 1]) == Err(e);
  }

  // ---------------------------------------------------------------------
  // pd.concat

  /** Labels of `b` not already among `a`, in `b`'s order. */
  function NewLabels(a: seq<string>, b: seq<string>): seq<string> {
    Pick(b, NewFlags(a, b))
  }

  function NewFlags(a: seq<string>, b: seq<string>): (r: seq<bool>)
    ensures |r| == |b| && forall j :: 0 <= j < |b| ==> r[j] == (b[j] !in a)
  {
    seq(|b|, j requires 0 <= j < |b| => b[j] !in a)
  }

  /** A row re-indexed onto the labels `to`: missing where `from` lacks a label. */
  function Realign(from: seq<string>, row: Row, to: seq<string>): Row {
    seq(|to|, j requires 0 <= j < |to| => Get(from, row, to[j]))
  }

  lemma GetRealign(from: seq<string>, row: Row, to: seq<string>, c: string)
    requires c in from ==> c in to
    ensures Get(to, Realign(from, row, to), c) == Get(from, row, c)
  {
  }

  /** `pd.concat([a, b])`: rows of `a` then rows of `b`, aligned by label over
      the union of labels (those of `a` first). */
  function Concat(a: Table<string>, b: Table<string>): (r: Table<string>)
    ensures Rect(r) && |r.rows| == |a.rows| + |b.rows|
    ensures |r.columns| >= |a.columns| && r.columns[..|a.columns|] == a.columns
    ensures (forall c :: c in b.columns ==> c in a.columns) ==> r.columns == a.columns
    ensures forall c :: c in r.columns <==> c in a.columns || c in b.columns
    ensures forall i, c :: 0 <= i < |a.rows| ==>
              Get(r.columns, r.rows[i], c) == Get(a.columns, a.rows[i], c)
    ensures forall i, c :: |a.rows| <= i < |r.rows| ==>
              Get(r.columns, r.rows[i], c) == Get(b.columns, b.rows[i - |a.rows|], c)
  {
    var extra := NewLabels(a.columns, b.columns);
    var cols := a.columns + extra;
    var r := Table(cols, seq(|a.rows|, i requires 0 <= i < |a.rows| => Realign(a.columns, a.rows[i], cols))
                       + seq(|b.rows|, i requires 0 <= i < |b.rows| => Realign(b.columns, b.rows[i], cols)));
    ConcatFacts(a, b, r);
    r
  }

  /** Row `k` of `b` is row `|a.rows| + k` of the concatenation. */
  lemma ConcatRight(a: Table<string>, b: Table<string>, k: int)
    requires 0 <= k < |b.rows|
    ensures forall c :: Get(Concat(a, b).columns, Concat(a, b).rows[|a.rows| + k], c) == Get(b.columns, b.rows[k], c)
  {
    var r := Concat(a, b);
    var j := |a.rows| + k;
    assert j - |a.rows| == k;
    forall c ensures Get(r.columns, r.rows[j], c) == Get(b.columns, b.rows[k], c) {
      assert Get(r.columns, r.rows[j], c) == Get(b.columns, b.rows[j - |a.rows|], c);
    }
  }

  lemma ConcatFacts(a: Table<string>, b: Table<string>, r: Table<string>)
    requires r.columns == a.columns + NewLabels(a.columns, b.columns)
    requires r.rows == seq(|a.rows|, i requires 0 <= i < |a.rows| => Realign(a.columns, a.rows[i], r.columns))
                     + seq(|b.rows|, i requires 0 <= i < |b.rows| => Realign(b.columns, b.rows[i], r.columns))
    ensures Rect(r) && |r.rows| == |a.rows| + |b.rows|
    ensures |r.columns| >= |a.columns| && r.columns[..|a.columns|] == a.columns
    ensures (forall c :: c in b.columns ==> c in a.columns) ==> r.columns == a.columns
    ensures forall c :: c in r.columns <==> c in a.columns || c in b.columns
    ensures forall i, c :: 0 <= i < |a.rows| ==>
              Get(r.columns, r.rows[i], c) == Get(a.columns, a.rows[i], c)
    ensures forall i, c :: |a.rows| <= i < |r.rows| ==>
              Get(r.columns, r.rows[i], c) == Get(b.columns, b.rows[i - |a.rows|], c)
  {
    var cols := r.columns;
    var keep := NewFlags(a.columns, b.columns);
    forall c ensures c in cols <==> c in a.columns || c in b.columns {
      PickMember(b.columns, keep, c);
      if c in b.columns && c !in a.columns {
        var i :| 0 <= i < |b.columns| && b.columns[i] == c;
        assert keep[i];
      }
    }
    if forall c :: c in b.columns ==> c in a.columns {
      forall i | 0 <= i < |b.columns| ensures !keep[i] {
        assert b.columns[i] in b.columns;
      }
      PickNone(b.columns, keep);
    }
    forall i, c | 0 <= i < |a.rows| ensures Get(r.columns, r.rows[i], c) == Get(a.columns, a.rows[i], c) {
      GetRealign(a.columns, a.rows[i], cols, c);
    }
    forall i, c | |a.rows| <= i < |r.rows|
      ensures Get(r.columns, r.rows[i], c) == Get(b.columns, b.rows[i - |a.rows|], c)
    {
      GetRealign(b.columns, b.rows[i - |a.rows|], cols, c);
    }
  }

  // ---------------------------------------------------------------------
  // Masks

  /** `cells <op> v` element-wise; a TypeError if any single comparison raises. */
  function Tests(cells: seq<Value>, op: Op, v: Value): (r: Result<seq<bool>>)
    ensures r.Ok? <==> forall i :: 0 <= i < |cells| ==> Test(cells[i], op, v).Some?
    ensures r.Ok? ==> |r.value| == |cells|
    ensures r.Ok? ==> forall i :: 0 <= i < |cells| ==> r.value[i] == Test(cells[i], op, v).value
  {
    if forall i :: 0 <= i < |cells| ==> Test(cells[i], op, v).Some? then
      Ok(seq(|cells|, i requires 0 <= i < |cells| => Test(cells[i], op, v).value))
    else
      Err(TypeMismatch)
  }

  /** `df[c] <op> v` */
  function Mask(t: Table<string>, c: string, op: Op, v: Value): (r: Result<seq<bool>>)
    ensures r.Ok? ==> c in t.columns && |r.value| == |t.rows|
    ensures r.Ok? ==> forall i :: 0 <= i < |t.rows| ==> Test(Get(t.columns, t.rows[i], c), op, v) == Some(r.value[i])
    ensures r.Ok? <==> c in t.columns && forall i :: 0 <= i < |t.rows| ==> Test(Get(t.columns, t.rows[i], c), op, v).Some?
  {
    var cells :- Col(t, c);
    Tests(cells, op, v)
  }

  /** `m1 & m2` */
  function And(m1: seq<bool>, m2: seq<bool>): seq<bool>
    requires |m1| == |m2|
  {
    seq(|m1|, i requires 0 <= i < |m1| => m1[i] && m2[i])
  }
}

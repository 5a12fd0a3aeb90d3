/** The first version of the player tutorial (app.py): the same header
    flattening without snake-casing, the same drop under the headers' own
    spelling, and the player steps of `Players` under those labels. */
module App {
  import opened Outcomes
  import opened Values
  import opened Text
  import opened Frames
  import FirstTutorial

  /** One flattened label, as the headers spell it: snake-casing it gives the
      pages/1_First_tutorial.py label. */
  function FlatName(c1: string, c2: string): (r: string)
    ensures Snake(r) == FirstTutorial.FlatName(c1, c2)
  {
    SnakeJoin(c1, c2);
    if !Contains(c1, "Unnamed") then c1 + " " + c2 else c2
  }

  function Flatten(headers: seq<(string, string)>): (r: seq<string>)
    ensures |r| == |headers|
    ensures forall i :: 0 <= i < |headers| ==> r[i] == FlatName(headers[i].0, headers[i].1)
  {
    seq(|headers|, i requires 0 <= i < |headers| => FlatName(headers[i].0, headers[i].1))
  }

  /** Both scripts flatten to the same labels up to snake case. */
  lemma SnakeFlatten(headers: seq<(string, string)>)
    ensures SnakeAll(Flatten(headers)) == FirstTutorial.Flatten(headers)
  {
    assert forall i :: 0 <= i < |headers| ==> SnakeAll(Flatten(headers))[i] == FirstTutorial.Flatten(headers)[i];
  }

  /** The columns the script drops. */
  const Junk: seq<string> := ["Rk", "Matches", "#NAME? -9999"]

  /** The dropped labels snake-case to those of the later script, and no two of
      them to the same label. */
  lemma SnakeJunk()
    ensures SnakeAll(Junk) == FirstTutorial.Junk
    ensures Distinct(SnakeAll(Junk))
  {
    assert Snake("Rk") == "rk" by {
      assert Lower("Rk") == "rk";
    }
    assert Snake("Matches") == "matches" by {
      assert Lower("Matches") == "matches";
    }
    assert Snake("#NAME? -9999") == "#name?_-9999" by {
      assert Lower("#NAME? -9999") == "#name? -9999";
    }
  }

  /** `dataframe.columns = [...]` then `dataframe.drop([...], axis=1)`. */
  function Load(raw: Table<(string, string)>): (r: Result<Table<string>>)
    requires Rect(raw)
    ensures r.Ok? <==> forall n :: n in Junk ==> n in Flatten(raw.columns)
    ensures r.Ok? ==> Rect(r.value) && |r.value.rows| == |raw.rows|
    ensures r.Ok? ==> IsSubsequence(r.value.columns, Flatten(raw.columns))
    ensures r.Ok? ==> forall c :: c in r.value.columns <==> c in Flatten(raw.columns) && c !in Junk
    ensures r.Ok? ==> forall i, c :: 0 <= i < |raw.rows| && c !in Junk ==>
              Get(r.value.columns, r.value.rows[i], c) == Get(Flatten(raw.columns), raw.rows[i], c)
  {
    Drop(Table(Flatten(raw.columns), raw.rows), Junk)
  }

  /** Snake-casing commutes with keeping some of the labels. */
  lemma {:induction false} SnakePick(cols: seq<string>, keep: seq<bool>)
    requires |keep| == |cols|
    ensures SnakeAll(Pick(cols, keep)) == Pick(SnakeAll(cols), keep)
  {
    if |cols| > 0 {
      SnakePick(cols[1..], keep[1..]);
      assert SnakeAll(cols)[1..] == SnakeAll(cols[1..]);
      var head := if keep[0] then [cols[0]] else [];
      assert SnakeAll(head + Pick(cols[1..], keep[1..])) == SnakeAll(head) + SnakeAll(Pick(cols[1..], keep[1..]));
    }
  }

  /** The side condition of `LoadAgree`: a flattened label snake-cases onto a
      dropped label of the later script exactly when it is one of the dropped
      labels here. */
  predicate SameJunk(cols: seq<string>) {
    forall c :: c in cols ==> (Snake(c) in FirstTutorial.Junk <==> c in Junk)
  }

  /** Under `SameJunk`, both drops find what they drop, or neither does. */
  lemma {:induction false} JunkPresentAgree(cols: seq<string>)
    requires SameJunk(cols)
    ensures (forall n :: n in Junk ==> n in cols) <==> (forall n :: n in FirstTutorial.Junk ==> n in SnakeAll(cols))
  {
    SnakeJunk();
    if forall n :: n in Junk ==> n in cols {
      forall n | n in FirstTutorial.Junk ensures n in SnakeAll(cols) {
        var k :| 0 <= k < |Junk| && SnakeAll(Junk)[k] == n;
        var j :| 0 <= j < |cols| && cols[j] == Junk[k];
        assert SnakeAll(cols)[j] == n;
      }
    }
    if forall n :: n in FirstTutorial.Junk ==> n in SnakeAll(cols) {
      forall k | 0 <= k < |Junk| ensures Junk[k] in cols {
        var m := SnakeAll(Junk)[k];
        assert m in FirstTutorial.Junk;
        var j :| 0 <= j < |cols| && SnakeAll(cols)[j] == m;
        assert cols[j] in Junk;
        var k' :| 0 <= k' < |Junk| && Junk[k'] == cols[j];
        assert SnakeAll(Junk)[k'] == SnakeAll(Junk)[k];
      }
    }
  }

  /** Under `SameJunk`, both drops keep the same positions. */
  lemma KeepAgree(cols: seq<string>)
    requires SameJunk(cols)
    ensures Keeps(cols, Junk) == Keeps(SnakeAll(cols), FirstTutorial.Junk)
  {
    forall j | 0 <= j < |cols| ensures (cols[j] !in Junk) == (SnakeAll(cols)[j] !in FirstTutorial.Junk) {
      assert cols[j] in cols;
    }
  }

  /** When no label outside the dropped ones snake-cases onto a dropped label of
      the later script, both scripts load the same frame up to snake case. */
  lemma LoadAgree(raw: Table<(string, string)>)
    requires Rect(raw) && SameJunk(Flatten(raw.columns))
    ensures Load(raw).Ok? <==> FirstTutorial.Load(raw).Ok?
    ensures Load(raw).Ok? ==>
              FirstTutorial.Load(raw).value == Table(SnakeAll(Load(raw).value.columns), Load(raw).value.rows)
  {
    var cols := Flatten(raw.columns);
    SnakeFlatten(raw.columns);
    JunkPresentAgree(cols);
    if Load(raw).Ok? {
      KeepAgree(cols);
      SnakePick(cols, Keeps(cols, Junk));
      DropValue(Table(cols, raw.rows), Junk);
      DropValue(Table(SnakeAll(cols), raw.rows), FirstTutorial.Junk);
    }
  }
}

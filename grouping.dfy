/** `Series.unique()` and the pieces of `groupby(key).agg(...)`: the distinct
    keys, the cells of one group, and the `count` and `mean` aggregations. */
module Grouping {
  import opened Outcomes
  import opened Values
  import opened Frames

  /** The distinct values of `vals` in order of first appearance. */
  function Unique(vals: seq<Value>): (r: seq<Value>)
    ensures Distinct(r)
    ensures forall v :: v in r <==> v in vals
  {
    if |vals| == 0 then []
    else
      var u := Unique(vals[..|vals| - 1]);
      var last := vals[|vals| - 1];
      assert vals == vals[..|vals| - 1] + [last];
      if last in u then u else u + [last]
  }

  /** The group keys: the distinct present keys (rows with a missing key belong to no group). */
  function GroupKeys(keys: seq<Value>): (r: seq<Value>)
    ensures Distinct(r)
    ensures forall v :: v in r <==> v in keys && !v.Null?
  {
    var present := Pick(keys, Present(keys));
    var r := Unique(present);
    assert forall v :: v in r <==> v in keys && !v.Null? by {
      forall v ensures v in present <==> v in keys && !v.Null? {
        PickMember(keys, Present(keys), v);
      }
    }
    r
  }

  /** Flags of the rows in the group of `k`. */
  function InGroup(keys: seq<Value>, k: Value): (r: seq<bool>)
    ensures |r| == |keys| && forall i :: 0 <= i < |keys| ==> r[i] == (keys[i] == k)
  {
    seq(|keys|, i requires 0 <= i < |keys| => keys[i] == k)
  }

  /** Aggregation `count`: the number of present cells. */
  function CountPresent(cells: seq<Value>): nat {
    if |cells| == 0 then 0 else (if cells[0].Null? then 0 else 1) + CountPresent(cells[1..])
  }

  /** The sum of the numeric cells. */
  function Sum(cells: seq<Value>): real {
    if |cells| == 0 then 0.0 else (if cells[0].Num? then cells[0].x else 0.0) + Sum(cells[1..])
  }

  predicate Numeric(cells: seq<Value>) {
    forall i :: 0 <= i < |cells| ==> cells[i].Null? || cells[i].Num?
  }

  /** Aggregation `mean`: sum over count of the present cells, skipping NaN, and
      NaN for a group with none; a TypeError on a non-numeric cell. */
  function Mean(cells: seq<Value>): (r: Result<Value>)
    ensures r.Ok? <==> Numeric(cells)
    ensures r.Ok? && CountPresent(cells) == 0 ==> r.value == Null
    ensures r.Ok? && CountPresent(cells) > 0 ==> r.value == Num(Sum(cells) / CountPresent(cells) as real)
  {
    if !Numeric(cells) then Err(TypeMismatch)
    else if CountPresent(cells) == 0 then Ok(Null)
    else Ok(Num(Sum(cells) / CountPresent(cells) as real))
  }

  lemma {:induction false} CountAllPresent(cells: seq<Value>)
    requires forall i :: 0 <= i < |cells| ==> !cells[i].Null?
    ensures CountPresent(cells) == |cells|
  {
    if |cells| > 0 {
      CountAllPresent(cells[1..]);
    }
  }

  /** The total size of the groups of `ks`. */
  function GroupSizes(keys: seq<Value>, ks: seq<Value>): nat {
    if |ks| == 0 then 0 else TrueCount(InGroup(keys, ks[0])) + GroupSizes(keys, ks[1..])
  }

  /** How many entries of `ks` equal `x`. */
  function Hits(x: Value, ks: seq<Value>): nat {
    if |ks| == 0 then 0 else (if ks[0] == x then 1 else 0) + Hits(x, ks[1..])
  }

  lemma {:induction false} HitsDistinct(x: Value, ks: seq<Value>)
    requires Distinct(ks)
    ensures Hits(x, ks) == if x in ks then 1 else 0
  {
    if |ks| > 0 {
      HitsDistinct(x, ks[1..]);
      if ks[0] == x {
        assert x !in ks[1..];
      }
    }
  }

  lemma {:induction false} GroupSizesCons(x: Value, rest: seq<Value>, ks: seq<Value>)
    ensures GroupSizes([x] + rest, ks) == Hits(x, ks) + GroupSizes(rest, ks)
  {
    if |ks| > 0 {
      GroupSizesCons(x, rest, ks[1..]);
      assert InGroup([x] + rest, ks[0])[1..] == InGroup(rest, ks[0]);
    }
  }

  /** When every key is one of the distinct `ks`, the groups of `ks` partition the rows. */
  lemma {:induction false} GroupSizesTotal(keys: seq<Value>, ks: seq<Value>)
    requires Distinct(ks)
    requires forall i :: 0 <= i < |keys| ==> keys[i] in ks
    ensures GroupSizes(keys, ks) == |keys|
  {
    if |keys| == 0 {
      GroupSizesEmpty(ks);
    } else {
      assert keys == [keys[0]] + keys[1..];
      GroupSizesCons(keys[0], keys[1..], ks);
      HitsDistinct(keys[0], ks);
      GroupSizesTotal(keys[1..], ks);
    }
  }

  lemma {:induction false} GroupSizesEmpty(ks: seq<Value>)
    ensures GroupSizes([], ks) == 0
  {
    if |ks| > 0 {
      GroupSizesEmpty(ks[1..]);
    }
  }
}

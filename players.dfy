/** The player-table steps shared by pages/1_First_tutorial.py and app.py: the
    six-column projection sorted by goals plus assists, the `>=` threshold
    filter, the per-90 columns, and the birth-year and combined filters sorted
    by goal contributions per 90. The two scripts differ only in the labels,
    which `PlayerLabels` carries. */
module Players {
  import opened Outcomes
  import opened Values
  import opened Frames
  import opened Sorting

  /** The labels of the six columns the scripts keep. */
  datatype PlayerLabels = PlayerLabels(player: string, squad: string, age: string, born: string,
                                       minutes: string, goalsAssists: string)

  /** The labels in pages/1_First_tutorial.py, after snake-casing. */
  const Snaked := PlayerLabels("player", "squad", "age", "born", "playing_time_min", "performance_g+a")

  /** The labels in app.py, as the CSV headers read. */
  const Titled := PlayerLabels("Player", "Squad", "Age", "Born", "Playing Time Min", "Performance G+A")

  function Kept(p: PlayerLabels): seq<string> {
    [p.player, p.squad, p.age, p.born, p.minutes, p.goalsAssists]
  }

  /** `new_df[[...six labels...]].sort_values(goals_assists, ascending=False)`:
      the projected rows, reordered, non-increasing in goals plus assists. */
  function Rearrange(t: Table<string>, p: PlayerLabels): (r: Result<Table<string>>)
    requires Rect(t)
    ensures r.Ok? <==> (forall c :: c in Kept(p) ==> c in t.columns) && Sortable(Column(t, p.goalsAssists))
    ensures r.Ok? ==> Rect(r.value) && r.value.columns == Kept(p) && |r.value.rows| == |t.rows|
    ensures r.Ok? ==> multiset(r.value.rows) == multiset(Project(t, Kept(p)).value.rows)
    ensures r.Ok? ==> SortedDesc(Kept(p), r.value.rows, p.goalsAssists)
  {
    var sel :- Project(t, Kept(p));
    ProjectedColumn(t, Kept(p), p.goalsAssists);
    SortDesc(sel, p.goalsAssists)
  }

  lemma ProjectedColumn(t: Table<string>, names: seq<string>, c: string)
    requires Rect(t) && Project(t, names).Ok? && c in names
    ensures Column(Project(t, names).value, c) == Column(t, c)
  {
  }

  /** Every projected row reads under each kept label what its source row read. */
  lemma RearrangedRows(t: Table<string>, p: PlayerLabels, x: Row)
    requires Rect(t) && Rearrange(t, p).Ok? && x in Rearrange(t, p).value.rows
    ensures exists i :: 0 <= i < |t.rows| && forall c :: c in Kept(p) ==> Get(Kept(p), x, c) == Get(t.columns, t.rows[i], c)
  {
    var sel := Project(t, Kept(p)).value;
    assert x in multiset(Rearrange(t, p).value.rows);
    assert x in sel.rows;
    var i :| 0 <= i < |sel.rows| && sel.rows[i] == x;
    assert forall c :: c in Kept(p) ==> Get(Kept(p), x, c) == Get(t.columns, t.rows[i], c);
  }

  // ---------------------------------------------------------------------
  // `>=` filters

  /** A cell that is a number of at least `x`; a missing cell never is. */
  predicate AtLeastNum(v: Value, x: real) {
    v.Num? && v.x >= x
  }

  /** The cells under `c` are numbers or missing, so `>=` against a number does not raise. */
  predicate NumericUnder(t: Table<string>, c: string) {
    forall i :: 0 <= i < |t.rows| ==> Get(t.columns, t.rows[i], c).Null? || Get(t.columns, t.rows[i], c).Num?
  }

  function AtLeastFlags(t: Table<string>, c: string, x: real): (r: seq<bool>)
    ensures |r| == |t.rows| && forall i :: 0 <= i < |t.rows| ==> r[i] == AtLeastNum(Get(t.columns, t.rows[i], c), x)
  {
    seq(|t.rows|, i requires 0 <= i < |t.rows| => AtLeastNum(Get(t.columns, t.rows[i], c), x))
  }

  /** `t[t[c] >= x]` mask, against a number. */
  lemma AtLeastMask(t: Table<string>, c: string, x: real)
    ensures Mask(t, c, AtLeast, Num(x)).Ok? <==> c in t.columns && NumericUnder(t, c)
    ensures Mask(t, c, AtLeast, Num(x)).Ok? ==> Mask(t, c, AtLeast, Num(x)).value == AtLeastFlags(t, c, x)
  {
  }

  /** `t[t[c] >= x]` (pages/1_First_tutorial.py:196, app.py:169): the rows whose
      cell under `c` is at least `x`, in their order. */
  function AtLeastRows(t: Table<string>, c: string, x: real): (r: Result<Table<string>>)
    requires Rect(t)
    ensures r.Ok? <==> c in t.columns && NumericUnder(t, c)
    ensures r.Ok? ==> Rect(r.value) && r.value.columns == t.columns
    ensures r.Ok? ==> r.value.rows == Pick(t.rows, AtLeastFlags(t, c, x))
  {
    AtLeastMask(t, c, x);
    var keep :- Mask(t, c, AtLeast, Num(x));
    Ok(Filter(t, keep))
  }

  /** The filter keeps exactly the rows passing the threshold, its displayed
      length counts them, and a sorted input stays sorted. */
  lemma AtLeastRowsExact(t: Table<string>, c: string, x: real, s: string)
    requires Rect(t) && AtLeastRows(t, c, x).Ok?
    ensures forall y :: y in AtLeastRows(t, c, x).value.rows <==>
              exists i :: 0 <= i < |t.rows| && t.rows[i] == y && AtLeastNum(Get(t.columns, y, c), x)
    ensures |AtLeastRows(t, c, x).value.rows| == TrueCount(AtLeastFlags(t, c, x))
    ensures SortedDesc(t.columns, t.rows, s) ==> SortedDesc(t.columns, AtLeastRows(t, c, x).value.rows, s)
  {
    var keep := AtLeastFlags(t, c, x);
    forall y ensures y in Pick(t.rows, keep) <==>
        exists i :: 0 <= i < |t.rows| && t.rows[i] == y && AtLeastNum(Get(t.columns, y, c), x)
    {
      PickMember(t.rows, keep, y);
    }
    PickLength(t.rows, keep);
    if SortedDesc(t.columns, t.rows, s) {
      PickKeepsSorted(t.columns, t.rows, keep, s);
    }
  }

  /** Raising the threshold never adds rows: what a higher threshold keeps is,
      in order, part of what a lower one keeps. */
  lemma AtLeastRowsShrink(t: Table<string>, c: string, x1: real, x2: real)
    requires Rect(t) && AtLeastRows(t, c, x1).Ok? && x1 <= x2
    ensures AtLeastRows(t, c, x2).Ok?
    ensures IsSubsequence(AtLeastRows(t, c, x2).value.rows, AtLeastRows(t, c, x1).value.rows)
  {
    PickSubsequence(t.rows, AtLeastFlags(t, c, x2), AtLeastFlags(t, c, x1));
  }

  // ---------------------------------------------------------------------
  // Per-90 columns

  /** `a / b` cell by cell. */
  function Quotients(a: seq<Value>, b: seq<Value>): (r: Result<seq<Value>>)
    requires |a| == |b|
    ensures r.Ok? <==> forall i :: 0 <= i < |a| ==> Divide(a[i], b[i]).Ok?
    ensures r.Ok? ==> |r.value| == |a| && forall i :: 0 <= i < |a| ==> r.value[i] == Divide(a[i], b[i]).value
  {
    if forall i :: 0 <= i < |a| ==> Divide(a[i], b[i]).Ok? then
      Ok(seq(|a|, i requires 0 <= i < |a| => Divide(a[i], b[i]).value))
    else
      Err(TypeMismatch)
  }

  /** None of the six labels is one of the two columns the per-90 step adds,
      as holds in both scripts. */
  predicate Fresh(p: PlayerLabels) {
    forall c :: c in Kept(p) ==> c != "nineties_played" && c != "goal_cont_90"
  }

  lemma ScriptLabelsFresh()
    ensures Fresh(Snaked) && Fresh(Titled)
  {
  }

  /** `df[goals_assists] / df["nineties_played"]` is defined on numbers and
      missing values alike. */
  lemma QuotientsDefined(a: seq<Value>, b: seq<Value>)
    requires |a| == |b|
    requires forall i :: 0 <= i < |b| ==> b[i].Null? || b[i].Num?
    ensures Quotients(a, b).Ok? <==> forall i :: 0 <= i < |a| ==> a[i].Null? || a[i].Num?
  {
  }

  /** `df["nineties_played"] = df[minutes] / 90` */
  function AddNineties(t: Table<string>, p: PlayerLabels): (r: Result<Table<string>>)
    requires Rect(t)
    ensures r.Ok? <==> p.minutes in t.columns && NumericUnder(t, p.minutes)
    ensures r.Ok? ==> Rect(r.value) && |r.value.rows| == |t.rows|
    ensures r.Ok? ==> r.value.columns == if "nineties_played" in t.columns then t.columns else t.columns + ["nineties_played"]
    ensures r.Ok? ==> forall i :: 0 <= i < |t.rows| ==>
              Divide(Get(t.columns, t.rows[i], p.minutes), Num(90.0)) == Ok(Get(r.value.columns, r.value.rows[i], "nineties_played"))
    ensures r.Ok? ==> forall i, c :: 0 <= i < |t.rows| && c != "nineties_played" ==>
              Get(r.value.columns, r.value.rows[i], c) == Get(t.columns, t.rows[i], c)
  {
    var minutes :- Col(t, p.minutes);
    QuotientsDefined(minutes, Constant(|t.rows|, Num(90.0)));
    var nineties :- Quotients(minutes, Constant(|t.rows|, Num(90.0)));
    Ok(Assign(t, "nineties_played", nineties))
  }

  /** `df["goal_cont_90"] = df[goals_assists] / df["nineties_played"]` */
  function AddGoalContributions(t: Table<string>, p: PlayerLabels): (r: Result<Table<string>>)
    requires Rect(t)
    ensures r.Ok? <==> p.goalsAssists in t.columns && "nineties_played" in t.columns &&
                       forall i :: 0 <= i < |t.rows| ==>
                         Divide(Get(t.columns, t.rows[i], p.goalsAssists), Get(t.columns, t.rows[i], "nineties_played")).Ok?
    ensures r.Ok? ==> Rect(r.value) && |r.value.rows| == |t.rows|
    ensures r.Ok? ==> r.value.columns == if "goal_cont_90" in t.columns then t.columns else t.columns + ["goal_cont_90"]
    ensures r.Ok? ==> forall i :: 0 <= i < |t.rows| ==>
              Divide(Get(t.columns, t.rows[i], p.goalsAssists), Get(t.columns, t.rows[i], "nineties_played")) ==
              Ok(Get(r.value.columns, r.value.rows[i], "goal_cont_90"))
    ensures r.Ok? ==> forall i, c :: 0 <= i < |t.rows| && c != "goal_cont_90" ==>
              Get(r.value.columns, r.value.rows[i], c) == Get(t.columns, t.rows[i], c)
  {
    var ga :- Col(t, p.goalsAssists);
    var nineties :- Col(t, "nineties_played");
    var per90 :- Quotients(ga, nineties);
    Ok(Assign(t, "goal_cont_90", per90))
  }

  /** pages/1_First_tutorial.py:205-208 and app.py:180-183: both per-90 columns; the model does not
      require the labels to be those of the scripts. */
  function AddPer90(t: Table<string>, p: PlayerLabels): (r: Result<Table<string>>)
    requires Rect(t)
    ensures r.Ok? ==> Rect(r.value) && |r.value.rows| == |t.rows|
    ensures r.Ok? ==> forall c :: c in r.value.columns <==> c in t.columns || c == "nineties_played" || c == "goal_cont_90"
  {
    var t1 :- AddNineties(t, p);
    AddGoalContributions(t1, p)
  }

  /** With labels as in the scripts, the per-90 step fails exactly when minutes
      or goals plus assists are missing or not numbers, and row `i` then holds
      row `i` of `t` with its minutes in nineties and its goal contributions per
      ninety minutes. */
  lemma AddPer90Rows(t: Table<string>, p: PlayerLabels)
    requires Rect(t) && Fresh(p)
    ensures AddPer90(t, p).Ok? <==> p.minutes in t.columns && p.goalsAssists in t.columns &&
                                    NumericUnder(t, p.minutes) && NumericUnder(t, p.goalsAssists)
    ensures AddPer90(t, p).Ok? ==> forall i :: 0 <= i < |t.rows| ==> Per90Row(t, p, AddPer90(t, p).value, i)
  {
    AddPer90Defined(t, p);
    if AddPer90(t, p).Ok? {
      assert p.goalsAssists in Kept(p);
      var t1 := AddNineties(t, p).value;
      var r := AddPer90(t, p).value;
      forall i | 0 <= i < |t.rows| ensures Per90Row(t, p, r, i) {
        Per90RowHolds(t, p, t1, r, i);
      }
    }
  }

  lemma AddPer90Defined(t: Table<string>, p: PlayerLabels)
    requires Rect(t) && Fresh(p)
    ensures AddPer90(t, p).Ok? <==> p.minutes in t.columns && p.goalsAssists in t.columns &&
                                    NumericUnder(t, p.minutes) && NumericUnder(t, p.goalsAssists)
  {
    assert p.goalsAssists in Kept(p);
    var n := AddNineties(t, p);
    if n.Ok? {
      var t1 := n.value;
      assert Column(t1, p.goalsAssists) == Column(t, p.goalsAssists);
      QuotientsDefined(Column(t1, p.goalsAssists), Column(t1, "nineties_played"));
    }
  }

  /** One row through both per-90 assignments. */
  lemma Per90RowHolds(t: Table<string>, p: PlayerLabels, t1: Table<string>, r: Table<string>, i: int)
    requires 0 <= i < |t.rows| && |t1.rows| == |t.rows| && |r.rows| == |t.rows|
    requires p.goalsAssists != "nineties_played"
    requires Divide(Get(t.columns, t.rows[i], p.minutes), Num(90.0)) == Ok(Get(t1.columns, t1.rows[i], "nineties_played"))
    requires forall c :: c != "nineties_played" ==> Get(t1.columns, t1.rows[i], c) == Get(t.columns, t.rows[i], c)
    requires Divide(Get(t1.columns, t1.rows[i], p.goalsAssists), Get(t1.columns, t1.rows[i], "nineties_played")) ==
             Ok(Get(r.columns, r.rows[i], "goal_cont_90"))
    requires forall c :: c != "goal_cont_90" ==> Get(r.columns, r.rows[i], c) == Get(t1.columns, t1.rows[i], c)
    ensures Per90Row(t, p, r, i)
  {
  }

  /** Row `i` of `r` holds row `i` of `t` with its minutes in nineties and its
      goals plus assists per ninety minutes. */
  ghost predicate Per90Row(t: Table<string>, p: PlayerLabels, r: Table<string>, i: int)
    requires 0 <= i < |t.rows| && i < |r.rows|
  {
    var nineties := Divide(Get(t.columns, t.rows[i], p.minutes), Num(90.0));
    && nineties.Ok?
    && Get(r.columns, r.rows[i], "nineties_played") == nineties.value
    && Divide(Get(t.columns, t.rows[i], p.goalsAssists), nineties.value) == Ok(Get(r.columns, r.rows[i], "goal_cont_90"))
    && forall c :: c != "nineties_played" && c != "goal_cont_90" ==> Get(r.columns, r.rows[i], c) == Get(t.columns, t.rows[i], c)
  }

  // ---------------------------------------------------------------------
  // Birth-year and combined filters

  /** `df[df[born] >= year].sort_values("goal_cont_90", ascending=False)`
      (pages/1_First_tutorial.py:245, app.py:218). */
  function BornSince(t: Table<string>, p: PlayerLabels, year: real): (r: Result<Table<string>>)
    requires Rect(t)
    ensures r.Ok? <==> p.born in t.columns && NumericUnder(t, p.born) &&
                       "goal_cont_90" in t.columns && Sortable(Pick(Column(t, "goal_cont_90"), AtLeastFlags(t, p.born, year)))
    ensures r.Ok? ==> Rect(r.value) && r.value.columns == t.columns
    ensures r.Ok? ==> multiset(r.value.rows) == multiset(Pick(t.rows, AtLeastFlags(t, p.born, year)))
    ensures r.Ok? ==> SortedDesc(t.columns, r.value.rows, "goal_cont_90")
  {
    var kept :- AtLeastRows(t, p.born, year);
    FilterColumn(t, AtLeastFlags(t, p.born, year), "goal_cont_90");
    SortDesc(kept, "goal_cont_90")
  }

  function BothFlags(t: Table<string>, p: PlayerLabels, year: real, nineties: real): (r: seq<bool>)
    ensures |r| == |t.rows|
    ensures forall i :: 0 <= i < |t.rows| ==>
              r[i] == (AtLeastNum(Get(t.columns, t.rows[i], p.born), year) &&
                       AtLeastNum(Get(t.columns, t.rows[i], "nineties_played"), nineties))
  {
    And(AtLeastFlags(t, p.born, year), AtLeastFlags(t, "nineties_played", nineties))
  }

  /** `df[(df[born] >= year) & (df["nineties_played"] >= nineties)]
      .sort_values("goal_cont_90", ascending=False)`
      (pages/1_First_tutorial.py:263-266, app.py:236-239). */
  function Combined(t: Table<string>, p: PlayerLabels, year: real, nineties: real): (r: Result<Table<string>>)
    requires Rect(t)
    ensures r.Ok? <==> p.born in t.columns && NumericUnder(t, p.born) &&
                       "nineties_played" in t.columns && NumericUnder(t, "nineties_played") &&
                       "goal_cont_90" in t.columns && Sortable(Pick(Column(t, "goal_cont_90"), BothFlags(t, p, year, nineties)))
    ensures r.Ok? ==> Rect(r.value) && r.value.columns == t.columns
    ensures r.Ok? ==> multiset(r.value.rows) == multiset(Pick(t.rows, BothFlags(t, p, year, nineties)))
    ensures r.Ok? ==> SortedDesc(t.columns, r.value.rows, "goal_cont_90")
  {
    AtLeastMask(t, p.born, year);
    AtLeastMask(t, "nineties_played", nineties);
    var old_enough :- Mask(t, p.born, AtLeast, Num(year));
    var played_enough :- Mask(t, "nineties_played", AtLeast, Num(nineties));
    assert And(old_enough, played_enough) == BothFlags(t, p, year, nineties);
    FilterColumn(t, BothFlags(t, p, year, nineties), "goal_cont_90");
    SortDesc(Filter(t, And(old_enough, played_enough)), "goal_cont_90")
  }

  /** The combined filter keeps exactly the rows passing both thresholds, so it
      keeps no row more often than either threshold alone does. */
  lemma CombinedWithinEach(t: Table<string>, p: PlayerLabels, year: real, nineties: real)
    requires Rect(t) && Combined(t, p, year, nineties).Ok?
    ensures forall y :: y in Combined(t, p, year, nineties).value.rows <==>
              exists i :: 0 <= i < |t.rows| && t.rows[i] == y &&
                AtLeastNum(Get(t.columns, y, p.born), year) && AtLeastNum(Get(t.columns, y, "nineties_played"), nineties)
    ensures multiset(Combined(t, p, year, nineties).value.rows) <= multiset(Pick(t.rows, AtLeastFlags(t, p.born, year)))
    ensures multiset(Combined(t, p, year, nineties).value.rows) <= multiset(Pick(t.rows, AtLeastFlags(t, "nineties_played", nineties)))
  {
    var both := BothFlags(t, p, year, nineties);
    var rows := Combined(t, p, year, nineties).value.rows;
    forall y ensures y in rows <==>
        exists i :: 0 <= i < |t.rows| && t.rows[i] == y &&
          AtLeastNum(Get(t.columns, y, p.born), year) && AtLeastNum(Get(t.columns, y, "nineties_played"), nineties)
    {
      SameRowsMember(rows, t.rows, both, y);
    }
    PickMultisetMono(t.rows, both, AtLeastFlags(t, p.born, year));
    PickMultisetMono(t.rows, both, AtLeastFlags(t, "nineties_played", nineties));
  }

  /** A reordering of the kept rows holds a row exactly when some kept position does. */
  lemma SameRowsMember(rows: seq<Row>, xs: seq<Row>, keep: seq<bool>, y: Row)
    requires |keep| == |xs| && multiset(rows) == multiset(Pick(xs, keep))
    ensures y in rows <==> exists i :: 0 <= i < |xs| && keep[i] && xs[i] == y
  {
    assert y in rows <==> y in multiset(rows);
    PickMember(xs, keep, y);
  }

  /** pages/1_First_tutorial.py:202-208 and app.py:177-183: the rearranged
      players with their per-90 columns; their labels are the six kept ones and
      the two new ones. */
  function YoungBallers(t: Table<string>, p: PlayerLabels): (r: Result<Table<string>>)
    requires Rect(t)
    ensures r.Ok? ==> Rect(r.value) && Rearrange(t, p).Ok? && |r.value.rows| == |t.rows|
    ensures r.Ok? ==> forall c :: c in r.value.columns <==> c in Kept(p) || c == "nineties_played" || c == "goal_cont_90"
  {
    var sorted :- Rearrange(t, p);
    AddPer90(sorted, p)
  }

  /** With labels as in the scripts: the step fails exactly when rearranging
      fails or the rearranged minutes or goals plus assists are not numbers, and
      row `i` is rearranged row `i` with its nineties and its goal contributions
      per ninety minutes. */
  lemma YoungBallersRows(t: Table<string>, p: PlayerLabels)
    requires Rect(t) && Fresh(p)
    ensures YoungBallers(t, p).Ok? <==>
              Rearrange(t, p).Ok? &&
              NumericUnder(Rearrange(t, p).value, p.minutes) && NumericUnder(Rearrange(t, p).value, p.goalsAssists)
    ensures YoungBallers(t, p).Ok? ==> forall i :: 0 <= i < |t.rows| ==>
              Per90Row(Rearrange(t, p).value, p, YoungBallers(t, p).value, i)
  {
    if Rearrange(t, p).Ok? {
      var sorted := Rearrange(t, p).value;
      assert p.minutes in Kept(p) && p.goalsAssists in Kept(p);
      AddPer90Rows(sorted, p);
    }
  }
}

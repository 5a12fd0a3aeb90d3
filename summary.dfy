/** Lines 209-226 of pages/2_New_tutorial.py: the window's team rows grouped by
    team, counted and averaged, given an expected-goals difference and sorted by
    it, largest first. */
module Summary {
  import opened Outcomes
  import opened Values
  import opened Frames
  import opened Grouping
  import opened Sorting
  import Selection

  /** The labels `groupby("team_name").agg(...)` produces, the group key first
      (pandas makes it the index). */
  const SummaryLabels: seq<string> :=
    ["team_name", "games_played", "xg_for", "xg_against", "goals_for", "goals_against", "points_per_game"]

  /** The labels the aggregation reads. */
  const Needed: seq<string> := ["team_name", "wk", "xg", "opponent_xg", "score", "opponent_score", "points"]

  /** The rows of team `k`. */
  function Group(w: Table<string>, k: Value): (g: Table<string>)
    requires Rect(w)
    ensures Rect(g) && g.columns == w.columns
    ensures g.rows == Pick(w.rows, InGroup(Column(w, "team_name"), k))
  {
    Filter(w, InGroup(Column(w, "team_name"), k))
  }

  /** What the summary row `row` (under `cols`) reports about team `k` of `w`:
      `count` of `wk`, `mean` of the other five, and the difference of the
      expected-goals means. */
  ghost predicate SummaryOf(w: Table<string>, k: Value, cols: seq<string>, row: Row)
    requires Rect(w)
  {
    var g := Group(w, k);
    && Get(cols, row, "team_name") == k
    && Get(cols, row, "games_played") == Num(CountPresent(Column(g, "wk")) as real)
    && Mean(Column(g, "xg")) == Ok(Get(cols, row, "xg_for"))
    && Mean(Column(g, "opponent_xg")) == Ok(Get(cols, row, "xg_against"))
    && Mean(Column(g, "score")) == Ok(Get(cols, row, "goals_for"))
    && Mean(Column(g, "opponent_score")) == Ok(Get(cols, row, "goals_against"))
    && Mean(Column(g, "points")) == Ok(Get(cols, row, "points_per_game"))
    && Get(cols, row, "xg_difference") == Subtract(Get(cols, row, "xg_for"), Get(cols, row, "xg_against"))
  }

  /** The five averaged columns of a group hold numbers or missing values. */
  ghost predicate Averageable(g: Table<string>) {
    && Numeric(Column(g, "xg")) && Numeric(Column(g, "opponent_xg"))
    && Numeric(Column(g, "score")) && Numeric(Column(g, "opponent_score"))
    && Numeric(Column(g, "points"))
  }

  /** The aggregated row of team `k`, before the difference is added. */
  function TeamRow(w: Table<string>, k: Value): (r: Result<Row>)
    requires Rect(w)
    ensures r.Ok? <==> Averageable(Group(w, k))
    ensures r.Ok? ==> |r.value| == |SummaryLabels|
  {
    var g := Group(w, k);
    var xgFor :- Mean(Column(g, "xg"));
    var xgAgainst :- Mean(Column(g, "opponent_xg"));
    var goalsFor :- Mean(Column(g, "score"));
    var goalsAgainst :- Mean(Column(g, "opponent_score"));
    var pointsPerGame :- Mean(Column(g, "points"));
    Ok([k, Num(CountPresent(Column(g, "wk")) as real), xgFor, xgAgainst, goalsFor, goalsAgainst, pointsPerGame])
  }

  /** The aggregated rows of the teams `ks`, in order; the first failing team fails all. */
  function TeamRows(w: Table<string>, ks: seq<Value>): (r: Result<seq<Row>>)
    requires Rect(w)
    ensures r.Ok? <==> forall j :: 0 <= j < |ks| ==> TeamRow(w, ks[j]).Ok?
    ensures r.Ok? ==> |r.value| == |ks| && forall j :: 0 <= j < |ks| ==> r.value[j] == TeamRow(w, ks[j]).value
  {
    if |ks| == 0 then Ok([])
    else
      var first :- TeamRow(w, ks[0]);
      var rest :- TeamRows(w, ks[1..]);
      Ok([first] + rest)
  }

  /** `summarised_df["xg_for"] - summarised_df["xg_against"]` */
  function Differences(s: Table<string>): (r: seq<Value>)
    ensures |r| == |s.rows|
    ensures forall i :: 0 <= i < |s.rows| ==>
              r[i] == Subtract(Get(s.columns, s.rows[i], "xg_for"), Get(s.columns, s.rows[i], "xg_against"))
  {
    seq(|s.rows|, i requires 0 <= i < |s.rows| =>
      Subtract(Get(s.columns, s.rows[i], "xg_for"), Get(s.columns, s.rows[i], "xg_against")))
  }

  /** Lines 214-224: one row per team named in the window, in order of first
      appearance, with its aggregates and its expected-goals difference. */
  function Aggregate(w: Table<string>): (r: Result<Table<string>>)
    requires Rect(w)
    ensures r.Ok? <==> (forall c :: c in Needed ==> c in w.columns) &&
                       forall k :: k in GroupKeys(Column(w, "team_name")) ==> Averageable(Group(w, k))
    ensures r.Ok? ==> Rect(r.value) && r.value.columns == SummaryLabels + ["xg_difference"]
    ensures r.Ok? ==> |r.value.rows| == |GroupKeys(Column(w, "team_name"))|
    ensures r.Ok? ==> forall j :: 0 <= j < |r.value.rows| ==>
              SummaryOf(w, GroupKeys(Column(w, "team_name"))[j], r.value.columns, r.value.rows[j])
  {
    if !(forall c :: c in Needed ==> c in w.columns) then Err(MissingColumn)
    else
      var keys := GroupKeys(Column(w, "team_name"));
      var rows :- TeamRows(w, keys);
      var s := Table(SummaryLabels, rows);
      var r := Assign(s, "xg_difference", Differences(s));
      AggregateFacts(w, keys, rows, r);
      Ok(r)
  }

  lemma AggregateFacts(w: Table<string>, keys: seq<Value>, rows: seq<Row>, r: Table<string>)
    requires Rect(w) && TeamRows(w, keys) == Ok(rows)
    requires Rect(Table(SummaryLabels, rows))
    requires r == Assign(Table(SummaryLabels, rows), "xg_difference", Differences(Table(SummaryLabels, rows)))
    ensures r.columns == SummaryLabels + ["xg_difference"]
    ensures forall j :: 0 <= j < |rows| ==> SummaryOf(w, keys[j], r.columns, r.rows[j])
  {
    assert "xg_difference" !in SummaryLabels;
    forall j | 0 <= j < |rows| ensures SummaryOf(w, keys[j], r.columns, r.rows[j]) {
      SummaryRow(w, keys[j], rows[j], r.columns, r.rows[j]);
    }
  }

  lemma SummaryRow(w: Table<string>, k: Value, row: Row, cols: seq<string>, out: Row)
    requires Rect(w) && TeamRow(w, k) == Ok(row)
    requires forall c :: c != "xg_difference" ==> Get(cols, out, c) == Get(SummaryLabels, row, c)
    requires Get(cols, out, "xg_difference") ==
             Subtract(Get(SummaryLabels, row, "xg_for"), Get(SummaryLabels, row, "xg_against"))
    ensures SummaryOf(w, k, cols, out)
  {
    var g := Group(w, k);
    assert Averageable(g);
    assert row == [k, Num(CountPresent(Column(g, "wk")) as real), Mean(Column(g, "xg")).value,
                   Mean(Column(g, "opponent_xg")).value, Mean(Column(g, "score")).value,
                   Mean(Column(g, "opponent_score")).value, Mean(Column(g, "points")).value];
    SummaryLabelsAt(row);
    LabelsDiffer();
  }

  lemma LabelsDiffer()
    ensures "xg_difference" !in SummaryLabels
  {
  }

  /** Where each summary label sits. */
  lemma SummaryLabelsAt(row: Row)
    requires |row| == |SummaryLabels|
    ensures Get(SummaryLabels, row, "team_name") == row[0]
    ensures Get(SummaryLabels, row, "games_played") == row[1]
    ensures Get(SummaryLabels, row, "xg_for") == row[2]
    ensures Get(SummaryLabels, row, "xg_against") == row[3]
    ensures Get(SummaryLabels, row, "goals_for") == row[4]
    ensures Get(SummaryLabels, row, "goals_against") == row[5]
    ensures Get(SummaryLabels, row, "points_per_game") == row[6]
  {
    SummaryLabelsDistinct();
    forall k | 0 <= k < |SummaryLabels| ensures Get(SummaryLabels, row, SummaryLabels[k]) == row[k] {
      GetAt(SummaryLabels, row, k);
    }
  }

  lemma SummaryLabelsDistinct()
    ensures Distinct(SummaryLabels)
  {
    assert "team_name"[0] != "goals_for"[0];
  }

  /** Line 226: the summary sorted by expected-goals difference, largest first,
      teams without one last. */
  function Summarise(w: Table<string>): (r: Result<Table<string>>)
    requires Rect(w)
    ensures r.Ok? <==> Aggregate(w).Ok?
    ensures r.Ok? ==> Rect(r.value) && r.value.columns == SummaryLabels + ["xg_difference"]
    ensures r.Ok? ==> multiset(r.value.rows) == multiset(Aggregate(w).value.rows)
    ensures r.Ok? ==> SortedDesc(r.value.columns, r.value.rows, "xg_difference")
  {
    var a :- Aggregate(w);
    DifferencesSortable(a);
    SortDesc(a, "xg_difference")
  }

  /** A difference is a number or missing, so the differences always sort. */
  lemma DifferencesSortable(a: Table<string>)
    requires Rect(a) && forall j :: 0 <= j < |a.rows| ==>
      Get(a.columns, a.rows[j], "xg_difference").Null? || Get(a.columns, a.rows[j], "xg_difference").Num?
    ensures Sortable(Column(a, "xg_difference"))
  {
  }

  /** Every team of the summary is one team of the window, and each team of the
      window has exactly one row. */
  lemma OneRowPerTeam(w: Table<string>)
    requires Rect(w) && Aggregate(w).Ok?
    ensures var a := Aggregate(w).value;
      && (forall i, j :: 0 <= i < j < |a.rows| ==> Get(a.columns, a.rows[i], "team_name") != Get(a.columns, a.rows[j], "team_name"))
      && forall v :: (exists j :: 0 <= j < |a.rows| && Get(a.columns, a.rows[j], "team_name") == v) <==>
                     v in Column(w, "team_name") && !v.Null?
  {
    var a := Aggregate(w).value;
    var keys := GroupKeys(Column(w, "team_name"));
    forall v ensures (exists j :: 0 <= j < |a.rows| && Get(a.columns, a.rows[j], "team_name") == v) <==> v in keys {
      if v in keys {
        var j :| 0 <= j < |keys| && keys[j] == v;
        assert SummaryOf(w, keys[j], a.columns, a.rows[j]);
      }
    }
  }

  /** With no missing `wk` cell, a team's `games_played` is its number of rows. */
  lemma GamesPlayedIsGroupSize(w: Table<string>, k: Value)
    requires Rect(w)
    requires forall i :: 0 <= i < |w.rows| ==> !Get(w.columns, w.rows[i], "wk").Null?
    ensures CountPresent(Column(Group(w, k), "wk")) == TrueCount(InGroup(Column(w, "team_name"), k))
  {
    var keep := InGroup(Column(w, "team_name"), k);
    var wk := Column(w, "wk");
    FilterColumn(w, keep, "wk");
    PickLength(wk, keep);
    var picked := Pick(wk, keep);
    forall i | 0 <= i < |picked| ensures !picked[i].Null? {
      PickMember(wk, keep, picked[i]);
    }
    CountAllPresent(picked);
  }

  /** The sum of the `games_played` cells of `rows`. */
  function GamesSum(cols: seq<string>, rows: seq<Row>): real {
    if |rows| == 0 then 0.0
    else (if Get(cols, rows[0], "games_played").Num? then Get(cols, rows[0], "games_played").x else 0.0) + GamesSum(cols, rows[1..])
  }

  lemma {:induction false} GamesSumSizes(cols: seq<string>, rows: seq<Row>, keys: seq<Value>, ks: seq<Value>)
    requires |rows| == |ks|
    requires forall j :: 0 <= j < |ks| ==> Get(cols, rows[j], "games_played") == Num(TrueCount(InGroup(keys, ks[j])) as real)
    ensures GamesSum(cols, rows) == GroupSizes(keys, ks) as real
  {
    if |ks| > 0 {
      GamesSumSizes(cols, rows[1..], keys, ks[1..]);
    }
  }

  /** With no missing team or `wk` cell, the games played add up to the rows of
      the window: the groups split the window's rows among the teams. */
  lemma GamesAddUp(w: Table<string>)
    requires Rect(w) && Aggregate(w).Ok?
    requires forall i :: 0 <= i < |w.rows| ==> !Get(w.columns, w.rows[i], "wk").Null?
    requires forall i :: 0 <= i < |w.rows| ==> !Get(w.columns, w.rows[i], "team_name").Null?
    ensures GamesSum(Aggregate(w).value.columns, Aggregate(w).value.rows) == |w.rows| as real
  {
    var a := Aggregate(w).value;
    var teams := Column(w, "team_name");
    var keys := GroupKeys(teams);
    forall j | 0 <= j < |keys|
      ensures Get(a.columns, a.rows[j], "games_played") == Num(TrueCount(InGroup(teams, keys[j])) as real)
    {
      assert SummaryOf(w, keys[j], a.columns, a.rows[j]);
      GamesPlayedIsGroupSize(w, keys[j]);
    }
    GamesSumSizes(a.columns, a.rows, teams, keys);
    forall i | 0 <= i < |teams| ensures teams[i] in keys {
      assert teams[i] in teams;
    }
    GroupSizesTotal(teams, keys);
  }

  /** The sorted summary holds exactly the aggregated rows. */
  lemma SummariseRows(w: Table<string>, x: Row)
    requires Rect(w) && Summarise(w).Ok?
    ensures x in Summarise(w).value.rows <==> x in Aggregate(w).value.rows
  {
    assert x in Summarise(w).value.rows <==> x in multiset(Summarise(w).value.rows);
    assert x in Aggregate(w).value.rows <==> x in multiset(Aggregate(w).value.rows);
  }

  /** Lines 209-226 together: the summary of the team rows dated from `start`
      to `end`, sorted by expected-goals difference. */
  function TimePeriod(c: Table<string>, start: Date, end: Date): (r: Result<Table<string>>)
    requires Rect(c)
    ensures r.Ok? <==> Selection.Window(c, start, end).Ok? && Aggregate(Selection.Window(c, start, end).value).Ok?
    ensures r.Ok? ==> Rect(r.value) && r.value.columns == SummaryLabels + ["xg_difference"]
    ensures r.Ok? ==> SortedDesc(r.value.columns, r.value.rows, "xg_difference")
    ensures r.Ok? ==> |r.value.rows| == |GroupKeys(Column(Selection.Window(c, start, end).value, "team_name"))|
  {
    var w :- Selection.Window(c, start, end);
    var s :- Summarise(w);
    assert |multiset(s.rows)| == |multiset(Aggregate(w).value.rows)|;
    Ok(s)
  }

  /** A start date after the end date summarises no team at all. */
  lemma EmptyPeriod(c: Table<string>, start: Date, end: Date)
    requires Rect(c) && TimePeriod(c, start, end).Ok?
    requires CompareDates(start, end) == Greater
    ensures TimePeriod(c, start, end).value.rows == []
  {
    Selection.WindowEmpty(c, start, end);
    var w := Selection.Window(c, start, end).value;
    assert Column(w, "team_name") == [];
  }
}

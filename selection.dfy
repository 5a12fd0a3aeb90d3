/** Row selections of pages/2_New_tutorial.py by date and stadium: the matches
    after a date (line 130), the stadiums in use on a date and the matches at
    the chosen one (lines 177-188), and the rows of a date window (lines 210-213). */
module Selection {
  import opened Outcomes
  import opened Values
  import opened Frames
  import opened Grouping
  import opened Unpivot

  /** The `date` cells can be compared with a date: each is a date or missing. */
  predicate Dated(t: Table<string>) {
    forall i :: 0 <= i < |t.rows| ==> Get(t.columns, t.rows[i], "date").Null? || Get(t.columns, t.rows[i], "date").Day?
  }

  /** A masked comparison of `date` with a date fails only on a missing label
      or a cell that is neither a date nor missing. */
  lemma DatedMask(t: Table<string>, op: Op, d: Date)
    requires op != EqualTo
    ensures Mask(t, "date", op, Day(d)).Ok? <==> "date" in t.columns && Dated(t)
  {
  }

  // ---------------------------------------------------------------------
  // Line 130

  /** A date cell holding a day later than `d`. */
  predicate Later(v: Value, d: Date) {
    v.Day? && CompareDates(v.d, d) == Greater
  }

  function LaterFlags(t: Table<string>, d: Date): (r: seq<bool>)
    ensures |r| == |t.rows| && forall i :: 0 <= i < |t.rows| ==> r[i] == Later(Get(t.columns, t.rows[i], "date"), d)
  {
    seq(|t.rows|, i requires 0 <= i < |t.rows| => Later(Get(t.columns, t.rows[i], "date"), d))
  }

  /** `df[df["date"] > date_choice]` */
  function PlayedAfter(t: Table<string>, d: Date): (r: Result<Table<string>>)
    requires Rect(t)
    ensures r.Ok? <==> "date" in t.columns && Dated(t)
    ensures r.Ok? ==> Rect(r.value) && r.value.columns == t.columns
    ensures r.Ok? ==> r.value.rows == Pick(t.rows, LaterFlags(t, d))
  {
    DatedMask(t, Above, d);
    var later :- Mask(t, "date", Above, Day(d));
    assert later == LaterFlags(t, d);
    Ok(Filter(t, later))
  }

  /** A later choice of date keeps fewer matches: the matches after `d2` are,
      in order, some of the matches after an earlier `d1`. */
  lemma PlayedAfterShrinks(t: Table<string>, d1: Date, d2: Date)
    requires Rect(t) && PlayedAfter(t, d1).Ok?
    requires CompareDates(d2, d1) != Less
    ensures PlayedAfter(t, d2).Ok?
    ensures IsSubsequence(PlayedAfter(t, d2).value.rows, PlayedAfter(t, d1).value.rows)
  {
    PickSubsequence(t.rows, LaterFlags(t, d2), LaterFlags(t, d1));
  }

  // ---------------------------------------------------------------------
  // Lines 177-188

  /** A row played on day `d`. */
  function OnFlags(t: Table<string>, d: Date): (r: seq<bool>)
    ensures |r| == |t.rows| && forall i :: 0 <= i < |t.rows| ==> r[i] == (Get(t.columns, t.rows[i], "date") == Day(d))
  {
    seq(|t.rows|, i requires 0 <= i < |t.rows| => Get(t.columns, t.rows[i], "date") == Day(d))
  }

  /** `combined_df[combined_df["date"] == new_date_choice]["venue"].unique()`:
      the stadiums in use on day `d`, each once, in order of first appearance. */
  function VenueChoices(c: Table<string>, d: Date): (r: Result<seq<Value>>)
    requires Rect(c)
    ensures r.Ok? <==> "date" in c.columns && "venue" in c.columns
    ensures r.Ok? ==> Distinct(r.value)
    ensures r.Ok? ==> forall v :: v in r.value <==>
              exists i :: 0 <= i < |c.rows| && Get(c.columns, c.rows[i], "date") == Day(d) && Get(c.columns, c.rows[i], "venue") == v
  {
    var on :- Mask(c, "date", EqualTo, Day(d));
    assert on == OnFlags(c, d);
    var sel := Filter(c, on);
    var venues :- Col(sel, "venue");
    VenueChoicesFacts(c, d, venues);
    Ok(Unique(venues))
  }

  lemma VenueChoicesFacts(c: Table<string>, d: Date, venues: seq<Value>)
    requires Rect(c)
    requires venues == Column(Filter(c, OnFlags(c, d)), "venue")
    ensures forall v :: v in venues <==>
              exists i :: 0 <= i < |c.rows| && Get(c.columns, c.rows[i], "date") == Day(d) && Get(c.columns, c.rows[i], "venue") == v
  {
    var on := OnFlags(c, d);
    FilterColumn(c, on, "venue");
    forall v ensures v in venues <==>
        exists i :: 0 <= i < |c.rows| && Get(c.columns, c.rows[i], "date") == Day(d) && Get(c.columns, c.rows[i], "venue") == v
    {
      PickMember(Column(c, "venue"), on, v);
      if v in venues {
        var i :| 0 <= i < |c.rows| && on[i] && Column(c, "venue")[i] == v;
        assert Get(c.columns, c.rows[i], "venue") == v;
      }
      if exists i :: 0 <= i < |c.rows| && Get(c.columns, c.rows[i], "date") == Day(d) && Get(c.columns, c.rows[i], "venue") == v {
        var i :| 0 <= i < |c.rows| && Get(c.columns, c.rows[i], "date") == Day(d) && Get(c.columns, c.rows[i], "venue") == v;
        assert on[i] && Column(c, "venue")[i] == v;
      }
    }
  }

  /** A row played on day `d` at stadium `v`; `==` is False on a missing stadium. */
  function AtFlags(t: Table<string>, d: Date, v: Value): (r: seq<bool>)
    ensures |r| == |t.rows|
    ensures forall i :: 0 <= i < |t.rows| ==>
              r[i] == (Get(t.columns, t.rows[i], "date") == Day(d) && Get(t.columns, t.rows[i], "venue") == v && !v.Null?)
  {
    seq(|t.rows|, i requires 0 <= i < |t.rows| =>
      Get(t.columns, t.rows[i], "date") == Day(d) && Get(t.columns, t.rows[i], "venue") == v && !v.Null?)
  }

  /** Lines 180-188: `None` stands for the message "No matches played that day",
      shown when the select box is empty (`choice` is `None`) or holds a falsy
      value; otherwise the rows played on `d` at the chosen stadium. */
  function MatchesOn(c: Table<string>, d: Date, choice: Option<Value>): (r: Result<Option<Table<string>>>)
    requires Rect(c)
    ensures choice.None? || !Truthy(choice.value) ==> r == Ok(None)
    ensures choice.Some? && Truthy(choice.value) ==> (r.Ok? <==> "date" in c.columns && "venue" in c.columns)
    ensures r.Ok? && r.value.Some? ==> choice.Some? && Truthy(choice.value)
    ensures r.Ok? && r.value.Some? ==> Rect(r.value.value) && r.value.value.columns == c.columns
    ensures r.Ok? && r.value.Some? ==> r.value.value.rows == Pick(c.rows, AtFlags(c, d, choice.value))
  {
    if choice.None? || !Truthy(choice.value) then Ok(None)
    else
      var on :- Mask(c, "date", EqualTo, Day(d));
      var at :- Mask(c, "venue", EqualTo, choice.value);
      assert And(on, at) == AtFlags(c, d, choice.value);
      Ok(Some(Filter(c, And(on, at))))
  }

  /** Picking one of the offered stadiums shows at least one match, unless the
      stadium offered is a missing value or a falsy one (empty text or zero),
      for which `MatchesOn` shows the message instead. */
  lemma ChoiceShowsMatch(c: Table<string>, d: Date, v: Value)
    requires Rect(c) && VenueChoices(c, d).Ok?
    requires v in VenueChoices(c, d).value && !v.Null? && Truthy(v)
    ensures MatchesOn(c, d, Some(v)).Ok? && MatchesOn(c, d, Some(v)).value.Some?
    ensures |MatchesOn(c, d, Some(v)).value.value.rows| > 0
  {
    var i :| 0 <= i < |c.rows| && Get(c.columns, c.rows[i], "date") == Day(d) && Get(c.columns, c.rows[i], "venue") == v;
    var keep := AtFlags(c, d, v);
    assert keep[i];
    PickMember(c.rows, keep, c.rows[i]);
  }

  /** On the unpivoted frame both rows of a match share its date and stadium, so
      a selection by day and stadium shows each match twice, once per side; the
      points column (lines 163-167) added before the selection changes nothing
      of that. */
  lemma MatchesOnBothSides(t: Table<string>, d: Date, v: Value)
    requires MatchSchema(t)
    ensures AtFlags(Combine(t), d, v) == AtFlags(t, d, v) + AtFlags(t, d, v)
    ensures TrueCount(AtFlags(Combine(t), d, v)) == 2 * TrueCount(AtFlags(t, d, v))
    ensures AddPoints(Combine(t)).Ok? ==> AtFlags(AddPoints(Combine(t)).value, d, v) == AtFlags(t, d, v) + AtFlags(t, d, v)
  {
    var r := Combine(t);
    forall j | 0 <= j < |r.rows| ensures Repeats(t, r, j) {
      RowRepeats(t, j);
    }
    DoubledFlags(t, r, d, v);
    if AddPoints(r).Ok? {
      PointsKeepFlags(r, d, v);
    }
  }

  /** Adding the points leaves every row's date and stadium, and so the
      selection flags, as they were. */
  lemma PointsKeepFlags(c: Table<string>, d: Date, v: Value)
    requires Rect(c) && AddPoints(c).Ok?
    ensures AtFlags(AddPoints(c).value, d, v) == AtFlags(c, d, v)
  {
    var p := AddPoints(c).value;
    forall i | 0 <= i < |c.rows| ensures AtFlags(p, d, v)[i] == AtFlags(c, d, v)[i] {
      assert Get(p.columns, p.rows[i], "date") == Get(c.columns, c.rows[i], "date");
      assert Get(p.columns, p.rows[i], "venue") == Get(c.columns, c.rows[i], "venue");
    }
  }

  /** Row `j` of `r` has the date and stadium of match `j` of `t`, counted
      modulo the number of matches. */
  ghost predicate Repeats(t: Table<string>, r: Table<string>, j: int)
    requires 0 <= j < |r.rows| && |r.rows| == 2 * |t.rows|
  {
    var i := if j < |t.rows| then j else j - |t.rows|;
    Get(r.columns, r.rows[j], "date") == Get(t.columns, t.rows[i], "date") &&
    Get(r.columns, r.rows[j], "venue") == Get(t.columns, t.rows[i], "venue")
  }

  lemma RowRepeats(t: Table<string>, j: int)
    requires MatchSchema(t) && 0 <= j < 2 * |t.rows|
    ensures Repeats(t, Combine(t), j)
  {
    var i := if j < |t.rows| then j else j - |t.rows|;
    CombineRow(t, i);
    RepeatsFromSides(t, Combine(t), i, j);
  }

  /** A frame holding both views of match `i` repeats its date and stadium. */
  lemma RepeatsFromSides(t: Table<string>, r: Table<string>, i: int, j: int)
    requires |r.rows| == 2 * |t.rows| && 0 <= i < |t.rows| && (j == i || j == |t.rows| + i)
    requires HomeRow(t, r, i) && AwayRow(t, r, i)
    ensures Repeats(t, r, j)
  {
    if j == i {
      RepeatsHome(t, r, i);
    } else {
      RepeatsAway(t, r, i);
    }
  }

  /** A frame holding the home view of match `i` in row `i` repeats its date
      and stadium there. */
  lemma RepeatsHome(t: Table<string>, r: Table<string>, i: int)
    requires |r.rows| == 2 * |t.rows| && 0 <= i < |t.rows|
    requires HomeRow(t, r, i)
    ensures Repeats(t, r, i)
  {
    KeptLabel(t, i, r, i, HomeRenames, "home", "date");
    KeptLabel(t, i, r, i, HomeRenames, "home", "venue");
  }

  /** A frame holding the away view of match `i` in row `|t.rows| + i` repeats
      its date and stadium there. */
  lemma RepeatsAway(t: Table<string>, r: Table<string>, i: int)
    requires |r.rows| == 2 * |t.rows| && 0 <= i < |t.rows|
    requires AwayRow(t, r, i)
    ensures Repeats(t, r, |t.rows| + i)
  {
    KeptLabel(t, i, r, |t.rows| + i, AwayRenames, "away", "date");
    KeptLabel(t, i, r, |t.rows| + i, AwayRenames, "away", "venue");
  }

  /** Flags over a frame whose rows repeat the dates and stadiums of `t` twice over. */
  lemma DoubledFlags(t: Table<string>, r: Table<string>, d: Date, v: Value)
    requires |r.rows| == 2 * |t.rows|
    requires forall j :: 0 <= j < |r.rows| ==> Repeats(t, r, j)
    ensures AtFlags(r, d, v) == AtFlags(t, d, v) + AtFlags(t, d, v)
    ensures TrueCount(AtFlags(r, d, v)) == 2 * TrueCount(AtFlags(t, d, v))
  {
    var n := |t.rows|;
    var k := AtFlags(t, d, v);
    var kr := AtFlags(r, d, v);
    forall j | 0 <= j < 2 * n ensures kr[j] == (k + k)[j] {
      assert Repeats(t, r, j);
      if j < n {
        assert (k + k)[j] == k[j];
      } else {
        assert (k + k)[j] == k[j - n];
      }
    }
    assert kr == k + k;
    TrueCountAppend(k, k);
  }

  // ---------------------------------------------------------------------
  // Lines 210-213

  /** A date cell holding a day from `start` to `end`, both included. */
  predicate InWindow(v: Value, start: Date, end: Date) {
    v.Day? && CompareDates(v.d, start) != Less && CompareDates(v.d, end) != Greater
  }

  function WindowFlags(t: Table<string>, start: Date, end: Date): (r: seq<bool>)
    ensures |r| == |t.rows|
    ensures forall i :: 0 <= i < |t.rows| ==> r[i] == InWindow(Get(t.columns, t.rows[i], "date"), start, end)
  {
    seq(|t.rows|, i requires 0 <= i < |t.rows| => InWindow(Get(t.columns, t.rows[i], "date"), start, end))
  }

  /** `combined_df[(combined_df["date"] >= start) & (combined_df["date"] <= end)]` */
  function Window(t: Table<string>, start: Date, end: Date): (r: Result<Table<string>>)
    requires Rect(t)
    ensures r.Ok? <==> "date" in t.columns && Dated(t)
    ensures r.Ok? ==> Rect(r.value) && r.value.columns == t.columns
    ensures r.Ok? ==> r.value.rows == Pick(t.rows, WindowFlags(t, start, end))
  {
    DatedMask(t, AtLeast, start);
    DatedMask(t, AtMost, end);
    var from :- Mask(t, "date", AtLeast, Day(start));
    var until := Mask(t, "date", AtMost, Day(end)).value;
    assert And(from, until) == WindowFlags(t, start, end);
    Ok(Filter(t, And(from, until)))
  }

  /** The window holds exactly the rows dated from `start` to `end`. */
  lemma WindowMember(t: Table<string>, start: Date, end: Date, x: Row)
    requires Rect(t) && Window(t, start, end).Ok?
    ensures x in Window(t, start, end).value.rows <==>
              exists i :: 0 <= i < |t.rows| && t.rows[i] == x && InWindow(Get(t.columns, x, "date"), start, end)
  {
    PickMember(t.rows, WindowFlags(t, start, end), x);
  }

  /** A start date after the end date selects nothing: nothing is reported as
      an error. */
  lemma WindowEmpty(t: Table<string>, start: Date, end: Date)
    requires Rect(t) && Window(t, start, end).Ok?
    requires CompareDates(start, end) == Greater
    ensures Window(t, start, end).value.rows == []
  {
    var keep := WindowFlags(t, start, end);
    forall i | 0 <= i < |keep| ensures !keep[i] {
      var v := Get(t.columns, t.rows[i], "date");
      if InWindow(v, start, end) {
        DatesBetween(start, v.d, end);
      }
    }
    PickNone(t.rows, keep);
  }

  /** A day on or after `start` and on or before `end` puts `start` no later than `end`. */
  lemma DatesBetween(start: Date, d: Date, end: Date)
    requires CompareDates(d, start) != Less && CompareDates(d, end) != Greater
    ensures CompareDates(start, end) != Greater
  {
  }

  /** A wider window keeps, in order, every row a narrower one keeps. */
  lemma WindowWidens(t: Table<string>, s1: Date, e1: Date, s2: Date, e2: Date)
    requires Rect(t) && Window(t, s1, e1).Ok?
    requires CompareDates(s1, s2) != Greater && CompareDates(e2, e1) != Greater
    ensures Window(t, s2, e2).Ok?
    ensures IsSubsequence(Window(t, s2, e2).value.rows, Window(t, s1, e1).value.rows)
  {
    var k1 := WindowFlags(t, s1, e1);
    var k2 := WindowFlags(t, s2, e2);
    forall i | 0 <= i < |t.rows| && k2[i] ensures k1[i] {
      InWiderWindow(Get(t.columns, t.rows[i], "date"), s1, e1, s2, e2);
    }
    PickSubsequence(t.rows, k2, k1);
  }

  lemma InWiderWindow(v: Value, s1: Date, e1: Date, s2: Date, e2: Date)
    requires CompareDates(s1, s2) != Greater && CompareDates(e2, e1) != Greater
    requires InWindow(v, s2, e2)
    ensures InWindow(v, s1, e1)
  {
    DatesOrdered(s1, s2, v.d);
    DatesOrdered(v.d, e2, e1);
  }

  /** The order of days is transitive. */
  lemma DatesOrdered(a: Date, b: Date, c: Date)
    requires CompareDates(a, b) != Greater && CompareDates(b, c) != Greater
    ensures CompareDates(a, c) != Greater
  {
  }
}

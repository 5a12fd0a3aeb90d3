/** Lines 136-167 of pages/2_New_tutorial.py: every match row becomes two team
    rows, one from the home side and one from the away side, and each team row
    gets the points it earned (3 for a win, 1 for a draw, 0 for a loss). */
module Unpivot {
  import opened Outcomes
  import opened Values
  import opened Frames

  /** The home side's view (lines 139-148). */
  const HomeRenames: map<string, string> := map[
    "home" := "team_name", "home_xg" := "xg",
    "away" := "opponent_name", "away_xg" := "opponent_xg",
    "home_score" := "score", "away_score" := "opponent_score"]

  /** The away side's view (lines 150-159): the same targets, sources swapped. */
  const AwayRenames: map<string, string> := map[
    "away" := "team_name", "away_xg" := "xg",
    "home" := "opponent_name", "home_xg" := "opponent_xg",
    "away_score" := "score", "home_score" := "opponent_score"]

  /** The labels of one match row that both views rename. */
  const MatchLabels: seq<string> := ["home", "away", "home_xg", "away_xg", "home_score", "away_score"]

  /** The labels the unpivot creates. */
  const TeamLabels: seq<string> := ["team_name", "opponent_name", "xg", "opponent_xg", "score", "opponent_score", "home_away"]

  /** A split match frame the unpivot reads as intended: every match label
      present and none of the labels it creates already taken. */
  ghost predicate MatchSchema(t: Table<string>) {
    && Rect(t)
    && (forall c :: c in MatchLabels ==> c in t.columns)
    && (forall c :: c in TeamLabels ==> c !in t.columns)
  }

  /** `new_df.copy().rename(columns=m)` followed by `df["home_away"] = side`. */
  function View(t: Table<string>, m: map<string, string>, side: string): (r: Table<string>)
    requires Rect(t)
    ensures Rect(r) && |r.rows| == |t.rows|
  {
    Assign(Rename(t, m), "home_away", Constant(|t.rows|, Str(side)))
  }

  /** `pd.concat([home_df, away_df])` */
  function Combine(t: Table<string>): (r: Table<string>)
    requires Rect(t)
    ensures Rect(r) && |r.rows| == 2 * |t.rows|
  {
    Concat(View(t, HomeRenames, "home"), View(t, AwayRenames, "away"))
  }

  /** Row `j` of `r` is match `i` of `t` as one side sees it: each match label
      is read under the label `m` gives it, `home_away` names the side, and every
      label the unpivot does not touch reads as before. */
  ghost predicate SeenFrom(t: Table<string>, i: int, r: Table<string>, j: int, m: map<string, string>, side: string)
    requires 0 <= i < |t.rows| && 0 <= j < |r.rows|
  {
    && (forall c :: c in m ==> Get(r.columns, r.rows[j], m[c]) == Get(t.columns, t.rows[i], c))
    && Get(r.columns, r.rows[j], "home_away") == Str(side)
    && (forall c {:trigger Get(r.columns, r.rows[j], c)} :: c !in m && c !in TeamLabels ==> Get(r.columns, r.rows[j], c) == Get(t.columns, t.rows[i], c))
  }

  /** A label neither renamed nor created reads in a view row as in its match row. */
  lemma KeptLabel(t: Table<string>, i: int, r: Table<string>, j: int, m: map<string, string>, side: string, c: string)
    requires 0 <= i < |t.rows| && 0 <= j < |r.rows|
    requires m == HomeRenames || m == AwayRenames
    requires SeenFrom(t, i, r, j, m, side)
    requires c !in MatchLabels && c !in TeamLabels
    ensures Get(r.columns, r.rows[j], c) == Get(t.columns, t.rows[i], c)
  {
    assert c !in m;
  }

  /** Each renaming used by the unpivot sends the six match labels onto six
      distinct team labels and leaves every other label alone. */
  lemma RenamesInjective(t: Table<string>, m: map<string, string>, c: string)
    requires MatchSchema(t)
    requires m == HomeRenames || m == AwayRenames
    requires c in m || c !in TeamLabels
    ensures forall j :: 0 <= j < |t.columns| && Renamed(m, t.columns[j]) == Renamed(m, c) ==> t.columns[j] == c
  {
    forall j | 0 <= j < |t.columns| && Renamed(m, t.columns[j]) == Renamed(m, c) ensures t.columns[j] == c {
      var x := t.columns[j];
      assert x !in TeamLabels by {
        assert x in t.columns;
      }
      if c in m && x in m {
        assert m[x] == m[c];
      }
    }
  }

  lemma ViewRow(t: Table<string>, m: map<string, string>, side: string, i: int)
    requires MatchSchema(t) && 0 <= i < |t.rows|
    requires m == HomeRenames || m == AwayRenames
    ensures SeenFrom(t, i, View(t, m, side), i, m, side)
  {
    var r := View(t, m, side);
    forall c | c in m ensures Get(r.columns, r.rows[i], m[c]) == Get(t.columns, t.rows[i], c) {
      ViewLabel(t, m, side, i, c);
    }
    forall c | c !in m && c !in TeamLabels ensures Get(r.columns, r.rows[i], c) == Get(t.columns, t.rows[i], c) {
      ViewLabel(t, m, side, i, c);
    }
  }

  /** In row `i` of a view, the label `c` is renamed to reads what `c` read. */
  lemma ViewLabel(t: Table<string>, m: map<string, string>, side: string, i: int, c: string)
    requires MatchSchema(t) && 0 <= i < |t.rows|
    requires m == HomeRenames || m == AwayRenames
    requires c in m || c !in TeamLabels
    ensures Get(View(t, m, side).columns, View(t, m, side).rows[i], Renamed(m, c)) == Get(t.columns, t.rows[i], c)
  {
    RenamesInjective(t, m, c);
    GetRenamed(t.columns, t.rows[i], m, c);
    assert Renamed(m, c) != "home_away";
  }

  /** The match label of the other side: `home` for `away`, `away_xg` for `home_xg`, ... */
  function Partner(x: string): string {
    if x == "home" then "away" else if x == "away" then "home"
    else if x == "home_xg" then "away_xg" else if x == "away_xg" then "home_xg"
    else if x == "home_score" then "away_score" else "home_score"
  }

  /** The away view calls a label what the home view calls its partner. */
  lemma PartnerRenamed(x: string)
    requires x in AwayRenames
    ensures Partner(x) in MatchLabels && Partner(x) in HomeRenames
    ensures HomeRenames[Partner(x)] == AwayRenames[x]
  {
  }

  /** Every away label is a home label too, so the concatenation keeps the
      home view's labels in their order and adds none. */
  lemma SameLabels(t: Table<string>)
    requires MatchSchema(t)
    ensures forall c :: c in View(t, AwayRenames, "away").columns ==> c in View(t, HomeRenames, "home").columns
  {
    var home := RenameAll(t.columns, HomeRenames);
    var away := RenameAll(t.columns, AwayRenames);
    ViewColumns(t, HomeRenames, "home");
    ViewColumns(t, AwayRenames, "away");
    forall j | 0 <= j < |away| ensures away[j] in home {
      AwayLabelIsHomeLabel(t, j);
    }
  }

  /** A view adds `home_away` after the renamed labels. */
  lemma ViewColumns(t: Table<string>, m: map<string, string>, side: string)
    requires MatchSchema(t)
    requires m == HomeRenames || m == AwayRenames
    ensures View(t, m, side).columns == RenameAll(t.columns, m) + ["home_away"]
  {
    var renamed := RenameAll(t.columns, m);
    forall j | 0 <= j < |renamed| ensures renamed[j] != "home_away" {
      assert t.columns[j] in t.columns;
    }
  }

  lemma AwayLabelIsHomeLabel(t: Table<string>, j: int)
    requires MatchSchema(t) && 0 <= j < |t.columns|
    ensures RenameAll(t.columns, AwayRenames)[j] in RenameAll(t.columns, HomeRenames)
  {
    var home := RenameAll(t.columns, HomeRenames);
    var away := RenameAll(t.columns, AwayRenames);
    var x := t.columns[j];
    if x in AwayRenames {
      PartnerRenamed(x);
      var k :| 0 <= k < |t.columns| && t.columns[k] == Partner(x);
      assert home[k] == away[j];
    } else {
      assert home[j] == away[j];
    }
  }

  /** Match `i` seen from the home side in row `i` of `r`. */
  ghost predicate HomeRow(t: Table<string>, r: Table<string>, i: int)
    requires 0 <= i < |t.rows| && |r.rows| == 2 * |t.rows|
  {
    SeenFrom(t, i, r, i, HomeRenames, "home")
  }

  /** Match `i` seen from the away side in row `|t.rows| + i` of `r`. */
  ghost predicate AwayRow(t: Table<string>, r: Table<string>, i: int)
    requires 0 <= i < |t.rows| && |r.rows| == 2 * |t.rows|
  {
    SeenFrom(t, i, r, |t.rows| + i, AwayRenames, "away")
  }

  /** The combined frame: the home views of all matches, then the away views,
      under the home view's labels. */
  lemma CombineRows(t: Table<string>)
    requires MatchSchema(t)
    ensures Combine(t).columns == RenameAll(t.columns, HomeRenames) + ["home_away"]
    ensures forall i :: 0 <= i < |t.rows| ==> HomeRow(t, Combine(t), i) && AwayRow(t, Combine(t), i)
  {
    CombineColumns(t);
    forall i | 0 <= i < |t.rows| ensures HomeRow(t, Combine(t), i) && AwayRow(t, Combine(t), i) {
      CombineRow(t, i);
    }
  }

  lemma CombineColumns(t: Table<string>)
    requires MatchSchema(t)
    ensures Combine(t).columns == RenameAll(t.columns, HomeRenames) + ["home_away"]
  {
    SameLabels(t);
    ViewColumns(t, HomeRenames, "home");
    var home := View(t, HomeRenames, "home");
    var away := View(t, AwayRenames, "away");
    assert Combine(t) == Concat(home, away);
  }

  lemma CombineRow(t: Table<string>, i: int)
    requires MatchSchema(t) && 0 <= i < |t.rows|
    ensures HomeRow(t, Combine(t), i) && AwayRow(t, Combine(t), i)
  {
    CombineHomeRow(t, i);
    CombineAwayRow(t, i);
  }

  lemma CombineHomeRow(t: Table<string>, i: int)
    requires MatchSchema(t) && 0 <= i < |t.rows|
    ensures HomeRow(t, Combine(t), i)
  {
    var home := View(t, HomeRenames, "home");
    var r := Combine(t);
    ViewRow(t, HomeRenames, "home", i);
    assert forall c :: Get(r.columns, r.rows[i], c) == Get(home.columns, home.rows[i], c);
    SeenThrough(t, i, home, i, r, i, HomeRenames, "home");
  }

  lemma CombineAwayRow(t: Table<string>, i: int)
    requires MatchSchema(t) && 0 <= i < |t.rows|
    ensures AwayRow(t, Combine(t), i)
  {
    var home := View(t, HomeRenames, "home");
    var away := View(t, AwayRenames, "away");
    ViewRow(t, AwayRenames, "away", i);
    ConcatRight(home, away, i);
    AwayThrough(t, i, home, away, Combine(t));
  }

  lemma AwayThrough(t: Table<string>, i: int, home: Table<string>, away: Table<string>, r: Table<string>)
    requires 0 <= i < |t.rows| && |home.rows| == |t.rows| && |away.rows| == |t.rows| && |r.rows| == 2 * |t.rows|
    requires SeenFrom(t, i, away, i, AwayRenames, "away")
    requires forall c :: Get(r.columns, r.rows[|home.rows| + i], c) == Get(away.columns, away.rows[i], c)
    ensures AwayRow(t, r, i)
  {
    SeenThrough(t, i, away, i, r, |t.rows| + i, AwayRenames, "away");
  }

  /** A row that reads like a seen row under every label is seen the same way. */
  lemma SeenThrough(t: Table<string>, i: int, a: Table<string>, ja: int, r: Table<string>, jr: int, m: map<string, string>, side: string)
    requires 0 <= i < |t.rows| && 0 <= ja < |a.rows| && 0 <= jr < |r.rows|
    requires SeenFrom(t, i, a, ja, m, side)
    requires forall c :: Get(r.columns, r.rows[jr], c) == Get(a.columns, a.rows[ja], c)
    ensures SeenFrom(t, i, r, jr, m, side)
  {
  }

  /** Each match appears twice, mirrored: what one row reads as the team is
      what its partner row reads as the opponent, and the other way round. */
  lemma MirroredPair(t: Table<string>, i: int)
    requires MatchSchema(t) && 0 <= i < |t.rows|
    ensures var r := Combine(t); var n := |t.rows|;
      && Get(r.columns, r.rows[i], "team_name") == Get(r.columns, r.rows[n + i], "opponent_name") == Get(t.columns, t.rows[i], "home")
      && Get(r.columns, r.rows[i], "opponent_name") == Get(r.columns, r.rows[n + i], "team_name") == Get(t.columns, t.rows[i], "away")
      && Get(r.columns, r.rows[i], "xg") == Get(r.columns, r.rows[n + i], "opponent_xg") == Get(t.columns, t.rows[i], "home_xg")
      && Get(r.columns, r.rows[i], "opponent_xg") == Get(r.columns, r.rows[n + i], "xg") == Get(t.columns, t.rows[i], "away_xg")
      && Get(r.columns, r.rows[i], "score") == Get(r.columns, r.rows[n + i], "opponent_score") == Get(t.columns, t.rows[i], "home_score")
      && Get(r.columns, r.rows[i], "opponent_score") == Get(r.columns, r.rows[n + i], "score") == Get(t.columns, t.rows[i], "away_score")
      && Get(r.columns, r.rows[i], "home_away") == Str("home")
      && Get(r.columns, r.rows[n + i], "home_away") == Str("away")
  {
    CombineRow(t, i);
    var r := Combine(t);
    var n := |t.rows|;
    HomeLabels();
    AwayLabels();
    ReadAs(t, i, r, i, HomeRenames, "home", "home");
    ReadAs(t, i, r, i, HomeRenames, "home", "away");
    ReadAs(t, i, r, i, HomeRenames, "home", "home_xg");
    ReadAs(t, i, r, i, HomeRenames, "home", "away_xg");
    ReadAs(t, i, r, i, HomeRenames, "home", "home_score");
    ReadAs(t, i, r, i, HomeRenames, "home", "away_score");
    ReadAs(t, i, r, n + i, AwayRenames, "away", "home");
    ReadAs(t, i, r, n + i, AwayRenames, "away", "away");
    ReadAs(t, i, r, n + i, AwayRenames, "away", "home_xg");
    ReadAs(t, i, r, n + i, AwayRenames, "away", "away_xg");
    ReadAs(t, i, r, n + i, AwayRenames, "away", "home_score");
    ReadAs(t, i, r, n + i, AwayRenames, "away", "away_score");
  }

  lemma HomeLabels()
    ensures "home" in HomeRenames && HomeRenames["home"] == "team_name"
    ensures "away" in HomeRenames && HomeRenames["away"] == "opponent_name"
    ensures "home_xg" in HomeRenames && HomeRenames["home_xg"] == "xg"
    ensures "away_xg" in HomeRenames && HomeRenames["away_xg"] == "opponent_xg"
    ensures "home_score" in HomeRenames && HomeRenames["home_score"] == "score"
    ensures "away_score" in HomeRenames && HomeRenames["away_score"] == "opponent_score"
  {
  }

  lemma AwayLabels()
    ensures "home" in AwayRenames && AwayRenames["home"] == "opponent_name"
    ensures "away" in AwayRenames && AwayRenames["away"] == "team_name"
    ensures "home_xg" in AwayRenames && AwayRenames["home_xg"] == "opponent_xg"
    ensures "away_xg" in AwayRenames && AwayRenames["away_xg"] == "xg"
    ensures "home_score" in AwayRenames && AwayRenames["home_score"] == "opponent_score"
    ensures "away_score" in AwayRenames && AwayRenames["away_score"] == "score"
  {
  }

  lemma ReadAs(t: Table<string>, i: int, r: Table<string>, j: int, m: map<string, string>, side: string, x: string)
    requires 0 <= i < |t.rows| && 0 <= j < |r.rows|
    requires SeenFrom(t, i, r, j, m, side) && x in m
    ensures Get(r.columns, r.rows[j], m[x]) == Get(t.columns, t.rows[i], x)
  {
  }

  /** The labels of the match frame that both views keep as they are. */
  lemma Untouched()
    ensures "date" !in MatchLabels && "date" !in TeamLabels
    ensures "venue" !in MatchLabels && "venue" !in TeamLabels
    ensures "wk" !in MatchLabels && "wk" !in TeamLabels
  {
  }

  /** A label the unpivot does not touch (`date`, `venue`, `wk`, ...) reads the
      same in both rows of a match as in the match row. */
  lemma PassThrough(t: Table<string>, i: int, c: string)
    requires MatchSchema(t) && 0 <= i < |t.rows|
    requires c !in MatchLabels && c !in TeamLabels
    ensures var r := Combine(t);
      Get(r.columns, r.rows[i], c) == Get(r.columns, r.rows[|t.rows| + i], c) == Get(t.columns, t.rows[i], c)
  {
    CombineRow(t, i);
    assert c !in HomeRenames && c !in AwayRenames;
  }

  // ---------------------------------------------------------------------
  // Points (lines 163-167)

  /** `np.where(score > opponent_score, 3, np.where(score == opponent_score, 1, 0))`
      for one row; comparing a text score with a number raises a TypeError. */
  function PointsOf(score: Value, opponent: Value): (r: Result<Value>)
    ensures r.Err? <==> Compare(score, opponent).None?
    ensures r.Ok? ==> r.value == Num(3.0) || r.value == Num(1.0) || r.value == Num(0.0)
    ensures r == Ok(Num(3.0)) <==> Test(score, Above, opponent) == Some(true)
  {
    match Test(score, Above, opponent)
    case None => Err(TypeMismatch)
    case Some(win) =>
      Ok(if win then Num(3.0) else if Test(score, EqualTo, opponent).value then Num(1.0) else Num(0.0))
  }

  /** Three points for a win, one for a draw, none for a loss; a missing score
      is neither a win nor a draw. */
  lemma PointsOfScores(a: real, b: real)
    ensures PointsOf(Num(a), Num(b)) == Ok(Num(3.0)) <==> a > b
    ensures PointsOf(Num(a), Num(b)) == Ok(Num(1.0)) <==> a == b
    ensures PointsOf(Num(a), Num(b)) == Ok(Num(0.0)) <==> a < b
    ensures PointsOf(Null, Num(b)) == Ok(Num(0.0)) && PointsOf(Num(a), Null) == Ok(Num(0.0))
  {
  }

  /** The points column, row by row. */
  function PointsColumn(s: seq<Value>, o: seq<Value>): (r: Result<seq<Value>>)
    requires |s| == |o|
    ensures r.Ok? <==> forall i :: 0 <= i < |s| ==> PointsOf(s[i], o[i]).Ok?
    ensures r.Ok? ==> |r.value| == |s| && forall i :: 0 <= i < |s| ==> r.value[i] == PointsOf(s[i], o[i]).value
  {
    if forall i :: 0 <= i < |s| ==> PointsOf(s[i], o[i]).Ok? then
      Ok(seq(|s|, i requires 0 <= i < |s| => PointsOf(s[i], o[i]).value))
    else
      Err(TypeMismatch)
  }

  /** `combined_df["points"] = np.where(...)` */
  function AddPoints(c: Table<string>): (r: Result<Table<string>>)
    requires Rect(c)
    ensures r.Ok? <==> "score" in c.columns && "opponent_score" in c.columns &&
                       forall i :: 0 <= i < |c.rows| ==>
                         PointsOf(Get(c.columns, c.rows[i], "score"), Get(c.columns, c.rows[i], "opponent_score")).Ok?
    ensures r.Ok? ==> Rect(r.value) && |r.value.rows| == |c.rows|
    ensures r.Ok? ==> r.value.columns == if "points" in c.columns then c.columns else c.columns + ["points"]
    ensures r.Ok? ==> forall i :: 0 <= i < |c.rows| ==>
              Get(r.value.columns, r.value.rows[i], "points") ==
              PointsOf(Get(c.columns, c.rows[i], "score"), Get(c.columns, c.rows[i], "opponent_score")).value
    ensures r.Ok? ==> forall i, l :: 0 <= i < |c.rows| && l != "points" ==>
              Get(r.value.columns, r.value.rows[i], l) == Get(c.columns, c.rows[i], l)
  {
    var s :- Col(c, "score");
    var o :- Col(c, "opponent_score");
    var p :- PointsColumn(s, o);
    Ok(Assign(c, "points", p))
  }

  /** Rows `i` and `n + i` of `p` hold the points of a match that ended `h`-`a`:
      together 2 for a draw and 3 otherwise, and 3 for the side that won. */
  ghost predicate PointsPair(p: Table<string>, n: int, i: int, h: real, a: real)
    requires 0 <= i < n && |p.rows| == 2 * n
  {
    var home := Get(p.columns, p.rows[i], "points");
    var away := Get(p.columns, p.rows[n + i], "points");
    && home.Num? && away.Num?
    && home.x + away.x == (if h == a then 2.0 else 3.0)
    && (home == Num(3.0) <==> h > a)
    && (away == Num(3.0) <==> a > h)
  }

  lemma MatchPoints(t: Table<string>, i: int, h: real, a: real)
    requires MatchSchema(t) && 0 <= i < |t.rows|
    requires Get(t.columns, t.rows[i], "home_score") == Num(h)
    requires Get(t.columns, t.rows[i], "away_score") == Num(a)
    requires AddPoints(Combine(t)).Ok?
    ensures |AddPoints(Combine(t)).value.rows| == 2 * |t.rows|
    ensures PointsPair(AddPoints(Combine(t)).value, |t.rows|, i, h, a)
  {
    MirroredPair(t, i);
    PointsOfScores(h, a);
    PointsOfScores(a, h);
  }
}

/** The fixtures tutorial (pages/2_New_tutorial.py): clean FBref match results,
    unpivot each match into one row per team, derive points, select a match by
    date and stadium, and summarise each team over a date window. */
module Fixtures {
  import opened Outcomes
  import opened Values
  import opened Text
  import opened Frames
  import opened Grouping
  import Unpivot

  // ---------------------------------------------------------------------
  // Column names (lines 41-42)

  /** The two `xG` columns, which `read_csv` reads as `xG` and `xG.1`. */
  const XgRenames: map<string, string> := map["xG" := "home_xg", "xG.1" := "away_xg"]

  /** The label one column ends up with: renamed, then snake-cased. */
  function ColumnName(c: string): (r: string)
    ensures IsSnake(r)
    ensures c == "xG" ==> r == "home_xg"
    ensures c == "xG.1" ==> r == "away_xg"
    ensures c != "xG" && c != "xG.1" ==> r == Snake(c)
  {
    SnakeIsSnake(Renamed(XgRenames, c));
    Snake(Renamed(XgRenames, c))
  }

  /** `df.rename(columns={"xG": "home_xg", "xG.1": "away_xg"})` followed by the
      list comprehension that snake-cases every label. */
  function Normalise(raw: Table<string>): (r: Table<string>)
    ensures r.rows == raw.rows && |r.columns| == |raw.columns|
    ensures forall i :: 0 <= i < |raw.columns| ==> r.columns[i] == ColumnName(raw.columns[i])
    ensures forall c :: c in r.columns ==> IsSnake(c)
  {
    var renamed := Rename(raw, XgRenames);
    SetColumns(renamed, SnakeAll(renamed.columns)).value
  }

  /** Running the two lines again changes nothing: snake-cased labels contain no
      upper-case `G`, so neither rename applies, and snake-casing is idempotent. */
  lemma NormaliseIdempotent(raw: Table<string>)
    ensures Normalise(Normalise(raw)) == Normalise(raw)
  {
    var once := Normalise(raw);
    XgNotSnake();
    forall i | 0 <= i < |once.columns|
      ensures ColumnName(once.columns[i]) == once.columns[i]
    {
      var c := once.columns[i];
      assert IsSnake(c);
      SnakeKeepsSnake(c);
    }
  }

  /** Both xG labels hold an upper-case `G`, so neither is snake case. */
  lemma XgNotSnake()
    ensures !IsSnake("xG") && !IsSnake("xG.1")
  {
    assert "xG"[1] == 'G' && IsUpper("xG"[1]);
    assert "xG.1"[1] == 'G' && IsUpper("xG.1"[1]);
  }

  // ---------------------------------------------------------------------
  // Cleaning (line 68)

  const Junk: seq<string> := ["match_report", "notes"]

  /** Flags of the rows holding a score. */
  function Played(t: Table<string>): seq<bool> {
    Present(Column(t, "score"))
  }

  /** `df.drop(columns=["match_report", "notes"]).dropna(subset="score")`. */
  function Clean(t: Table<string>): (r: Result<Table<string>>)
    requires Rect(t)
    ensures r.Ok? <==> "match_report" in t.columns && "notes" in t.columns && "score" in t.columns
    ensures r.Ok? ==> Rect(r.value) && r.value.columns == Drop(t, Junk).value.columns
    ensures r.Ok? ==> forall c :: c in r.value.columns <==> c in t.columns && c !in Junk
    ensures r.Ok? ==> r.value.rows == Pick(Drop(t, Junk).value.rows, Played(t))
  {
    var d :- Drop(t, Junk);
    DropKeepsScore(t);
    DropNa(d, "score")
  }

  /** The junk drop leaves the scores as they were. */
  lemma DropKeepsScore(t: Table<string>)
    requires Rect(t) && Drop(t, Junk).Ok?
    ensures "score" in Drop(t, Junk).value.columns <==> "score" in t.columns
    ensures Column(Drop(t, Junk).value, "score") == Column(t, "score")
  {
    assert "score" !in Junk;
  }

  /** The rows of the cleaned frame are, in order, the rows of `t` that hold a
      score, and each reads under every kept label what it read before. */
  lemma CleanKeepsPlayedRows(t: Table<string>, c: string)
    requires Rect(t) && Clean(t).Ok? && c !in Junk
    ensures |Clean(t).value.rows| == TrueCount(Played(t))
    ensures var kept := Pick(Column(t, c), Played(t));
            |kept| == |Clean(t).value.rows| &&
            forall j :: 0 <= j < |kept| ==> Get(Clean(t).value.columns, Clean(t).value.rows[j], c) == kept[j]
  {
    var d := Drop(t, Junk).value;
    PickLength(d.rows, Played(t));
    assert Column(d, c) == Column(t, c);
    PickColumn(d, Played(t), c);
  }

  // ---------------------------------------------------------------------
  // Score split (lines 94-96)

  /** `int(ch)` for a one-character string. */
  function DigitValue(ch: char): Option<real> {
    if '0' <= ch <= '9' then Some((ch as int - '0' as int) as real) else None
  }

  /** `int(x[0])`: the value 0 to 9 of a leading digit. */
  function FirstDigit(v: Value): (r: Result<Value>)
    ensures r.Ok? <==> v.Str? && |v.s| > 0 && '0' <= v.s[0] <= '9'
    ensures r.Ok? ==> r.value.Num? && 0.0 <= r.value.x <= 9.0 && r.value.x == (v.s[0] as int - '0' as int) as real
    ensures r.Err? ==> r.error == BadScore
  {
    if v.Str? && |v.s| > 0 && DigitValue(v.s[0]).Some? then Ok(Num(DigitValue(v.s[0]).value))
    else Err(BadScore)
  }

  /** `int(x[-1])`: the value 0 to 9 of a trailing digit. */
  function LastDigit(v: Value): (r: Result<Value>)
    ensures r.Ok? <==> v.Str? && |v.s| > 0 && '0' <= v.s[|v.s| - 1] <= '9'
    ensures r.Ok? ==> r.value.Num? && 0.0 <= r.value.x <= 9.0 && r.value.x == (v.s[|v.s| - 1] as int - '0' as int) as real
    ensures r.Err? ==> r.error == BadScore
  {
    if v.Str? && |v.s| > 0 && DigitValue(v.s[|v.s| - 1]).Some? then Ok(Num(DigitValue(v.s[|v.s| - 1]).value))
    else Err(BadScore)
  }

  /** A score text whose first and last characters are digits. */
  predicate ScoreReadable(v: Value) {
    v.Str? && |v.s| > 0 && DigitValue(v.s[0]).Some? && DigitValue(v.s[|v.s| - 1]).Some?
  }

  /** `df["home_score"] = df["score"].apply(lambda x: int(x[0]))`,
      `df["away_score"] = df["score"].apply(lambda x: int(x[-1]))`,
      `df = df.drop(columns=["score"])`. */
  function SplitScore(t: Table<string>): (r: Result<Table<string>>)
    requires Rect(t)
    ensures r.Ok? <==> "score" in t.columns && forall i :: 0 <= i < |t.rows| ==> ScoreReadable(Get(t.columns, t.rows[i], "score"))
    ensures r.Ok? ==> Rect(r.value) && |r.value.rows| == |t.rows|
    ensures r.Ok? ==> forall c :: c in r.value.columns <==> c != "score" && (c in t.columns || c == "home_score" || c == "away_score")
    ensures r.Ok? ==> forall i :: 0 <= i < |t.rows| ==> SplitRow(t, r.value, i)
    ensures r.Err? ==> r.error == (if "score" in t.columns then BadScore else MissingColumn)
  {
    var score :- Col(t, "score");
    var home :- Apply(score, FirstDigit);
    var t1 := Assign(t, "home_score", home);
    ScoreKept(t, home);
    var away :- Apply(Column(t1, "score"), LastDigit);
    var t2 := Assign(t1, "away_score", away);
    SplitFacts(t, home, away, t1, t2);
    Drop(t2, ["score"])
  }

  /** Row `i` of the split frame `r` against row `i` of `t`: both digits read
      off the score text, every other label unchanged. */
  ghost predicate SplitRow(t: Table<string>, r: Table<string>, i: int)
    requires 0 <= i < |t.rows| && i < |r.rows|
  {
    var v := Get(t.columns, t.rows[i], "score");
    && ScoreReadable(v)
    && Get(r.columns, r.rows[i], "home_score") == Num(DigitValue(v.s[0]).value)
    && Get(r.columns, r.rows[i], "away_score") == Num(DigitValue(v.s[|v.s| - 1]).value)
    && forall c :: c != "score" && c != "home_score" && c != "away_score" ==>
         Get(r.columns, r.rows[i], c) == Get(t.columns, t.rows[i], c)
  }

  lemma ScoreKept(t: Table<string>, home: seq<Value>)
    requires Rect(t) && |home| == |t.rows|
    ensures Column(Assign(t, "home_score", home), "score") == Column(t, "score")
  {
    var t1 := Assign(t, "home_score", home);
    forall i | 0 <= i < |t.rows| ensures Column(t1, "score")[i] == Column(t, "score")[i] {
      assert Get(t1.columns, t1.rows[i], "score") == Get(t.columns, t.rows[i], "score");
    }
  }

  lemma SplitFacts(t: Table<string>, home: seq<Value>, away: seq<Value>, t1: Table<string>, t2: Table<string>)
    requires Rect(t) && "score" in t.columns
    requires Applied(Column(t, "score"), FirstDigit, home)
    requires t1 == Assign(t, "home_score", home)
    requires Column(t1, "score") == Column(t, "score")
    requires Applied(Column(t1, "score"), LastDigit, away)
    requires t2 == Assign(t1, "away_score", away)
    ensures forall i :: 0 <= i < |t.rows| ==> ScoreReadable(Get(t.columns, t.rows[i], "score"))
    ensures var r := Drop(t2, ["score"]);
            && r.Ok? && Rect(r.value) && |r.value.rows| == |t.rows|
            && (forall c :: c in r.value.columns <==> c != "score" && (c in t.columns || c == "home_score" || c == "away_score"))
            && forall i :: 0 <= i < |t.rows| ==> SplitRow(t, r.value, i)
  {
    forall i | 0 <= i < |t.rows| ensures ScoreReadable(Get(t.columns, t.rows[i], "score")) {
      assert FirstDigit(Column(t, "score")[i]).Ok?;
      assert LastDigit(Column(t, "score")[i]).Ok?;
    }
    assert "score" in t2.columns;
    var r := Drop(t2, ["score"]).value;
    forall i | 0 <= i < |t.rows| ensures SplitRow(t, r, i) {
      SplitRowHolds(t, home, away, t1, t2, r, i);
    }
  }

  lemma SplitRowHolds(t: Table<string>, home: seq<Value>, away: seq<Value>, t1: Table<string>, t2: Table<string>, r: Table<string>, i: int)
    requires Rect(t) && 0 <= i < |t.rows|
    requires Applied(Column(t, "score"), FirstDigit, home)
    requires t1 == Assign(t, "home_score", home)
    requires Column(t1, "score") == Column(t, "score")
    requires Applied(Column(t1, "score"), LastDigit, away)
    requires t2 == Assign(t1, "away_score", away)
    requires Drop(t2, ["score"]) == Ok(r)
    ensures SplitRow(t, r, i)
  {
    var v := Column(t, "score")[i];
    assert v == Get(t.columns, t.rows[i], "score");
    assert FirstDigit(v).Ok? && LastDigit(v).Ok?;
    assert "home_score" !in ["score"] && "away_score" !in ["score"];
    assert Get(r.columns, r.rows[i], "home_score") == Get(t2.columns, t2.rows[i], "home_score") == Get(t1.columns, t1.rows[i], "home_score");
    assert Get(r.columns, r.rows[i], "away_score") == Get(t2.columns, t2.rows[i], "away_score");
    forall c | c != "score" && c != "home_score" && c != "away_score"
      ensures Get(r.columns, r.rows[i], c) == Get(t.columns, t.rows[i], c)
    {
      assert c !in ["score"];
      assert Get(r.columns, r.rows[i], c) == Get(t2.columns, t2.rows[i], c) == Get(t1.columns, t1.rows[i], c);
    }
  }

  /** `"2–1"` gives 2 and 1. Only the first and last characters are read, so
      `"10–0"` gives 1 and 0, and `"2 1"` is read as 2 and 1 rather than refused. */
  lemma ScoreExamples()
    ensures FirstDigit(Str("2–1")) == Ok(Num(2.0)) && LastDigit(Str("2–1")) == Ok(Num(1.0))
    ensures FirstDigit(Str("10–0")) == Ok(Num(1.0)) && LastDigit(Str("10–0")) == Ok(Num(0.0))
    ensures FirstDigit(Str("2 1")) == Ok(Num(2.0)) && LastDigit(Str("2 1")) == Ok(Num(1.0))
    ensures FirstDigit(Str("")).Err? && FirstDigit(Str("–1")).Err? && LastDigit(Str("1–")).Err?
  {
  }

  /** Lines 40-96 after loading: normalise the labels, clean, split the score.
      The `date` column is taken as already parsed (line 98 is not modelled).
      One row per played match, under snake-case labels, with the score split
      into its two digits. */
  function Prepare(raw: Table<string>): (r: Result<Table<string>>)
    requires Rect(raw)
    ensures r.Ok? ==> Rect(r.value) && |r.value.rows| == TrueCount(Played(Normalise(raw)))
    ensures r.Ok? ==> forall c :: c in r.value.columns <==>
              (c in Normalise(raw).columns && c !in Junk && c != "score") || c == "home_score" || c == "away_score"
    ensures r.Ok? ==> forall c :: c in r.value.columns ==> IsSnake(c)
    ensures r.Ok? <==> (forall n :: n in Junk ==> n in Normalise(raw).columns) && "score" in Normalise(raw).columns &&
                       ScoresReadable(Column(Normalise(raw), "score"))
  {
    var named := Normalise(raw);
    PrepareDefined(named);
    var cleaned :- Clean(named);
    CleanKeepsPlayedRows(named, "score");
    var r :- SplitScore(cleaned);
    PrepareColumns(named.columns, cleaned.columns, r.columns);
    Ok(r)
  }

  /** Every score is missing (the row is dropped) or readable. */
  predicate ScoresReadable(cells: seq<Value>) {
    forall v :: v in cells ==> v.Null? || ScoreReadable(v)
  }

  /** Cleaning and splitting succeed exactly when the dropped labels and the
      score are there and every present score is readable. */
  lemma PrepareDefined(t: Table<string>)
    requires Rect(t)
    ensures (Clean(t).Ok? && SplitScore(Clean(t).value).Ok?) <==>
            (forall n :: n in Junk ==> n in t.columns) && "score" in t.columns && ScoresReadable(Column(t, "score"))
  {
    if Clean(t).Ok? {
      var cleaned := Clean(t).value;
      CleanKeepsPlayedRows(t, "score");
      var kept := Pick(Column(t, "score"), Played(t));
      assert "score" in cleaned.columns;
      assert (forall i :: 0 <= i < |cleaned.rows| ==> ScoreReadable(Get(cleaned.columns, cleaned.rows[i], "score"))) <==>
             (forall k :: 0 <= k < |kept| ==> ScoreReadable(kept[k]));
      PlayedScores(Column(t, "score"));
    }
  }

  /** The present scores are all readable exactly when every cell is missing or
      readable. */
  lemma PlayedScores(xs: seq<Value>)
    ensures var kept := Pick(xs, Present(xs));
            (forall k :: 0 <= k < |kept| ==> ScoreReadable(kept[k])) <==> ScoresReadable(xs)
  {
    var kept := Pick(xs, Present(xs));
    if forall k :: 0 <= k < |kept| ==> ScoreReadable(kept[k]) {
      forall v | v in xs && !v.Null? ensures ScoreReadable(v) {
        var i :| 0 <= i < |xs| && xs[i] == v;
        PickMember(xs, Present(xs), v);
        var k :| 0 <= k < |kept| && kept[k] == v;
      }
    }
    if ScoresReadable(xs) {
      forall k | 0 <= k < |kept| ensures ScoreReadable(kept[k]) {
        PickMember(xs, Present(xs), kept[k]);
      }
    }
  }

  lemma PrepareColumns(named: seq<string>, cleaned: seq<string>, split: seq<string>)
    requires forall c :: c in named ==> IsSnake(c)
    requires forall c :: c in cleaned <==> c in named && c !in Junk
    requires forall c :: c in split <==> c != "score" && (c in cleaned || c == "home_score" || c == "away_score")
    ensures forall c :: c in split <==> (c in named && c !in Junk && c != "score") || c == "home_score" || c == "away_score"
    ensures forall c :: c in split ==> IsSnake(c)
  {
    SnakeIsSnake("home_score");
    SnakeIsSnake("away_score");
  }

  /** The FBref headers `Home`, `Away`, `xG` and `xG.1`, with no other header
      normalised onto a label the unpivot creates, give a frame the unpivot
      reads as intended. */
  lemma PreparedSchema(raw: Table<string>)
    requires Rect(raw) && Prepare(raw).Ok?
    requires "Home" in raw.columns && "Away" in raw.columns && "xG" in raw.columns && "xG.1" in raw.columns
    requires forall c :: c in Unpivot.TeamLabels && c != "score" ==> c !in Normalise(raw).columns
    ensures Unpivot.MatchSchema(Prepare(raw).value)
  {
    NormalisedHeaders(raw);
    SchemaFromColumns(Normalise(raw).columns, Prepare(raw).value.columns);
  }

  /** The FBref headers the unpivot reads, after normalising. */
  lemma NormalisedHeaders(raw: Table<string>)
    requires "Home" in raw.columns && "Away" in raw.columns && "xG" in raw.columns && "xG.1" in raw.columns
    ensures forall c :: c in ["home", "away", "home_xg", "away_xg"] ==> c in Normalise(raw).columns
  {
    var named := Normalise(raw);
    assert Snake("Home") == "home" by {
      assert Lower("Home") == "home";
    }
    assert Snake("Away") == "away" by {
      assert Lower("Away") == "away";
    }
    forall x | x in ["Home", "Away", "xG", "xG.1"] ensures ColumnName(x) in named.columns {
      var k :| 0 <= k < |raw.columns| && raw.columns[k] == x;
      assert named.columns[k] == ColumnName(x);
    }
    assert ColumnName("Home") == "home" && ColumnName("Away") == "away";
  }

  lemma SchemaFromColumns(named: seq<string>, split: seq<string>)
    requires forall c :: c in ["home", "away", "home_xg", "away_xg"] ==> c in named
    requires forall c :: c in Unpivot.TeamLabels && c != "score" ==> c !in named
    requires forall c :: c in split <==> (c in named && c !in Junk && c != "score") || c == "home_score" || c == "away_score"
    ensures forall c :: c in Unpivot.MatchLabels ==> c in split
    ensures forall c :: c in Unpivot.TeamLabels ==> c !in split
  {
  }
}

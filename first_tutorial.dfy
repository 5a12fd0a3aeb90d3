/** The player tutorial (pages/1_First_tutorial.py): flatten FBref's two-row
    header into snake-case labels, drop three columns, then run the player
    steps of `Players` under the snake-case labels. */
module FirstTutorial {
  import opened Outcomes
  import opened Values
  import opened Text
  import opened Frames
  import opened Sorting
  import opened Players

  /** One flattened label: both header rows joined by a space when the first
      is not a `read_csv` placeholder, otherwise the second row alone, and
      snake-cased either way. */
  function FlatName(c1: string, c2: string): (r: string)
    ensures IsSnake(r)
    ensures !Contains(c1, "Unnamed") ==> r == Snake(c1) + "_" + Snake(c2)
    ensures Contains(c1, "Unnamed") ==> r == Snake(c2)
  {
    SnakeJoin(c1, c2);
    SnakeIsSnake(c1 + " " + c2);
    SnakeIsSnake(c2);
    if !Contains(c1, "Unnamed") then Snake(c1 + " " + c2) else Snake(c2)
  }

  /** The list comprehension over `dataframe.columns`: one label per header
      pair, position by position, none with a space or an upper-case letter. */
  function Flatten(headers: seq<(string, string)>): (r: seq<string>)
    ensures |r| == |headers|
    ensures forall i :: 0 <= i < |headers| ==> r[i] == FlatName(headers[i].0, headers[i].1)
    ensures forall c :: c in r ==> IsSnake(c)
  {
    seq(|headers|, i requires 0 <= i < |headers| => FlatName(headers[i].0, headers[i].1))
  }

  /** The columns the script drops after flattening. */
  const Junk: seq<string> := ["rk", "matches", "#name?_-9999"]

  /** Overwrite the labels with the flattened ones and drop `Junk`: a KeyError
      unless all three are there; the other columns stay, in their order, with
      their cells. */
  function Load(raw: Table<(string, string)>): (r: Result<Table<string>>)
    requires Rect(raw)
    ensures r.Ok? <==> forall n :: n in Junk ==> n in Flatten(raw.columns)
    ensures r.Ok? ==> Rect(r.value) && |r.value.rows| == |raw.rows|
    ensures r.Ok? ==> IsSubsequence(r.value.columns, Flatten(raw.columns))
    ensures r.Ok? ==> forall c :: c in r.value.columns <==> c in Flatten(raw.columns) && c !in Junk
    ensures r.Ok? ==> forall c :: c in r.value.columns ==> IsSnake(c)
    ensures r.Ok? ==> forall i, c :: 0 <= i < |raw.rows| && c !in Junk ==>
              Get(r.value.columns, r.value.rows[i], c) == Get(Flatten(raw.columns), raw.rows[i], c)
  {
    Drop(Table(Flatten(raw.columns), raw.rows), Junk)
  }

  /** The rearranged players of the loaded frame, when loading and rearranging
      succeed: the loaded players under the six labels, reordered. */
  function Rearranged(raw: Table<(string, string)>): (r: Option<Table<string>>)
    requires Rect(raw)
    ensures r.Some? <==> Load(raw).Ok? && Rearrange(Load(raw).value, Snaked).Ok?
    ensures r.Some? ==> Rect(r.value) && r.value.columns == Kept(Snaked) && |r.value.rows| == |raw.rows|
    ensures r.Some? ==> SortedDesc(Kept(Snaked), r.value.rows, Snaked.goalsAssists)
    ensures r.Some? ==> multiset(r.value.rows) == multiset(Project(Load(raw).value, Kept(Snaked)).value.rows)
  {
    match Load(raw)
    case Err(_) => None
    case Ok(data) =>
      match Rearrange(data, Snaked)
      case Err(_) => None
      case Ok(rearranged) => Some(rearranged)
  }

  /** `rearranged_df[rearranged_df["performance_g+a"] >= number_filter]` on the
      loaded frame: exactly the rearranged players with at least `numberFilter`
      goals plus assists, still sorted by them; an error when a step fails or a
      goals-plus-assists cell is not a number. */
  function Threshold(raw: Table<(string, string)>, numberFilter: real): (r: Result<Table<string>>)
    requires Rect(raw)
    ensures r.Ok? <==> Rearranged(raw).Some? && NumericUnder(Rearranged(raw).value, Snaked.goalsAssists)
    ensures r.Ok? ==> r.value.columns == Kept(Snaked)
    ensures r.Ok? ==> SortedDesc(Kept(Snaked), r.value.rows, Snaked.goalsAssists)
    ensures r.Ok? ==> forall y :: y in r.value.rows <==>
              y in Rearranged(raw).value.rows && AtLeastNum(Get(Kept(Snaked), y, Snaked.goalsAssists), numberFilter)
    ensures r.Ok? ==> |r.value.rows| == TrueCount(AtLeastFlags(Rearranged(raw).value, Snaked.goalsAssists, numberFilter))
  {
    var data :- Load(raw);
    var rearranged :- Rearrange(data, Snaked);
    var shown :- AtLeastRows(rearranged, Snaked.goalsAssists, numberFilter);
    AtLeastRowsExact(rearranged, Snaked.goalsAssists, numberFilter, Snaked.goalsAssists);
    Ok(shown)
  }
}

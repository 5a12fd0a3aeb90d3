# FBref tutorial pipelines in Dafny

This project models the table pipelines inside a set of Streamlit tutorial pages about FBref football data.

- **Fixtures tutorial** (`pages/2_New_tutorial.py`). It loads the match results of a season and works through these steps:
  - renames the two `xG` columns and snake-cases every label;
  - drops two junk columns and the unplayed matches;
  - splits the score text into two digits;
  - unpivots every match into a home row and an away row;
  - gives each row its points;
  - lists the stadiums in use on a day and shows the matches at the chosen one;
  - summarises every team over a date window, sorted by expected-goals difference.
- **Player tutorial** (`pages/1_First_tutorial.py`). It works through these steps:
  - flattens the two-row header into snake-case labels and drops three columns;
  - projects six columns and sorts by goals plus assists;
  - filters on a threshold;
  - adds per-90 columns;
  - filters on birth year, and on birth year and nineties together, sorted by goal contributions per 90.
- **First version of the player tutorial** (`app.py`). It runs the same steps under the labels as the CSV spells them.

A pandas frame is a `Frames.Table`: a sequence of labels and rows of cells aligned with them. A cell is a `Values.Value`:
- a number, an exact real;
- a text;
- a parsed date;
- or missing, which stands for NaN/NaT.

Every step is a pure function from frames to a `Result`. The `Err` cases are the exceptions pandas raises:
- a `KeyError` for a missing column;
- a `TypeError` when cells of different kinds are compared;
- a `ValueError` when a score character is not a digit (`BadScore`; `cells.apply(f)` raises the failure of its first failing cell).

The scripts assign columns in place and rebind variables. The frames they touch are never aliased, so each such assignment is a function returning the new frame (`Frames.Assign`, `Frames.Drop`, `Frames.SetColumns`). Widget values are parameters, and the `selectbox` choice is an `Option`.

The modules follow the scripts:
- `Outcomes`, `Values`, `Text`, `Frames`, `Sorting` and `Grouping`: the library behaviour the scripts rely on;
- `Fixtures`, `Unpivot`, `Selection` and `Summary`: `pages/2_New_tutorial.py`;
- `Players`: the player steps shared by both player scripts, over a `PlayerLabels` record;
- `FirstTutorial`: `pages/1_First_tutorial.py`;
- `App`: `app.py`.

## Model

| member | source | states |
|---|---|---|
| Text.SnakeIdempotent | pages/2_New_tutorial.py:42 | snake-casing a label twice gives the same label as doing it once |
| Text.SnakeJoin | pages/1_First_tutorial.py:81 | snake-casing `f"{c1} {c2}"` gives the two snake-cased parts joined by `_` |
| Text.SnakeAll | pages/2_New_tutorial.py:42 | the comprehension gives one label per label, in order, each without a space or an upper-case letter |
| Fixtures.ColumnName | pages/2_New_tutorial.py:41-42 | `xG` becomes `home_xg`, `xG.1` becomes `away_xg`, every other label is snake-cased, and the result is snake case |
| Fixtures.Normalise | pages/2_New_tutorial.py:41-42 | the rows are unchanged, label `i` becomes `ColumnName` of label `i`, and every label is snake case |
| Fixtures.XgNotSnake | pages/2_New_tutorial.py:41-42 | neither xG label is snake case, so renaming cannot fire on normalised labels |
| Fixtures.NormaliseIdempotent | pages/2_New_tutorial.py:41-42 | normalising a normalised frame changes nothing |
| Fixtures.Clean | pages/2_New_tutorial.py:68 | fails exactly when `match_report`, `notes` or `score` is missing; otherwise it drops exactly the two junk labels and keeps, in order, the rows whose score is present |
| Frames.DropNa | pages/2_New_tutorial.py:68 | fails exactly when the label is missing; otherwise the rows whose cell under it is present, in order, under the same labels |
| Fixtures.CleanKeepsPlayedRows | pages/2_New_tutorial.py:68 | the cleaned frame has one row per played match, and each reads under every kept label the value of the corresponding played row |
| Fixtures.FirstDigit | pages/2_New_tutorial.py:94 | defined exactly on a text whose first character is an ASCII digit, and then its value 0 to 9 |
| Fixtures.LastDigit | pages/2_New_tutorial.py:95 | defined exactly on a text whose last character is an ASCII digit, and then its value 0 to 9 |
| Frames.Apply | pages/2_New_tutorial.py:94-95 | succeeds exactly when every cell does, with one result per cell; otherwise it fails with the error of the first failing cell |
| Fixtures.SplitScore | pages/2_New_tutorial.py:94-96 | fails exactly when `score` is missing or some score does not start and end with an ASCII digit; otherwise `home_score` is the first digit and `away_score` the last, `score` is gone, and every other label reads as before; a failure is a `KeyError` when `score` is missing and the score error otherwise |
| Fixtures.ScoreExamples | pages/2_New_tutorial.py:94-95 | `"2–1"` splits into 2 and 1 and `"10–0"` into 1 and 0; an empty score, or one with a non-digit first or last character, is an error |
| Fixtures.Prepare | pages/2_New_tutorial.py:40-96 | fails exactly when `match_report`, `notes` or `score` is missing after normalising, or a present score is unreadable; otherwise one row per played match; the labels are the normalised ones without the junk labels and `score`, plus `home_score` and `away_score`, all snake case |
| Fixtures.PrepareDefined | pages/2_New_tutorial.py:68-96 | cleaning then splitting succeeds exactly when the dropped labels and `score` are there and every score is missing or readable |
| Fixtures.PreparedSchema | pages/2_New_tutorial.py:40-96 | with the FBref headers `Home`, `Away`, `xG` and `xG.1`, the prepared frame has every label the unpivot reads and none it creates |
| Unpivot.Combine | pages/2_New_tutorial.py:162 | n matches give 2n team rows |
| Unpivot.CombineRows | pages/2_New_tutorial.py:139-162 | rows 0..n-1 are the matches from the home side and rows n..2n-1 the same matches from the away side, in input order, under the renamed labels plus `home_away` |
| Unpivot.MirroredPair | pages/2_New_tutorial.py:139-160 | for match `i`, row `i` has team, opponent, xg, opponent xg, score and opponent score from the home side and `home_away` = `"home"`; row `n+i` has them swapped and `"away"` |
| Unpivot.View | pages/2_New_tutorial.py:139-160 | one side's view is rectangular with one row per match (its labels and cells are stated by `Unpivot.ViewColumns` and `Unpivot.ViewRow`) |
| Unpivot.ViewColumns | pages/2_New_tutorial.py:139-160 | a view's labels are the match labels renamed by the side's map, then `home_away` |
| Unpivot.ViewRow | pages/2_New_tutorial.py:139-160 | row i of a view reads each match label under its new name, says which side it is, and reads every untouched label as the match does |
| Frames.Concat | pages/2_New_tutorial.py:162 | the first frame's rows, then the second's, under the first frame's labels followed by any new ones; every cell reads as in its source frame |
| Unpivot.PassThrough | pages/2_New_tutorial.py:139-160 | a label the unpivot neither reads nor creates reads the same in both rows of a match as in the match |
| Unpivot.Untouched | pages/2_New_tutorial.py:139-160 | `date`, `venue` and `wk` are labels the unpivot neither reads nor creates, so `Unpivot.PassThrough` applies to them |
| Unpivot.PointsOf | pages/2_New_tutorial.py:163-167 | fails exactly when the two scores cannot be compared; otherwise 3, 1 or 0, and 3 exactly when the score is higher |
| Unpivot.PointsOfScores | pages/2_New_tutorial.py:163-167 | 3 points exactly when the score is higher, 1 exactly when equal, 0 exactly when lower; a comparison with a missing score gives 0 |
| Unpivot.AddPoints | pages/2_New_tutorial.py:163-167 | fails exactly when a score label is missing or a score pair cannot be compared; otherwise each row gets the points of its own score pair and nothing else changes |
| Unpivot.MatchPoints | pages/2_New_tutorial.py:163-167 | the two rows of a match have points adding to 3 when one side wins and to 2 for a draw, and each has 3 exactly when it won |
| Selection.PlayedAfter | pages/2_New_tutorial.py:130 | fails exactly when `date` is missing or holds a non-date; otherwise it keeps, in order, the rows dated strictly after the chosen day (before `.head(2)`) |
| Selection.PlayedAfterShrinks | pages/2_New_tutorial.py:130 | a later day keeps a subsequence of what an earlier day keeps |
| Grouping.Unique | pages/2_New_tutorial.py:177 | the distinct values, holding exactly the values of the input |
| Selection.VenueChoices | pages/2_New_tutorial.py:177 | fails exactly when `date` or `venue` is missing; otherwise the choices are distinct and are exactly the stadiums of the rows on that day |
| Selection.MatchesOn | pages/2_New_tutorial.py:180-188 | no choice, or a falsy one (empty text or zero), shows the "No matches played that day" message (`None`); a choice shows, in order, exactly the rows on that day at that stadium |
| Selection.ChoiceShowsMatch | pages/2_New_tutorial.py:177-186 | a stadium offered for a day that is neither missing nor falsy (empty text or zero) selects at least one row |
| Selection.MatchesOnBothSides | pages/2_New_tutorial.py:162-186 | on the unpivoted frame, before and after the points column is added, a match is selected exactly when its home row is, so a selection shows twice as many rows as matches |
| Selection.PointsKeepFlags | pages/2_New_tutorial.py:163-167 | adding the points leaves every row's day-and-stadium selection flag unchanged |
| Selection.Window | pages/2_New_tutorial.py:210-213 | fails exactly when `date` is missing or holds a non-date; otherwise it keeps, in order, the rows dated from `start` to `end`, both included |
| Selection.WindowMember | pages/2_New_tutorial.py:210-213 | a row is in the window exactly when it is a row of the frame whose date lies in the window |
| Selection.WindowEmpty | pages/2_New_tutorial.py:210-213 | a start after the end selects no row and raises no error |
| Selection.WindowWidens | pages/2_New_tutorial.py:210-213 | a narrower window keeps a subsequence of what a wider one keeps |
| Grouping.Mean | pages/2_New_tutorial.py:217-221 | fails exactly when a cell is not a number; otherwise missing when no cell is present, else the sum of the present cells over their count |
| Summary.Aggregate | pages/2_New_tutorial.py:214-224 | fails exactly when a needed label is missing or some team's averaged cells are not numbers; otherwise there is one row per team key, with `games_played` the count of `wk`, the five means, and `xg_difference` = `xg_for - xg_against` |
| Summary.OneRowPerTeam | pages/2_New_tutorial.py:214 | no team appears twice, and the teams of the summary are exactly the teams named in the window |
| Summary.GamesPlayedIsGroupSize | pages/2_New_tutorial.py:216 | with no missing `wk`, a team's games played is its number of rows |
| Summary.GamesAddUp | pages/2_New_tutorial.py:214-216 | with no missing team or `wk`, the games played add up to the number of rows in the window |
| Summary.Summarise | pages/2_New_tutorial.py:226 | the displayed summary holds the aggregated rows, reordered, non-increasing in `xg_difference` |
| Summary.SummariseRows | pages/2_New_tutorial.py:226 | a row is displayed exactly when it is an aggregated row |
| Summary.TimePeriod | pages/2_New_tutorial.py:209-226 | fails exactly when the window or the aggregation of the window fails; otherwise the summary of the window has the summary labels, one row per team in the window, sorted by `xg_difference` |
| Summary.EmptyPeriod | pages/2_New_tutorial.py:209-226 | a start after the end summarises no team |
| Sorting.SortDesc | pages/2_New_tutorial.py:226 | fails exactly when the label is missing or its cells cannot be compared; otherwise the rows are a permutation of the input, non-increasing in the key, with missing keys last |
| Values.CompareTransitive | pages/2_New_tutorial.py:226 | the ordering the sorts use is transitive |
| Frames.Drop | pages/1_First_tutorial.py:86 | fails exactly when a dropped label is missing; otherwise exactly the named columns go and the rest keep their order and their cells |
| Frames.Project | pages/1_First_tutorial.py:159-161 | fails exactly when a named label is missing; otherwise exactly the named columns, in that order, one row per input row with its cells |
| Players.Rearrange | pages/1_First_tutorial.py:158-161 | fails exactly when one of the six labels is missing or goals plus assists cannot be compared; otherwise the six columns, the input rows reordered, non-increasing in goals plus assists |
| Players.RearrangedRows | pages/1_First_tutorial.py:159-161 | each output row reads under the six labels what some input row reads |
| Players.AtLeastRows | pages/1_First_tutorial.py:196 | fails exactly when the label is missing or holds a non-number; otherwise it keeps, in order, the rows whose value is at least the threshold |
| Players.AtLeastRowsExact | pages/1_First_tutorial.py:193-196 | a row is kept exactly when it reaches the threshold; the displayed count is the number of such rows; a sorted input stays sorted |
| Players.AtLeastRowsShrink | pages/1_First_tutorial.py:196 | a higher threshold keeps a subsequence of what a lower one keeps |
| Players.AddNineties | pages/1_First_tutorial.py:205 | fails exactly when minutes are missing or not numbers; otherwise `nineties_played` is minutes divided by 90 and nothing else changes |
| Players.AddGoalContributions | pages/1_First_tutorial.py:206-208 | `goal_cont_90` is goals plus assists divided by `nineties_played`, and nothing else changes |
| Players.AddPer90 | pages/1_First_tutorial.py:205-208 | the frame keeps its rows and gains the two per-90 labels |
| Players.AddPer90Rows | pages/1_First_tutorial.py:205-208 | under the scripts' labels, the step fails exactly when minutes or goals plus assists are missing or not numbers; otherwise each row holds its nineties and its goal contributions per 90 |
| Players.ScriptLabelsFresh | app.py:180-183 | neither script's six labels clash with the two per-90 labels |
| Players.BornSince | pages/1_First_tutorial.py:245 | the rows born in or after the year, reordered, non-increasing in goal contributions per 90 |
| Players.Combined | pages/1_First_tutorial.py:263-266 | the rows meeting both the birth-year and the nineties thresholds, reordered, non-increasing in goal contributions per 90 |
| Players.CombinedWithinEach | pages/1_First_tutorial.py:263-266 | a row is kept exactly when it meets both thresholds, and the result is contained in each single-threshold filter |
| Players.YoungBallers | pages/1_First_tutorial.py:202-208 | only if rearranging succeeds, one row per player, labelled exactly by the six kept labels, `nineties_played` and `goal_cont_90` |
| Players.YoungBallersRows | pages/1_First_tutorial.py:202-208 | under the scripts' labels, fails exactly when rearranging fails or the rearranged minutes or goals plus assists are not numbers; otherwise row i is rearranged row i with its nineties and goal contributions per 90 |
| FirstTutorial.FlatName | pages/1_First_tutorial.py:80-85 | a pair whose first part does not contain `Unnamed` becomes both parts snake-cased and joined by `_`, any other pair its second part snake-cased; the label is snake case |
| FirstTutorial.Flatten | pages/1_First_tutorial.py:80-85 | one label per header pair, position by position, none with a space or an upper-case letter |
| FirstTutorial.Load | pages/1_First_tutorial.py:80-86 | fails exactly when `rk`, `matches` or `#name?_-9999` is missing; otherwise exactly those columns go, the rest keep their order and cells, and every label is snake case |
| FirstTutorial.Rearranged | pages/1_First_tutorial.py:158-161 | defined exactly when loading and rearranging succeed; then the six labels, one row per player, the loaded players projected onto the six labels and reordered (the same multiset), sorted by goals plus assists |
| FirstTutorial.Threshold | pages/1_First_tutorial.py:158-196 | fails exactly when loading or rearranging fails or goals plus assists are not numbers; otherwise a player is displayed exactly when it is a rearranged player reaching the threshold, still sorted, and the count is the number of such rows |
| App.FlatName | app.py:76-79 | snake-casing the label of a header pair gives the pages/1_First_tutorial.py label of the same pair |
| App.Flatten | app.py:76-79 | one label per header pair, position by position |
| App.SnakeFlatten | app.py:76-79 | snake-casing the app.py labels gives the pages/1_First_tutorial.py labels |
| App.SnakeJunk | app.py:80 | the three dropped labels snake-case to `rk`, `matches` and `#name?_-9999`, no two alike |
| App.Load | app.py:76-80 | fails exactly when `Rk`, `Matches` or `#NAME? -9999` is missing; otherwise exactly those columns go and the rest keep their order and cells |
| App.LoadAgree | app.py:76-80 | when no other label snake-cases onto a dropped one, both scripts load the same frame up to snake-casing the labels, or both fail |

## Left out

- Streamlit presentation, the widgets and their default values, `open(...)` with the download button, and `PIL.Image.open` are not modelled. Widget values are parameters.
- `pd.read_csv` is not modelled. The frame, or the pairs of header rows, are inputs, together with the placeholders `Unnamed: ...` and `xG.1` that pandas invents.
- `pd.to_datetime(..., format="%d/%m/%Y")` at pages/2_New_tutorial.py:98 is not modelled. Dates arrive parsed as (year, month, day).
- Numbers are exact reals, not floating point. Division by zero in the per-90 columns gives a missing value, where pandas gives `inf` or NaN.
- `str.lower()` is modelled on ASCII letters only.
- `int(ch)` on one score character is modelled on the ASCII digits `0`-`9` only; Python also accepts other Unicode decimal digits.
- `Selection.PlayedAfter`: the script shows only `.head(2)` of the filtered frame; the model returns the whole filter, since `.head` only trims what is displayed.
- `str.replace(" ", "_")` replaces each space. Runs of whitespace are not collapsed.
- Labels are looked up by their first occurrence, so frames with repeated labels are not modelled faithfully.
- `Summary.Aggregate` orders the teams by first appearance. pandas sorts the group keys, and that order is not modelled.
- `Sorting.SortDesc` promises a sorted permutation. It does not promise the tie order of `sort_values`.
- `Summary.TimePeriod`: does not restate the cell values of each row. `Summary.Aggregate` and `Summary.Summarise` state those.
- `Fixtures.Prepare`: does not restate the cells of each row. `Fixtures.Clean`, `Fixtures.CleanKeepsPlayedRows` and `Fixtures.SplitScore` state those.
- `Players.AddPer90`: its own contract states only the rows and labels. The cell values and the error cases are in `Players.AddPer90Rows`, which needs labels that do not clash with the two per-90 labels, as in both scripts.
- The score split follows the code. It reads only the first and last characters, so `"10–0"` gives 1 and 0. Multi-digit scores are not parsed.
- A start date after the end date yields an empty window, as the code does. It does not signal an error.
- The home and away rows are two concatenated blocks, as in the code. They are not interleaved.

# Lichess 2013 pipeline: a Dafny model of its row-level rules

The repository turns the 2013 Lichess PGN dumps into a dashboard in three stages:

1. `data_preparation.py` converts each month's games into rows. It keeps one row per game that has all fifteen required headers, and adds the move count and a checkmate flag derived from the move text.
2. `merge_files.py` concatenates the monthly tables and tags every row with a `GameType` read off its `Event` header.
3. `lichess_app/analysis_app.py` is a Streamlit dashboard. It shifts timestamps by one hour, lists the players, filters by game type and by player, and draws count tables and win/draw/loss charts.

This project models the pure logic of the three stages as Dafny functions over strings and sequences of immutable records. Their contracts and lemmas state what each step guarantees.

Modules, one file each:

| module | models |
|---|---|
| `Options` | `Option` and `Result` |
| `Text` | the character classes used by the move regex, substring search, ASCII lower-casing, and Python string order |
| `Seqs` | order-preserving filters and filter-maps (`df[mask]`, the skip-on-`KeyError` loop) and `unique()` |
| `Sorting` | insertion sort over a total preorder, for `sorted(key=…)` and count orderings |
| `MoveText` | `count_moves_and_checkmate`: the scanner for `\d+\.\s+(\S+)` and the `endswith("#")` test |
| `MoveTextExamples` | worked examples for `MoveText` |
| `Extraction` | building one row per game and dropping incomplete games |
| `Merge` | `get_game_type`, concatenation of the monthly tables, and tagging |
| `MergeExamples` | worked examples for `Merge` |
| `Timestamp` | the one-hour shift with carry into day, month and year on the Gregorian calendar |
| `Counting` | `value_counts`, `groupby(...).size().nlargest(n)` and `head(n)` |
| `Dashboard` | the dashboard's queries, with the selected player and game type as parameters |

Two places where the natural reading and the code differ. The model follows the code in both:

- **Merging no tables.** One might expect an empty merged dataset when there are no monthly files. The code calls `pd.concat` on an empty sequence, which raises "No objects to concatenate". `Merge.MergeTables` therefore returns `Failure(NoObjectsToConcatenate)` when given no tables.
- **Scanning `1... e5`.** A black-first move number such as `1... e5` is followed by dots, not whitespace. It never matches the move pattern, so it adds nothing to the count.

## Model

| member | source | states |
|---|---|---|
| MoveText.MatchAt | data_preparation.py:14 | the scanner's step at position i finds a match exactly when `\d+\.\s+\S+` matches there with maximal digit, space and token runs, and reports where the token starts and ends |
| MoveText.FindAllFrom | data_preparation.py:14-17 | `findall` scanning from i captures at most one token per four remaining characters |
| MoveText.MatchedToken | data_preparation.py:14 | the group `(\S+)` a match captures starts after the marker, is non-empty, and holds no whitespace character |
| MoveText.TokensAreWords | data_preparation.py:14-17 | every captured token is a non-empty run of non-whitespace characters |
| MoveText.ScanSkips | data_preparation.py:17 | where no match starts, the scan moves on by one character |
| MoveText.ScanTakes | data_preparation.py:17 | where a match starts, its token is captured and the scan resumes after it, so matches never overlap |
| MoveText.NoDotNoMatch | data_preparation.py:14 | no match starts at a position without digits, or whose digits are not followed by a dot |
| MoveText.SkipNonDigit | data_preparation.py:17 | the scan moves past a character that is not a digit |
| MoveText.ScanSkipsNonDigits | data_preparation.py:17 | a stretch without digits contributes no match |
| MoveText.ScanSkipsDigitsWithoutDot | data_preparation.py:14-17 | a digit run not followed by a dot contributes no match, from any of its positions |
| MoveText.FindAllFromEmpty | data_preparation.py:14-17 | the scan from i captures nothing iff the pattern matches at no position from i on |
| MoveText.NumMoves | data_preparation.py:20 | the move count is at most a quarter of the text length |
| MoveText.NoMarkerNoMoves | data_preparation.py:14-20 | the move count is zero iff the pattern matches nowhere in the text |
| MoveText.Checkmate | data_preparation.py:21 | the flag is set iff the text is non-empty and its last character is `#` |
| MoveText.CountMovesAndCheckmate | data_preparation.py:13-22 | the count is the number of `findall` tokens, at most a quarter of the text length, and zero iff the pattern matches nowhere; the flag is set iff the last character is `#` |
| MoveTextExamples.ExampleMate | data_preparation.py:13-22 | `1. e4 e6 2. Qh5#` has two moves and is a checkmate |
| MoveTextExamples.ExampleEmpty | data_preparation.py:13-22 | the empty text has no moves and no checkmate |
| MoveTextExamples.ExampleNoSpace | data_preparation.py:14-20 | `1.e4` has no moves, because the pattern requires whitespace after the dot |
| MoveTextExamples.ExampleBlackFirst | data_preparation.py:14-20 | `1... e5` has no moves, because the dot is followed by another dot |
| Extraction.Parse | data_preparation.py:53-79 | a game gives a row iff all fifteen required headers are present; the row copies each header value unchanged, keeps the move text, and carries exactly its move count and checkmate flag |
| Extraction.RequiredHeadersDistinct | data_preparation.py:56-71 | the fifteen header tags read are fifteen different names |
| Extraction.ParseRoundTrip | data_preparation.py:56-74 | writing a row's columns back as headers and parsing them gives the same row |
| Extraction.ParseIgnoresOtherHeaders | data_preparation.py:56-71 | headers outside the fifteen required ones do not affect the row |
| Extraction.ExtractRows | data_preparation.py:50-79 | there are no more rows than games, every row comes from some game, and no game is dropped iff every game is complete |
| Extraction.Survivors | data_preparation.py:50-79 | the rows are the complete games in their input order: row t comes from game idx[t], the idx are increasing, and a game is kept iff it is complete |
| Extraction.ExtractRowsSkips | data_preparation.py:78-79 | an incomplete game is skipped and processing continues with the games after it |
| Extraction.ExtractRowsAppend | data_preparation.py:50-79 | the rows of two runs of games are the rows of each run, in order |
| Extraction.ExtractRowsSnoc | data_preparation.py:50-79 | one more game adds its row, if it yields one, after the rows of the games before it |
| Extraction.ExtractGames | data_preparation.py:48-79 | the loop produces exactly the extracted rows, and its counter `i` equals the number of rows appended |
| Merge.GetGameType | merge_files.py:20-24 | the type is `Other` iff no keyword occurs in the event; otherwise it is the first keyword, in the order Blitz, Bullet, Classical, Correspondence, that occurs as a case-sensitive substring |
| Text.ContainsOccurrence | merge_files.py:22 | `key in event` holds iff the keyword occurs at some position of the event |
| Merge.GameTypeFromFirst | merge_files.py:21-23 | the loop from keyword `from` returns keyword k iff k is the first keyword from `from` on that occurs |
| Merge.GameTypeFromOther | merge_files.py:21-24 | the loop from keyword `from` falls through to `Other` iff none of the remaining keywords occurs |
| Merge.MappingTypesDistinct | merge_files.py:12-24 | the four labels are different from each other and from `Other` |
| Merge.MappingIsIdentity | merge_files.py:12-17 | every keyword maps to the label with the same text |
| MergeExamples.ExampleBullet | merge_files.py:20-24 | `Rated Bullet game` is a Bullet game |
| MergeExamples.ExampleLowerCase | merge_files.py:20-24 | `rated blitz game` is Other, because matching is case-sensitive |
| MergeExamples.ExampleFirstWins | merge_files.py:20-24 | `Bullet and Blitz` is Blitz, because Blitz is tried first |
| Merge.Concat | merge_files.py:10 | the concatenation has as many rows as all tables together |
| Merge.ConcatIndex | merge_files.py:10 | row j of table i sits at the position after all rows of the earlier tables |
| Merge.Tag | merge_files.py:26 | tagging keeps every row unchanged and adds the game type of its event |
| Merge.TaggedPosition | merge_files.py:10-26 | row j of table i appears, tagged, after all rows of the earlier tables |
| Merge.MergeTables | merge_files.py:10-26 | merging fails iff there are no tables; otherwise its length is the sum of the table lengths and every input row appears in order, tagged with its game type |
| Timestamp.NextDay | lichess_app/analysis_app.py:22 | the following calendar day is a valid date exactly one day number later, with carry into month and year |
| Timestamp.AddHour | lichess_app/analysis_app.py:22 | the shifted timestamp is valid and lies exactly 3600 seconds after the original on the Gregorian time line |
| Timestamp.SecondsInjective | lichess_app/analysis_app.py:22 | two valid timestamps at the same instant are the same timestamp, so the seconds count identifies a date and time |
| Timestamp.AddHourUnique | lichess_app/analysis_app.py:22 | any valid timestamp exactly 3600 seconds after the original is the one the shift produces: the shift is the hour-later instant and nothing else |
| Timestamp.DayNumberInjective | lichess_app/analysis_app.py:22 | different calendar dates have different day numbers |
| Timestamp.MonthsFillYear | lichess_app/analysis_app.py:22 | the twelve month lengths add up to the year length, leap years included |
| Timestamp.ExampleNewYear | lichess_app/analysis_app.py:21-22 | 2012-12-31 23:01:03 becomes 2013-01-01 00:01:03 |
| Timestamp.ExampleLeapDay | lichess_app/analysis_app.py:21-22 | 2012-02-28 23:30 becomes 2012-02-29 00:30 |
| Timestamp.ExampleCommonYear | lichess_app/analysis_app.py:21-22 | 2013-02-28 23:30 becomes 2013-03-01 00:30 |
| Dashboard.Load | lichess_app/analysis_app.py:19-24 | loading succeeds iff every row's date and time parse to a valid timestamp; each loaded row keeps its game and carries a timestamp exactly one hour after the parsed one |
| Counting.RankedValues | lichess_app/analysis_app.py:160 | the distinct values of a column, each once, ordered by non-increasing count |
| Counting.ValueCounts | lichess_app/analysis_app.py:160-161 | `value_counts`: every value of the column appears exactly once, with its exact number of occurrences, in non-increasing count order |
| Counting.ValueCountsCoverRows | lichess_app/analysis_app.py:160-161 | the counts of `value_counts` add up to the number of rows: every row is counted under exactly one value |
| Counting.KeysCoverRows | lichess_app/analysis_app.py:160-161 | over distinct keys that cover every value of a column, the per-key counts add up to the column length |
| Counting.HeadOfRanking | lichess_app/analysis_app.py:163 | a prefix of a ranked count table is ranked, and no value it leaves out has a larger count than one it keeps |
| Counting.Top | lichess_app/analysis_app.py:160-163 | `value_counts().head(n)`: at most n entries with exact counts and distinct keys, in non-increasing count order, fewer than n only if every value is listed, and no omitted value more frequent than a listed one |
| Counting.CountIsGroupSize | lichess_app/analysis_app.py:30 | the number of occurrences of a key in a projected column is the number of rows in that key's group |
| Counting.TopGroups | lichess_app/analysis_app.py:30-31 | `groupby(key).size().nlargest(n)`: at most n non-empty groups with their exact row counts, distinct keys, in non-increasing order, and no omitted group larger than a listed one |
| Dashboard.TopWhitePlayers | lichess_app/analysis_app.py:30 | at most 20 distinct (game type, White player) groups, each with its number of rows, in non-increasing order; fewer than 20 only when every group is listed, and no omitted group has more games than a listed one |
| Dashboard.TopBlackPlayers | lichess_app/analysis_app.py:31 | the same for (game type, Black player) groups: at most 20, exact sizes, non-increasing, all listed when fewer than 20, no larger group omitted |
| Dashboard.PlayerUnion | lichess_app/analysis_app.py:56-69 | the union of White and Black names holds every name that played either side, exactly once |
| Seqs.Distinct | lichess_app/analysis_app.py:58-64 | `unique()` keeps every value of the column exactly once and nothing else |
| Dashboard.ByLowerNameIsPreorder | lichess_app/analysis_app.py:70 | comparing lower-cased names in Python string order is a total preorder, so sorting by it is well defined |
| Text.Lower | lichess_app/analysis_app.py:70 | `str.lower` keeps the length, leaves no upper-case ASCII letter, keeps every other character, and moves each upper-case letter to its lower-case partner |
| Text.LowerIdempotent | lichess_app/analysis_app.py:70 | lowering twice is lowering once, so the sort key of a lower-case name is the name itself |
| Text.LexLeTotal | lichess_app/analysis_app.py:70 | any two strings are comparable under Python's string order |
| Text.LexLeTransitive | lichess_app/analysis_app.py:70 | Python's string order is transitive |
| Sorting.Sort | lichess_app/analysis_app.py:70 | `sorted` returns a permutation of its input, ordered by the key |
| Dashboard.AllPlayersUnique | lichess_app/analysis_app.py:68-70 | the player list holds exactly the names that played either side, each once, ordered by non-decreasing lower-cased name |
| Dashboard.GamesOfType | lichess_app/analysis_app.py:156 | the game-type filter keeps exactly the rows of that type |
| Seqs.Filter | lichess_app/analysis_app.py:156 | a mask selection `df[mask]` keeps exactly the rows satisfying the mask and no more rows than the table has |
| Seqs.FilterPositions | lichess_app/analysis_app.py:199 | the kept rows are the table's rows at strictly increasing positions, and a position is kept iff its row satisfies the mask |
| Dashboard.GamesOfTypeInOrder | lichess_app/analysis_app.py:156 | the game-type filter keeps those rows in their table order |
| Dashboard.PlayerGames | lichess_app/analysis_app.py:199 | the player filter keeps exactly the rows with the player as White or as Black |
| Dashboard.PlayerGamesInOrder | lichess_app/analysis_app.py:199 | the player filter keeps those rows in their table order |
| Dashboard.TopTimeControls | lichess_app/analysis_app.py:156-163 | at most ten distinct time controls of the chosen type's games, each with its exact number of games, in non-increasing order; all listed when fewer than ten, and no omitted time control is more frequent than a listed one |
| Dashboard.TopOpenings | lichess_app/analysis_app.py:156-174 | at most ten distinct openings of the chosen type's games, each with its exact number of games, in non-increasing order; all listed when fewer than ten, and no omitted opening is more frequent than a listed one |
| Dashboard.GameResults | lichess_app/analysis_app.py:232-236 | wins, draws and losses are the numbers of row positions where the player won (White with `1-0` or Black with `0-1`), drew (either side with `1/2-1/2`) or lost (Black with `1-0` or White with `0-1`); each is at most the number of rows |
| Seqs.FilterSizeIsPositions | lichess_app/analysis_app.py:233-235 | the number of rows `df[mask]` keeps, its `shape[0]`, is the number of true entries of the mask |
| Dashboard.OutcomesCoverRows | lichess_app/analysis_app.py:199-238 | when the player has exactly one side in every row and every result is `1-0`, `0-1` or `1/2-1/2`, wins, draws and losses add up to the number of rows |
| Dashboard.ResultsIgnoreOtherGames | lichess_app/analysis_app.py:199-238 | counting results over the player's games gives the same outcomes as counting over the whole table |
| Dashboard.Breakdown | lichess_app/analysis_app.py:249-308 | the four columns are Classical, Blitz, Bullet and Correspondence in that order, and column k's wins, draws and losses are the numbers of rows of the whole table that the player won, drew or lost and whose type is that column's type |
| Dashboard.TypeColumn | lichess_app/analysis_app.py:249-251 | narrowing to the player's games and then to one type, then counting an outcome of the player, counts the rows of the whole table with that outcome and type |
| Seqs.FilterBoth | lichess_app/analysis_app.py:249 | filtering by one mask and then another keeps what the conjunction of the masks keeps, in the same order |
| Dashboard.SplitByType | lichess_app/analysis_app.py:249-306 | the four game types select disjoint rows, so the per-type counts of any outcome add up to at most its overall count |
| Dashboard.BreakdownWithinTotals | lichess_app/analysis_app.py:238-321 | the per-type wins, draws and losses add up to at most the player's overall wins, draws and losses |

## Left out

- PGN reading: `chess.pgn.read_game` and `mainline_moves` come from python-chess, which is not part of this model. A game is given as its header map and its move text.
- File I/O and file discovery: `open`, `glob`, `read_csv`, `to_csv`, the fixed paths, and `gc.collect`. `glob` order is unspecified, so the monthly tables are a given sequence. The CSV round trip between stages is also left out. It would turn numbers into strings and back and add the `Unnamed: 0` index columns that `load_data` drops. The model's rows keep all their fields, including `UTCDate` and `UTCTime`.
- Progress `print` calls.
- Streamlit, caching, widgets, page layout, the Info and Contact pages, the markdown texts with their plural forms, and every plotly chart. The charts of checkmate counts and overall game-type counts are plain `value_counts` charts. `Counting.ValueCounts` covers them, but no dashboard member is written for them.
- `groupby("GameType").mean(numeric_only=True)`: floating-point averaging.
- `unique()` lists of game types and openings used as menu options: `Seqs.Distinct` covers them, with no dashboard member of their own.
- `pd.to_datetime` string parsing. `Dashboard.Load` takes the parser as a parameter and shifts the parsed fields. Timestamps are checked only for calendar validity, not against pandas' nanosecond range (years 1677 to 2262).
- Text.Lower: lower-cases ASCII letters only, not the full Unicode `str.lower`.
- MoveText.MatchAt: `\d` is restricted to the ASCII digits rather than all Unicode decimal digits. `\s` follows Python's Unicode whitespace set.
- AllPlayersUnique: `list(set(...))` iterates in hash order. The model takes first-appearance order instead, and it claims nothing about the order of names whose lower-cased forms are equal.
- Counting.Top: which of several values or groups with equal counts is kept at the cut, and their relative order, is not claimed, for `value_counts().head(n)` or for `nlargest(20)` (whose `keep='first'` fixes it); the model promises only that no omitted entry has a larger count.
- Merge.GetGameType: a missing `Event` (NaN after the CSV round trip) would raise in `in`. Rows here always carry an event string.
- NumMoves: states the bound and, through the scanner lemmas, the leftmost non-overlapping match semantics. It does not count python-chess move objects, since the count is of pattern matches on the rendered text.

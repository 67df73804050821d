/**
 * The dashboard's queries over the merged table, with the widgets taken away: the selected player
 * and game type become parameters, and every chart is reduced to the numbers it plots.
 */
module Dashboard {
  import opened Options
  import opened Seqs
  import opened Sorting
  import opened Text
  import opened Merge
  import opened Timestamp
  import opened Counting

  /** A row of the loaded table: a merged game and its timestamp shifted to server time. */
  datatype Loaded = Loaded(game: Tagged, dateTime: DateTime)

  function White(x: Loaded): string { x.game.row.white }
  function Black(x: Loaded): string { x.game.row.black }
  function ResultCode(x: Loaded): string { x.game.row.result }
  function TypeOf(x: Loaded): GameType { x.game.gameType }

  /**
   * `load_data`: combine each row's `UTCDate` and `UTCTime` into a timestamp and move it one hour
   * later. `parse` stands for `pd.to_datetime`; like it, loading fails as a whole when any row's
   * fields do not name a real date and time.
   */
  function Load(merged: seq<Tagged>, parse: (string, string) -> Option<DateTime>): (r: Option<seq<Loaded>>)
    ensures r.Some? <==> forall i :: 0 <= i < |merged| ==> Parses(parse, merged[i])
    ensures r.Some? ==> |r.value| == |merged|
    ensures r.Some? ==> forall i :: 0 <= i < |merged| ==>
      && r.value[i].game == merged[i]
      && Valid(r.value[i].dateTime)
      && Seconds(r.value[i].dateTime) == Seconds(parse(merged[i].row.utcDate, merged[i].row.utcTime).value) + 3600
  {
    if forall i :: 0 <= i < |merged| ==> Parses(parse, merged[i]) then
      Some(seq(|merged|, i requires 0 <= i < |merged| && Parses(parse, merged[i]) =>
        Loaded(merged[i], AddHour(parse(merged[i].row.utcDate, merged[i].row.utcTime).value))))
    else
      None
  }

  predicate Parses(parse: (string, string) -> Option<DateTime>, t: Tagged) {
    var dt := parse(t.row.utcDate, t.row.utcTime);
    dt.Some? && Valid(dt.value)
  }

  // ---------------------------------------------------------------------------------------------
  // Filters

  function InvolvesPlayer(p: string): Loaded -> bool {
    x => White(x) == p || Black(x) == p
  }

  function OfType(t: GameType): Loaded -> bool {
    x => TypeOf(x) == t
  }

  /** `data[(data['White'] == p) | (data['Black'] == p)]`: the games the player took part in. */
  function PlayerGames(data: seq<Loaded>, p: string): (r: seq<Loaded>)
    ensures forall x :: x in r <==> x in data && (White(x) == p || Black(x) == p)
  {
    Filter(data, InvolvesPlayer(p))
  }

  /** The player's games keep their order in the table: output row `t` is input row `idx[t]`. */
  lemma PlayerGamesInOrder(data: seq<Loaded>, p: string) returns (idx: seq<nat>)
    ensures |idx| == |PlayerGames(data, p)|
    ensures StrictlyIncreasing(idx)
    ensures forall t :: 0 <= t < |idx| ==> idx[t] < |data| && PlayerGames(data, p)[t] == data[idx[t]]
    ensures forall j :: 0 <= j < |data| ==> (White(data[j]) == p || Black(data[j]) == p <==> j in idx)
  {
    idx := FilterPositions(data, InvolvesPlayer(p));
  }

  /** `data[data['GameType'] == t]`: the games of one type. */
  function GamesOfType(data: seq<Loaded>, t: GameType): (r: seq<Loaded>)
    ensures forall x :: x in r <==> x in data && TypeOf(x) == t
  {
    Filter(data, OfType(t))
  }

  /** The games of one type keep their order in the table. */
  lemma GamesOfTypeInOrder(data: seq<Loaded>, t: GameType) returns (idx: seq<nat>)
    ensures |idx| == |GamesOfType(data, t)|
    ensures StrictlyIncreasing(idx)
    ensures forall k :: 0 <= k < |idx| ==> idx[k] < |data| && GamesOfType(data, t)[k] == data[idx[k]]
    ensures forall j :: 0 <= j < |data| ==> (TypeOf(data[j]) == t <==> j in idx)
  {
    idx := FilterPositions(data, OfType(t));
  }

  // ---------------------------------------------------------------------------------------------
  // Game results

  datatype Outcomes = Outcomes(wins: nat, draws: nat, losses: nat)

  function Won(p: string): Loaded -> bool {
    x => (White(x) == p && ResultCode(x) == "1-0") || (Black(x) == p && ResultCode(x) == "0-1")
  }

  function Drew(p: string): Loaded -> bool {
    x => (White(x) == p || Black(x) == p) && ResultCode(x) == "1/2-1/2"
  }

  function Lost(p: string): Loaded -> bool {
    x => (Black(x) == p && ResultCode(x) == "1-0") || (White(x) == p && ResultCode(x) == "0-1")
  }

  /**
   * `get_game_results`: how many of the rows the player won, drew and lost, read from the
   * `Result` code and the side the player had.
   */
  function GameResults(rows: seq<Loaded>, p: string): (o: Outcomes)
    ensures o.wins == |Positions(rows, Won(p))|
    ensures o.draws == |Positions(rows, Drew(p))|
    ensures o.losses == |Positions(rows, Lost(p))|
    ensures o.wins <= |rows| && o.draws <= |rows| && o.losses <= |rows|
  {
    FilterSizeIsPositions(rows, Won(p));
    FilterSizeIsPositions(rows, Drew(p));
    FilterSizeIsPositions(rows, Lost(p));
    Outcomes(|Filter(rows, Won(p))|, |Filter(rows, Drew(p))|, |Filter(rows, Lost(p))|)
  }

  /** The player had exactly one side, and the game ended with one of the three result codes. */
  predicate Decided(x: Loaded, p: string) {
    && ((White(x) == p) != (Black(x) == p))
    && (ResultCode(x) == "1-0" || ResultCode(x) == "0-1" || ResultCode(x) == "1/2-1/2")
  }

  /** When every row is a decided game of the player, each row counts as exactly one outcome. */
  lemma OutcomesCoverRows(rows: seq<Loaded>, p: string)
    requires forall x :: x in rows ==> Decided(x, p)
    ensures GameResults(rows, p).wins + GameResults(rows, p).draws + GameResults(rows, p).losses == |rows|
  {
    FilterPartition3(rows, Won(p), Drew(p), Lost(p));
  }

  /** Counting over the player's games gives what counting over the whole table gives. */
  lemma ResultsIgnoreOtherGames(data: seq<Loaded>, p: string)
    ensures GameResults(PlayerGames(data, p), p) == GameResults(data, p)
  {
    FilterNarrower(data, InvolvesPlayer(p), Won(p));
    FilterNarrower(data, InvolvesPlayer(p), Drew(p));
    FilterNarrower(data, InvolvesPlayer(p), Lost(p));
  }

  /** The four per-type columns of the player page, in display order. */
  const BreakdownTypes: seq<GameType> := [Classical, Blitz, Bullet, Correspondence]

  /** Rows of type `t` that satisfy `outcome`. */
  function InType(outcome: Loaded -> bool, t: GameType): Loaded -> bool {
    x => outcome(x) && TypeOf(x) == t
  }

  /**
   * Restricting the table to the player's games and then to one type, and counting an outcome of
   * the player there, counts the rows of the whole table with that outcome and type.
   */
  lemma TypeColumn(data: seq<Loaded>, p: string, t: GameType, outcome: Loaded -> bool)
    requires forall x :: outcome(x) ==> InvolvesPlayer(p)(x)
    ensures |Filter(GamesOfType(PlayerGames(data, p), t), outcome)| == |Positions(data, InType(outcome, t))|
  {
    var games := PlayerGames(data, p);
    FilterBoth(games, OfType(t), outcome, InType(outcome, t));
    FilterNarrower(data, InvolvesPlayer(p), InType(outcome, t));
    FilterSizeIsPositions(data, InType(outcome, t));
  }

  /** The player's results within the games of each of the four types, in display order. */
  function Breakdown(data: seq<Loaded>, p: string): (r: seq<(GameType, Outcomes)>)
    ensures |r| == 4
    ensures forall k :: 0 <= k < 4 ==> r[k].0 == BreakdownTypes[k]
    ensures forall k :: 0 <= k < 4 ==> r[k].1.wins == |Positions(data, InType(Won(p), BreakdownTypes[k]))|
    ensures forall k :: 0 <= k < 4 ==> r[k].1.draws == |Positions(data, InType(Drew(p), BreakdownTypes[k]))|
    ensures forall k :: 0 <= k < 4 ==> r[k].1.losses == |Positions(data, InType(Lost(p), BreakdownTypes[k]))|
  {
    var games := PlayerGames(data, p);
    var r := seq(4, k requires 0 <= k < 4 => (BreakdownTypes[k], GameResults(GamesOfType(games, BreakdownTypes[k]), p)));
    assert forall k :: 0 <= k < 4 ==> r[k].1 == Outcomes(
      |Positions(data, InType(Won(p), BreakdownTypes[k]))|,
      |Positions(data, InType(Drew(p), BreakdownTypes[k]))|,
      |Positions(data, InType(Lost(p), BreakdownTypes[k]))|) by {
      forall k | 0 <= k < 4
        ensures r[k].1 == Outcomes(
          |Positions(data, InType(Won(p), BreakdownTypes[k]))|,
          |Positions(data, InType(Drew(p), BreakdownTypes[k]))|,
          |Positions(data, InType(Lost(p), BreakdownTypes[k]))|)
      {
        var t := BreakdownTypes[k];
        var rows := GamesOfType(games, t);
        FilterSizeIsPositions(rows, Won(p));
        FilterSizeIsPositions(rows, Drew(p));
        FilterSizeIsPositions(rows, Lost(p));
        TypeColumn(data, p, t, Won(p));
        TypeColumn(data, p, t, Drew(p));
        TypeColumn(data, p, t, Lost(p));
      }
    }
    r
  }

  /** How many of `rows` satisfy `outcome` within each type, against all of `rows`. */
  lemma {:induction false} SplitByType(rows: seq<Loaded>, outcome: Loaded -> bool)
    ensures |Filter(GamesOfType(rows, Classical), outcome)| + |Filter(GamesOfType(rows, Blitz), outcome)|
          + |Filter(GamesOfType(rows, Bullet), outcome)| + |Filter(GamesOfType(rows, Correspondence), outcome)|
         <= |Filter(rows, outcome)|
  {
    var hits := Filter(rows, outcome);
    forall t: GameType
      ensures |Filter(GamesOfType(rows, t), outcome)| == |Filter(hits, OfType(t))|
    {
      FilterCommute(rows, OfType(t), outcome);
    }
    FilterDisjoint4(hits, OfType(Classical), OfType(Blitz), OfType(Bullet), OfType(Correspondence));
  }

  /**
   * The four type columns look at disjoint subsets of the player's games, so their wins, draws and
   * losses add up to no more than the player's overall wins, draws and losses.
   */
  lemma BreakdownWithinTotals(data: seq<Loaded>, p: string)
    ensures var b := Breakdown(data, p);
            var all := GameResults(PlayerGames(data, p), p);
            && b[0].1.wins + b[1].1.wins + b[2].1.wins + b[3].1.wins <= all.wins
            && b[0].1.draws + b[1].1.draws + b[2].1.draws + b[3].1.draws <= all.draws
            && b[0].1.losses + b[1].1.losses + b[2].1.losses + b[3].1.losses <= all.losses
  {
    var games := PlayerGames(data, p);
    SplitByType(games, Won(p));
    SplitByType(games, Drew(p));
    SplitByType(games, Lost(p));
  }

  // ---------------------------------------------------------------------------------------------
  // Player list

  /** Names in the order of their lower-cased forms, as `sorted(..., key=str.lower)` orders them. */
  function ByLowerName(): (string, string) -> bool {
    (a, b) => LexLe(Lower(a), Lower(b))
  }

  lemma ByLowerNameIsPreorder()
    ensures TotalPreorder(ByLowerName())
  {
    forall a: string, b: string
      ensures LexLe(Lower(a), Lower(b)) || LexLe(Lower(b), Lower(a))
    {
      LexLeTotal(Lower(a), Lower(b));
    }
    forall a: string, b: string, c: string | LexLe(Lower(a), Lower(b)) && LexLe(Lower(b), Lower(c))
      ensures LexLe(Lower(a), Lower(c))
    {
      LexLeTransitive(Lower(a), Lower(b), Lower(c));
    }
  }

  /** `name` sat at the board, with either colour, in some row of `data`. */
  ghost predicate Played(data: seq<Loaded>, name: string) {
    exists i :: 0 <= i < |data| && (White(data[i]) == name || Black(data[i]) == name)
  }

  /** `list(set(white_piece_players_list + black_piece_players_list))`: every name once (the model keeps first-appearance order). */
  function PlayerUnion(data: seq<Loaded>): (unique: seq<string>)
    ensures NoDuplicates(unique)
    ensures forall name :: name in unique <==> Played(data, name)
  {
    var whites := Distinct(Project(data, White));
    var blacks := Distinct(Project(data, Black));
    var unique := Distinct(whites + blacks);
    forall name | name in unique
      ensures Played(data, name)
    {
      assert name in whites + blacks;
      if name in whites {
        var i :| 0 <= i < |data| && Project(data, White)[i] == name;
      } else {
        var i :| 0 <= i < |data| && Project(data, Black)[i] == name;
      }
    }
    forall name | Played(data, name)
      ensures name in unique
    {
      var i :| 0 <= i < |data| && (White(data[i]) == name || Black(data[i]) == name);
      assert Project(data, White)[i] == White(data[i]);
      assert Project(data, Black)[i] == Black(data[i]);
    }
    unique
  }

  /**
   * `all_players_unique`: the unique White names and the unique Black names, made into a set and
   * sorted case-insensitively. Every name that played either side appears exactly once.
   */
  function AllPlayersUnique(data: seq<Loaded>): (names: seq<string>)
    ensures forall name :: name in names <==> Played(data, name)
    ensures NoDuplicates(names)
    ensures forall i, j :: 0 <= i < j < |names| ==> LexLe(Lower(names[i]), Lower(names[j]))
  {
    var unique := PlayerUnion(data);
    ByLowerNameIsPreorder();
    var names := Sort(unique, ByLowerName());
    NoDuplicatesPermutation(unique, names);
    assert forall name :: name in names <==> name in multiset(unique);
    names
  }

  // ---------------------------------------------------------------------------------------------
  // Count tables

  function WhiteGroup(x: Loaded): (GameType, string) { (TypeOf(x), White(x)) }
  function BlackGroup(x: Loaded): (GameType, string) { (TypeOf(x), Black(x)) }
  function TimeControlOf(x: Loaded): string { x.game.row.timeControl }
  function OpeningOf(x: Loaded): string { x.game.row.opening }

  /** `get_top_20_active_users`, White side: the 20 (game type, White player) pairs with the most games. */
  function TopWhitePlayers(data: seq<Loaded>): (table: seq<((GameType, string), nat)>)
    ensures |table| <= 20
    ensures forall i :: 0 <= i < |table| ==> table[i].1 == |Group(data, WhiteGroup, table[i].0)| > 0
    ensures forall i, j :: 0 <= i < j < |table| ==> table[i].0 != table[j].0
    ensures Descending(table)
    ensures |table| < 20 ==> forall x :: x in data ==> IsKey(table, WhiteGroup(x))
    ensures forall x, i :: x in data && !IsKey(table, WhiteGroup(x)) && 0 <= i < |table| ==>
      |Group(data, WhiteGroup, WhiteGroup(x))| <= table[i].1
  {
    TopGroups(data, WhiteGroup, 20)
  }

  /** `get_top_20_active_users`, Black side. */
  function TopBlackPlayers(data: seq<Loaded>): (table: seq<((GameType, string), nat)>)
    ensures |table| <= 20
    ensures forall i :: 0 <= i < |table| ==> table[i].1 == |Group(data, BlackGroup, table[i].0)| > 0
    ensures forall i, j :: 0 <= i < j < |table| ==> table[i].0 != table[j].0
    ensures Descending(table)
    ensures |table| < 20 ==> forall x :: x in data ==> IsKey(table, BlackGroup(x))
    ensures forall x, i :: x in data && !IsKey(table, BlackGroup(x)) && 0 <= i < |table| ==>
      |Group(data, BlackGroup, BlackGroup(x))| <= table[i].1
  {
    TopGroups(data, BlackGroup, 20)
  }

  /** The "Top 10 Time Controls" table for the chosen game type. */
  function TopTimeControls(data: seq<Loaded>, t: GameType): (table: seq<(string, nat)>)
    ensures |table| <= 10
    ensures forall i :: 0 <= i < |table| ==> table[i].1 == |Group(GamesOfType(data, t), TimeControlOf, table[i].0)| > 0
    ensures forall i, j :: 0 <= i < j < |table| ==> table[i].0 != table[j].0
    ensures Descending(table)
    ensures |table| < 10 ==> forall x :: x in data && TypeOf(x) == t ==> IsKey(table, TimeControlOf(x))
    ensures forall x, i :: x in data && TypeOf(x) == t && !IsKey(table, TimeControlOf(x)) && 0 <= i < |table| ==>
      |Group(GamesOfType(data, t), TimeControlOf, TimeControlOf(x))| <= table[i].1
  {
    TopGroups(GamesOfType(data, t), TimeControlOf, 10)
  }

  /** The "Top 10 Openings" table for the chosen game type. */
  function TopOpenings(data: seq<Loaded>, t: GameType): (table: seq<(string, nat)>)
    ensures |table| <= 10
    ensures forall i :: 0 <= i < |table| ==> table[i].1 == |Group(GamesOfType(data, t), OpeningOf, table[i].0)| > 0
    ensures forall i, j :: 0 <= i < j < |table| ==> table[i].0 != table[j].0
    ensures Descending(table)
    ensures |table| < 10 ==> forall x :: x in data && TypeOf(x) == t ==> IsKey(table, OpeningOf(x))
    ensures forall x, i :: x in data && TypeOf(x) == t && !IsKey(table, OpeningOf(x)) && 0 <= i < |table| ==>
      |Group(GamesOfType(data, t), OpeningOf, OpeningOf(x))| <= table[i].1
  {
    TopGroups(GamesOfType(data, t), OpeningOf, 10)
  }
}

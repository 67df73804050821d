/**
 * The extractor's per-game step: one flat row per game record that carries all fifteen required
 * header tags, with the move text and the two metrics derived from it. A game missing any
 * required tag yields no row, and extraction carries on with the next game.
 */
module Extraction {
  import opened Options
  import opened Seqs
  import opened MoveText

  /** The header tags every emitted row copies, in column order. */
  const RequiredHeaders: seq<string> := [
    "Event", "Site", "White", "Black", "Result", "UTCDate", "UTCTime", "WhiteElo", "BlackElo",
    "WhiteRatingDiff", "BlackRatingDiff", "ECO", "Opening", "TimeControl", "Termination"
  ]

  /** One parsed game record: its header tags and the text of its main line. */
  datatype Game = Game(headers: map<string, string>, moves: string)

  /** One row of a per-month table. */
  datatype Row = Row(
    event: string, site: string, white: string, black: string, result: string,
    utcDate: string, utcTime: string, whiteElo: string, blackElo: string,
    whiteRatingDiff: string, blackRatingDiff: string, eco: string, opening: string,
    timeControl: string, termination: string,
    moves: string, numMoves: nat, checkmate: bool)

  /** The column of `r` that holds header tag number `k` of `RequiredHeaders`. */
  function Column(r: Row, k: nat): string
    requires k < |RequiredHeaders|
  {
    match k
    case 0 => r.event
    case 1 => r.site
    case 2 => r.white
    case 3 => r.black
    case 4 => r.result
    case 5 => r.utcDate
    case 6 => r.utcTime
    case 7 => r.whiteElo
    case 8 => r.blackElo
    case 9 => r.whiteRatingDiff
    case 10 => r.blackRatingDiff
    case 11 => r.eco
    case 12 => r.opening
    case 13 => r.timeControl
    case _ => r.termination
  }

  /** The game carries every required header tag. */
  predicate Complete(g: Game) {
    forall k :: 0 <= k < |RequiredHeaders| ==> RequiredHeaders[k] in g.headers
  }

  /** The row's two metric columns are the ones its move text determines. */
  predicate WellDerived(r: Row) {
    (r.numMoves, r.checkmate) == CountMovesAndCheckmate(r.moves)
  }

  /** Builds the row of one game, or `None` where `data_preparation.py` raises `KeyError` and skips it. */
  function Parse(g: Game): (r: Option<Row>)
    ensures r.Some? <==> Complete(g)
    ensures r.Some? ==> forall k :: 0 <= k < |RequiredHeaders| ==> Column(r.value, k) == g.headers[RequiredHeaders[k]]
    ensures r.Some? ==> r.value.moves == g.moves && WellDerived(r.value)
  {
    if !Complete(g) then None
    else
      var (numMoves, checkmate) := CountMovesAndCheckmate(g.moves);
      // Tag k of the row is the header named RequiredHeaders[k]: "Event", "Site", ..., "Termination".
      var h := k requires 0 <= k < |RequiredHeaders| => g.headers[RequiredHeaders[k]];
      Some(Row(
        h(0), h(1), h(2), h(3), h(4), h(5), h(6), h(7), h(8), h(9), h(10), h(11), h(12), h(13), h(14),
        g.moves, numMoves, checkmate))
  }

  /** Distinguishes the required tag names: their length, first letter and fourth letter. */
  function Signature(name: string): (int, char, char) {
    (|name|, if |name| > 0 then name[0] else ' ', if |name| > 3 then name[3] else ' ')
  }

  /** The fifteen required tags are fifteen different names. */
  lemma RequiredHeadersDistinct()
    ensures forall a, b :: 0 <= a < b < |RequiredHeaders| ==> RequiredHeaders[a] != RequiredHeaders[b]
  {
    forall a, b | 0 <= a < b < |RequiredHeaders|
      ensures RequiredHeaders[a] != RequiredHeaders[b]
    {
      assert Signature(RequiredHeaders[a]) != Signature(RequiredHeaders[b]);
    }
  }

  /** The header tags a row was built from. */
  function Headers(r: Row): (m: map<string, string>)
    ensures forall k :: 0 <= k < |RequiredHeaders| ==> RequiredHeaders[k] in m && m[RequiredHeaders[k]] == Column(r, k)
  {
    RequiredHeadersDistinct();
    map k | 0 <= k < |RequiredHeaders| :: RequiredHeaders[k] := Column(r, k)
  }

  /** Two rows that agree on every column are the same row. */
  lemma SameColumns(p: Row, r: Row)
    requires forall k :: 0 <= k < |RequiredHeaders| ==> Column(p, k) == Column(r, k)
    requires p.moves == r.moves && p.numMoves == r.numMoves && p.checkmate == r.checkmate
    ensures p == r
  {
    assert Column(p, 0) == Column(r, 0) && Column(p, 1) == Column(r, 1) && Column(p, 2) == Column(r, 2);
    assert Column(p, 3) == Column(r, 3) && Column(p, 4) == Column(r, 4) && Column(p, 5) == Column(r, 5);
    assert Column(p, 6) == Column(r, 6) && Column(p, 7) == Column(r, 7) && Column(p, 8) == Column(r, 8);
    assert Column(p, 9) == Column(r, 9) && Column(p, 10) == Column(r, 10) && Column(p, 11) == Column(r, 11);
    assert Column(p, 12) == Column(r, 12) && Column(p, 13) == Column(r, 13) && Column(p, 14) == Column(r, 14);
  }

  /** Parsing the header tags and move text a well-derived row came from rebuilds that row. */
  lemma ParseRoundTrip(r: Row)
    requires WellDerived(r)
    ensures Parse(Game(Headers(r), r.moves)) == Some(r)
  {
    var g := Game(Headers(r), r.moves);
    assert Complete(g);
    var p := Parse(g).value;
    SameColumns(p, r);
  }

  /** Header tags other than the required fifteen do not affect the row. */
  lemma ParseIgnoresOtherHeaders(g: Game, g': Game)
    requires g.moves == g'.moves
    requires forall k :: 0 <= k < |RequiredHeaders| ==> (RequiredHeaders[k] in g.headers <==> RequiredHeaders[k] in g'.headers)
    requires forall k :: 0 <= k < |RequiredHeaders| && RequiredHeaders[k] in g.headers ==> g.headers[RequiredHeaders[k]] == g'.headers[RequiredHeaders[k]]
    ensures Parse(g) == Parse(g')
  {
    if Complete(g) {
      SameColumns(Parse(g).value, Parse(g').value);
    }
  }

  /** The rows of one month's games: `list_of_games` once the loop is done. */
  function ExtractRows(games: seq<Game>): (rows: seq<Row>)
    ensures |rows| <= |games|
    ensures forall r :: r in rows ==> WellDerived(r) && exists i :: 0 <= i < |games| && Parse(games[i]) == Some(r)
    ensures |rows| == |games| <==> forall i :: 0 <= i < |games| ==> Complete(games[i])
  {
    var rows := FilterMap(games, Parse);
    assert forall r :: r in rows ==> exists i :: 0 <= i < |games| && Parse(games[i]) == Some(r) by {
      forall r | r in rows
        ensures exists i :: 0 <= i < |games| && Parse(games[i]) == Some(r)
      {
        FilterMapMember(games, Parse, r);
      }
    }
    FilterMapDropsNothing(games, Parse);
    rows
  }

  /**
   * The positions of the games that yield rows, in order: row `t` is built from game
   * `Survivors(games)[t]`, and a game yields a row exactly when it carries every required tag.
   */
  function Survivors(games: seq<Game>): (idx: seq<nat>)
    ensures |idx| == |ExtractRows(games)|
    ensures StrictlyIncreasing(idx)
    ensures forall t :: 0 <= t < |idx| ==> idx[t] < |games| && Parse(games[idx[t]]) == Some(ExtractRows(games)[t])
    ensures forall j :: 0 <= j < |games| ==> (Complete(games[j]) <==> j in idx)
  {
    KeptIndices(games, Parse)
  }

  /** A game without all the tags contributes nothing and the games after it are still processed. */
  lemma ExtractRowsSkips(before: seq<Game>, g: Game, after: seq<Game>)
    requires !Complete(g)
    ensures ExtractRows(before + [g] + after) == ExtractRows(before) + ExtractRows(after)
  {
    var s := before + [g];
    assert FilterMap(s, Parse) == FilterMap(before, Parse) by {
      assert s[..|s| - 1] == before;
    }
    FilterMapAppend(s, after, Parse);
  }

  /** Extraction of consecutive batches of games is the concatenation of their extractions. */
  lemma ExtractRowsAppend(a: seq<Game>, b: seq<Game>)
    ensures ExtractRows(a + b) == ExtractRows(a) + ExtractRows(b)
  {
    FilterMapAppend(a, b, Parse);
  }

  /** One more game adds its row, if it yields one, to the rows of the games before it. */
  lemma ExtractRowsSnoc(games: seq<Game>, k: nat)
    requires k < |games|
    ensures ExtractRows(games[..k + 1]) == ExtractRows(games[..k]) + Emit(Parse(games[k]))
  {
    assert games[..k + 1][..k] == games[..k];
  }

  /** The extractor loop: builds the rows in order, counting each appended row in `i`. */
  method ExtractGames(games: seq<Game>) returns (rows: seq<Row>, i: nat)
    ensures rows == ExtractRows(games)
    ensures i == |rows|
  {
    rows := [];
    i := 0;
    var k := 0;
    while k < |games|
      invariant 0 <= k <= |games|
      invariant rows == ExtractRows(games[..k])
      invariant i == |rows|
    {
      ExtractRowsSnoc(games, k);
      var parsed := Parse(games[k]);
      if parsed.Some? {
        assert Emit(parsed) == [parsed.value];
        rows := rows + [parsed.value];
        i := i + 1;
      } else {
        assert Emit(parsed) == [];
      }
      k := k + 1;
    }
    assert games[..k] == games;
  }
}

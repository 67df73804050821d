/**
 * The merge stage: concatenates the per-month tables in the order they are given and tags each
 * row with a coarse game type derived from its event name.
 */
module Merge {
  import opened Options
  import opened Text
  import opened Extraction

  /** The coarse game categories; `Other` is the catch-all. */
  datatype GameType = Blitz | Bullet | Classical | Correspondence | Other

  /** The text a game type is written as in the consolidated table. */
  function Label(t: GameType): string {
    match t
    case Blitz => "Blitz"
    case Bullet => "Bullet"
    case Classical => "Classical"
    case Correspondence => "Correspondence"
    case Other => "Other"
  }

  /** The keyword-to-type table, in its (insertion) iteration order. */
  const GameMapping: seq<(string, GameType)> := [
    ("Blitz", Blitz),
    ("Bullet", Bullet),
    ("Classical", Classical),
    ("Correspondence", Correspondence)
  ]

  /** Keyword number `k` is the first of the table that occurs in `event`. */
  ghost predicate FirstKeyword(event: string, k: int) {
    && 0 <= k < |GameMapping|
    && Contains(event, GameMapping[k].0)
    && forall k' :: 0 <= k' < k ==> !Contains(event, GameMapping[k'].0)
  }

  /** The type chosen when the keyword search resumes at entry `k` of the table. */
  function GameTypeFrom(event: string, k: nat): GameType
    requires k <= |GameMapping|
    decreases |GameMapping| - k
  {
    if k == |GameMapping| then Other
    else if Contains(event, GameMapping[k].0) then GameMapping[k].1
    else GameTypeFrom(event, k + 1)
  }

  /** Keyword `k` is the first one at or after entry `from` that occurs in `event`. */
  ghost predicate FirstKeywordFrom(event: string, from: nat, k: int) {
    && from <= k < |GameMapping|
    && Contains(event, GameMapping[k].0)
    && forall k' :: from <= k' < k ==> !Contains(event, GameMapping[k'].0)
  }

  /** The table names four different types, none of them `Other`. */
  lemma MappingTypesDistinct()
    ensures forall k :: 0 <= k < |GameMapping| ==> GameMapping[k].1 != Other
    ensures forall a, b :: 0 <= a < b < |GameMapping| ==> GameMapping[a].1 != GameMapping[b].1
  {
  }

  /** The search from entry `from` returns the type of keyword `k` iff `k` is the first keyword found from there. */
  lemma {:induction false} GameTypeFromFirst(event: string, from: nat, k: nat)
    requires from <= |GameMapping| && k < |GameMapping|
    ensures GameTypeFrom(event, from) == GameMapping[k].1 <==> FirstKeywordFrom(event, from, k)
    decreases |GameMapping| - from
  {
    MappingTypesDistinct();
    if from == |GameMapping| {
      assert GameTypeFrom(event, from) == Other;
    } else if Contains(event, GameMapping[from].0) {
      assert GameTypeFrom(event, from) == GameMapping[from].1;
      assert GameMapping[from].1 == GameMapping[k].1 <==> from == k;
    } else {
      assert GameTypeFrom(event, from) == GameTypeFrom(event, from + 1);
      GameTypeFromFirst(event, from + 1, k);
      assert FirstKeywordFrom(event, from, k) <==> FirstKeywordFrom(event, from + 1, k);
    }
  }

  /** The search from entry `from` falls back to `Other` iff no keyword from there on occurs in `event`. */
  lemma {:induction false} GameTypeFromOther(event: string, from: nat)
    requires from <= |GameMapping|
    ensures GameTypeFrom(event, from) == Other <==> forall k :: from <= k < |GameMapping| ==> !Contains(event, GameMapping[k].0)
    decreases |GameMapping| - from
  {
    if from < |GameMapping| && !Contains(event, GameMapping[from].0) {
      GameTypeFromOther(event, from + 1);
    }
  }

  /** `get_game_type(event)`: the type of the first keyword that is a substring of the event, else `Other`. */
  function GetGameType(event: string): (t: GameType)
    ensures t == Other <==> forall k :: 0 <= k < |GameMapping| ==> !Contains(event, GameMapping[k].0)
    ensures forall k :: 0 <= k < |GameMapping| ==> (t == GameMapping[k].1 <==> FirstKeyword(event, k))
  {
    GameTypeFromOther(event, 0);
    forall k | 0 <= k < |GameMapping|
      ensures GameTypeFrom(event, 0) == GameMapping[k].1 <==> FirstKeyword(event, k)
    {
      GameTypeFromFirst(event, 0, k);
    }
    GameTypeFrom(event, 0)
  }

  /** Each keyword is labelled with its own text: the mapping is the identity on names. */
  lemma MappingIsIdentity()
    ensures forall k :: 0 <= k < |GameMapping| ==> Label(GameMapping[k].1) == GameMapping[k].0
  {
  }

  /** A row of the consolidated table: a per-month row and its derived game type. */
  datatype Tagged = Tagged(row: Row, gameType: GameType)

  /** Errors the merge stage raises. */
  datatype MergeError = NoObjectsToConcatenate

  /** The number of rows over all tables. */
  function TotalRows(tables: seq<seq<Row>>): nat {
    if |tables| == 0 then 0 else |tables[0]| + TotalRows(tables[1..])
  }

  /** The tables one after the other (`pd.concat` with a fresh index). */
  function Concat(tables: seq<seq<Row>>): (rows: seq<Row>)
    ensures |rows| == TotalRows(tables)
  {
    if |tables| == 0 then [] else tables[0] + Concat(tables[1..])
  }

  /** Row `j` of table `i` is row `TotalRows(tables[..i]) + j` of the concatenation. */
  lemma {:induction false} ConcatIndex(tables: seq<seq<Row>>, i: nat, j: nat)
    requires i < |tables| && j < |tables[i]|
    ensures TotalRows(tables[..i]) + j < |Concat(tables)|
    ensures Concat(tables)[TotalRows(tables[..i]) + j] == tables[i][j]
  {
    if i == 0 {
      assert tables[..0] == [];
    } else {
      ConcatIndex(tables[1..], i - 1, j);
      assert tables[..i][1..] == tables[1..][..i - 1];
      assert TotalRows(tables[..i]) == |tables[0]| + TotalRows(tables[1..][..i - 1]);
    }
  }

  /** Tags every row with the game type of its event (`df['GameType'] = df['Event'].apply(get_game_type)`). */
  function Tag(rows: seq<Row>): (tagged: seq<Tagged>)
    ensures |tagged| == |rows|
    ensures forall k :: 0 <= k < |rows| ==> tagged[k].row == rows[k] && tagged[k].gameType == GetGameType(rows[k].event)
  {
    seq(|rows|, k requires 0 <= k < |rows| => Tagged(rows[k], GetGameType(rows[k].event)))
  }

  /** Row `j` of table `i` sits, tagged with its event's game type, at its offset in `merged`. */
  ghost predicate PlacedAt(tables: seq<seq<Row>>, merged: seq<Tagged>, i: nat, j: nat)
    requires i < |tables| && j < |tables[i]|
  {
    && TotalRows(tables[..i]) + j < |merged|
    && merged[TotalRows(tables[..i]) + j] == Tagged(tables[i][j], GetGameType(tables[i][j].event))
  }

  /** Row `j` of table `i` lands, tagged, at its offset in the tagged concatenation. */
  lemma TaggedPosition(tables: seq<seq<Row>>, i: nat, j: nat)
    requires i < |tables| && j < |tables[i]|
    ensures TotalRows(tables[..i]) + j < |Tag(Concat(tables))|
    ensures Tag(Concat(tables))[TotalRows(tables[..i]) + j] == Tagged(tables[i][j], GetGameType(tables[i][j].event))
  {
    ConcatIndex(tables, i, j);
  }

  /** The merge stage: fails on an empty list of tables, as `pd.concat` does, else concatenates and tags. */
  function MergeTables(tables: seq<seq<Row>>): (r: Result<seq<Tagged>, MergeError>)
    ensures r.Failure? <==> |tables| == 0
    ensures r.Success? ==> |r.value| == TotalRows(tables)
    ensures r.Success? ==> forall i, j :: 0 <= i < |tables| && 0 <= j < |tables[i]| ==> PlacedAt(tables, r.value, i, j)
  {
    if |tables| == 0 then Failure(NoObjectsToConcatenate)
    else
      var merged := Tag(Concat(tables));
      forall i, j | 0 <= i < |tables| && 0 <= j < |tables[i]|
        ensures PlacedAt(tables, merged, i, j)
      {
        TaggedPosition(tables, i, j);
      }
      Success(merged)
  }
}

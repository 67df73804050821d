/**
 * The derived move-text metrics of one game: how many numbered move markers the text holds, the
 * leftmost non-overlapping matches of the pattern `\d+\.\s+(\S+)` as Python's `re.findall` finds
 * them, and whether the text ends with the checkmate sign `#`.
 */
module MoveText {
  import opened Options
  import opened Text

  /** One match: the captured token is `s[tokenStart..end]` and the match ends at `end`. */
  datatype Match = Match(tokenStart: nat, end: nat)

  ghost predicate AllIn(s: string, lo: int, hi: int, p: char -> bool) {
    forall t :: lo <= t < hi ==> 0 <= t < |s| && p(s[t])
  }

  /**
   * What the regular expression matches at `i`: one or more digits up to a '.', one or more
   * whitespace characters, then the longest run of non-whitespace characters (greedy `\S+`).
   */
  ghost predicate IsMatch(s: string, i: nat, m: Match) {
    exists j {:trigger s[j]} ::
      && i < j
      && j + 1 < m.tokenStart < m.end <= |s|
      && AllIn(s, i, j, IsDigit)
      && s[j] == '.'
      && AllIn(s, j + 1, m.tokenStart, IsSpace)
      && AllIn(s, m.tokenStart, m.end, IsNonSpace)
      && (m.end == |s| || IsSpace(s[m.end]))
  }

  /** The end of the longest run of characters satisfying `p` that starts at `i`. */
  function SpanEnd(s: string, i: nat, p: char -> bool): (j: nat)
    requires i <= |s|
    ensures i <= j <= |s|
    ensures AllIn(s, i, j, p)
    ensures j == |s| || !p(s[j])
    decreases |s| - i
  {
    if i == |s| || !p(s[i]) then i else SpanEnd(s, i + 1, p)
  }

  /** A run that starts at `i`, satisfies `p` up to `j` and stops at a character failing `p` ends at `j`. */
  lemma SpanEndUnique(s: string, i: nat, j: nat, p: char -> bool)
    requires i <= j <= |s|
    requires AllIn(s, i, j, p)
    requires j == |s| || !p(s[j])
    ensures SpanEnd(s, i, p) == j
  {
  }

  /** A match at `i` is the one found by following the three maximal runs from `i`. */
  lemma MatchShape(s: string, i: nat, m: Match)
    requires IsMatch(s, i, m)
    ensures var j := SpanEnd(s, i, IsDigit);
      && i < j < |s| && s[j] == '.'
      && SpanEnd(s, j + 1, IsSpace) == m.tokenStart
      && SpanEnd(s, m.tokenStart, IsNonSpace) == m.end
  {
    var j :| && i < j
              && j + 1 < m.tokenStart < m.end <= |s|
              && AllIn(s, i, j, IsDigit)
              && s[j] == '.'
              && AllIn(s, j + 1, m.tokenStart, IsSpace)
              && AllIn(s, m.tokenStart, m.end, IsNonSpace)
              && (m.end == |s| || IsSpace(s[m.end]));
    SpanEndUnique(s, i, j, IsDigit);
    SpanEndUnique(s, j + 1, m.tokenStart, IsSpace);
    SpanEndUnique(s, m.tokenStart, m.end, IsNonSpace);
  }

  /** Tries the pattern at position `i` exactly as the backtracking matcher does. */
  function MatchAt(s: string, i: nat): (r: Option<Match>)
    requires i <= |s|
    ensures forall m {:trigger IsMatch(s, i, m)} :: IsMatch(s, i, m) <==> r == Some(m)
  {
    var j := SpanEnd(s, i, IsDigit);
    if j == i || j == |s| || s[j] != '.' then
      assert forall m :: !IsMatch(s, i, m) by {
        forall m | IsMatch(s, i, m)
          ensures false
        {
          MatchShape(s, i, m);
        }
      }
      None
    else
      var k := SpanEnd(s, j + 1, IsSpace);
      if k == j + 1 || k == |s| then
        assert forall m :: !IsMatch(s, i, m) by {
          forall m | IsMatch(s, i, m)
            ensures false
          {
            MatchShape(s, i, m);
          }
        }
        None
      else
        var e := SpanEnd(s, k, IsNonSpace);
        assert IsMatch(s, i, Match(k, e)) by {
          assert s[j] == '.';
        }
        assert forall m :: IsMatch(s, i, m) ==> m == Match(k, e) by {
          forall m | IsMatch(s, i, m)
            ensures m == Match(k, e)
          {
            MatchShape(s, i, m);
          }
        }
        Some(Match(k, e))
  }

  /** The captured tokens of `re.findall` when scanning resumes at `i`. */
  function FindAllFrom(s: string, i: nat): (tokens: seq<string>)
    requires i <= |s|
    ensures 4 * |tokens| <= |s| - i
    decreases |s| - i
  {
    if i == |s| then []
    else
      match MatchAt(s, i)
      case Some(m) => [s[m.tokenStart..m.end]] + FindAllFrom(s, m.end)
      case None => FindAllFrom(s, i + 1)
  }

  /** The group a match captures is a non-empty run of non-whitespace characters. */
  lemma MatchedToken(s: string, i: nat, m: Match)
    requires i <= |s| && MatchAt(s, i) == Some(m)
    ensures i < m.tokenStart < m.end <= |s|
    ensures forall c :: c in s[m.tokenStart..m.end] ==> !IsSpace(c)
  {
    assert IsMatch(s, i, m);
    var j :| && i < j
              && j + 1 < m.tokenStart < m.end <= |s|
              && AllIn(s, m.tokenStart, m.end, IsNonSpace);
    forall c | c in s[m.tokenStart..m.end]
      ensures !IsSpace(c)
    {
      var t :| 0 <= t < m.end - m.tokenStart && s[m.tokenStart..m.end][t] == c;
      assert s[m.tokenStart + t] == c;
    }
  }

  /** Every captured token is a non-empty run of non-whitespace characters. */
  lemma {:induction false} TokensAreWords(s: string, i: nat)
    requires i <= |s|
    ensures forall t :: 0 <= t < |FindAllFrom(s, i)| ==>
      |FindAllFrom(s, i)[t]| > 0 && forall c :: c in FindAllFrom(s, i)[t] ==> !IsSpace(c)
    decreases |s| - i
  {
    if i < |s| {
      var r := MatchAt(s, i);
      if r.Some? {
        var m := r.value;
        MatchedToken(s, i, m);
        TokensAreWords(s, m.end);
        assert FindAllFrom(s, i) == [s[m.tokenStart..m.end]] + FindAllFrom(s, m.end);
      } else {
        TokensAreWords(s, i + 1);
        assert FindAllFrom(s, i) == FindAllFrom(s, i + 1);
      }
    }
  }

  /** `move_pattern.findall(moves)`. */
  function FindAll(s: string): seq<string> {
    FindAllFrom(s, 0)
  }

  /** `num_moves`: the number of numbered move markers in the move text. */
  function NumMoves(s: string): (n: nat)
    ensures 4 * n <= |s|
  {
    |FindAll(s)|
  }

  /** `checkmate`: the move text ends with the checkmate sign. */
  function Checkmate(s: string): (b: bool)
    ensures b <==> |s| > 0 && s[|s| - 1] == '#'
  {
    EndsWith(s, "#")
  }

  /** `count_moves_and_checkmate(moves)`. */
  function CountMovesAndCheckmate(s: string): (r: (nat, bool))
    ensures r.0 == |FindAll(s)| && 4 * r.0 <= |s|
    ensures r.0 == 0 <==> forall p, m :: 0 <= p <= |s| ==> !IsMatch(s, p, m)
    ensures r.1 <==> |s| > 0 && s[|s| - 1] == '#'
  {
    NoMarkerNoMoves(s);
    (NumMoves(s), Checkmate(s))
  }

  /** Scanning from `i` finds nothing iff the pattern matches at no position from `i` on. */
  lemma {:induction false} FindAllFromEmpty(s: string, i: nat)
    requires i <= |s|
    ensures FindAllFrom(s, i) == [] <==> forall p, m :: i <= p <= |s| ==> !IsMatch(s, p, m)
    decreases |s| - i
  {
    if i == |s| {
      forall p, m | i <= p <= |s|
        ensures !IsMatch(s, p, m)
      {
        assert p == |s|;
      }
    } else {
      match MatchAt(s, i)
      case Some(m) =>
        assert IsMatch(s, i, m);
      case None =>
        FindAllFromEmpty(s, i + 1);
        forall p, m | i <= p <= |s| && p != i
          ensures !IsMatch(s, p, m) <==> p >= i + 1 ==> !IsMatch(s, p, m)
        {}
    }
  }

  /** The move count is zero exactly when the pattern matches nowhere in the text. */
  lemma NoMarkerNoMoves(s: string)
    ensures NumMoves(s) == 0 <==> forall p, m :: 0 <= p <= |s| ==> !IsMatch(s, p, m)
  {
    FindAllFromEmpty(s, 0);
  }

  /** A position where the pattern does not match is skipped by the scan. */
  lemma ScanSkips(s: string, i: nat)
    requires i < |s| && MatchAt(s, i).None?
    ensures FindAllFrom(s, i) == FindAllFrom(s, i + 1)
  {
  }

  /** A match at the scan position contributes its token and the scan resumes at its end. */
  lemma ScanTakes(s: string, i: nat, m: Match)
    requires i < |s| && IsMatch(s, i, m)
    ensures FindAllFrom(s, i) == [s[m.tokenStart..m.end]] + FindAllFrom(s, m.end)
  {
  }

  /** No match starts where the digit run is empty or is not followed by a '.'. */
  lemma NoDotNoMatch(s: string, i: nat)
    requires i < |s|
    requires var j := SpanEnd(s, i, IsDigit); j == i || j == |s| || s[j] != '.'
    ensures MatchAt(s, i).None?
  {
  }

  /** A position holding no digit is skipped by the scan. */
  lemma SkipNonDigit(s: string, i: nat)
    requires i < |s| && !IsDigit(s[i])
    ensures FindAllFrom(s, i) == FindAllFrom(s, i + 1)
  {
    SpanEndUnique(s, i, i, IsDigit);
    NoDotNoMatch(s, i);
    ScanSkips(s, i);
  }

  /** The scan passes over a stretch of characters that are not digits. */
  lemma {:induction false} ScanSkipsNonDigits(s: string, i: nat, j: nat)
    requires i <= j <= |s|
    requires forall t :: i <= t < j ==> !IsDigit(s[t])
    ensures FindAllFrom(s, i) == FindAllFrom(s, j)
    decreases j - i
  {
    if i < j {
      SkipNonDigit(s, i);
      ScanSkipsNonDigits(s, i + 1, j);
    }
  }

  /** The scan passes over a run of digits that is not followed by a '.'. */
  lemma {:induction false} ScanSkipsDigitsWithoutDot(s: string, i: nat, j: nat)
    requires i <= j <= |s|
    requires AllIn(s, i, j, IsDigit)
    requires j == |s| || (!IsDigit(s[j]) && s[j] != '.')
    ensures FindAllFrom(s, i) == FindAllFrom(s, j)
    decreases j - i
  {
    if i < j {
      SpanEndUnique(s, i, j, IsDigit);
      NoDotNoMatch(s, i);
      ScanSkips(s, i);
      ScanSkipsDigitsWithoutDot(s, i + 1, j);
    }
  }
}

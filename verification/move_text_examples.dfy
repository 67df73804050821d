/** Worked examples of the move-text metrics. */
module MoveTextExamples {
  import opened Text
  import opened MoveText

  /** In "1. e4 e6 2. Qh5#" the first marker captures "e4" and scanning resumes after it. */
  lemma MateFirstMarker()
    ensures |FindAllFrom("1. e4 e6 2. Qh5#", 0)| == 1 + |FindAllFrom("1. e4 e6 2. Qh5#", 5)|
  {
    var g := "1. e4 e6 2. Qh5#";
    assert IsMatch(g, 0, Match(3, 5)) by {
      assert AllIn(g, 0, 1, IsDigit) && g[1] == '.' && AllIn(g, 2, 3, IsSpace);
      assert AllIn(g, 3, 5, IsNonSpace) && IsSpace(g[5]);
    }
    ScanTakes(g, 0, Match(3, 5));
  }

  /** Black's reply " e6 " holds no marker: its digit is not followed by a '.'. */
  lemma MateBlackReply()
    ensures FindAllFrom("1. e4 e6 2. Qh5#", 5) == FindAllFrom("1. e4 e6 2. Qh5#", 9)
  {
    MateBlackReplyLetter();
    MateBlackReplyDigit();
    MateBlackReplySpace();
  }

  lemma MateBlackReplyLetter()
    ensures FindAllFrom("1. e4 e6 2. Qh5#", 5) == FindAllFrom("1. e4 e6 2. Qh5#", 7)
  {
    ScanSkipsNonDigits("1. e4 e6 2. Qh5#", 5, 7);
  }

  lemma MateBlackReplyDigit()
    ensures FindAllFrom("1. e4 e6 2. Qh5#", 7) == FindAllFrom("1. e4 e6 2. Qh5#", 8)
  {
    ScanSkipsDigitsWithoutDot("1. e4 e6 2. Qh5#", 7, 8);
  }

  lemma MateBlackReplySpace()
    ensures FindAllFrom("1. e4 e6 2. Qh5#", 8) == FindAllFrom("1. e4 e6 2. Qh5#", 9)
  {
    ScanSkipsNonDigits("1. e4 e6 2. Qh5#", 8, 9);
  }

  /** The second marker captures the mating move "Qh5#", which runs to the end of the text. */
  lemma MateSecondMarker()
    ensures |FindAllFrom("1. e4 e6 2. Qh5#", 9)| == 1
  {
    var g := "1. e4 e6 2. Qh5#";
    assert IsMatch(g, 9, Match(12, 16)) by {
      assert AllIn(g, 9, 10, IsDigit) && g[10] == '.' && AllIn(g, 11, 12, IsSpace);
      assert AllIn(g, 12, 16, IsNonSpace);
    }
    ScanTakes(g, 9, Match(12, 16));
  }

  /** "1. e4 e6 2. Qh5#" holds two move markers and ends in mate. */
  lemma ExampleMate()
    ensures NumMoves("1. e4 e6 2. Qh5#") == 2 && Checkmate("1. e4 e6 2. Qh5#")
  {
    MateFirstMarker();
    MateBlackReply();
    MateSecondMarker();
  }

  /** Empty text has no moves and no mate. */
  lemma ExampleEmpty()
    ensures NumMoves("") == 0 && !Checkmate("")
  {
  }

  /** A marker must be followed by whitespace: "1.e4" has no moves. */
  lemma ExampleNoSpace()
    ensures NumMoves("1.e4") == 0
  {
    var a := "1.e4";
    SpanEndUnique(a, 0, 1, IsDigit);
    SpanEndUnique(a, 2, 2, IsSpace);
    ScanSkips(a, 0);
    ScanSkipsNonDigits(a, 1, 3);
    ScanSkipsDigitsWithoutDot(a, 3, 4);
  }

  /** A black-first fragment "1... e5" has no moves. */
  lemma ExampleBlackFirst()
    ensures NumMoves("1... e5") == 0
  {
    var b := "1... e5";
    SpanEndUnique(b, 0, 1, IsDigit);
    SpanEndUnique(b, 2, 2, IsSpace);
    ScanSkips(b, 0);
    ScanSkipsNonDigits(b, 1, 6);
    ScanSkipsDigitsWithoutDot(b, 6, 7);
  }
}

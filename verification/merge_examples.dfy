/**
 * Worked examples of the game-type classification. Each example is proved about a parameter
 * equal to the event text, which keeps the solver from unfolding the search on the literal.
 */
module MergeExamples {
  import opened Text
  import opened Merge

  /** "Bullet game" does not start with "Blitz" and holds no further 'B'. */
  lemma BulletGameLacksBlitz()
    ensures !Contains("Bullet game", "Blitz")
  {
    assert "Bullet game"[1..] == "ullet game";
    AbsentInitial("ullet game", "Blitz");
  }

  /** The only 'B' of "Rated Bullet game" starts "Bullet game". */
  lemma RatedBulletLacksBlitz(h: string)
    requires h == "Rated Bullet game"
    ensures !Contains(h, "Blitz")
  {
    ContainsSkipsPrefix(h, "Blitz", 6);
    assert h[6..] == "Bullet game";
    BulletGameLacksBlitz();
  }

  lemma BulletEvent(h: string)
    requires h == "Rated Bullet game"
    ensures GetGameType(h) == Bullet
  {
    RatedBulletLacksBlitz(h);
    ContainsOccurrence(h, "Bullet");
    assert OccursAt("Bullet", h, 6);
  }

  lemma LowerCaseEvent(h: string)
    requires h == "rated blitz game"
    ensures GetGameType(h) == Other
  {
    AbsentInitial(h, "Blitz");
    AbsentInitial(h, "Bullet");
    AbsentInitial(h, "Classical");
    AbsentInitial(h, "Correspondence");
  }

  lemma BothKeywordsEvent(h: string)
    requires h == "Bullet and Blitz"
    ensures GetGameType(h) == Blitz
  {
    ContainsOccurrence(h, "Blitz");
    assert OccursAt("Blitz", h, 11);
  }

  /** A keyword anywhere inside the event selects its type: "Rated Bullet game" is Bullet. */
  lemma ExampleBullet()
    ensures GetGameType("Rated Bullet game") == Bullet
  {
    BulletEvent("Rated Bullet game");
  }

  /** The keyword test is case-sensitive: "rated blitz game" is Other. */
  lemma ExampleLowerCase()
    ensures GetGameType("rated blitz game") == Other
  {
    LowerCaseEvent("rated blitz game");
  }

  /** The earliest keyword in table order wins: an event naming Bullet and then Blitz is Blitz. */
  lemma ExampleFirstWins()
    ensures GetGameType("Bullet and Blitz") == Blitz
  {
    BothKeywordsEvent("Bullet and Blitz");
  }
}

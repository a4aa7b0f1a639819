/** The player's score: one integer counter that point awards add to and a
    game reset clears. */
module Scores {

  class ScoreManager {
    var score: int

    /** A new manager starts at zero. */
    constructor ()
      ensures score == 0
    {
      score := 0;
    }

    /** Adds `points`, with no cap and no check on sign; nothing else changes. */
    method AddPoints(points: int)
      modifies this
      ensures score == old(score) + points
      ensures points >= 0 ==> score >= old(score)
    {
      score := score + points;
    }

    /** Reads the score without changing it. */
    method GetScore() returns (s: int)
      ensures s == score
    {
      s := score;
    }

    /** Back to zero, whatever the score was; a second reset changes nothing. */
    method ResetScore()
      modifies this
      ensures score == 0
    {
      score := 0;
    }
  }
}

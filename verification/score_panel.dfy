/** The running score shown during a game (its on-screen label is not modelled). */
module ScorePanels {
  import opened JavaLang

  class ScorePanel {
    var score: int

    /** The score is a Java `int`. */
    ghost predicate Valid()
      reads this
    {
      IsInt32(score)
    }

    constructor ()
      ensures Valid() && score == 0
    {
      score := 0;
    }

    /** Adds `amount` with `int` arithmetic, which wraps around past `Integer.MAX_VALUE`. */
    method Increase(amount: int)
      requires Valid() && IsInt32(amount)
      modifies this
      ensures Valid()
      ensures score == Wrap32(old(score) + amount)
    {
      score := Wrap32(score + amount);
    }

    method Reset()
      modifies this
      ensures Valid() && score == 0
    {
      score := 0;
    }

    method GetScore() returns (s: int)
      ensures s == score
    {
      s := score;
    }
  }

}

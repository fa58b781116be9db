/** An immutable (player name, score) record, ordered by score, highest first. */
module ScoreEntries {

  datatype ScoreEntry = ScoreEntry(playerName: string, score: int)

  /**
   * `a.compareTo(b)`, i.e. `Integer.compare(b.score, a.score)`: negative when `a` sorts
   * before `b`. Only the scores take part; the names never do.
   */
  function CompareTo(a: ScoreEntry, b: ScoreEntry): (r: int)
    ensures r == -1 || r == 0 || r == 1
    ensures r < 0 <==> a.score > b.score
    ensures r == 0 <==> a.score == b.score
    ensures r > 0 <==> a.score < b.score
  {
    if b.score < a.score then -1 else if b.score == a.score then 0 else 1
  }

  /** Swapping the arguments flips the sign. */
  lemma CompareToAntisymmetric(a: ScoreEntry, b: ScoreEntry)
    ensures CompareTo(a, b) == -CompareTo(b, a)
  {
  }

  /** "Sorts no later than" is transitive, so the order is a total preorder. */
  lemma CompareToTransitive(a: ScoreEntry, b: ScoreEntry, c: ScoreEntry)
    requires CompareTo(a, b) <= 0 && CompareTo(b, c) <= 0
    ensures CompareTo(a, c) <= 0
  {
  }

  /** Every two entries are comparable. */
  lemma CompareToTotal(a: ScoreEntry, b: ScoreEntry)
    ensures CompareTo(a, b) <= 0 || CompareTo(b, a) <= 0
  {
  }
}

/**
 * The rules of a game session that do not depend on the controller's state: the
 * difficulty tables, the draws that stand in for `Math.random` and `Random.nextInt`,
 * the registry of live word texts, and the text of the leaderboard.
 */
module GameRules {
  import opened Wrappers
  import opened JavaLang
  import opened ScoreEntries
  import opened Words
  import opened WordFiles

  datatype Difficulty = EASY | NORMAL | HARD

  /** `difficulty == null` at the start of a game means EASY. */
  function Resolve(d: Option<Difficulty>): (r: Difficulty)
    ensures d.Some? ==> r == d.value
    ensures d.None? ==> r == EASY
  {
    if d.None? then EASY else d.value
  }

  // ---------------------------------------------------------------- difficulty tables

  /** Position of a difficulty from easiest to hardest. */
  function Level(d: Difficulty): nat
  {
    match d
    case EASY => 0
    case NORMAL => 1
    case HARD => 2
  }

  /** `getInitialWordCountByDifficulty`: the number of words a new game starts with. */
  function InitialCount(d: Difficulty): (n: nat)
    ensures 6 <= n <= 8
    ensures n == 6 + Level(d)
  {
    match d
    case EASY => 6
    case NORMAL => 7
    case HARD => 8
  }

  /** `getScoreForDifficulty`: the points one typed word earns. */
  function ScoreFor(d: Difficulty): (p: int)
    ensures IsInt32(p) && p > 0
    ensures p == 10 * (Level(d) + 1)
  {
    match d
    case EASY => 10
    case NORMAL => 20
    case HARD => 30
  }

  /** `getDecaySpeedByDifficulty`: how far every word moves inwards per tick. */
  function DecayFor(d: Difficulty): (a: real)
    ensures 0.1 < a <= 0.2
  {
    match d
    case EASY => 0.11
    case NORMAL => 0.17
    case HARD => 0.2
  }

  /**
   * `getRadiusByDifficulty` for the draw `roll` of `Math.random()`: a base distance plus
   * `(int) (roll * k)`, which for a roll in [0, 1) is an integer in [0, k - 1].
   */
  function RadiusFor(d: Difficulty, roll: real): (r: int)
    requires 0.0 <= roll < 1.0
    ensures d == EASY ==> 240 <= r <= 279
    ensures d == NORMAL ==> 235 <= r <= 264
    ensures d == HARD ==> 230 <= r <= 259
  {
    match d
    case EASY => 240 + (roll * 40.0).Floor
    case NORMAL => 235 + (roll * 30.0).Floor
    case HARD => 230 + (roll * 30.0).Floor
  }

  /** `getAngularSpeedByDifficulty` for the draw `roll` of `Math.random()`: half of a base plus a random share. */
  function AngularSpeedFor(d: Difficulty, roll: real): (w: real)
    requires 0.0 <= roll < 1.0
    ensures 0.005 <= w < 0.0185
    ensures d == EASY ==> 0.005 <= w < 0.01
    ensures d == NORMAL ==> 0.0075 <= w < 0.0175
    ensures d == HARD ==> 0.0085 <= w < 0.0185
  {
    0.5 * (match d
           case EASY => 0.01 + roll * 0.01
           case NORMAL => 0.015 + roll * 0.02
           case HARD => 0.017 + roll * 0.02)
  }

  /** A harder level starts with more words, pays more per word and brings the words in faster. */
  lemma HarderLevelsAreHarder(easier: Difficulty, harder: Difficulty)
    requires Level(easier) < Level(harder)
    ensures InitialCount(easier) < InitialCount(harder)
    ensures ScoreFor(easier) < ScoreFor(harder)
    ensures DecayFor(easier) < DecayFor(harder)
  {
  }

  // ---------------------------------------------------------------- random draws

  /**
   * Everything `spawnWord` asks the random sources for: the successive `nextInt` results
   * of its do-while (one per candidate it looks at), and the three `Math.random()` results
   * for the radius, the angle and the angular speed.
   */
  datatype SpawnDraw = SpawnDraw(wordRolls: seq<nat>, radiusRoll: real, angleRoll: real, speedRoll: real)

  /** Every roll is something the random sources can return for a list of `words`. */
  predicate DrawInRange(words: seq<string>, draw: SpawnDraw)
  {
    && (forall k :: 0 <= k < |draw.wordRolls| ==> words == [] || draw.wordRolls[k] < |words|)
    && 0.0 <= draw.radiusRoll < 1.0
    && 0.0 <= draw.angleRoll < 1.0
    && 0.0 <= draw.speedRoll < 1.0
  }

  /** The texts `getRandomWord` returns for the draw's rolls, in order. */
  function Candidates(words: seq<string>, draw: SpawnDraw): (c: seq<string>)
    requires DrawInRange(words, draw)
    ensures |c| == |draw.wordRolls|
    ensures forall k :: 0 <= k < |c| ==> c[k] == Pick(words, draw.wordRolls[k])
  {
    seq(|draw.wordRolls|, k requires 0 <= k < |draw.wordRolls| => Pick(words, draw.wordRolls[k]))
  }

  // ---------------------------------------------------------------- the live-word registry

  /** The texts of the live words, in list order. */
  function Texts(ws: seq<Word>): (t: seq<string>)
    ensures |t| == |ws|
    ensures forall i :: 0 <= i < |ws| ==> t[i] == ws[i].text
  {
    seq(|ws|, i requires 0 <= i < |ws| => ws[i].text)
  }

  /** No two live words share a text. */
  predicate Distinct(s: seq<string>)
  {
    forall i, j :: 0 <= i < j < |s| ==> s[i] != s[j]
  }

  /** The position of the first candidate that no live word has: the one the do-while stops at. */
  function FirstFresh(cands: seq<string>, live: seq<string>): (k: nat)
    requires exists j :: 0 <= j < |cands| && cands[j] !in live
    ensures k < |cands| && cands[k] !in live
    ensures forall j :: 0 <= j < k ==> cands[j] in live
  {
    if cands[0] !in live then 0
    else
      assert exists j :: 0 <= j < |cands[1..]| && cands[1..][j] !in live by {
        var j :| 0 <= j < |cands| && cands[j] !in live;
        assert j > 0 && cands[1..][j - 1] == cands[j];
      }
      1 + FirstFresh(cands[1..], live)
  }

  /** A draw `spawnWord` can finish with: its rolls are in range and one candidate is new. */
  predicate SpawnReady(words: seq<string>, draw: SpawnDraw, live: seq<string>)
  {
    DrawInRange(words, draw) && exists j :: 0 <= j < |draw.wordRolls| && Candidates(words, draw)[j] !in live
  }

  /** The text `spawnWord` settles on: the first candidate of the draw that is not live. */
  function SpawnedText(words: seq<string>, draw: SpawnDraw, live: seq<string>): (t: string)
    requires SpawnReady(words, draw, live)
    ensures t !in live
    ensures words != [] ==> t in words
  {
    Candidates(words, draw)[FirstFresh(Candidates(words, draw), live)]
  }

  /** `w` is the word `spawnWord` builds from `draw` at difficulty `d` while `live` are on the field. */
  ghost predicate SpawnedFrom(w: Word, d: Difficulty, words: seq<string>, draw: SpawnDraw, live: seq<string>): (b: bool)
    reads w
    ensures b ==> w.text !in live && (words != [] ==> w.text in words)
    ensures b ==> 230.0 <= w.radius < 280.0 && 0.0 <= w.angle < TwoPi && 0.005 <= w.angularSpeed < 0.0185
  {
    && SpawnReady(words, draw, live)
    && w.text == SpawnedText(words, draw, live)
    && w.radius == RadiusFor(d, draw.radiusRoll) as real
    && w.angle == draw.angleRoll * TwoPi
    && w.angularSpeed == AngularSpeedFor(d, draw.speedRoll)
  }

  /** The position of the first live word with text `t`; `|texts|` when there is none. */
  function IndexOfText(texts: seq<string>, t: string): (k: nat)
    ensures k <= |texts|
    ensures k < |texts| <==> t in texts
    ensures k < |texts| ==> texts[k] == t
    ensures forall j :: 0 <= j < k ==> texts[j] != t
  {
    if texts == [] then 0
    else if texts[0] == t then 0
    else 1 + IndexOfText(texts[1..], t)
  }

  /** Removing one entry from a list of distinct texts leaves them distinct. */
  lemma {:induction false} DistinctWithout(s: seq<string>, m: nat)
    requires Distinct(s) && m < |s|
    ensures Distinct(s[..m] + s[m + 1..])
    ensures forall t :: t in s[..m] + s[m + 1..] <==> t in s && t != s[m]
  {
    var r := s[..m] + s[m + 1..];
    forall i | 0 <= i < |r|
      ensures r[i] == s[if i < m then i else i + 1]
    {
    }
    forall t | t in r
      ensures t in s && t != s[m]
    {
      var i :| 0 <= i < |r| && r[i] == t;
    }
    forall t | t in s && t != s[m]
      ensures t in r
    {
      var i :| 0 <= i < |s| && s[i] == t;
      assert r[if i < m then i else i - 1] == t;
    }
  }

  /** A new text appended to a list of distinct texts keeps them distinct. */
  lemma DistinctAppend(s: seq<string>, t: string)
    requires Distinct(s) && t !in s
    ensures Distinct(s + [t])
  {
  }

  // ---------------------------------------------------------------- pigeonhole

  function SetOf(s: seq<string>): set<string>
  {
    set x | x in s
  }

  lemma {:induction false} SetOfCard(s: seq<string>)
    ensures |SetOf(s)| <= |s|
  {
    if s != [] {
      SetOfCard(s[1..]);
      assert SetOf(s) == SetOf(s[1..]) + {s[0]};
    }
  }

  lemma SubsetCard(a: set<string>, b: set<string>)
    requires a <= b
    ensures |a| <= |b|
  {
    assert b == a + (b - a);
  }

  /**
   * When the draw holds more different candidates than there are live words, one of them
   * is new, so the do-while of `spawnWord` ends within the draw.
   */
  lemma FreshCandidate(words: seq<string>, draw: SpawnDraw, live: seq<string>)
    requires DrawInRange(words, draw)
    requires |SetOf(Candidates(words, draw))| > |live|
    ensures SpawnReady(words, draw, live)
  {
    var cands := Candidates(words, draw);
    SetOfCard(live);
    if SetOf(cands) <= SetOf(live) {
      SubsetCard(SetOf(cands), SetOf(live));
      assert false;
    }
    var t :| t in SetOf(cands) && t !in SetOf(live);
    var j :| 0 <= j < |cands| && cands[j] == t;
  }

  /** With every word of a non-empty list live, no draw offers a new text: `spawnWord` cannot end. */
  lemma NoFreshCandidateWhenAllLive(words: seq<string>, draw: SpawnDraw, live: seq<string>)
    requires words != [] && forall w :: w in words ==> w in live
    ensures !SpawnReady(words, draw, live)
  {
    if DrawInRange(words, draw) {
      forall j | 0 <= j < |draw.wordRolls|
        ensures Candidates(words, draw)[j] in live
      {
        assert Candidates(words, draw)[j] in words;
      }
    }
  }

  /**
   * The draws let `spawnWord` finish once for each of them, in order, starting with `live`
   * on the field: each draw holds a candidate that is not live, and the text it settles on
   * is live for the draws after it.
   */
  predicate SpawnsAll(words: seq<string>, draws: seq<SpawnDraw>, live: seq<string>)
    decreases |draws|
  {
    draws == []
    || (&& SpawnReady(words, draws[0], live)
        && SpawnsAll(words, draws[1..], live + [SpawnedText(words, draws[0], live)]))
  }

  /** The next draw of a ready sequence lets `spawnWord` finish, and the rest stay ready once its word is live. */
  lemma SpawnsAllStep(words: seq<string>, draws: seq<SpawnDraw>, i: nat, n: nat, live: seq<string>)
    requires i < n <= |draws| && SpawnsAll(words, draws[i..n], live)
    ensures SpawnReady(words, draws[i], live)
    ensures SpawnsAll(words, draws[i + 1..n], live + [SpawnedText(words, draws[i], live)])
  {
    assert draws[i..n][0] == draws[i] && draws[i..n][1..] == draws[i + 1..n];
  }

  /** What `startGame` needs of its draws to finish: the first ones let each initial `spawnWord` end. */
  predicate StartReady(words: seq<string>, d: Difficulty, draws: seq<SpawnDraw>)
  {
    |draws| >= InitialCount(d) && SpawnsAll(words, draws[..InitialCount(d)], [])
  }

  /** Successive spawns take different texts from the list, so they are at most its distinct words not yet live. */
  lemma {:induction false} SpawnsAllBound(words: seq<string>, draws: seq<SpawnDraw>, live: seq<string>)
    requires words != [] && SpawnsAll(words, draws, live)
    ensures |draws| <= |SetOf(words) - SetOf(live)|
  {
    if draws != [] {
      var t := SpawnedText(words, draws[0], live);
      SpawnsAllBound(words, draws[1..], live + [t]);
      assert SetOf(live + [t]) == SetOf(live) + {t};
      assert SetOf(words) - SetOf(live + [t]) == (SetOf(words) - SetOf(live)) - {t};
      assert t in SetOf(words) - SetOf(live);
    }
  }

  /** A game can only start when the list holds at least as many different words as the level begins with. */
  lemma StartNeedsEnoughWords(words: seq<string>, d: Difficulty, draws: seq<SpawnDraw>)
    requires words != [] && StartReady(words, d, draws)
    ensures InitialCount(d) <= |SetOf(words)|
  {
    SpawnsAllBound(words, draws[..InitialCount(d)], []);
    assert SetOf([]) == {};
  }

  /**
   * The five default words cannot start any game: whatever the draws, at most five initial
   * words can be spawned, and every level starts with at least six.
   */
  lemma DefaultWordsCannotStartAGame(d: Difficulty, draws: seq<SpawnDraw>)
    ensures !StartReady(DefaultWords, d, draws)
  {
    assert SetOf(DefaultWords) == {"java", "swing", "thread", "typing", "game"};
    assert |SetOf(DefaultWords)| == 5;
    if StartReady(DefaultWords, d, draws) {
      StartNeedsEnoughWords(DefaultWords, d, draws);
    }
  }

  // ---------------------------------------------------------------- leaderboard text

  /** What `getTopScoresText` shows when no score is stored. */
  const NoScoresMessage: string := "저장된 점수가 없습니다."

  /** One leaderboard line: `rank. name - score` and a line break. */
  function RankLine(rank: int, e: ScoreEntry): (line: string)
    ensures |line| > 0 && line[|line| - 1] == '\n'
  {
    IntToString(rank) + ". " + e.playerName + " - " + IntToString(e.score) + "\n"
  }

  /** The leaderboard lines of `top`, ranked from 1 in list order. */
  function RankedLines(top: seq<ScoreEntry>): (r: string)
    ensures |r| >= |top|
  {
    if top == [] then "" else RankedLines(top[..|top| - 1]) + RankLine(|top|, top[|top| - 1])
  }

  /** The entry at position `i` gets rank `i + 1`, on the line after those of the entries above it. */
  lemma RankedLinesStep(top: seq<ScoreEntry>, i: nat)
    requires i < |top|
    ensures RankedLines(top[..i + 1]) == RankedLines(top[..i]) + RankLine(i + 1, top[i])
  {
    assert top[..i + 1][..i] == top[..i];
  }

  /** A non-empty leaderboard ends with a line break. */
  lemma RankedLinesEndsWithBreak(top: seq<ScoreEntry>)
    requires top != []
    ensures RankedLines(top) != [] && RankedLines(top)[|RankedLines(top)| - 1] == '\n'
  {
    var t := RankedLines(top);
    assert t == RankedLines(top[..|top| - 1]) + RankLine(|top|, top[|top| - 1]);
  }

  /** `getTopScoresText` for the list the repository returned. */
  function TopScoresText(top: seq<ScoreEntry>): (r: string)
    ensures r == NoScoresMessage <==> top == []
  {
    if top == [] then NoScoresMessage
    else
      RankedLinesEndsWithBreak(top);
      RankedLines(top)
  }

  function CountOf(c: char, s: string): nat
  {
    if s == [] then 0 else CountOf(c, s[..|s| - 1]) + (if s[|s| - 1] == c then 1 else 0)
  }

  lemma {:induction false} CountOfConcat(c: char, a: string, b: string)
    ensures CountOf(c, a + b) == CountOf(c, a) + CountOf(c, b)
  {
    if b != [] {
      CountOfConcat(c, a, b[..|b| - 1]);
      assert (a + b)[..|a + b| - 1] == a + b[..|b| - 1];
      assert (a + b)[|a + b| - 1] == b[|b| - 1];
    } else {
      assert a + b == a;
    }
  }

  lemma {:induction false} CountOfAbsent(c: char, s: string)
    requires c !in s
    ensures CountOf(c, s) == 0
  {
    if s != [] {
      assert s[..|s| - 1] <= s;
      CountOfAbsent(c, s[..|s| - 1]);
    }
  }

  /** A rendered number has no line break. */
  lemma NoBreakInNumber(n: int)
    ensures CountOf('\n', IntToString(n)) == 0
  {
    var s := IntToString(n);
    assert n < 0 ==> s[1..] == DigitsOf(-n);
    assert forall i :: 0 <= i < |s| ==> s[i] == '-' || IsDigit(s[i]);
    CountOfAbsent('\n', s);
  }

  /** Names without a line break give exactly one line per entry. */
  lemma {:induction false} RankedLinesHasOneLinePerEntry(top: seq<ScoreEntry>)
    requires forall k :: 0 <= k < |top| ==> CountOf('\n', top[k].playerName) == 0
    ensures CountOf('\n', RankedLines(top)) == |top|
  {
    if top != [] {
      var init, e := top[..|top| - 1], top[|top| - 1];
      RankedLinesHasOneLinePerEntry(init);
      NoBreakInNumber(|top|);
      NoBreakInNumber(e.score);
      var a, b := IntToString(|top|), IntToString(e.score);
      CountOfConcat('\n', RankedLines(init), RankLine(|top|, e));
      CountOfConcat('\n', a + ". " + e.playerName + " - " + b, "\n");
      CountOfConcat('\n', a + ". " + e.playerName + " - ", b);
      CountOfConcat('\n', a + ". " + e.playerName, " - ");
      CountOfConcat('\n', a + ". ", e.playerName);
      CountOfConcat('\n', a, ". ");
      assert CountOf('\n', ". ") == 0 && CountOf('\n', " - ") == 0 && CountOf('\n', "\n") == 1;
    }
  }

  /** Each entry's line follows the lines of the entries ranked above it. */
  lemma {:induction false} RankedLinesPrefix(top: seq<ScoreEntry>, k: nat)
    requires k <= |top|
    ensures RankedLines(top[..k]) <= RankedLines(top)
  {
    if k < |top| {
      RankedLinesPrefix(top[..|top| - 1], k);
      assert top[..|top| - 1][..k] == top[..k];
    } else {
      assert top[..k] == top;
    }
  }

}

/**
 * The session controller: the live words on the field, the running and paused flags,
 * the difficulty of the current game, and the operations the window and the game loop
 * call on it. The game-loop thread is not modelled; one tick is `UpdateWords`.
 */
module Controller {
  import opened Wrappers
  import opened JavaLang
  import opened ScoreEntries
  import opened Words
  import opened GameRules
  import ScoreFiles
  import WordFiles
  import ScorePanels

  /** Each word of `ws` is the one `spawnWord` built from the draw of the same position, with the words before it live. */
  ghost predicate SpawnedInOrder(ws: seq<Word>, d: Difficulty, words: seq<string>, draws: seq<SpawnDraw>)
    reads set j | 0 <= j < |ws| :: ws[j]
  {
    && |ws| <= |draws|
    && forall j :: 0 <= j < |ws| ==> SpawnedFrom(ws[j], d, words, draws[j], Texts(ws[..j]))
  }

  lemma SpawnedInOrderAppend(ws: seq<Word>, w: Word, d: Difficulty, words: seq<string>, draws: seq<SpawnDraw>)
    requires SpawnedInOrder(ws, d, words, draws) && |ws| < |draws|
    requires SpawnedFrom(w, d, words, draws[|ws|], Texts(ws))
    ensures SpawnedInOrder(ws + [w], d, words, draws)
  {
    var ws' := ws + [w];
    assert ws'[..|ws|] == ws;
    forall j | 0 <= j < |ws|
      ensures ws'[..j] == ws[..j]
    {
    }
  }

  /** The live texts once `spawnWord` has added the word it built from `draw`. */
  lemma TextsAfterSpawn(ws: seq<Word>, w: Word, d: Difficulty, words: seq<string>, draw: SpawnDraw)
    requires SpawnedFrom(w, d, words, draw, Texts(ws))
    ensures Texts(ws + [w]) == Texts(ws) + [SpawnedText(words, draw, Texts(ws))]
  {
  }

  class GameController {
    const textRepository: WordFiles.FileTextRepository
    const scoreRepository: ScoreFiles.FileScoreRepository
    const scorePanel: ScorePanels.ScorePanel

    /** The words currently on the field, oldest first. */
    var activeWords: seq<Word>
    var running: bool
    var paused: bool
    var playerCollisionRadius: int
    var currentDifficulty: Difficulty

    /** No two live words share a text, and the score is an `int`. */
    ghost predicate Valid()
      reads this, scorePanel
    {
      Distinct(Texts(activeWords)) && scorePanel.Valid()
    }

    constructor (textRepository: WordFiles.FileTextRepository,
                 scoreRepository: ScoreFiles.FileScoreRepository,
                 scorePanel: ScorePanels.ScorePanel)
      requires scorePanel.Valid()
      ensures Valid()
      ensures this.textRepository == textRepository && this.scoreRepository == scoreRepository
      ensures this.scorePanel == scorePanel
      ensures activeWords == [] && !running && !paused
      ensures playerCollisionRadius == 0 && currentDifficulty == EASY
    {
      this.textRepository := textRepository;
      this.scoreRepository := scoreRepository;
      this.scorePanel := scorePanel;
      activeWords := [];
      running := false;
      paused := false;
      playerCollisionRadius := 0;
      currentDifficulty := EASY;
    }

    method SetPlayerCollisionRadius(radius: int)
      modifies this
      ensures playerCollisionRadius == radius
      ensures activeWords == old(activeWords) && running == old(running) && paused == old(paused)
      ensures currentDifficulty == old(currentDifficulty)
    {
      playerCollisionRadius := radius;
    }

    method IsRunning() returns (r: bool)
      ensures r == running
    {
      r := running;
    }

    method IsPaused() returns (p: bool)
      ensures p == paused
    {
      p := paused;
    }

    /** Flips the paused flag, whether or not a game is running. */
    method TogglePause()
      modifies this
      ensures paused == !old(paused)
      ensures activeWords == old(activeWords) && running == old(running)
      ensures currentDifficulty == old(currentDifficulty) && playerCollisionRadius == old(playerCollisionRadius)
    {
      paused := !paused;
    }

    /**
     * Starts a game unless one is running: resets the flags and the score, clears the
     * field and spawns the difficulty's number of words, the i-th from `draws[i]`.
     */
    method StartGame(difficulty: Option<Difficulty>, draws: seq<SpawnDraw>)
      requires Valid()
      requires !running ==> StartReady(textRepository.words, Resolve(difficulty), draws)
      modifies this, scorePanel
      ensures Valid()
      ensures running && playerCollisionRadius == old(playerCollisionRadius)
      ensures old(running) ==>
                && activeWords == old(activeWords) && paused == old(paused)
                && currentDifficulty == old(currentDifficulty) && scorePanel.score == old(scorePanel.score)
      ensures !old(running) ==>
                && !paused && currentDifficulty == Resolve(difficulty) && scorePanel.score == 0
                && |activeWords| == InitialCount(currentDifficulty)
      ensures !old(running) ==>
                && (forall i :: 0 <= i < |activeWords| ==> fresh(activeWords[i]))
                && SpawnedInOrder(activeWords, currentDifficulty, textRepository.words, draws)
    {
      if running {
        return;
      }
      var d := if difficulty.None? then EASY else difficulty.value;
      currentDifficulty := d;
      running := true;
      paused := false;
      activeWords := [];
      scorePanel.Reset();
      SpawnInitialWords(draws);
    }

    /** The spawning loop of `startGame`: one word per draw until the difficulty's count is reached. */
    method SpawnInitialWords(draws: seq<SpawnDraw>)
      requires Valid() && activeWords == []
      requires StartReady(textRepository.words, currentDifficulty, draws)
      modifies this
      ensures Valid() && |activeWords| == InitialCount(currentDifficulty)
      ensures forall i :: 0 <= i < |activeWords| ==> fresh(activeWords[i])
      ensures SpawnedInOrder(activeWords, currentDifficulty, textRepository.words, draws)
      ensures running == old(running) && paused == old(paused)
      ensures currentDifficulty == old(currentDifficulty) && playerCollisionRadius == old(playerCollisionRadius)
    {
      var initialCount := InitialCount(currentDifficulty);
      for i := 0 to initialCount
        invariant Valid() && |activeWords| == i
        invariant running == old(running) && paused == old(paused)
        invariant currentDifficulty == old(currentDifficulty) && playerCollisionRadius == old(playerCollisionRadius)
        invariant forall j :: 0 <= j < i ==> fresh(activeWords[j])
        invariant SpawnedInOrder(activeWords, currentDifficulty, textRepository.words, draws)
        invariant SpawnsAll(textRepository.words, draws[i..initialCount], Texts(activeWords))
      {
        SpawnNextInitialWord(draws, i);
      }
    }

    /** One turn of the spawning loop of `startGame`: the i-th word, from the i-th draw. */
    method SpawnNextInitialWord(draws: seq<SpawnDraw>, i: nat)
      requires Valid() && |activeWords| == i && i < InitialCount(currentDifficulty) <= |draws|
      requires SpawnedInOrder(activeWords, currentDifficulty, textRepository.words, draws)
      requires SpawnsAll(textRepository.words, draws[i..InitialCount(currentDifficulty)], Texts(activeWords))
      modifies this
      ensures running == old(running) && paused == old(paused)
      ensures currentDifficulty == old(currentDifficulty) && playerCollisionRadius == old(playerCollisionRadius)
      ensures Valid() && |activeWords| == i + 1
      ensures activeWords == old(activeWords) + [activeWords[i]] && fresh(activeWords[i])
      ensures SpawnedInOrder(activeWords, currentDifficulty, textRepository.words, draws)
      ensures SpawnsAll(textRepository.words, draws[i + 1..InitialCount(currentDifficulty)], Texts(activeWords))
    {
      SpawnsAllStep(textRepository.words, draws, i, InitialCount(currentDifficulty), Texts(activeWords));
      ghost var before := activeWords;
      SpawnWord(draws[i]);
      SpawnedInOrderAppend(before, activeWords[i], currentDifficulty, textRepository.words, draws);
      TextsAfterSpawn(before, activeWords[i], currentDifficulty, textRepository.words, draws[i]);
    }

    /** Ends the game: clears the running flag and nothing else; repeating it changes nothing. */
    method StopGame()
      modifies this
      ensures !running
      ensures activeWords == old(activeWords) && paused == old(paused)
      ensures currentDifficulty == old(currentDifficulty) && playerCollisionRadius == old(playerCollisionRadius)
    {
      running := false;
    }

    /** A copy of the list of live words. */
    method GetActiveWordsSnapshot() returns (snapshot: seq<Word>)
      ensures snapshot == activeWords
    {
      snapshot := activeWords;
    }

    /**
     * The position of the live word that `input` hits, if it hits one, given the controller's
     * `running` and `paused` flags and its live words: only while a game runs unpaused, only
     * for a present input that is not blank once trimmed, and then the first live word whose
     * text equals the trimmed input.
     */
    static ghost function Hit(running: bool, paused: bool, words: seq<Word>, input: Option<string>): (m: Option<nat>)
      ensures m.Some? ==> running && !paused && input.Some? && Trim(input.value) != []
      ensures m.Some? ==> m.value < |words| && words[m.value].text == Trim(input.value)
      ensures m.Some? ==> forall j :: 0 <= j < m.value ==> words[j].text != Trim(input.value)
      ensures (running && !paused && input.Some? && Trim(input.value) != []
               && Trim(input.value) in Texts(words)) ==> m.Some?
    {
      if !running || paused || input.None? || Trim(input.value) == [] then None
      else
        var k := IndexOfText(Texts(words), Trim(input.value));
        if k < |words| then Some(k) else None
    }

    /**
     * Handles a typed line: on a hit the word is removed, the difficulty's points are added
     * and a replacement is spawned from `draw`; otherwise nothing changes.
     */
    method CheckInput(input: Option<string>, draw: SpawnDraw)
      requires Valid()
      requires var hit := Hit(running, paused, activeWords, input);
               hit.Some? ==>
                 SpawnReady(textRepository.words, draw, Texts(activeWords[..hit.value] + activeWords[hit.value + 1..]))
      modifies this, scorePanel
      ensures Valid()
      ensures running == old(running) && paused == old(paused)
      ensures currentDifficulty == old(currentDifficulty) && playerCollisionRadius == old(playerCollisionRadius)
      ensures Hit(old(running), old(paused), old(activeWords), input).None? ==>
                activeWords == old(activeWords) && scorePanel.score == old(scorePanel.score)
      ensures Hit(old(running), old(paused), old(activeWords), input).Some? ==>
                var m := Hit(old(running), old(paused), old(activeWords), input).value;
                var rest := old(activeWords[..m] + activeWords[m + 1..]);
                && |activeWords| == |old(activeWords)|
                && activeWords[..|rest|] == rest
                && fresh(activeWords[|rest|])
                && SpawnedFrom(activeWords[|rest|], currentDifficulty, textRepository.words, draw, Texts(rest))
      ensures Hit(old(running), old(paused), old(activeWords), input).Some? ==>
                scorePanel.score == Wrap32(old(scorePanel.score) + ScoreFor(currentDifficulty))
    {
      var matched := FindHit(input);
      if matched.Some? {
        ScoreHit(matched.value, draw);
      }
    }

    /** The guards and the search of `checkInput`: the live word the input hits, if any. */
    method FindHit(input: Option<string>) returns (matched: Option<nat>)
      ensures matched == Hit(running, paused, activeWords, input)
    {
      if !running || paused {
        return None;
      }
      if input.None? || Trim(input.value) == [] {
        return None;
      }
      var trimmed := Trim(input.value);
      matched := FindMatch(trimmed);
    }

    /** The hit branch of `checkInput`: removes the word at `m`, scores it and spawns a replacement. */
    method ScoreHit(m: nat, draw: SpawnDraw)
      requires Valid() && m < |activeWords|
      requires SpawnReady(textRepository.words, draw, Texts(activeWords[..m] + activeWords[m + 1..]))
      modifies this, scorePanel
      ensures Valid()
      ensures running == old(running) && paused == old(paused)
      ensures currentDifficulty == old(currentDifficulty) && playerCollisionRadius == old(playerCollisionRadius)
      ensures var rest := old(activeWords[..m] + activeWords[m + 1..]);
              && |activeWords| == |old(activeWords)|
              && activeWords[..|rest|] == rest
              && fresh(activeWords[|rest|])
              && SpawnedFrom(activeWords[|rest|], currentDifficulty, textRepository.words, draw, Texts(rest))
      ensures scorePanel.score == Wrap32(old(scorePanel.score) + ScoreFor(currentDifficulty))
    {
      ghost var texts := Texts(activeWords);
      DistinctWithout(texts, m);
      activeWords := activeWords[..m] + activeWords[m + 1..];
      assert Texts(activeWords) == texts[..m] + texts[m + 1..];
      scorePanel.Increase(ScoreFor(currentDifficulty));
      SpawnWord(draw);
    }

    /** The position of the first live word whose text is `text`, if there is one. */
    method FindMatch(text: string) returns (matched: Option<nat>)
      ensures matched.Some? <==> text in Texts(activeWords)
      ensures matched.Some? ==> matched.value == IndexOfText(Texts(activeWords), text)
    {
      matched := None;
      for i := 0 to |activeWords|
        invariant forall j :: 0 <= j < i ==> activeWords[j].text != text
      {
        if activeWords[i].text == text {
          matched := Some(i);
          break;
        }
      }
    }

    /** Whether some live word has the text `text`. */
    method IsLive(text: string) returns (isDuplicate: bool)
      ensures isDuplicate <==> text in Texts(activeWords)
    {
      isDuplicate := false;
      for i := 0 to |activeWords|
        invariant forall j :: 0 <= j < i ==> activeWords[j].text != text
      {
        if activeWords[i].text == text {
          isDuplicate := true;
          break;
        }
      }
    }

    /**
     * Adds one word whose text no live word has: the first candidate of the draw that is
     * not live, at the difficulty's radius and angular speed, at the drawn angle.
     */
    method SpawnWord(draw: SpawnDraw)
      requires Valid()
      requires SpawnReady(textRepository.words, draw, Texts(activeWords))
      modifies this
      ensures Valid()
      ensures |activeWords| == |old(activeWords)| + 1
      ensures activeWords == old(activeWords) + [activeWords[|old(activeWords)|]]
      ensures fresh(activeWords[|old(activeWords)|])
      ensures SpawnedFrom(activeWords[|old(activeWords)|], currentDifficulty, textRepository.words, draw,
                          old(Texts(activeWords)))
      ensures running == old(running) && paused == old(paused)
      ensures currentDifficulty == old(currentDifficulty) && playerCollisionRadius == old(playerCollisionRadius)
    {
      ghost var live := Texts(activeWords);
      ghost var cands := Candidates(textRepository.words, draw);
      var text: string;
      var k := 0;
      while true
        invariant k <= FirstFresh(cands, live)
        invariant unchanged(this)
        decreases FirstFresh(cands, live) - k
      {
        text := textRepository.GetRandomWord(draw.wordRolls[k]);
        var isDuplicate := IsLive(text);
        if !isDuplicate {
          break;
        }
        k := k + 1;
      }
      var radius := RadiusFor(currentDifficulty, draw.radiusRoll);
      var angle := draw.angleRoll * TwoPi;
      var angularSpeed := AngularSpeedFor(currentDifficulty, draw.speedRoll);
      var word := new Word(text, radius as real, angle, angularSpeed);
      DistinctAppend(live, text);
      activeWords := activeWords + [word];
      assert Texts(activeWords) == live + [text];
    }

    /**
     * One tick of the game loop: every live word moves inwards by the difficulty's decay and
     * turns by its angular speed; if any word is then within the collision radius the game stops.
     */
    method UpdateWords()
      requires Valid()
      modifies this, activeWords
      ensures Valid()
      ensures activeWords == old(activeWords)
      ensures forall i :: 0 <= i < |activeWords| ==>
                && activeWords[i].radius == Decayed(old(activeWords[i].radius), DecayFor(currentDifficulty))
                && activeWords[i].angle == StepAngle(old(activeWords[i].angle), activeWords[i].angularSpeed)
      ensures running == (old(running) &&
                          forall i :: 0 <= i < |activeWords| ==> activeWords[i].radius > playerCollisionRadius as real)
      ensures paused == old(paused) && currentDifficulty == old(currentDifficulty)
      ensures playerCollisionRadius == old(playerCollisionRadius)
    {
      var decaySpeed := DecayFor(currentDifficulty);
      var crashed := false;
      for i := 0 to |activeWords|
        invariant unchanged(this)
        invariant forall j :: 0 <= j < i ==>
                    && activeWords[j].radius == Decayed(old(activeWords[j].radius), decaySpeed)
                    && activeWords[j].angle == StepAngle(old(activeWords[j].angle), activeWords[j].angularSpeed)
        invariant forall j :: i <= j < |activeWords| ==>
                    activeWords[j].radius == old(activeWords[j].radius) && activeWords[j].angle == old(activeWords[j].angle)
        invariant crashed <==> exists j :: 0 <= j < i && activeWords[j].radius <= playerCollisionRadius as real
      {
        var w := activeWords[i];
        assert forall j :: 0 <= j < |activeWords| && j != i ==> activeWords[j].text != w.text;
        w.DecreaseRadius(decaySpeed);
        w.UpdatePosition();
        var radius := w.GetRadius();
        if radius <= playerCollisionRadius as real {
          crashed := true;
        }
      }
      if crashed {
        StopGame();
      }
    }

    /**
     * The decision of the save dialog once the game is over: nothing is saved for a score
     * of at most 0 or a cancelled dialog; otherwise the trimmed name is saved with the score,
     * even when it is blank.
     */
    method SaveScoreWithDialog(name: Option<string>)
      modifies scoreRepository
      ensures scorePanel.score <= 0 || name.None? ==> scoreRepository.file == old(scoreRepository.file)
      ensures scorePanel.score > 0 && name.Some? ==>
                scoreRepository.file == Some(LinesOf(old(scoreRepository.file))
                                             + [ScoreFiles.FormatLine(ScoreEntry(Trim(name.value), scorePanel.score))])
    {
      var score := scorePanel.GetScore();
      if score <= 0 {
        return;
      }
      if name.None? {
        return;
      }
      var trimmed := Trim(name.value);
      scoreRepository.SaveScore(ScoreEntry(trimmed, score));
    }

    /**
     * The line saved for a name typed in the dialog without a comma or a line break parses
     * back to the trimmed name and the score. Appended to lines that hold no bad number, it
     * reads back after their entries.
     */
    static lemma DialogEntryReadsBack(name: string, score: int, lines: seq<string>)
      requires ',' !in name && '\n' !in name && '\r' !in name && IsInt32(score)
      requires forall i :: 0 <= i < |lines| ==> ScoreFiles.ParseLine(lines[i]) != ScoreFiles.BadNumber
      ensures ScoreFiles.ParseLine(ScoreFiles.FormatLine(ScoreEntry(Trim(name), score)))
           == ScoreFiles.Parsed(ScoreEntry(Trim(name), score))
      ensures ScoreFiles.ParseLines(lines + [ScoreFiles.FormatLine(ScoreEntry(Trim(name), score))])
           == ScoreFiles.ParseLines(lines) + [ScoreEntry(Trim(name), score)]
    {
      var t := Trim(name);
      if ',' in t { TrimAddsNothing(name, ','); }
      if '\n' in t { TrimAddsNothing(name, '\n'); }
      if '\r' in t { TrimAddsNothing(name, '\r'); }
      ScoreFiles.ParseFormatLine(ScoreEntry(t, score));
      ScoreFiles.SavedEntryReadsBack(lines, ScoreEntry(t, score));
    }

    /**
     * The leaderboard text for the best `limit` scores: the fixed message when there is none,
     * otherwise one ranked line per score; `None` when loading the scores fails.
     */
    method GetTopScoresText(limit: int) returns (text: Option<string>)
      ensures ScoreFiles.TopScores(scoreRepository.file, limit).None? ==> text.None?
      ensures ScoreFiles.TopScores(scoreRepository.file, limit).Some? ==>
                text == Some(TopScoresText(ScoreFiles.TopScores(scoreRepository.file, limit).value))
    {
      var top := scoreRepository.LoadTopScore(limit);
      if top.None? {
        return None;
      }
      var list := top.value;
      if list == [] {
        return Some(NoScoresMessage);
      }
      var sb := "";
      var rank := 1;
      for i := 0 to |list|
        invariant rank == i + 1
        invariant sb == RankedLines(list[..i])
      {
        RankedLinesStep(list, i);
        sb := sb + RankLine(rank, list[i]);
        rank := rank + 1;
      }
      assert list[..|list|] == list;
      return Some(sb);
    }

    /** Adds a word to the word list as typed. */
    method AddWordFromUser(word: string)
      modifies textRepository
      ensures textRepository.words == old(textRepository.words) + [word]
      ensures textRepository.file == Some(textRepository.words)
    {
      textRepository.AddWord(word);
    }

    /** A copy of the word list. */
    method GetAllWords() returns (words: seq<string>)
      ensures words == textRepository.words
    {
      words := textRepository.GetAllWords();
    }
  }
}

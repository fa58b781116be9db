# Orbit typing game — a Dafny model of the game core

The game is a Swing typing game. Words circle a planet at the centre of the field and
drift inwards. The player types a word to destroy it, which earns points and brings in a
new word. The game ends when a word reaches the planet's collision radius. After that the
player may save the score under a name, and a leaderboard shows the best saved scores.

This project models the core of the game:

- the session controller (`Controller.GameController`): starting a game, spawning words
  that no live word duplicates, handling typed input, one tick of the game loop, pausing,
  stopping, saving a score and rendering the leaderboard;
- a word on the field (`Words.Word`), with its orbit step and inward drift;
- the score panel (`ScorePanels.ScorePanel`), with Java `int` wrap-around;
- a score record and its ordering (`ScoreEntries`);
- the score file (`ScoreFiles`): appending `name,score` lines, and reading them back
  sorted, highest score first, ties in saving order, cut to a limit;
- the word file (`WordFiles`): loading, the default list, adding words, random picks;
- the difficulty tables and the rules that do not depend on controller state (`GameRules`);
- the parts of the Java library the core relies on (`JavaLang`): `String.trim`,
  `String.split(",")`, `Integer.parseInt`, `Integer.toString` and `int` overflow.

Files are modelled as `Option<seq<string>>`: the file's lines, or `None` when the file
does not exist. Randomness is passed in as parameters. A `SpawnDraw` holds the successive
`Random.nextInt` results that `spawnWord`'s do-while consumes, plus the three
`Math.random()` results for radius, angle and angular speed. Dialog input is an
`Option<string>` parameter, with `None` for a cancelled dialog.

Four behaviours of the code worth knowing; the model follows the code in each:

- **Angle wrap.** A word's angle is not kept in [0, 2π). The code subtracts 2π once, and
  only when the angle is strictly greater than 2π. So an angle can land on exactly 2π
  (`Words.StepAngleReachesTwoPi`), and the range kept is [0, 2π]
  (`Words.StepAngleInRange`).
- **Blank names.** When the trimmed name is blank, the save dialog shows a warning but
  still saves the entry. `Controller.GameController.SaveScoreWithDialog` saves it too.
- **Method name.** The score repository interface names its read method
  `loadTopScores`, but the file repository implements `loadTopScore`. The model has the
  one read operation, `ScoreFiles.FileScoreRepository.LoadTopScore`.
- **Default word list.** When the word file is missing or blank, the word list falls
  back to five words. Every level starts with six to eight words, and no two words on
  the field may share a text. So with the default list, `startGame` never returns: the
  sixth `spawnWord` keeps drawing a word that is already live.
  `GameRules.DefaultWordsCannotStartAGame` proves that no draws let the initial spawning
  finish, and `GameRules.NoFreshCandidateWhenAllLive` shows why.

## Model

| member | source | states |
|---|---|---|
| JavaLang.Wrap32 | src/ui/ScorePanel.java:18 | for the exact sum of two `int`s, the result is an `int` that is the sum itself or the sum moved by 2^32, and it is the sum whenever the sum fits |
| JavaLang.Trim | src/controller/GameController.java:128-132 | the result has no trimmable character at either end; it is empty exactly when every character is trimmable |
| JavaLang.TrimKeepsVisibleEnds | src/repository/FileTextRepository.java:60 | a string with visible ends is unchanged by `trim` |
| JavaLang.TrimAddsNothing | src/controller/GameController.java:189 | every character of a trimmed string was in the original |
| JavaLang.JoinPieces | src/repository/FileScoreRepository.java:41 | splitting at every comma loses nothing: joining the pieces with commas gives back the string |
| JavaLang.PiecesHaveNoComma | src/repository/FileScoreRepository.java:41 | no piece of a comma split contains a comma |
| JavaLang.DropTrailingEmpty | src/repository/FileScoreRepository.java:41 | only trailing empty pieces are removed, and the result does not end with an empty piece |
| JavaLang.SplitComma | src/repository/FileScoreRepository.java:41 | no part contains a comma; a string without a comma is its own single part |
| JavaLang.SplitPair | src/repository/FileScoreRepository.java:41-42 | `a,b` with comma-free `a`, `b` and a non-empty `b` splits into exactly two parts, `a` and `b` |
| JavaLang.IntToString | src/repository/FileScoreRepository.java:21 | the decimal text is non-empty, has no comma, starts with a visible character and ends with a digit |
| JavaLang.DigitsValueOfDigitsOf | src/repository/FileScoreRepository.java:21 | the digits of `n` read back as `n` |
| JavaLang.ParseInt | src/repository/FileScoreRepository.java:44 | the text parses exactly when it is an optional `-` or `+` followed by one or more digits whose signed value fits in an `int`, and the parsed value is that signed value |
| JavaLang.ParseIntToString | src/repository/FileScoreRepository.java:21-44 | every `int` written in decimal parses back to itself |
| ScoreEntries.CompareTo | src/data/ScoreEntry.java:24-27 | negative, zero or positive exactly when the first score is greater, equal or smaller: descending by score, names ignored |
| ScoreEntries.CompareToAntisymmetric | src/data/ScoreEntry.java:24-27 | swapping the arguments flips the sign |
| ScoreEntries.CompareToTransitive | src/data/ScoreEntry.java:24-27 | "sorts no later than" is transitive |
| ScoreEntries.CompareToTotal | src/data/ScoreEntry.java:24-27 | any two entries are comparable |
| ScorePanels.ScorePanel.constructor | src/ui/ScorePanel.java:7-15 | a new panel shows score 0 |
| ScorePanels.ScorePanel.Increase | src/ui/ScorePanel.java:17-20 | the score becomes the `int` sum of the old score and the amount, wrapping past `Integer.MAX_VALUE` |
| ScorePanels.ScorePanel.Reset | src/ui/ScorePanel.java:22-25 | the score becomes 0 |
| ScorePanels.ScorePanel.GetScore | src/ui/ScorePanel.java:27-29 | returns the score |
| Words.Decayed | src/data/Word.java:38-43 | the new radius is the old one minus the amount, floored at 0, and never grows for a non-negative radius and amount |
| Words.StepAngle | src/data/Word.java:28-31 | the angle advances by the speed, minus 2π only when the sum exceeds 2π |
| Words.StepAngleInRange | src/data/Word.java:28-31 | an angle in [0, 2π] stays in [0, 2π] after a step of at most 2π |
| Words.StepAngleReachesTwoPi | src/data/Word.java:29 | an angle can land on exactly 2π and stay there until the next step |
| Words.Word.constructor | src/data/Word.java:18-23 | the word has the given text, radius, angle and angular speed |
| Words.Word.UpdatePosition | src/data/Word.java:27-31 | the angle takes one orbit step; the radius is unchanged |
| Words.Word.DecreaseRadius | src/data/Word.java:38-43 | the radius decays by the amount, floored at 0; the angle is unchanged |
| Words.Word.GetRadius | src/data/Word.java:45-47 | returns the radius |
| Words.Word.GetText | src/data/Word.java:49-51 | returns the text |
| Wrappers.LinesOf | src/repository/FileScoreRepository.java:31-34 | a missing file has no lines; an existing one has its own |
| ScoreFiles.FormatLine | src/repository/FileScoreRepository.java:21 | the line starts with the name followed by a comma, and is as long as the name, the comma and the score's decimal text together; `ParseFormatLine` reads it back |
| ScoreFiles.FormatLines | src/repository/FileScoreRepository.java:19-22 | one `name,score` line per entry, in saving order |
| ScoreFiles.ParseLine | src/repository/FileScoreRepository.java:39-46 | a blank line is skipped; a parsed entry has an `int` score and a comma-free name |
| ScoreFiles.ParseLineNeedsTwoParts | src/repository/FileScoreRepository.java:41-42 | a line that is not skipped splits into exactly two comma-separated parts |
| ScoreFiles.ParseLineOfPair | src/repository/FileScoreRepository.java:39-46 | a trimmed line `a,b` with comma-free parts and a non-empty `b` gives the entry named `a` with `b`'s parsed score, or a bad number when `b` does not parse |
| ScoreFiles.Classify | src/repository/FileScoreRepository.java:37-49 | each line of the file is judged on its own, in file order |
| ScoreFiles.Collect | src/repository/FileScoreRepository.java:38-53 | reading keeps at most one entry per line |
| ScoreFiles.CollectOne | src/repository/FileScoreRepository.java:40-46 | one line keeps its entry when it parsed and nothing otherwise |
| ScoreFiles.CollectAppend | src/repository/FileScoreRepository.java:38-53 | when the first lines hold no bad number, reading them and then the rest keeps the entries of both, in order |
| ScoreFiles.ParseLines | src/repository/FileScoreRepository.java:36-54 | reading keeps at most one entry per line |
| ScoreFiles.ParseLinesAppend | src/repository/FileScoreRepository.java:36-54 | reading a file whose first lines hold no bad number gives their entries followed by the entries of the rest |
| ScoreFiles.SavedEntryReadsBack | src/repository/FileScoreRepository.java:19-54 | a line saved after lines with no bad number reads back, after their entries, as the saved entry |
| ScoreFiles.CollectKeepsParsed | src/repository/FileScoreRepository.java:42-46 | every kept entry is the outcome of a line that parsed |
| ScoreFiles.ParseLinesFromLines | src/repository/FileScoreRepository.java:36-54 | every entry read comes from a line of the file, has an `int` score and a name without a comma |
| ScoreFiles.BadNumberEndsReading | src/repository/FileScoreRepository.java:52-54 | a score that fails to parse ends reading: nothing after it is kept |
| ScoreFiles.InsertDescPermutes | src/repository/FileScoreRepository.java:56 | inserting adds exactly the one entry |
| ScoreFiles.InsertDescSorted | src/repository/FileScoreRepository.java:56 | inserting into a sorted list keeps it sorted |
| ScoreFiles.InsertDescWithScore | src/repository/FileScoreRepository.java:56 | the inserted entry goes after every entry with its score |
| ScoreFiles.WithScoreConcat | src/repository/FileScoreRepository.java:56 | taking the entries with one score distributes over concatenation |
| ScoreFiles.SortDesc | src/repository/FileScoreRepository.java:56 | the sorted list has as many entries as the input; order, permutation and stability are the three lemmas below |
| ScoreFiles.SortDescPermutes | src/repository/FileScoreRepository.java:56 | the sort neither loses nor duplicates an entry |
| ScoreFiles.SortDescSorted | src/repository/FileScoreRepository.java:56 | the sorted list is in descending score order |
| ScoreFiles.SortDescStable | src/repository/FileScoreRepository.java:56 | entries with equal scores keep their saving order |
| ScoreFiles.TopScores | src/repository/FileScoreRepository.java:29-61 | a missing file gives an empty list; otherwise the result is the sorted entries cut to `limit`, and no dropped entry outscores a kept one; a negative limit with a file present throws |
| ScoreFiles.FileScoreRepository.constructor | src/repository/FileScoreRepository.java:14-16 | the repository works on the given file |
| ScoreFiles.FileScoreRepository.SaveScore | src/repository/FileScoreRepository.java:19-26 | the entry's line is appended after the file's lines, which are kept; a missing file is created |
| ScoreFiles.FileScoreRepository.LoadTopScore | src/repository/FileScoreRepository.java:29-61 | returns exactly `TopScores` of the file |
| ScoreFiles.FileScoreRepository.ReadEntries | src/repository/FileScoreRepository.java:36-54 | the read loop collects exactly what `ParseLines` describes |
| ScoreFiles.ParseFormatLine | src/repository/FileScoreRepository.java:19-46 | a saved line with a well-formed name parses back to the same entry |
| ScoreFiles.CollectAllParsed | src/repository/FileScoreRepository.java:38-49 | when every line parses, reading keeps every entry in order |
| ScoreFiles.ParseFormattedLines | src/repository/FileScoreRepository.java:19-54 | a file of saved lines reads back as the saved entries |
| ScoreFiles.SavedScoresLoadTopFirst | src/repository/FileScoreRepository.java:19-61 | after saving entries, loading returns them highest first, ties in saving order, cut to `limit` |
| WordFiles.Normalise | src/repository/FileTextRepository.java:57-65 | every loaded word is non-empty and trimmed, with at most one word per line |
| WordFiles.Pick | src/repository/FileTextRepository.java:25-30 | an empty list gives "empty"; otherwise the pick is a word of the list |
| WordFiles.NormaliseKeepsCleanWords | src/repository/FileTextRepository.java:57-80 | trimmed, non-empty words are read back unchanged after saving |
| WordFiles.NormaliseStep | src/repository/FileTextRepository.java:59-64 | reading one more line appends its trimmed form unless it is blank |
| WordFiles.FileTextRepository.constructor | src/repository/FileTextRepository.java:15-22 | the list is never empty: the file's words when it has any, otherwise the five defaults, which are then written out |
| WordFiles.FileTextRepository.LoadFromFile | src/repository/FileTextRepository.java:51-69 | the file's trimmed non-blank lines are appended in file order; a missing file adds nothing |
| WordFiles.FileTextRepository.ReadWords | src/repository/FileTextRepository.java:57-65 | the read loop yields exactly `Normalise` of the lines |
| WordFiles.FileTextRepository.InitDefaultWords | src/repository/FileTextRepository.java:43-49 | the five default words are appended in order |
| WordFiles.FileTextRepository.SaveToFile | src/repository/FileTextRepository.java:71-80 | the file becomes one line per word, in list order |
| WordFiles.FileTextRepository.GetRandomWord | src/repository/FileTextRepository.java:25-30 | returns the word at the drawn index, or "empty" for an empty list |
| WordFiles.FileTextRepository.AddWord | src/repository/FileTextRepository.java:33-36 | the word is appended as given and the file rewritten |
| WordFiles.FileTextRepository.GetAllWords | src/repository/FileTextRepository.java:39-41 | returns the list |
| GameRules.Resolve | src/controller/GameController.java:83-86 | no difficulty means EASY |
| GameRules.InitialCount | src/controller/GameController.java:324-330 | 6, 7 or 8 words, one more per level |
| GameRules.ScoreFor | src/controller/GameController.java:155-161 | 10, 20 or 30 points: positive `int`s, 10 more per level |
| GameRules.DecayFor | src/controller/GameController.java:352-358 | the inward speed per tick lies in (0.1, 0.2] |
| GameRules.RadiusFor | src/controller/GameController.java:333-339 | the spawn radius is an integer in [240, 279], [235, 264] or [230, 259] |
| GameRules.AngularSpeedFor | src/controller/GameController.java:342-349 | the angular speed lies in [0.005, 0.01), [0.0075, 0.0175) or [0.0085, 0.0185) |
| GameRules.HarderLevelsAreHarder | src/controller/GameController.java:155-358 | a harder level starts with more words, pays more per word and brings words in faster |
| GameRules.Candidates | src/controller/GameController.java:295-296 | the k-th candidate is the word `getRandomWord` returns for the k-th roll |
| GameRules.SpawnedFrom | src/controller/GameController.java:308-314 | a word built from a draw has a text that is not live and comes from the list, a radius in [230, 280), an angle in [0, 2π) and an angular speed in [0.005, 0.0185) |
| GameRules.Texts | src/controller/GameController.java:299-300 | the live texts, in list order |
| GameRules.FirstFresh | src/controller/GameController.java:295-306 | the do-while stops at the first candidate no live word has; every earlier one is live |
| GameRules.SpawnedText | src/controller/GameController.java:295-306 | the spawned text is not live, and is a word of the list |
| GameRules.IndexOfText | src/controller/GameController.java:136-141 | the first position holding `t`, which is in range exactly when `t` is present |
| GameRules.DistinctWithout | src/controller/GameController.java:142-144 | removing a word keeps the live texts distinct and removes exactly that text |
| GameRules.DistinctAppend | src/controller/GameController.java:312-315 | adding a text that is not live keeps the live texts distinct |
| GameRules.FreshCandidate | src/controller/GameController.java:295-306 | a draw with more distinct candidates than live words lets the do-while end |
| GameRules.NoFreshCandidateWhenAllLive | src/controller/GameController.java:295-306 | once every word of the list is live, no draw holds a new text, so `spawnWord`'s do-while cannot end |
| GameRules.SpawnsAllStep | src/controller/GameController.java:95-97 | when the draws let the remaining initial spawns finish, the next draw holds a new text, and the draws after it stay ready once its word is live |
| GameRules.SpawnsAllBound | src/controller/GameController.java:95-97 | successive spawns take different texts of the list, so they number at most its distinct words that are not live |
| GameRules.StartNeedsEnoughWords | src/controller/GameController.java:94-97 | a game can start only when the list holds at least as many distinct words as the level begins with |
| GameRules.DefaultWordsCannotStartAGame | src/repository/FileTextRepository.java:43-49 | with only the five default words, no draws let a game's initial spawning finish, at any level |
| GameRules.RankLine | src/controller/GameController.java:212-217 | each leaderboard line ends with a line break |
| GameRules.RankedLinesHasOneLinePerEntry | src/controller/GameController.java:209-220 | the leaderboard has exactly one line per entry when names have no line break |
| GameRules.RankedLinesPrefix | src/controller/GameController.java:209-220 | the lines of higher-ranked entries come first, unchanged |
| GameRules.RankedLines | src/controller/GameController.java:209-220 | the ranked lines are at least as long as the list has entries |
| GameRules.RankedLinesStep | src/controller/GameController.java:210-218 | the entry at position i gets rank i + 1, on the line after those of the entries above it |
| GameRules.RankedLinesEndsWithBreak | src/controller/GameController.java:217 | a non-empty leaderboard ends with a line break |
| GameRules.TopScoresText | src/controller/GameController.java:206-220 | the fixed message is shown exactly when the loaded list is empty |
| Controller.SpawnedInOrderAppend | src/controller/GameController.java:94-97 | spawning one more word extends the record of words spawned in draw order |
| Controller.GameController.constructor | src/controller/GameController.java:27-49 | a new controller is stopped, unpaused, with no words, radius 0 and EASY |
| Controller.GameController.SetPlayerCollisionRadius | src/controller/GameController.java:55-57 | sets the collision radius and nothing else |
| Controller.GameController.IsRunning | src/controller/GameController.java:59-61 | returns the running flag |
| Controller.GameController.IsPaused | src/controller/GameController.java:63-65 | returns the paused flag |
| Controller.GameController.TogglePause | src/controller/GameController.java:68-75 | flips the paused flag and changes nothing else |
| Controller.GameController.StartGame | src/controller/GameController.java:78-102 | a running game is left alone; otherwise the game runs unpaused at the resolved difficulty, with score 0 and exactly the level's number of new, pairwise distinct words, each built from its draw; the draws required are exactly those with which each initial `spawnWord` ends |
| Controller.TextsAfterSpawn | src/controller/GameController.java:312-315 | after a spawn, the live texts are the earlier ones followed by the spawned text |
| Controller.GameController.SpawnInitialWords | src/controller/GameController.java:94-97 | spawns the level's number of new words, the i-th from the i-th draw, keeping texts distinct |
| Controller.GameController.SpawnNextInitialWord | src/controller/GameController.java:95-97 | one turn of the loop appends one new word built from the i-th draw, and the remaining draws stay ready |
| Controller.GameController.StopGame | src/controller/GameController.java:105-111 | clears the running flag and nothing else |
| Controller.GameController.GetActiveWordsSnapshot | src/controller/GameController.java:115-121 | returns the live words in order |
| Controller.GameController.Hit | src/controller/GameController.java:124-141 | a hit needs a running, unpaused game and a non-blank input; it is a live word whose text is the trimmed input, no earlier word has that text, and a running, unpaused game with such a word always finds one |
| Controller.GameController.CheckInput | src/controller/GameController.java:124-153 | with no hit nothing changes; on a hit that word is removed, the level's points are added with `int` wrap-around, and one new distinct word is appended |
| Controller.GameController.FindHit | src/controller/GameController.java:125-141 | the guards and the search find exactly the hit |
| Controller.GameController.ScoreHit | src/controller/GameController.java:142-152 | removes the matched word, adds the level's points and appends a replacement built from the draw |
| Controller.GameController.FindMatch | src/controller/GameController.java:136-141 | finds a word exactly when one has the text, at its first position |
| Controller.GameController.IsLive | src/controller/GameController.java:297-305 | true exactly when a live word has the text |
| Controller.GameController.SpawnWord | src/controller/GameController.java:290-316 | appends one new word whose text is the first non-live candidate, with the level's radius and speed and the drawn angle; live texts stay distinct |
| Controller.GameController.UpdateWords | src/controller/GameController.java:257-274 | every word drifts in by the level's decay and takes one orbit step; the game stops exactly when some word is within the collision radius |
| Controller.GameController.SaveScoreWithDialog | src/controller/GameController.java:174-201 | nothing is saved for a score of at most 0 or a cancelled dialog; otherwise the trimmed name and the score are appended, even when the name is blank |
| Controller.GameController.DialogEntryReadsBack | src/controller/GameController.java:189-200 | the line saved for a name without a comma or line break parses back to the trimmed name and the score; appended to lines with no bad number, it reads back after their entries |
| Controller.GameController.GetTopScoresText | src/controller/GameController.java:204-221 | the fixed message for no scores, otherwise one ranked line per loaded score, in load order |
| Controller.GameController.AddWordFromUser | src/controller/GameController.java:164-166 | appends the word to the word list and rewrites the word file |
| Controller.GameController.GetAllWords | src/controller/GameController.java:169-171 | returns the word list |

## Left out

- The game-loop thread, its 16 ms sleep, the pause lock and `notify`, and all
  synchronisation. One tick of the loop is `UpdateWords`, and the model is sequential.
- Swing: the panels, repaint, the label text of the score panel, the game-over message
  and the name prompt. The prompt's answer is a parameter. The blank-name warning shows a
  dialog and nothing else.
- `handleGameOver`'s later steps. These are the dialog, the save call and the
  `onGameOver` callback run on the event thread. `setOnGameOver` is also left out. A
  crash is modelled as `StopGame`.
- The sound effect played on a hit.
- The cartesian position x, y. It needs `cos` and `sin`. For that reason
  `setOrbitCenter`, `getX` and `getY` are left out, and `UpdatePosition` drops the
  centre parameters.
- Floating point. Radii, angles and speeds are exact reals, and 2π is the decimal
  6.283185307179586.
- Random sources. They are parameters.
  - `Controller.GameController.SpawnWord` requires that the draw contains a fresh
    candidate. The source's do-while has no bound and does not terminate when every
    word is live.
  - `Controller.GameController.StartGame` requires draws with which each of the
    initial `spawnWord` calls ends (`GameRules.StartReady`).
  - `GameRules.DefaultWordsCannotStartAGame` shows no draws meet this for the default
    word list.
- I/O failures. An `IOException` while reading or writing a file is not modelled: writes
  always succeed and reads see the whole file.
- Line breaks inside stored text.
  - The word file and the score file are modelled as sequences of lines. A word or name
    containing a line break would be split into several lines on reading; this is not
    modelled.
  - `Controller.GameController.DialogEntryReadsBack` requires such names to be absent.
- `ScoreFiles.FileScoreRepository.SaveScore`: a score file whose last line has no final
  line break is not modelled. The file is a list of whole lines, so the appended
  `name,score` line always starts a line of its own. In the code, the append goes directly
  after the file's last character. For a hand-edited file ending in `alice,10` without a
  line break, saving `bob,20` produces the single line `alice,10bob,20`. On loading, that
  line splits into three parts and is skipped, so both entries are lost. Files the game
  writes itself always end in a line break, so this arises only for files edited by hand.
- `JavaLang.ParseInt`: `Integer.parseInt` accepts non-ASCII Unicode digits, but the model accepts
  only ASCII `0`–`9`.
- `Controller.GameController.CheckInput`: the matched word is removed by its position,
  not by `List.remove(Object)`. Live texts are distinct, so both remove the same word.
- `ScoreFiles.SortDesc`: `Collections.sort` is modelled as a stable insertion sort. A
  stable sort has only one possible result, so the result is the same as the stable sort
  Java uses.

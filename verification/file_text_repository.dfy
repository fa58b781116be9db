/**
 * The list of words the game draws from, kept in a text file with one word per line.
 * The file is its sequence of lines; a missing file is `None`.
 */
module WordFiles {
  import opened Wrappers
  import opened JavaLang

  /** The words used when the file gives none. */
  const DefaultWords: seq<string> := ["java", "swing", "thread", "typing", "game"]

  /** The words `loadFromFile` takes from `lines`: each line trimmed, blank lines dropped, file order kept. */
  function Normalise(lines: seq<string>): (r: seq<string>)
    ensures |r| <= |lines|
    ensures forall i :: 0 <= i < |r| ==> r[i] != [] && HasVisibleEnds(r[i])
  {
    if lines == [] then []
    else
      var t := Trim(lines[|lines| - 1]);
      Normalise(lines[..|lines| - 1]) + (if t == [] then [] else [t])
  }

  /** `getRandomWord` for the draw `roll` of `Random.nextInt(size)`: the sentinel "empty" for an empty list. */
  function Pick(words: seq<string>, roll: nat): (w: string)
    requires words == [] || roll < |words|
    ensures words == [] ==> w == "empty"
    ensures words != [] ==> w in words
  {
    if words == [] then "empty" else words[roll]
  }

  /** Words that are already trimmed and non-empty come back unchanged from a write and a reload. */
  lemma {:induction false} NormaliseKeepsCleanWords(words: seq<string>)
    requires forall i :: 0 <= i < |words| ==> words[i] != [] && HasVisibleEnds(words[i])
    ensures Normalise(words) == words
  {
    if words != [] {
      NormaliseKeepsCleanWords(words[..|words| - 1]);
      TrimKeepsVisibleEnds(words[|words| - 1]);
      assert words == words[..|words| - 1] + [words[|words| - 1]];
    }
  }

  /** One more line read: its trimmed form is appended unless it is blank. */
  lemma NormaliseStep(lines: seq<string>, i: nat)
    requires i < |lines|
    ensures Normalise(lines[..i + 1])
         == Normalise(lines[..i]) + (if Trim(lines[i]) == [] then [] else [Trim(lines[i])])
  {
    assert lines[..i + 1][..i] == lines[..i];
  }

  class FileTextRepository {
    var words: seq<string>
    /** The word file's lines, or `None` while the file does not exist. */
    var file: Option<seq<string>>

    /** Loads the file; when that gives no word, falls back to the default list and writes it out. */
    constructor (initialFile: Option<seq<string>>)
      ensures words != []
      ensures Normalise(LinesOf(initialFile)) != [] ==>
                words == Normalise(LinesOf(initialFile)) && file == initialFile
      ensures Normalise(LinesOf(initialFile)) == [] ==>
                words == DefaultWords && file == Some(DefaultWords)
    {
      words := [];
      file := initialFile;
      new;
      LoadFromFile();
      if words == [] {
        InitDefaultWords();
        SaveToFile();
      }
    }

    /** Appends, in file order, every line that is not blank, trimmed. */
    method LoadFromFile()
      modifies this
      ensures words == old(words) + Normalise(LinesOf(file))
      ensures file == old(file)
    {
      if file.None? {
        return;
      }
      var loaded := ReadWords(file.value);
      words := words + loaded;
    }

    /** The loop of `loadFromFile`: trims each line and keeps the ones that are not blank. */
    static method ReadWords(lines: seq<string>) returns (loaded: seq<string>)
      ensures loaded == Normalise(lines)
    {
      loaded := [];
      var i := 0;
      while i < |lines|
        invariant 0 <= i <= |lines|
        invariant loaded == Normalise(lines[..i])
      {
        var trimmed := Trim(lines[i]);
        NormaliseStep(lines, i);
        if trimmed != [] {
          loaded := loaded + [trimmed];
        }
        i := i + 1;
      }
      assert lines[..i] == lines;
    }

    method InitDefaultWords()
      modifies this
      ensures words == old(words) + DefaultWords
      ensures file == old(file)
    {
      words := words + ["java"];
      words := words + ["swing"];
      words := words + ["thread"];
      words := words + ["typing"];
      words := words + ["game"];
    }

    /** Rewrites the file with one line per word. */
    method SaveToFile()
      modifies this
      ensures file == Some(words)
      ensures words == old(words)
    {
      var lines: seq<string> := [];
      for i := 0 to |words|
        invariant lines == words[..i]
      {
        lines := lines + [words[i]];
      }
      assert words[..|words|] == words;
      file := Some(lines);
    }

    /** A word of the list, chosen by `roll`; "empty" when the list is empty. */
    method GetRandomWord(roll: nat) returns (w: string)
      requires words == [] || roll < |words|
      ensures w == Pick(words, roll)
    {
      if words == [] {
        return "empty";
      }
      return words[roll];
    }

    /** Appends the word as given (no trimming, no check for duplicates) and rewrites the file. */
    method AddWord(word: string)
      modifies this
      ensures words == old(words) + [word]
      ensures file == Some(words)
    {
      words := words + [word];
      SaveToFile();
    }

    /** A copy of the list. */
    method GetAllWords() returns (r: seq<string>)
      ensures r == words
    {
      r := words;
    }
  }
}

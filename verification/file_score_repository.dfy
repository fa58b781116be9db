/**
 * The score history kept in a text file, one `name,score` record per line: appending a
 * record, and reading the file back as the best `limit` entries, highest score first.
 * The file is its sequence of lines; a missing file is `None`.
 */
module ScoreFiles {
  import opened Wrappers
  import opened JavaLang
  import opened ScoreEntries

  // ---------------------------------------------------------------- line format

  /** The line `saveScore` writes for an entry: the name, a comma, the score in decimal. */
  function FormatLine(e: ScoreEntry): (line: string)
    ensures |line| == |e.playerName| + 1 + |IntToString(e.score)|
    ensures e.playerName <= line && line[|e.playerName|] == ','
  {
    e.playerName + "," + IntToString(e.score)
  }

  function FormatLines(es: seq<ScoreEntry>): (lines: seq<string>)
    ensures |lines| == |es|
    ensures forall i :: 0 <= i < |es| ==> lines[i] == FormatLine(es[i])
  {
    seq(|es|, i requires 0 <= i < |es| => FormatLine(es[i]))
  }

  /** What reading one line gives: nothing, an entry, or `NumberFormatException`. */
  datatype LineOutcome = Skipped | Parsed(entry: ScoreEntry) | BadNumber

  /**
   * One turn of the read loop: trim the line, skip it when blank or when splitting at
   * commas does not give exactly two parts, otherwise parse the second part as the score.
   */
  function ParseLine(line: string): (r: LineOutcome)
    ensures Trim(line) == [] ==> r == Skipped
    ensures r.Parsed? ==> IsInt32(r.entry.score) && ',' !in r.entry.playerName
  {
    var t := Trim(line);
    if t == [] then Skipped
    else
      var parts := SplitComma(t);
      if |parts| != 2 then Skipped
      else
        match ParseInt(parts[1])
        case None => BadNumber
        case Some(n) => Parsed(ScoreEntry(parts[0], n))
  }

  /** A line is read only when splitting its trimmed text at commas gives exactly two parts. */
  lemma ParseLineNeedsTwoParts(line: string)
    ensures ParseLine(line) != Skipped ==> |SplitComma(Trim(line))| == 2
  {
  }

  /**
   * Any line whose trimmed text is `a,b`, with no other comma and a non-empty `b`, gives
   * the entry of `a` and the parsed `b`, or `NumberFormatException` when `b` is no `int`.
   */
  lemma ParseLineOfPair(line: string, a: string, b: string)
    requires Trim(line) == a + "," + b && ',' !in a && ',' !in b && b != []
    ensures ParseInt(b).Some? ==> ParseLine(line) == Parsed(ScoreEntry(a, ParseInt(b).value))
    ensures ParseInt(b).None? ==> ParseLine(line) == BadNumber
  {
    SplitPair(a, b);
  }

  /** The outcome of each line of the file, in file order. */
  function Classify(lines: seq<string>): (r: seq<LineOutcome>)
    ensures |r| == |lines|
    ensures forall i :: 0 <= i < |lines| ==> r[i] == ParseLine(lines[i])
  {
    seq(|lines|, i requires 0 <= i < |lines| => ParseLine(lines[i]))
  }

  /**
   * The entries the read loop keeps, in file order: skipped lines add nothing, and the
   * first `NumberFormatException` ends the reading, keeping what was collected before it.
   */
  function Collect(outcomes: seq<LineOutcome>): (r: seq<ScoreEntry>)
    ensures |r| <= |outcomes|
  {
    if outcomes == [] then []
    else
      match outcomes[0]
      case Skipped => Collect(outcomes[1..])
      case Parsed(e) => [e] + Collect(outcomes[1..])
      case BadNumber => []
  }

  /** Reading one outcome: an entry is kept, anything else gives nothing. */
  lemma CollectOne(o: LineOutcome)
    ensures Collect([o]) == (if o.Parsed? then [o.entry] else [])
  {
  }

  /**
   * Reading goes on past skipped lines: as long as the first part holds no bad number,
   * reading both parts keeps the entries of the first, then those of the second, in order.
   */
  lemma {:induction false} CollectAppend(a: seq<LineOutcome>, b: seq<LineOutcome>)
    requires BadNumber !in a
    ensures Collect(a + b) == Collect(a) + Collect(b)
  {
    if a != [] {
      assert (a + b)[0] == a[0] && (a + b)[1..] == a[1..] + b;
      assert BadNumber !in a[1..] by { assert forall o :: o in a[1..] ==> o in a; }
      CollectAppend(a[1..], b);
      assert a[0] in a;
      if a[0].Parsed? {
        var e := a[0].entry;
        calc {
          Collect(a + b);
          [e] + Collect(a[1..] + b);
          [e] + (Collect(a[1..]) + Collect(b));
          ([e] + Collect(a[1..])) + Collect(b);
          Collect(a) + Collect(b);
        }
      } else {
        assert Collect(a + b) == Collect(a[1..] + b);
        assert Collect(a) == Collect(a[1..]);
      }
    } else {
      assert a + b == b;
    }
  }

  /** What reading `lines` collects. */
  function ParseLines(lines: seq<string>): (r: seq<ScoreEntry>)
    ensures |r| <= |lines|
  {
    Collect(Classify(lines))
  }

  /** Reading a file whose first lines hold no bad number reads them, then the rest. */
  lemma ParseLinesAppend(a: seq<string>, b: seq<string>)
    requires forall i :: 0 <= i < |a| ==> ParseLine(a[i]) != BadNumber
    ensures ParseLines(a + b) == ParseLines(a) + ParseLines(b)
  {
    assert Classify(a + b) == Classify(a) + Classify(b);
    CollectAppend(Classify(a), Classify(b));
  }

  /** Every entry reading keeps comes from a line of its own that parsed to it. */
  lemma {:induction false} CollectKeepsParsed(outcomes: seq<LineOutcome>)
    ensures forall e :: e in Collect(outcomes) ==> Parsed(e) in outcomes
  {
    if outcomes != [] {
      CollectKeepsParsed(outcomes[1..]);
    }
  }

  /** Every entry read from a file has an `int` score and a name without a comma, and comes from one of its lines. */
  lemma ParseLinesFromLines(lines: seq<string>)
    ensures forall e :: e in ParseLines(lines) ==>
              exists i :: 0 <= i < |lines| && ParseLine(lines[i]) == Parsed(e)
    ensures forall e :: e in ParseLines(lines) ==> IsInt32(e.score) && ',' !in e.playerName
  {
    CollectKeepsParsed(Classify(lines));
  }

  /** A line whose score does not parse hides every line after it. */
  lemma {:induction false} BadNumberEndsReading(outcomes: seq<LineOutcome>, k: nat)
    requires k < |outcomes| && outcomes[k] == BadNumber
    ensures Collect(outcomes) == Collect(outcomes[..k])
  {
    if k > 0 {
      BadNumberEndsReading(outcomes[1..], k - 1);
      assert outcomes[1..][..k - 1] == outcomes[..k][1..];
    }
  }

  // ---------------------------------------------------------------- Collections.sort

  /** No entry sorts before one that comes earlier: scores never increase along the list. */
  ghost predicate SortedDesc(s: seq<ScoreEntry>)
  {
    forall i, j :: 0 <= i < j < |s| ==> CompareTo(s[i], s[j]) <= 0
  }

  /** The entries of `s` that have score `v`, in their order in `s`. */
  function WithScore(s: seq<ScoreEntry>, v: int): (r: seq<ScoreEntry>)
    ensures |r| <= |s|
  {
    if s == [] then [] else (if s[0].score == v then [s[0]] else []) + WithScore(s[1..], v)
  }

  lemma {:induction false} WithScoreConcat(a: seq<ScoreEntry>, b: seq<ScoreEntry>, v: int)
    ensures WithScore(a + b, v) == WithScore(a, v) + WithScore(b, v)
  {
    if a != [] {
      WithScoreConcat(a[1..], b, v);
      assert (a + b)[0] == a[0];
      assert (a + b)[1..] == a[1..] + b;
    } else {
      assert a + b == b;
    }
  }

  lemma {:induction false} WithScoreNone(s: seq<ScoreEntry>, v: int)
    requires forall i :: 0 <= i < |s| ==> s[i].score != v
    ensures WithScore(s, v) == []
  {
    if s != [] {
      WithScoreNone(s[1..], v);
    }
  }

  /** Inserts `e` into a list after the leading entries that do not sort after it. */
  function InsertDesc(e: ScoreEntry, t: seq<ScoreEntry>): (r: seq<ScoreEntry>)
    ensures |r| == |t| + 1
  {
    if t == [] then [e]
    else if CompareTo(t[0], e) <= 0 then [t[0]] + InsertDesc(e, t[1..])
    else [e] + t
  }

  lemma {:induction false} InsertDescElements(e: ScoreEntry, t: seq<ScoreEntry>)
    ensures forall x :: x in InsertDesc(e, t) ==> x == e || x in t
  {
    if t != [] && CompareTo(t[0], e) <= 0 {
      InsertDescElements(e, t[1..]);
    }
  }

  lemma {:induction false} InsertDescPermutes(e: ScoreEntry, t: seq<ScoreEntry>)
    ensures multiset(InsertDesc(e, t)) == multiset(t) + multiset{e}
  {
    if t != [] && CompareTo(t[0], e) <= 0 {
      InsertDescPermutes(e, t[1..]);
      assert t == [t[0]] + t[1..];
    }
  }

  lemma {:induction false} InsertDescSorted(e: ScoreEntry, t: seq<ScoreEntry>)
    requires SortedDesc(t)
    ensures SortedDesc(InsertDesc(e, t))
  {
    if t != [] && CompareTo(t[0], e) <= 0 {
      var rest := InsertDesc(e, t[1..]);
      InsertDescSorted(e, t[1..]);
      InsertDescElements(e, t[1..]);
      forall j | 0 <= j < |rest| ensures t[0].score >= rest[j].score {
        assert rest[j] in rest;
        if rest[j] != e {
          var k :| 0 <= k < |t[1..]| && t[1..][k] == rest[j];
          assert t[k + 1] == rest[j];
        }
      }
      var r := [t[0]] + rest;
      forall i, j | 0 <= i < j < |r| ensures CompareTo(r[i], r[j]) <= 0 {
        if i == 0 {
          assert r[j] == rest[j - 1];
        } else {
          assert r[i] == rest[i - 1] && r[j] == rest[j - 1];
        }
      }
    }
  }

  lemma {:induction false} InsertDescWithScore(e: ScoreEntry, t: seq<ScoreEntry>, v: int)
    requires SortedDesc(t)
    ensures WithScore(InsertDesc(e, t), v) == WithScore(t, v) + (if e.score == v then [e] else [])
  {
    if t == [] {
      assert InsertDesc(e, t) == [e];
    } else if CompareTo(t[0], e) <= 0 {
      var rest := InsertDesc(e, t[1..]);
      assert SortedDesc(t[1..]) by {
        forall i, j | 0 <= i < j < |t[1..]| ensures CompareTo(t[1..][i], t[1..][j]) <= 0 {
          assert t[1..][i] == t[i + 1] && t[1..][j] == t[j + 1];
        }
      }
      InsertDescWithScore(e, t[1..], v);
      var head := if t[0].score == v then [t[0]] else [];
      assert InsertDesc(e, t) == [t[0]] + rest;
      assert ([t[0]] + rest)[1..] == rest;
      assert WithScore([t[0]] + rest, v) == head + WithScore(rest, v);
      assert WithScore(t, v) == head + WithScore(t[1..], v);
    } else {
      assert InsertDesc(e, t) == [e] + t;
      assert ([e] + t)[1..] == t;
      if e.score == v {
        forall i | 0 <= i < |t| ensures t[i].score != v {
          if i > 0 {
            assert CompareTo(t[0], t[i]) <= 0;
          }
        }
        WithScoreNone(t, v);
      }
    }
  }

  /**
   * `Collections.sort` with `ScoreEntry.compareTo`, written as an insertion sort: each
   * entry in turn goes after the already sorted entries that do not sort after it.
   */
  function SortDesc(s: seq<ScoreEntry>): (r: seq<ScoreEntry>)
    ensures |r| == |s|
  {
    if s == [] then [] else InsertDesc(s[|s| - 1], SortDesc(s[..|s| - 1]))
  }

  /** The sort neither loses nor duplicates an entry. */
  lemma {:induction false} SortDescPermutes(s: seq<ScoreEntry>)
    ensures multiset(SortDesc(s)) == multiset(s)
  {
    if s != [] {
      SortDescPermutes(s[..|s| - 1]);
      InsertDescPermutes(s[|s| - 1], SortDesc(s[..|s| - 1]));
      assert s == s[..|s| - 1] + [s[|s| - 1]];
    }
  }

  /** The sort puts entries in `compareTo` order: scores never increase along the result. */
  lemma {:induction false} SortDescSorted(s: seq<ScoreEntry>)
    ensures SortedDesc(SortDesc(s))
  {
    if s != [] {
      SortDescSorted(s[..|s| - 1]);
      InsertDescSorted(s[|s| - 1], SortDesc(s[..|s| - 1]));
    }
  }

  /** The sort is stable: the entries with any one score keep their original order. */
  lemma {:induction false} SortDescStable(s: seq<ScoreEntry>, v: int)
    ensures WithScore(SortDesc(s), v) == WithScore(s, v)
  {
    if s != [] {
      var init, last := s[..|s| - 1], s[|s| - 1];
      SortDescStable(init, v);
      SortDescSorted(init);
      InsertDescWithScore(last, SortDesc(init), v);
      assert s == init + [last];
      WithScoreConcat(init, [last], v);
    }
  }

  // ---------------------------------------------------------------- loadTopScore

  /**
   * The result of `loadTopScore(limit)` for the file `file`: an empty list when the file is
   * missing; otherwise the parsed entries sorted, cut to `limit` when there are more.
   * `None` stands for the exception `subList(0, limit)` throws when `limit` is negative.
   */
  function TopScores(file: Option<seq<string>>, limit: int): (r: Option<seq<ScoreEntry>>)
    ensures r.None? <==> file.Some? && limit < 0
    ensures file.None? ==> r == Some([])
    ensures r.Some? ==> SortedDesc(r.value)
    ensures r.Some? && file.Some? ==>
      var all := SortDesc(ParseLines(file.value));
      && |r.value| == (if |all| <= limit then |all| else limit)
      && r.value == all[..|r.value|]
      && (forall i, j :: 0 <= i < |r.value| <= j < |all| ==> all[j].score <= r.value[i].score)
  {
    if file.None? then Some([])
    else
      var all := SortDesc(ParseLines(file.value));
      SortDescSorted(ParseLines(file.value));
      if |all| > limit then
        if limit < 0 then None else Some(all[..limit])
      else Some(all)
  }

  class FileScoreRepository {
    /** The score file's lines, or `None` while the file does not exist. */
    var file: Option<seq<string>>

    constructor (file: Option<seq<string>>)
      ensures this.file == file
    {
      this.file := file;
    }

    /** Appends the entry's line, creating the file if needed; earlier lines stay as they were. */
    method SaveScore(entry: ScoreEntry)
      modifies this
      ensures file == Some(LinesOf(old(file)) + [FormatLine(entry)])
    {
      file := Some(LinesOf(file) + [FormatLine(entry)]);
    }

    /** Reads the whole file, sorts what it read and keeps the first `limit` entries. */
    method LoadTopScore(limit: int) returns (r: Option<seq<ScoreEntry>>)
      ensures r == TopScores(file, limit)
    {
      if file.None? {
        return Some([]);
      }
      var list := ReadEntries(file.value);
      list := SortDesc(list);
      if |list| > limit {
        if limit < 0 {
          return None;
        }
        return Some(list[..limit]);
      }
      return Some(list);
    }

    /** The read loop of `loadTopScore`: parses line after line until the file ends or a score fails to parse. */
    static method ReadEntries(lines: seq<string>) returns (list: seq<ScoreEntry>)
      ensures list == ParseLines(lines)
    {
      ghost var outcomes := Classify(lines);
      list := [];
      var i := 0;
      var failed := false;
      while i < |lines| && !failed
        invariant 0 <= i <= |lines|
        invariant !failed ==> list + Collect(outcomes[i..]) == Collect(outcomes)
        invariant failed ==> list == Collect(outcomes)
      {
        var outcome := ParseLine(lines[i]);
        assert outcomes[i..][0] == outcome && outcomes[i..][1..] == outcomes[i + 1..];
        match outcome {
          case Skipped =>
          case Parsed(e) =>
            list := list + [e];
          case BadNumber =>
            failed := true;
        }
        i := i + 1;
      }
      assert i < |lines| ==> failed;
      assert outcomes[|lines|..] == [];
    }
  }

  // ---------------------------------------------------------------- round trip

  /**
   * A name `saveScore` can write and read back: no comma, no line break, and no leading
   * character that `trim` would remove.
   */
  predicate WellFormedName(name: string)
  {
    ',' !in name && '\n' !in name && '\r' !in name && (name == [] || !IsTrimmable(name[0]))
  }

  /** A saved line parses back to the entry that was saved. */
  lemma ParseFormatLine(e: ScoreEntry)
    requires WellFormedName(e.playerName) && IsInt32(e.score)
    ensures ParseLine(FormatLine(e)) == Parsed(e)
  {
    var digits := IntToString(e.score);
    var line := FormatLine(e);
    assert line[0] == (if e.playerName == [] then ',' else e.playerName[0]);
    assert line[|line| - 1] == digits[|digits| - 1];
    TrimKeepsVisibleEnds(line);
    SplitPair(e.playerName, digits);
    ParseIntToString(e.score);
  }

  /** Reading nothing but entries collects exactly those entries. */
  lemma {:induction false} CollectAllParsed(es: seq<ScoreEntry>)
    ensures Collect(seq(|es|, i requires 0 <= i < |es| => Parsed(es[i]))) == es
  {
    if es != [] {
      var outcomes := seq(|es|, i requires 0 <= i < |es| => Parsed(es[i]));
      CollectAllParsed(es[1..]);
      assert outcomes[1..] == seq(|es[1..]|, i requires 0 <= i < |es[1..]| => Parsed(es[1..][i]));
    }
  }

  /**
   * Saving after lines that hold no bad number: reading the file then gives the entries
   * of those lines followed by the saved entry.
   */
  lemma SavedEntryReadsBack(lines: seq<string>, e: ScoreEntry)
    requires forall i :: 0 <= i < |lines| ==> ParseLine(lines[i]) != BadNumber
    requires WellFormedName(e.playerName) && IsInt32(e.score)
    ensures ParseLines(lines + [FormatLine(e)]) == ParseLines(lines) + [e]
  {
    var line := FormatLine(e);
    assert ParseLines([line]) == [e] by {
      ParseFormatLine(e);
      assert Classify([line]) == [Parsed(e)];
      CollectOne(Parsed(e));
    }
    ParseLinesAppend(lines, [line]);
  }

  /** A file written only by `saveScore` reads back as exactly the saved entries, in order. */
  lemma ParseFormattedLines(es: seq<ScoreEntry>)
    requires forall i :: 0 <= i < |es| ==> WellFormedName(es[i].playerName) && IsInt32(es[i].score)
    ensures ParseLines(FormatLines(es)) == es
  {
    var outcomes := Classify(FormatLines(es));
    forall i | 0 <= i < |es| ensures outcomes[i] == Parsed(es[i]) {
      ParseFormatLine(es[i]);
    }
    assert outcomes == seq(|es|, i requires 0 <= i < |es| => Parsed(es[i]));
    CollectAllParsed(es);
  }

  /**
   * Loading a history that `saveScore` wrote gives the saved entries sorted highest first
   * (ties in saving order), cut to `limit`.
   */
  lemma SavedScoresLoadTopFirst(es: seq<ScoreEntry>, limit: nat)
    requires forall i :: 0 <= i < |es| ==> WellFormedName(es[i].playerName) && IsInt32(es[i].score)
    ensures TopScores(Some(FormatLines(es)), limit)
         == Some(SortDesc(es)[..if |es| <= limit then |es| else limit])
  {
    ParseFormattedLines(es);
  }
}

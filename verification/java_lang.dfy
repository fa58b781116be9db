/**
 * The few pieces of the Java platform that the game's text handling relies on:
 * `int` arithmetic, `String.trim`, `String.split(",")`, `Integer.parseInt` and the
 * decimal rendering of an `int` by string concatenation.
 */
module JavaLang {
  import opened Wrappers

  const INT_MIN: int := -0x8000_0000
  const INT_MAX: int := 0x7fff_ffff
  const TWO_TO_32: int := 0x1_0000_0000

  predicate IsInt32(x: int) { INT_MIN <= x <= INT_MAX }

  /**
   * The value Java's `int` addition yields when the exact sum of two `int`s is `x`:
   * two's-complement wrap-around, which moves a sum outside the `int` range by 2^32.
   */
  function Wrap32(x: int): (r: int)
    requires INT_MIN + INT_MIN <= x <= INT_MAX + INT_MAX
    ensures IsInt32(r)
    ensures r == x || r == x - TWO_TO_32 || r == x + TWO_TO_32
    ensures IsInt32(x) ==> r == x
  {
    if x > INT_MAX then x - TWO_TO_32
    else if x < INT_MIN then x + TWO_TO_32
    else x
  }

  // ---------------------------------------------------------------- String.trim

  /** `String.trim` removes every leading and trailing character whose code is at most U+0020. */
  predicate IsTrimmable(c: char) { c <= ' ' }

  function TrimStart(s: string): (r: string)
    ensures |r| <= |s| && r == s[|s| - |r|..]
    ensures r == [] || !IsTrimmable(r[0])
    ensures forall i :: 0 <= i < |s| - |r| ==> IsTrimmable(s[i])
  {
    if s == [] || !IsTrimmable(s[0]) then s else TrimStart(s[1..])
  }

  function TrimEnd(s: string): (r: string)
    ensures |r| <= |s| && r == s[..|r|]
    ensures r == [] || !IsTrimmable(r[|r| - 1])
    ensures forall i :: |r| <= i < |s| ==> IsTrimmable(s[i])
  {
    if s == [] || !IsTrimmable(s[|s| - 1]) then s else TrimEnd(s[..|s| - 1])
  }

  /** A string that starts and ends with a character `trim` keeps (the empty string included). */
  predicate HasVisibleEnds(s: string)
  {
    s == [] || (!IsTrimmable(s[0]) && !IsTrimmable(s[|s| - 1]))
  }

  /** Java's `String.trim`. */
  function Trim(s: string): (r: string)
    ensures HasVisibleEnds(r)
    ensures |r| <= |s|
    ensures r == [] <==> forall i :: 0 <= i < |s| ==> IsTrimmable(s[i])
  {
    TrimEnd(TrimStart(s))
  }

  /** A string that starts and ends with a visible character is left alone by `trim`. */
  lemma {:induction false} TrimKeepsVisibleEnds(s: string)
    requires HasVisibleEnds(s)
    ensures Trim(s) == s
  {
    assert TrimStart(s) == s;
    assert TrimEnd(s) == s;
  }

  /** `trim` only removes characters: whatever is in the result was in the string. */
  lemma TrimAddsNothing(s: string, c: char)
    requires c in Trim(s)
    ensures c in s
  {
    var t := TrimStart(s);
    var k :| 0 <= k < |Trim(s)| && Trim(s)[k] == c;
    assert t[k] == c;
    assert s[|s| - |t| + k] == c;
  }

  // ---------------------------------------------------------------- String.split(",")

  /** Every comma-separated piece of `s`, empty ones included (one more piece than there are commas). */
  function Pieces(s: string): (r: seq<string>)
    ensures |r| >= 1
  {
    if s == [] then [[]]
    else
      var p := Pieces(s[1..]);
      if s[0] == ',' then [[]] + p
      else [[s[0]] + p[0]] + p[1..]
  }

  lemma {:induction false} PiecesHaveNoComma(s: string)
    ensures forall k :: 0 <= k < |Pieces(s)| ==> ',' !in Pieces(s)[k]
  {
    if s != [] {
      PiecesHaveNoComma(s[1..]);
      var p := Pieces(s[1..]);
      if s[0] != ',' {
        assert ',' !in [s[0]] + p[0];
        assert Pieces(s) == [[s[0]] + p[0]] + p[1..];
      }
    }
  }

  /** A string without a comma is its own single piece. */
  lemma {:induction false} PiecesWithoutComma(s: string)
    requires ',' !in s
    ensures Pieces(s) == [s]
  {
    if s != [] {
      PiecesWithoutComma(s[1..]);
      assert [s[0]] + s[1..] == s;
    }
  }

  /** The pieces put back together with commas between them. */
  function JoinWithCommas(ps: seq<string>): string
    requires |ps| >= 1
  {
    if |ps| == 1 then ps[0] else ps[0] + "," + JoinWithCommas(ps[1..])
  }

  /** Splitting at commas loses nothing: joining the pieces again gives back the string. */
  lemma {:induction false} JoinPieces(s: string)
    ensures JoinWithCommas(Pieces(s)) == s
  {
    if s != [] {
      JoinPieces(s[1..]);
      if s[0] == ',' {
        JoinPiecesAtComma(s);
      } else {
        JoinPiecesAtOther(s);
      }
    }
  }

  lemma JoinPiecesAtComma(s: string)
    requires s != [] && s[0] == ','
    requires JoinWithCommas(Pieces(s[1..])) == s[1..]
    ensures JoinWithCommas(Pieces(s)) == s
  {
    var p := Pieces(s[1..]);
    var q := [[]] + p;
    assert Pieces(s) == q;
    assert q[1..] == p;
    assert JoinWithCommas(q) == [] + "," + JoinWithCommas(p);
    assert s == "," + s[1..];
  }

  lemma JoinPiecesAtOther(s: string)
    requires s != [] && s[0] != ','
    requires JoinWithCommas(Pieces(s[1..])) == s[1..]
    ensures JoinWithCommas(Pieces(s)) == s
  {
    var p := Pieces(s[1..]);
    assert Pieces(s) == [[s[0]] + p[0]] + p[1..];
    JoinExtendsFirstPiece(s[0], p);
    assert s == [s[0]] + s[1..];
  }

  /** Putting a character in front of the first piece puts it in front of the joined string. */
  lemma JoinExtendsFirstPiece(c: char, p: seq<string>)
    requires |p| >= 1
    ensures JoinWithCommas([[c] + p[0]] + p[1..]) == [c] + JoinWithCommas(p)
  {
    var q := [[c] + p[0]] + p[1..];
    assert q[0] == [c] + p[0];
    if |p| > 1 {
      var rest := JoinWithCommas(p[1..]);
      assert q[1..] == p[1..];
      calc {
        JoinWithCommas(q);
        (([c] + p[0]) + ",") + rest;
        { ConcatAssoc([c], p[0], ","); }
        ([c] + (p[0] + ",")) + rest;
        { ConcatAssoc([c], p[0] + ",", rest); }
        [c] + ((p[0] + ",") + rest);
        [c] + JoinWithCommas(p);
      }
    }
  }

  lemma ConcatAssoc(a: string, b: string, c: string)
    ensures (a + b) + c == a + (b + c)
  {
  }

  /** Removes the empty strings at the end of a split result, as `String.split` does with limit 0. */
  function DropTrailingEmpty(ps: seq<string>): (r: seq<string>)
    ensures |r| <= |ps| && r == ps[..|r|]
    ensures r == [] || r[|r| - 1] != []
    ensures forall k :: |r| <= k < |ps| ==> ps[k] == []
  {
    if ps == [] || ps[|ps| - 1] != [] then ps else DropTrailingEmpty(ps[..|ps| - 1])
  }

  /**
   * Java's `s.split(",")`: the string itself when it holds no comma, otherwise its pieces
   * with the trailing empty ones dropped (a leading empty piece is kept).
   */
  function SplitComma(s: string): (r: seq<string>)
    ensures forall k :: 0 <= k < |r| ==> ',' !in r[k]
    ensures ',' !in s ==> r == [s]
  {
    if ',' !in s then [s]
    else
      PiecesHaveNoComma(s);
      DropTrailingEmpty(Pieces(s))
  }

  lemma {:induction false} PiecesOfPair(a: string, b: string)
    requires ',' !in a && ',' !in b
    ensures Pieces(a + "," + b) == [a, b]
  {
    if a == [] {
      PiecesWithoutComma(b);
      assert ("" + "," + b)[1..] == b;
    } else {
      PiecesOfPair(a[1..], b);
      assert (a + "," + b)[1..] == a[1..] + "," + b;
      assert [a[0]] + a[1..] == a;
    }
  }

  /** A line `a,b` with no other comma and a non-empty `b` splits into exactly `[a, b]`. */
  lemma SplitPair(a: string, b: string)
    requires ',' !in a && ',' !in b && b != []
    ensures SplitComma(a + "," + b) == [a, b]
  {
    PiecesOfPair(a, b);
    assert (a + "," + b)[|a|] == ',';
  }

  // ---------------------------------------------------------------- int <-> decimal text

  predicate IsDigit(c: char) { '0' <= c <= '9' }

  predicate AllDigits(s: string) { forall i :: 0 <= i < |s| ==> IsDigit(s[i]) }

  function DigitChar(d: nat): (c: char)
    requires d < 10
    ensures IsDigit(c) && c as int - '0' as int == d
  {
    ('0' as int + d) as char
  }

  /** The value of a string of decimal digits, read left to right. */
  function DigitsValue(s: string): nat
    requires AllDigits(s)
  {
    if s == [] then 0 else DigitsValue(s[..|s| - 1]) * 10 + (s[|s| - 1] as int - '0' as int)
  }

  /** The shortest decimal digits of `n`: no leading zero except for zero itself. */
  function DigitsOf(n: nat): (r: string)
    ensures r != [] && AllDigits(r)
    ensures r[0] == '0' ==> n == 0
  {
    if n < 10 then [DigitChar(n)] else DigitsOf(n / 10) + [DigitChar(n % 10)]
  }

  lemma {:induction false} DigitsValueOfDigitsOf(n: nat)
    ensures DigitsValue(DigitsOf(n)) == n
  {
    if n >= 10 {
      DigitsValueOfDigitsOf(n / 10);
      var s := DigitsOf(n);
      assert s[..|s| - 1] == DigitsOf(n / 10);
    }
  }

  /** `Integer.toString(n)`, which is also what `"" + n` appends. */
  function IntToString(n: int): (r: string)
    ensures r != [] && ',' !in r
    ensures !IsTrimmable(r[0]) && IsDigit(r[|r| - 1])
  {
    if n < 0 then "-" + DigitsOf(-n) else DigitsOf(n)
  }

  /** Decimal integer text: an optional `+` or `-` followed by at least one digit. */
  predicate IsIntText(s: string)
  {
    if s != [] && (s[0] == '-' || s[0] == '+') then |s| > 1 && AllDigits(s[1..])
    else s != [] && AllDigits(s)
  }

  /** The value decimal integer text denotes; leading zeros and a `+` or `-0` are allowed. */
  function IntTextValue(s: string): int
    requires IsIntText(s)
  {
    if s[0] == '-' then -(DigitsValue(s[1..]) as int)
    else if s[0] == '+' then DigitsValue(s[1..])
    else DigitsValue(s)
  }

  /**
   * `Integer.parseInt(s)` with radix 10: an optional `+` or `-`, then at least one digit,
   * and the value must fit in an `int`; anything else throws `NumberFormatException` (None).
   */
  function ParseInt(s: string): (r: Option<int>)
    ensures r.Some? ==> IsInt32(r.value)
    ensures r.Some? ==> s != [] && (IsDigit(s[0]) || s[0] == '-' || s[0] == '+')
    ensures r.Some? ==> AllDigits(s[1..])
    ensures r.Some? <==> IsIntText(s) && IsInt32(IntTextValue(s))
    ensures r.Some? ==> r.value == IntTextValue(s)
  {
    if s == [] then None
    else if s[0] == '-' || s[0] == '+' then
      if |s| == 1 || !AllDigits(s[1..]) then None
      else
        var v: int := if s[0] == '-' then -(DigitsValue(s[1..]) as int) else DigitsValue(s[1..]);
        if IsInt32(v) then Some(v) else None
    else if AllDigits(s) then
      var v := DigitsValue(s);
      if IsInt32(v) then Some(v) else None
    else None
  }

  /** Rendering an `int` and parsing it back gives the same `int`. */
  lemma ParseIntToString(n: int)
    requires IsInt32(n)
    ensures ParseInt(IntToString(n)) == Some(n)
  {
    if n < 0 {
      DigitsValueOfDigitsOf(-n);
      assert IntToString(n)[1..] == DigitsOf(-n);
    } else {
      DigitsValueOfDigitsOf(n);
    }
  }
}

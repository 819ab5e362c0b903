/**
 * path_to_string: the text path_to_string returns for a path, "[v0 v1 ... vn]", and a
 * parser for that text so that the format can be shown to lose nothing.
 */
module PathFormat {

  datatype Option<T> = None | Some(value: T)

  predicate IsDigit(c: char)
  {
    '0' <= c <= '9'
  }

  function DigitChar(d: nat): (c: char)
    requires d < 10
    ensures IsDigit(c)
  {
    "0123456789"[d]
  }

  function DigitValue(c: char): (d: nat)
    requires IsDigit(c)
    ensures d < 10
  {
    (c as int - '0' as int) as nat
  }

  /** The decimal digits of n, most significant first, without leading zeros. */
  function NatText(n: nat): (s: string)
    ensures |s| >= 1
    decreases n
  {
    if n < 10 then [DigitChar(n)] else NatText(n / 10) + [DigitChar(n % 10)]
  }

  /** What Python's f"{el}" gives for an integer: its decimal digits, with a leading '-' when it is negative. */
  function IntText(i: int): (s: string)
    ensures |s| >= 1
  {
    if i < 0 then "-" + NatText(-i) else NatText(i)
  }

  predicate AllDigits(s: string)
  {
    forall k :: 0 <= k < |s| ==> IsDigit(s[k])
  }

  /** The number a string of decimal digits denotes. */
  function DigitsValue(s: string): nat
    requires AllDigits(s)
  {
    if |s| == 0 then 0 else 10 * DigitsValue(s[..|s| - 1]) + DigitValue(s[|s| - 1])
  }

  /** Reads an optionally negative decimal integer; anything else is refused. */
  function ParseInt(s: string): Option<int>
  {
    if |s| >= 2 && s[0] == '-' && AllDigits(s[1..]) then Some(-(DigitsValue(s[1..]) as int))
    else if |s| >= 1 && AllDigits(s) then Some(DigitsValue(s))
    else None
  }

  lemma {:induction false} NatTextDigits(n: nat)
    ensures AllDigits(NatText(n)) && DigitsValue(NatText(n)) == n
    decreases n
  {
    if n >= 10 {
      NatTextDigits(n / 10);
      var s := NatText(n);
      assert s[..|s| - 1] == NatText(n / 10);
    }
  }

  /** Reading back the text of an integer gives the integer. */
  lemma IntTextRoundTrip(i: int)
    ensures ParseInt(IntText(i)) == Some(i)
    ensures ' ' !in IntText(i)
  {
    var digits := NatText(if i < 0 then -i else i);
    NatTextDigits(if i < 0 then -i else i);
    DigitsWithoutSpace(digits);
    if i < 0 {
      NegativeRoundTrip(digits);
    } else {
      assert IsDigit(digits[0]);
    }
  }

  lemma DigitsWithoutSpace(s: string)
    requires AllDigits(s)
    ensures ' ' !in s
  {
  }

  /** A minus sign followed by digits reads as the negated value, and holds no space. */
  lemma NegativeRoundTrip(digits: string)
    requires |digits| >= 1 && AllDigits(digits) && ' ' !in digits
    ensures ParseInt("-" + digits) == Some(-(DigitsValue(digits) as int))
    ensures ' ' !in "-" + digits
  {
    assert ("-" + digits)[1..] == digits;
  }

  /** The elements' texts separated by single spaces. */
  function Joined(p: seq<int>): string
    requires |p| >= 1
  {
    if |p| == 1 then IntText(p[0]) else IntText(p[0]) + " " + Joined(p[1..])
  }

  /**
   * The text path_to_string returns, as written: "[" then the elements
   * separated by spaces then "]". For the empty list, dropping the last
   * character removes the "[" itself and only "]" remains.
   */
  function PathText(p: seq<int>): string
  {
    if |p| == 0 then "]" else "[" + Joined(p) + "]"
  }

  /**
   * What the loop of path_to_string has built after the elements of p: "["
   * followed by each element's text and a space.
   */
  function Built(p: seq<int>): string
  {
    if |p| == 0 then "[" else Built(p[..|p| - 1]) + IntText(p[|p| - 1]) + " "
  }

  /** Regrouping of a concatenation, kept apart so that the inductive proofs below stay small. */
  lemma RegroupSpace(a: string, b: string, c: string)
    ensures a + (b + " " + c) == a + b + " " + c
  {
  }

  /** The last element's text comes after the others', separated by a space. */
  lemma {:induction false} JoinedLast(p: seq<int>)
    requires |p| >= 2
    ensures Joined(p) == Joined(p[..|p| - 1]) + " " + IntText(p[|p| - 1])
  {
    var front := p[..|p| - 1];
    assert front[0] == p[0];
    if |p| == 2 {
      assert front == [p[0]];
    } else {
      JoinedLast(p[1..]);
      assert p[1..][..|p| - 2] == front[1..];
      RegroupSpace(IntText(p[0]) + " ", Joined(front[1..]), IntText(p[|p| - 1]));
    }
  }

  lemma {:induction false} BuiltJoined(p: seq<int>)
    requires |p| >= 1
    ensures Built(p) == "[" + Joined(p) + " "
  {
    var front := p[..|p| - 1];
    if |p| == 1 {
      assert front == [];
    } else {
      BuiltJoined(front);
      JoinedLast(p);
      RegroupSpace("[", Joined(front), IntText(p[|p| - 1]));
    }
  }

  /** One more element of the path: its text and a space are appended. */
  lemma BuiltNext(path: seq<int>, i: nat, nextI: nat, built: string, nextBuilt: string)
    requires nextI == i + 1 && nextI <= |path|
    requires built == Built(path[..i]) && nextBuilt == built + IntText(path[i]) + " "
    ensures nextBuilt == Built(path[..nextI])
  {
    assert path[..nextI][..i] == path[..i];
  }

  /** Dropping the last character of what the loop built, then closing the bracket, gives PathText. */
  lemma BuiltClose(path: seq<int>, built: string)
    requires built == Built(path[..|path|])
    ensures |built| >= 1 && built[..|built| - 1] + "]" == PathText(path)
  {
    assert path[..|path|] == path;
    if |path| > 0 {
      BuiltJoined(path);
      assert built[..|built| - 1] == "[" + Joined(path);
    }
  }

  /** path_to_string: builds the text element by element, then drops the trailing space and closes the bracket. */
  method PathToString(path: seq<int>) returns (output: string)
    ensures output == PathText(path)
  {
    output := "[";
    var i := 0;
    while i < |path|
      invariant 0 <= i <= |path|
      invariant output == Built(path[..i])
    {
      ghost var previous, before := i, output;
      output := output + IntText(path[i]) + " ";
      i := i + 1;
      BuiltNext(path, previous, i, before, output);
    }
    BuiltClose(path, output);
    output := output[..|output| - 1];
    output := output + "]";
  }

  /** The pieces of s between single spaces (one more piece than there are spaces). */
  function Words(s: string): (ws: seq<string>)
    ensures |ws| >= 1
  {
    if |s| == 0 then [""]
    else
      var rest := Words(s[1..]);
      if s[0] == ' ' then [""] + rest else [[s[0]] + rest[0]] + rest[1..]
  }

  lemma {:induction false} WordsOfWord(w: string)
    requires ' ' !in w
    ensures Words(w) == [w]
  {
    if |w| > 0 {
      WordsOfWord(w[1..]);
      assert [w[0]] + w[1..] == w;
    }
  }

  lemma {:induction false} WordsSplit(w: string, t: string)
    requires ' ' !in w
    ensures Words(w + " " + t) == [w] + Words(t)
  {
    if |w| > 0 {
      assert (w + " " + t)[1..] == w[1..] + " " + t;
      WordsSplit(w[1..], t);
      assert [w[0]] + w[1..] == w;
    } else {
      assert (w + " " + t)[1..] == t;
    }
  }

  /** Parses each piece as an integer; refuses the whole list if one piece is not an integer. */
  function ParseAll(ws: seq<string>): Option<seq<int>>
  {
    if |ws| == 0 then Some([])
    else
      var first := ParseInt(ws[0]);
      var rest := ParseAll(ws[1..]);
      if first.Some? && rest.Some? then Some([first.value] + rest.value) else None
  }

  /** Reads "[v0 v1 ... vn]"; "[]" is the empty path. */
  function ParsePath(s: string): Option<seq<int>>
  {
    if |s| >= 2 && s[0] == '[' && s[|s| - 1] == ']' then
      var inner := s[1..|s| - 1];
      if inner == "" then Some([]) else ParseAll(Words(inner))
    else None
  }

  lemma {:induction false} ParseJoined(p: seq<int>)
    requires |p| >= 1
    ensures ParseAll(Words(Joined(p))) == Some(p)
  {
    IntTextRoundTrip(p[0]);
    var w := IntText(p[0]);
    if |p| == 1 {
      WordsOfWord(w);
      assert [w][1..] == [];
      assert ParseAll([w][1..]) == Some([]);
      assert [p[0]] + [] == p;
    } else {
      WordsSplit(IntText(p[0]), Joined(p[1..]));
      ParseJoined(p[1..]);
      assert [p[0]] + p[1..] == p;
    }
  }

  /** Every non-empty path is read back from the text path_to_string gives for it. */
  lemma PathTextRoundTrip(p: seq<int>)
    requires |p| >= 1
    ensures ParsePath(PathText(p)) == Some(p)
  {
    var s := PathText(p);
    assert s[1..|s| - 1] == Joined(p);
    ParseJoined(p);
  }

  /** The empty path's text, "]", is not even bracketed: nothing reads it back. */
  lemma EmptyPathText()
    ensures PathText([]) == "]" && ParsePath(PathText([])) == None
  {
  }

  /** The bracketed text the format calls for, also for the empty path. */
  function BracketedText(p: seq<int>): (s: string)
    ensures |p| >= 1 ==> s == PathText(p)
  {
    if |p| == 0 then "[]" else "[" + Joined(p) + "]"
  }

  /** Every path, the empty one included, is read back from its bracketed text. */
  lemma BracketedTextRoundTrip(p: seq<int>)
    ensures ParsePath(BracketedText(p)) == Some(p)
  {
    if |p| >= 1 {
      PathTextRoundTrip(p);
    }
  }
}

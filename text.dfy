/** The JavaScript string operations the player relies on: splitting on
    newlines, `trim`, decimal digits, `parseInt(_, 10)` on digit runs and
    the decimal rendering of a non-negative integer in a template string. */
module Text {

  /** Joins lines with a '\n' between each two: the inverse of SplitLines. */
  function JoinLines(lines: seq<string>): string
  {
    if |lines| == 0 then []
    else if |lines| == 1 then lines[0]
    else lines[0] + "\n" + JoinLines(lines[1..])
  }

  /** `s.split('\n')`: the pieces between newlines, in order; joining them
      back gives the text. */
  function SplitLines(s: string): (lines: seq<string>)
    ensures forall i :: 0 <= i < |lines| ==> '\n' !in lines[i]
    ensures JoinLines(lines) == s
  {
    if s == [] then [[]]
    else
      var rest := SplitLines(s[1..]);
      assert s == [s[0]] + s[1..];
      if s[0] == '\n' then
        JoinPrependsEmpty(rest);
        [[]] + rest
      else
        JoinExtendsFirst(s[0], rest);
        [[s[0]] + rest[0]] + rest[1..]
  }

  /** There is always at least one piece, and one more than there are
      newlines. */
  lemma {:induction false} SplitLinesCount(s: string)
    ensures |SplitLines(s)| == multiset(s)['\n'] + 1
  {
    if s != [] {
      SplitLinesCount(s[1..]);
      assert s == [s[0]] + s[1..];
      assert multiset(s) == multiset{s[0]} + multiset(s[1..]);
    }
  }

  /** A new empty first line puts a newline in front of the joined text. */
  lemma JoinPrependsEmpty(lines: seq<string>)
    requires |lines| >= 1
    ensures JoinLines([[]] + lines) == "\n" + JoinLines(lines)
  {
    assert ([[]] + lines)[1..] == lines;
  }

  /** Putting a character in front of the first line puts it in front of
      the joined text. */
  lemma JoinExtendsFirst(c: char, lines: seq<string>)
    requires |lines| >= 1
    ensures JoinLines([[c] + lines[0]] + lines[1..]) == [c] + JoinLines(lines)
  {
    var longer := [[c] + lines[0]] + lines[1..];
    assert longer[0] == [c] + lines[0];
    if |lines| > 1 {
      var rest := JoinLines(lines[1..]);
      assert longer[1..] == lines[1..];
      Regroup([c], lines[0], "\n", rest);
    }
  }

  /** Concatenation is associative, in the grouping JoinLines uses. */
  lemma Regroup(a: string, x: string, y: string, z: string)
    ensures a + x + y + z == a + (x + y + z)
  {
  }

  /** The whitespace characters beyond ASCII. */
  const WideWhitespace: seq<char> := [
    '\U{00A0}', '\U{1680}',
    '\U{2000}', '\U{2001}', '\U{2002}', '\U{2003}', '\U{2004}', '\U{2005}',
    '\U{2006}', '\U{2007}', '\U{2008}', '\U{2009}', '\U{200A}',
    '\U{2028}', '\U{2029}', '\U{202F}', '\U{205F}', '\U{3000}', '\U{FEFF}'
  ]

  /** `c` is one of `chars`. */
  predicate OneOf(c: char, chars: seq<char>)
  {
    chars != [] && (c == chars[0] || OneOf(c, chars[1..]))
  }

  /** The characters `String.prototype.trim` removes: ECMAScript's
      WhiteSpace (tab, vertical tab, form feed, space, no-break space, the
      other space separators and the byte order mark) and LineTerminator
      (LF, CR, line and paragraph separators). No ASCII character other
      than tab, LF, VT, FF, CR and space is among them. */
  function IsWhitespace(c: char): (w: bool)
    ensures c <= '\U{007F}' ==> (w <==> c == ' ' || '\t' <= c <= '\r')
  {
    if c <= ' ' then c == ' ' || '\t' <= c <= '\r'
    else if c < '\U{00A0}' then false
    else OneOf(c, WideWhitespace)
  }

  /** The characters `trim` removes, listed as ECMAScript lists them:
      tab, vertical tab, form feed, space, no-break space, the byte order
      mark and the other space separators (WhiteSpace), then LF, CR and the
      line and paragraph separators (LineTerminator). */
  const TrimmedChars: set<char> := {
    '\t', '\U{000B}', '\U{000C}', ' ', '\U{00A0}', '\U{FEFF}',
    '\U{1680}', '\U{2000}', '\U{2001}', '\U{2002}', '\U{2003}', '\U{2004}', '\U{2005}',
    '\U{2006}', '\U{2007}', '\U{2008}', '\U{2009}', '\U{200A}', '\U{202F}', '\U{205F}', '\U{3000}',
    '\n', '\r', '\U{2028}', '\U{2029}'
  }

  /** IsWhitespace holds of exactly the listed characters. */
  lemma WhitespaceIsTrimmedChars(c: char)
    ensures IsWhitespace(c) <==> c in TrimmedChars
  {
    if c > ' ' && c >= '\U{00A0}' {
      OneOfIn(c, WideWhitespace);
    }
  }

  lemma {:induction false} OneOfIn(c: char, chars: seq<char>)
    ensures OneOf(c, chars) <==> c in chars
  {
    if chars != [] {
      OneOfIn(c, chars[1..]);
      assert chars == [chars[0]] + chars[1..];
    }
  }

  predicate AllWhitespace(s: string)
  {
    forall i :: 0 <= i < |s| ==> IsWhitespace(s[i])
  }

  /** A string `trim` leaves as it is: no whitespace at either end. */
  predicate Trimmed(s: string)
  {
    s != [] ==> !IsWhitespace(s[0]) && !IsWhitespace(s[|s| - 1])
  }

  /** Where `trim` starts keeping characters. */
  function TrimStart(s: string): (a: nat)
    ensures a <= |s|
    ensures forall i :: 0 <= i < a ==> IsWhitespace(s[i])
    ensures a < |s| ==> !IsWhitespace(s[a])
  {
    if s == [] || !IsWhitespace(s[0]) then 0
    else 1 + TrimStart(s[1..])
  }

  /** Where `trim` stops keeping characters. */
  function TrimEnd(s: string): (b: nat)
    ensures b <= |s|
    ensures forall i :: b <= i < |s| ==> IsWhitespace(s[i])
    ensures b > 0 ==> !IsWhitespace(s[b - 1])
  {
    if s == [] || !IsWhitespace(s[|s| - 1]) then |s|
    else TrimEnd(s[..|s| - 1])
  }

  /** `s.trim()`: the string with whitespace removed from both ends. When
      not empty, it is the part of `s` between a whitespace prefix and a
      whitespace suffix (and it is empty exactly when `s` is all
      whitespace: TrimEmpty). */
  function Trim(s: string): (r: string)
    ensures Trimmed(r)
    ensures r != [] ==> TrimStart(s) + |r| == TrimEnd(s) && r == s[TrimStart(s)..TrimEnd(s)]
  {
    var a, b := TrimStart(s), TrimEnd(s);
    if a < b then s[a..b] else []
  }

  /** Trimming leaves nothing exactly when the text is all whitespace. */
  lemma TrimEmpty(s: string)
    ensures Trim(s) == [] <==> AllWhitespace(s)
  {
    if !AllWhitespace(s) {
      var i :| 0 <= i < |s| && !IsWhitespace(s[i]);
      TrimKeepsInterior(s, i, i + 1);
    }
  }

  /** Trimming a text whose characters `i` and `j - 1` are not whitespace
      keeps `s[i..j]` whole: it is cut from the slice `s[a..b]` with
      `a <= i` and `j <= b`. */
  lemma TrimKeepsInterior(s: string, i: nat, j: nat)
    requires i < j <= |s|
    requires !IsWhitespace(s[i]) && !IsWhitespace(s[j - 1])
    ensures TrimStart(s) <= i && j <= TrimEnd(s)
    ensures Trim(s) == s[TrimStart(s)..TrimEnd(s)]
  {
  }

  // ---- decimal digits ----

  predicate IsDigit(c: char)
  {
    '0' <= c <= '9'
  }

  predicate AllDigits(s: string)
  {
    forall i :: 0 <= i < |s| ==> IsDigit(s[i])
  }

  function DigitValue(c: char): (d: nat)
    requires IsDigit(c)
    ensures d < 10
  {
    c as int - '0' as int
  }

  function DigitChar(d: nat): (c: char)
    requires d < 10
    ensures IsDigit(c) && DigitValue(c) == d
  {
    ('0' as int + d) as char
  }

  function Pow10(k: nat): (p: nat)
    ensures p >= 1
  {
    if k == 0 then 1 else 10 * Pow10(k - 1)
  }

  /** `parseInt(s, 10)` for a run of decimal digits. */
  function ParseDecimal(s: string): (n: nat)
    requires AllDigits(s)
    ensures n < Pow10(|s|)
  {
    if s == [] then 0
    else ParseDecimal(s[..|s| - 1]) * 10 + DigitValue(s[|s| - 1])
  }

  /** `n` written with exactly `k` digits, zero-padded on the left. */
  function Padded(n: nat, k: nat): (s: string)
    ensures |s| == k && AllDigits(s)
  {
    if k == 0 then [] else Padded(n / 10, k - 1) + [DigitChar(n % 10)]
  }

  /** Two-digit padding, digit by digit. */
  lemma PaddedTwo(n: nat)
    ensures Padded(n, 2) == [DigitChar(n / 10 % 10), DigitChar(n % 10)]
  {
    assert Padded(n / 10, 1) == [DigitChar(n / 10 % 10)];
  }

  /** Three-digit padding, digit by digit. */
  lemma PaddedThree(n: nat)
    ensures Padded(n, 3) == [DigitChar(n / 100 % 10), DigitChar(n / 10 % 10), DigitChar(n % 10)]
  {
    PaddedTwo(n / 10);
    assert n / 10 / 10 == n / 100;
  }

  /** Reading a padded number back gives the number, when it fits. */
  lemma {:induction false} ParsePadded(n: nat, k: nat)
    requires n < Pow10(k)
    ensures ParseDecimal(Padded(n, k)) == n
  {
    if k > 0 {
      var s := Padded(n, k);
      assert s[..k - 1] == Padded(n / 10, k - 1);
      ParsePadded(n / 10, k - 1);
    }
  }

  /** Appending digit `d` to the digits of `q` gives `q * 10 + d`, whose
      last digit is `d` and whose other digits are those of `q`. */
  lemma LastDigit(q: nat, d: nat)
    requires d < 10
    ensures (q * 10 + d) / 10 == q && (q * 10 + d) % 10 == d
  {
  }

  /** Padding a parsed digit run to its own width gives the run back. */
  lemma {:induction false} PadParsed(s: string)
    requires AllDigits(s)
    ensures Padded(ParseDecimal(s), |s|) == s
  {
    if s != [] {
      var init, n := s[..|s| - 1], ParseDecimal(s);
      LastDigit(ParseDecimal(init), DigitValue(s[|s| - 1]));
      PadParsed(init);
      assert s == init + [s[|s| - 1]];
    }
  }

  /** The decimal rendering of `n` as `${n}` gives it: no leading zero
      unless the number is 0 itself. */
  function DecimalString(n: nat): (s: string)
    ensures s != [] && AllDigits(s)
    ensures s[0] == '0' ==> s == "0"
    ensures ParseDecimal(s) == n
  {
    if n < 10 then [DigitChar(n)]
    else
      var s := DecimalString(n / 10) + [DigitChar(n % 10)];
      assert s[..|s| - 1] == DecimalString(n / 10);
      s
  }

  /** A digit run whose value is 0 is all zeros. */
  lemma {:induction false} ParseZero(s: string)
    requires AllDigits(s) && ParseDecimal(s) == 0
    ensures forall i :: 0 <= i < |s| ==> s[i] == '0'
  {
    if s != [] {
      var init := s[..|s| - 1];
      ParseZero(init);
      assert forall i :: 0 <= i < |init| ==> s[i] == init[i];
    }
  }

  /** DecimalString is the only way to write a number without leading
      zeros: a digit run with no leading zero (other than "0" itself) is
      the rendering of its own value. */
  lemma {:induction false} DecimalStringUnique(s: string)
    requires s != [] && AllDigits(s) && (s[0] == '0' ==> s == "0")
    ensures DecimalString(ParseDecimal(s)) == s
  {
    var n := ParseDecimal(s);
    if |s| == 1 {
      assert n == DigitValue(s[0]);
    } else {
      var init := s[..|s| - 1];
      assert init[0] == s[0];
      if ParseDecimal(init) == 0 {
        ParseZero(init);
        assert false;
      }
      DecimalStringUnique(init);
      LastDigit(ParseDecimal(init), DigitValue(s[|s| - 1]));
      assert s == init + [s[|s| - 1]];
    }
  }
}

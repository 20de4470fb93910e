/**
 * The pieces of Python's string handling that the resolver relies on:
 * str.strip(), str.split() with no separator, int() on a decimal string,
 * str() of an integer and left-aligned padding in a format specification.
 * The C side's decimal `%lu` / `%zu` output is the same text as Decimal.
 */
module Text {

  import opened Wrappers

  /** Python's str.isspace() for a single character. */
  predicate IsSpace(c: char) {
    var n := c as int;
    n == 0x20 || 0x09 <= n <= 0x0D || 0x1C <= n <= 0x1F || n == 0x85 || n == 0xA0
    || n == 0x1680 || 0x2000 <= n <= 0x200A || n == 0x2028 || n == 0x2029
    || n == 0x202F || n == 0x205F || n == 0x3000
  }

  /** A non-empty run of characters none of which is white space. */
  predicate IsToken(s: string) {
    |s| > 0 && forall i :: 0 <= i < |s| ==> !IsSpace(s[i])
  }

  predicate IsDigit(c: char) {
    '0' <= c <= '9'
  }

  // ---------------------------------------------------------------------------
  // str.strip()
  // ---------------------------------------------------------------------------

  function TrimStart(s: string): (r: string)
    ensures |r| <= |s|
    ensures r == [] || !IsSpace(r[0])
  {
    if s == [] || !IsSpace(s[0]) then s else TrimStart(s[1..])
  }

  function TrimEnd(s: string): (r: string)
    ensures |r| <= |s|
  {
    if s == [] || !IsSpace(s[|s| - 1]) then s else TrimEnd(s[..|s| - 1])
  }

  /** str.strip(): drop white space at both ends. */
  function Strip(s: string): string
  {
    TrimEnd(TrimStart(s))
  }

  /** TrimStart removes exactly the leading white space. */
  lemma {:induction false} TrimStartRemovesLeadingSpace(s: string)
    ensures var r := TrimStart(s);
      && r == s[|s| - |r|..]
      && forall i :: 0 <= i < |s| - |r| ==> IsSpace(s[i])
  {
    if s != [] && IsSpace(s[0]) {
      TrimStartRemovesLeadingSpace(s[1..]);
    }
  }

  /** TrimEnd removes exactly the trailing white space. */
  lemma {:induction false} TrimEndRemovesTrailingSpace(s: string)
    ensures var r := TrimEnd(s);
      && r == s[..|r|]
      && (r == [] || !IsSpace(r[|r| - 1]))
      && forall i :: |r| <= i < |s| ==> IsSpace(s[i])
  {
    if s != [] && IsSpace(s[|s| - 1]) {
      TrimEndRemovesTrailingSpace(s[..|s| - 1]);
    }
  }

  /** s[lo..hi] is what is left of `s` once white space at both ends is cut off. */
  predicate TrimmedSlice(s: string, lo: int, hi: int) {
    && 0 <= lo <= hi <= |s|
    && (forall i :: 0 <= i < lo ==> IsSpace(s[i]))
    && (forall i :: hi <= i < |s| ==> IsSpace(s[i]))
    && (lo == hi || (!IsSpace(s[lo]) && !IsSpace(s[hi - 1])))
  }

  /**
   * str.strip() returns the slice of `s` left once the white space at both
   * ends is removed; what remains neither starts nor ends with white space.
   */
  lemma {:induction false} StripIsTrimmedSlice(s: string)
    ensures exists lo, hi :: TrimmedSlice(s, lo, hi) && Strip(s) == s[lo..hi]
  {
    var t := TrimStart(s);
    var r := TrimEnd(t);
    TrimStartRemovesLeadingSpace(s);
    TrimEndRemovesTrailingSpace(t);
    var lo := |s| - |t|;
    var hi := lo + |r|;
    SliceOfSlice(s, lo, t, r);
    assert TrimmedSlice(s, lo, hi);
  }

  lemma {:induction false} SliceOfSlice(s: string, lo: nat, t: string, r: string)
    requires lo <= |s| && t == s[lo..]
    requires |r| <= |t| && r == t[..|r|]
    requires forall i :: |r| <= i < |t| ==> IsSpace(t[i])
    ensures r == s[lo..lo + |r|]
    ensures forall i :: lo + |r| <= i < |s| ==> IsSpace(s[i])
  {
    forall i | lo + |r| <= i < |s| ensures IsSpace(s[i]) {
      assert s[i] == t[i - lo];
    }
  }

  lemma {:induction false} StripKeepsInnerText(s: string)
    requires s == [] || (!IsSpace(s[0]) && !IsSpace(s[|s| - 1]))
    ensures Strip(s) == s
  {
  }

  lemma {:induction false} TrimEndDropsTrailingSpace(s: string, c: char)
    requires IsSpace(c)
    ensures TrimEnd(s + [c]) == TrimEnd(s)
  {
    assert (s + [c])[..|s|] == s;
  }

  // ---------------------------------------------------------------------------
  // str.split() with no separator
  // ---------------------------------------------------------------------------

  /** Length of the leading run of non-space characters. */
  function WordLength(s: string): (n: nat)
    ensures n <= |s|
    ensures forall i :: 0 <= i < n ==> !IsSpace(s[i])
    ensures n == |s| || IsSpace(s[n])
  {
    if s == [] || IsSpace(s[0]) then 0 else 1 + WordLength(s[1..])
  }

  /** str.split(): the maximal runs of non-space characters, in order. */
  function Split(s: string): seq<string>
    decreases |s|
  {
    var t := TrimStart(s);
    if t == [] then []
    else
      var n := WordLength(t);
      [t[..n]] + Split(t[n..])
  }

  /** Every field str.split() returns is a non-empty run of non-space characters. */
  lemma {:induction false} SplitGivesTokens(s: string)
    ensures forall i :: 0 <= i < |Split(s)| ==> IsToken(Split(s)[i])
    decreases |s|
  {
    var t := TrimStart(s);
    if t != [] {
      var n := WordLength(t);
      var w := t[..n];
      assert IsToken(w) by {
        assert forall i :: 0 <= i < n ==> w[i] == t[i];
      }
      SplitGivesTokens(t[n..]);
    }
  }

  lemma {:induction false} WordLengthOfToken(w: string, rest: string)
    requires IsToken(w)
    requires rest == [] || IsSpace(rest[0])
    ensures WordLength(w + rest) == |w|
    decreases |w|
  {
    if |w| > 1 {
      assert (w + rest)[1..] == w[1..] + rest;
      WordLengthOfToken(w[1..], rest);
    } else {
      assert (w + rest)[1..] == rest;
    }
  }

  lemma {:induction false} SplitSkipsLeadingSpace(c: char, s: string)
    requires IsSpace(c)
    ensures Split([c] + s) == Split(s)
  {
    assert ([c] + s)[1..] == s;
  }

  /** Joining tokens with single spaces: the shape of one raw record line. */
  function JoinWithSpaces(ws: seq<string>): string
  {
    if ws == [] then [] else if |ws| == 1 then ws[0] else ws[0] + " " + JoinWithSpaces(ws[1..])
  }

  lemma {:induction false} SplitToken(w: string)
    requires IsToken(w)
    ensures Split(w) == [w]
  {
    WordLengthOfToken(w, []);
    assert w + [] == w;
    assert TrimStart(w) == w;
    assert w[..|w|] == w && w[|w|..] == [];
  }

  lemma {:induction false} SplitTokenSpace(w: string, rest: string)
    requires IsToken(w)
    ensures Split(w + " " + rest) == [w] + Split(rest)
  {
    var s := w + " " + rest;
    assert s == w + ([' '] + rest);
    WordLengthOfToken(w, [' '] + rest);
    assert TrimStart(s) == s;
    assert s[..|w|] == w;
    assert s[|w|..] == [' '] + rest;
    SplitSkipsLeadingSpace(' ', rest);
  }

  /** str.split() undoes joining tokens with single spaces. */
  lemma {:induction false} SplitJoin(ws: seq<string>)
    requires forall i :: 0 <= i < |ws| ==> IsToken(ws[i])
    ensures Split(JoinWithSpaces(ws)) == ws
  {
    if ws == [] {
    } else if |ws| == 1 {
      SplitToken(ws[0]);
    } else {
      SplitTokenSpace(ws[0], JoinWithSpaces(ws[1..]));
      SplitJoin(ws[1..]);
      assert [ws[0]] + ws[1..] == ws;
    }
  }

  lemma {:induction false} JoinedTokensAreTrimmed(ws: seq<string>)
    requires |ws| > 0
    requires forall i :: 0 <= i < |ws| ==> IsToken(ws[i])
    ensures var s := JoinWithSpaces(ws); |s| > 0 && !IsSpace(s[0]) && !IsSpace(s[|s| - 1])
  {
    if |ws| > 1 {
      JoinedTokensAreTrimmed(ws[1..]);
      var s := JoinWithSpaces(ws);
      assert s[|s| - 1] == JoinWithSpaces(ws[1..])[|JoinWithSpaces(ws[1..])| - 1];
    }
  }

  // ---------------------------------------------------------------------------
  // Decimal text of naturals and integers (C's %lu / %zu, Python's str())
  // ---------------------------------------------------------------------------

  function DigitChar(d: nat): (c: char)
    requires d < 10
    ensures IsDigit(c) && (c as int) - ('0' as int) == d
  {
    ('0' as int + d) as char
  }

  function Decimal(n: nat): (s: string)
  {
    if n < 10 then [DigitChar(n)] else Decimal(n / 10) + [DigitChar(n % 10)]
  }

  /** str() of a Python int: a minus sign before the magnitude when negative. */
  function IntToString(i: int): string
  {
    if i < 0 then "-" + Decimal(-i) else Decimal(i)
  }

  // ---------------------------------------------------------------------------
  // int() on a base-10 string
  // ---------------------------------------------------------------------------

  /**
   * The digit part that Python's int() accepts in base 10 (ASCII digits only):
   * digits, optionally separated by single underscores, starting and ending
   * with a digit. Leading zeros are allowed.
   */
  predicate WellFormedDigits(s: string) {
    && |s| > 0 && IsDigit(s[0]) && IsDigit(s[|s| - 1])
    && (forall i :: 0 <= i < |s| ==> IsDigit(s[i]) || s[i] == '_')
    && NoDoubleUnderscore(s)
  }

  predicate NoDoubleUnderscore(s: string) {
    |s| < 2 || (!(s[0] == '_' && s[1] == '_') && NoDoubleUnderscore(s[1..]))
  }

  lemma {:induction false} DigitsHaveNoDoubleUnderscore(s: string)
    requires forall i :: 0 <= i < |s| ==> IsDigit(s[i])
    ensures NoDoubleUnderscore(s)
  {
    if |s| >= 2 {
      DigitsHaveNoDoubleUnderscore(s[1..]);
    }
  }

  /** Value of the digits in `s`, underscores ignored. */
  function DigitsValue(s: string): nat
  {
    if s == [] then 0
    else
      var c := s[|s| - 1];
      if IsDigit(c) then DigitsValue(s[..|s| - 1]) * 10 + ((c as int) - ('0' as int))
      else DigitsValue(s[..|s| - 1])
  }

  /**
   * int(s) for a token `s`: an optional sign followed by well-formed digits;
   * anything else raises ValueError, modelled as None.
   */
  function ParseInt(s: string): (r: Option<int>)
    ensures r.Some? ==> |s| > 0
  {
    if |s| > 0 && (s[0] == '+' || s[0] == '-') then
      if WellFormedDigits(s[1..]) then
        var v: int := DigitsValue(s[1..]);
        Some(if s[0] == '-' then -v else v)
      else None
    else if WellFormedDigits(s) then Some(DigitsValue(s))
    else None
  }

  lemma {:induction false} DecimalDigits(n: nat)
    ensures var s := Decimal(n); |s| > 0 && forall i :: 0 <= i < |s| ==> IsDigit(s[i])
    ensures WellFormedDigits(Decimal(n))
    ensures DigitsValue(Decimal(n)) == n
  {
    if n >= 10 {
      DecimalDigits(n / 10);
      var s := Decimal(n);
      assert s[..|s| - 1] == Decimal(n / 10);
    }
    DigitsHaveNoDoubleUnderscore(Decimal(n));
  }

  lemma {:induction false} DecimalIsToken(n: nat)
    ensures IsToken(Decimal(n))
  {
    DecimalDigits(n);
  }

  /** int() reads back the decimal text of every natural number. */
  lemma {:induction false} ParseDecimal(n: nat)
    ensures ParseInt(Decimal(n)) == Some(n)
  {
    DecimalDigits(n);
  }

  /** int() reads back str() of every integer, negative ones included. */
  lemma {:induction false} ParseIntToString(i: int)
    ensures ParseInt(IntToString(i)) == Some(i)
  {
    var m := if i < 0 then -i else i;
    DecimalDigits(m);
    if i < 0 {
      assert IntToString(i)[1..] == Decimal(m);
    }
  }

  // ---------------------------------------------------------------------------
  // f"{s:<{w}}"
  // ---------------------------------------------------------------------------

  function Spaces(n: nat): (r: string)
    ensures |r| == n && forall i :: 0 <= i < n ==> r[i] == ' '
  {
    if n == 0 then [] else Spaces(n - 1) + [' ']
  }

  /** Left alignment in a field of width `w`: pad with spaces, never truncate. */
  function PadRight(s: string, w: nat): (r: string)
    ensures |r| == if |s| < w then w else |s|
    ensures r[..|s|] == s
    ensures forall i :: |s| <= i < |r| ==> r[i] == ' '
  {
    if |s| < w then s + Spaces(w - |s|) else s
  }
}

/** The string operations the tracker applies to typed input: str.isdigit,
    int(), str.lower, str.strip, str.replace(".", "", 1) and the float() parse
    behind an amount, all restricted to ASCII. */
module Text {
  import opened Common

  predicate IsDigit(c: char) { '0' <= c <= '9' }

  predicate AllDigits(s: string) { forall i :: 0 <= i < |s| ==> IsDigit(s[i]) }

  /** str.isdigit: non-empty and every character a decimal digit. */
  predicate IsDigits(s: string) { |s| > 0 && AllDigits(s) }

  /** int(s) for a string of decimal digits; leading zeros are allowed. */
  function DigitsValue(s: string): nat
    requires AllDigits(s)
  {
    if s == [] then 0 else 10 * DigitsValue(s[..|s| - 1]) + (s[|s| - 1] as int - '0' as int)
  }

  function LowerChar(c: char): char
  {
    if 'A' <= c <= 'Z' then (c as int + 32) as char else c
  }

  /** str.lower on ASCII letters. */
  function Lower(s: string): (r: string)
    ensures |r| == |s|
    ensures forall i :: 0 <= i < |s| ==> r[i] == LowerChar(s[i])
  {
    seq(|s|, i requires 0 <= i < |s| => LowerChar(s[i]))
  }

  /** Comparing the lowered text with a lower-case word accepts the word in
      every mix of letter cases, and nothing else. */
  lemma LowerMatchesLowercase(s: string, word: string)
    requires forall i :: 0 <= i < |word| ==> 'a' <= word[i] <= 'z'
    ensures Lower(s) == word <==>
              |s| == |word| && forall i :: 0 <= i < |s| ==> s[i] == word[i] || s[i] as int == word[i] as int - 32
  {
    if |s| == |word| && forall i :: 0 <= i < |s| ==> s[i] == word[i] || s[i] as int == word[i] as int - 32 {
      forall i | 0 <= i < |s| ensures Lower(s)[i] == word[i] {
        assert LowerChar(s[i]) == word[i];
      }
    }
    if Lower(s) == word {
      forall i | 0 <= i < |s| ensures s[i] == word[i] || s[i] as int == word[i] as int - 32 {
        assert LowerChar(s[i]) == word[i];
      }
    }
  }

  /** The ASCII characters str.strip removes: space, \t \n \v \f \r and \x1c-\x1f. */
  predicate IsSpace(c: char)
  {
    c as int == 32 || 9 <= c as int <= 13 || 28 <= c as int <= 31
  }

  function StripLeft(s: string): string
  {
    if s != [] && IsSpace(s[0]) then StripLeft(s[1..]) else s
  }

  function StripRight(s: string): string
  {
    if s != [] && IsSpace(s[|s| - 1]) then StripRight(s[..|s| - 1]) else s
  }

  /** str.strip: the text left after removing leading and trailing white space. */
  function Strip(s: string): string
  {
    StripRight(StripLeft(s))
  }

  /** lstrip removes a prefix of white space and stops at the first other character. */
  lemma {:induction false} StripLeftMeaning(s: string)
    ensures var r := StripLeft(s);
            |r| <= |s| && r == s[|s| - |r|..] && (r == [] || !IsSpace(r[0])) &&
            forall i :: 0 <= i < |s| - |r| ==> IsSpace(s[i])
    decreases |s|
  {
    if s != [] && IsSpace(s[0]) {
      StripLeftMeaning(s[1..]);
    }
  }

  /** rstrip removes a suffix of white space and stops at the last other character. */
  lemma {:induction false} StripRightMeaning(s: string)
    ensures var r := StripRight(s);
            |r| <= |s| && r == s[..|r|] && (r == [] || !IsSpace(r[|r| - 1])) &&
            forall i :: |r| <= i < |s| ==> IsSpace(s[i])
    decreases |s|
  {
    if s != [] && IsSpace(s[|s| - 1]) {
      var t := s[..|s| - 1];
      StripRightMeaning(t);
      var r := StripRight(t);
      assert r == s[..|r|];
    }
  }

  /** strip leaves text that neither starts nor ends with white space, and it
      is empty exactly when the text is white space only. */
  lemma StripMeaning(s: string)
    ensures var r := Strip(s);
            |r| <= |s| && (r == [] <==> forall i :: 0 <= i < |s| ==> IsSpace(s[i])) &&
            (r == [] || (!IsSpace(r[0]) && !IsSpace(r[|r| - 1])))
  {
    StripLeftMeaning(s);
    var l := StripLeft(s);
    StripRightMeaning(l);
    var r := StripRight(l);
    if r == [] {
      assert l == [];
    } else {
      assert r[0] == l[0];
    }
  }

  /** s.replace(c, "", 1): the text without its first occurrence of c. */
  function RemoveFirst(s: string, c: char): (r: string)
    ensures c in s ==> |r| == |s| - 1
    ensures c !in s ==> r == s
  {
    if s == [] then [] else if s[0] == c then s[1..] else [s[0]] + RemoveFirst(s[1..], c)
  }

  /** The position of the first '.', or |s| when there is none. */
  function DotIndex(s: string): (d: nat)
    ensures d <= |s|
    ensures forall i :: 0 <= i < d ==> s[i] != '.'
    ensures d < |s| ==> s[d] == '.'
  {
    if s == [] || s[0] == '.' then 0 else 1 + DotIndex(s[1..])
  }

  /** The shape of an amount in plain terms: digits, optionally followed by
      one '.' and more digits, with at least one digit in all. */
  predicate DecimalShaped(s: string)
  {
    var d := DotIndex(s);
    if d == |s| then IsDigits(s)
    else |s| >= 2 && AllDigits(s[..d]) && AllDigits(s[d + 1..])
  }

  lemma {:induction false} RemoveFirstDot(s: string)
    ensures DotIndex(s) < |s| ==> RemoveFirst(s, '.') == s[..DotIndex(s)] + s[DotIndex(s) + 1..]
    ensures DotIndex(s) == |s| ==> RemoveFirst(s, '.') == s
  {
    if s != [] && s[0] != '.' {
      RemoveFirstDot(s[1..]);
      var d := DotIndex(s[1..]);
      if d < |s| - 1 {
        assert s[..d + 1] == [s[0]] + s[1..][..d];
        assert s[d + 2..] == s[1..][d + 1..];
      }
    }
  }

  lemma AllDigitsConcat(a: string, b: string)
    ensures AllDigits(a + b) <==> AllDigits(a) && AllDigits(b)
  {
    if AllDigits(a + b) {
      assert forall i :: 0 <= i < |a| ==> a[i] == (a + b)[i];
      assert forall i :: 0 <= i < |b| ==> b[i] == (a + b)[|a| + i];
    }
  }

  /** The amount check "removing at most one '.' leaves a non-empty string of
      digits" accepts exactly the decimally shaped texts. */
  lemma AmountCheckIsDecimalShape(s: string)
    ensures IsDigits(RemoveFirst(s, '.')) <==> DecimalShaped(s)
  {
    RemoveFirstDot(s);
    var d := DotIndex(s);
    if d < |s| {
      AllDigitsConcat(s[..d], s[d + 1..]);
    }
  }

  function DigitAt(s: string, i: nat): nat
    requires i < |s| && IsDigit(s[i])
  {
    s[i] as int - '0' as int
  }

  /** The fraction digits as cents: the first two digits, padded with zeros.
      (The source rounds a binary float to two places; see the README.) */
  function FractionCents(f: string): (c: nat)
    requires AllDigits(f)
    ensures c < 100
  {
    if |f| == 0 then 0
    else if |f| == 1 then 10 * DigitAt(f, 0)
    else 10 * DigitAt(f, 0) + DigitAt(f, 1)
  }

  /** The value of a decimally shaped amount text, in cents. */
  function AmountCents(s: string): nat
    requires DecimalShaped(s)
  {
    var d := DotIndex(s);
    if d == |s| then 100 * DigitsValue(s)
    else 100 * DigitsValue(s[..d]) + FractionCents(s[d + 1..])
  }

  /** The whole part of an amount gives the dollars and the first two fraction
      digits the cents; without a '.' the text is whole dollars. */
  lemma AmountCentsSplit(s: string)
    requires DecimalShaped(s)
    ensures DotIndex(s) == |s| ==> AmountCents(s) == 100 * DigitsValue(s)
    ensures DotIndex(s) < |s| ==> AmountCents(s) / 100 == DigitsValue(s[..DotIndex(s)])
    ensures DotIndex(s) < |s| ==> AmountCents(s) % 100 == FractionCents(s[DotIndex(s) + 1..])
  {
  }

  function Signed(sign: char, n: nat): int
  {
    if sign == '-' then 0 - n else n
  }

  /** int(s) as the earlier category picker uses it: surrounding white space,
      an optional sign, then decimal digits. */
  function PyInt(s: string): (r: Option<int>)
    ensures r.Some? ==> Strip(s) != []
  {
    var t := Strip(s);
    if t != [] && (t[0] == '+' || t[0] == '-') then
      (if IsDigits(t[1..]) then Some(Signed(t[0], DigitsValue(t[1..]))) else None)
    else if IsDigits(t) then Some(DigitsValue(t))
    else None
  }

  /** On a string of digits int() gives the digits' value. */
  lemma PyIntOfDigits(s: string)
    requires IsDigits(s)
    ensures PyInt(s) == Some(DigitsValue(s))
  {
    assert StripLeft(s) == s;
    assert StripRight(s) == s;
  }

  /** int() skips a blank in front of the digits. */
  lemma PyIntSkipsLeadingBlank(d: string)
    requires IsDigits(d)
    ensures PyInt(" " + d) == Some(DigitsValue(d))
  {
    var line := " " + d;
    assert IsDigit(d[0]) && IsDigit(d[|d| - 1]);
    assert StripLeft(line) == d by {
      assert IsSpace(line[0]) && line[1..] == d;
    }
    assert Strip(line) == d;
  }

  /** float(s) for the earlier amount prompts, in cents: surrounding white
      space, an optional sign, then a decimally shaped amount. */
  function PyFloatCents(s: string): (r: Option<int>)
    ensures r.Some? ==> Strip(s) != []
  {
    var t := Strip(s);
    if t != [] && (t[0] == '+' || t[0] == '-') then
      (if DecimalShaped(t[1..]) then Some(Signed(t[0], AmountCents(t[1..]))) else None)
    else if DecimalShaped(t) then Some(AmountCents(t))
    else None
  }
}

/** The string operations the scraper relies on: `str.lower`, `str.title`,
    `str.replace` of one character, case-insensitive literal search and the
    decimal rendering of an integer inside an f-string. Case mapping covers
    the Latin and the basic Cyrillic alphabets (А-Я, а-я, Ё, ё); every other
    character is treated as uncased. */
module Text {
  import opened Wrappers

  /** The no-break space U+00A0 that hh.ru puts inside numbers and names. */
  const NBSP: char := '\U{00A0}'

  predicate IsUpper(c: char) { 'A' <= c <= 'Z' || 'А' <= c <= 'Я' || c == 'Ё' }

  predicate IsLower(c: char) { 'a' <= c <= 'z' || 'а' <= c <= 'я' || c == 'ё' }

  predicate IsCased(c: char) { IsUpper(c) || IsLower(c) }

  function LowerChar(c: char): (r: char)
    ensures IsUpper(c) ==> IsLower(r)
    ensures !IsUpper(c) ==> r == c
  {
    if 'A' <= c <= 'Z' || 'А' <= c <= 'Я' then (c as int + 32) as char
    else if c == 'Ё' then 'ё'
    else c
  }

  function UpperChar(c: char): (r: char)
    ensures IsLower(c) ==> IsUpper(r)
    ensures !IsLower(c) ==> r == c
  {
    if 'a' <= c <= 'z' || 'а' <= c <= 'я' then (c as int - 32) as char
    else if c == 'ё' then 'Ё'
    else c
  }

  /** Lowering and uppering each forget the case a character had. */
  lemma CaseMapsForgetCase(c: char)
    ensures LowerChar(LowerChar(c)) == LowerChar(c)
    ensures UpperChar(LowerChar(c)) == UpperChar(c)
    ensures IsCased(LowerChar(c)) == IsCased(c)
    ensures IsCased(UpperChar(c)) == IsCased(c)
  {
  }

  /** `s.lower()`. */
  function Lower(s: string): (r: string)
    ensures |r| == |s|
    ensures forall i :: 0 <= i < |s| ==> r[i] == LowerChar(s[i])
    ensures forall i :: 0 <= i < |r| ==> !IsUpper(r[i])
  {
    seq(|s|, i requires 0 <= i < |s| => LowerChar(s[i]))
  }

  lemma LowerIdempotent(s: string)
    ensures Lower(Lower(s)) == Lower(s)
  {
    forall i | 0 <= i < |s| ensures Lower(Lower(s))[i] == Lower(s)[i] {
      CaseMapsForgetCase(s[i]);
    }
  }

  /** `s.title()` when the character before `s` was cased exactly when
      `afterCased` holds: a cased character that follows a cased one is
      lowered, any other character is upper-cased (for these alphabets the
      titlecase of a letter is its uppercase). */
  function TitleFrom(s: string, afterCased: bool): (r: string)
    ensures |r| == |s|
    decreases |s|
  {
    if s == [] then []
    else
      var c := if afterCased then LowerChar(s[0]) else UpperChar(s[0]);
      [c] + TitleFrom(s[1..], IsCased(c))
  }

  /** `s.title()`. */
  function Title(s: string): (r: string)
    ensures |r| == |s|
  {
    TitleFrom(s, false)
  }

  lemma {:induction false} TitleFromIgnoresCase(s: string, afterCased: bool)
    ensures TitleFrom(Lower(s), afterCased) == TitleFrom(s, afterCased)
    decreases |s|
  {
    if s != [] {
      CaseMapsForgetCase(s[0]);
      assert Lower(s)[1..] == Lower(s[1..]);
      var c := if afterCased then LowerChar(s[0]) else UpperChar(s[0]);
      TitleFromIgnoresCase(s[1..], IsCased(c));
    }
  }

  /** Title-casing a string does not depend on the case it was written in. */
  lemma TitleIgnoresCase(s: string)
    ensures Title(Lower(s)) == Title(s)
  {
    TitleFromIgnoresCase(s, false);
  }

  /** `pattern` occurs in `text` as a contiguous substring. */
  predicate Contains(text: string, pattern: string)
  {
    exists i :: 0 <= i <= |text| && pattern <= text[i..]
  }

  /** A pattern holding a character that `text` lacks does not occur in it. */
  lemma NotContainedWhenCharMissing(text: string, pattern: string, j: nat)
    requires j < |pattern| && pattern[j] !in text
    ensures !Contains(text, pattern)
  {
  }

  /** `s.replace(from, to)` for a single character `from`. */
  function Replace(s: string, from: char, to: char): (r: string)
    ensures |r| == |s|
    ensures forall i :: 0 <= i < |s| ==> r[i] == if s[i] == from then to else s[i]
  {
    seq(|s|, i requires 0 <= i < |s| => if s[i] == from then to else s[i])
  }

  /** After the replacement no `from` is left, and a string without `from`
      comes back unchanged. */
  lemma ReplaceRemoves(s: string, from: char, to: char)
    requires from != to
    ensures from !in Replace(s, from, to)
    ensures from !in s ==> Replace(s, from, to) == s
  {
    if from in s {
    } else {
      assert Replace(s, from, to) == s;
    }
  }

  predicate IsDigits(s: string)
  {
    forall i :: 0 <= i < |s| ==> '0' <= s[i] <= '9'
  }

  function DigitChar(d: nat): (c: char)
    requires d < 10
    ensures '0' <= c <= '9'
  {
    ('0' as int + d) as char
  }

  /** `str(n)` for a non-negative `n`: its decimal digits, most significant first. */
  function NatToString(n: nat): (r: string)
    ensures |r| > 0 && IsDigits(r)
    decreases n
  {
    if n < 10 then [DigitChar(n)] else NatToString(n / 10) + [DigitChar(n % 10)]
  }

  /** `str(n)`. */
  function IntToString(n: int): (r: string)
    ensures |r| > 0
  {
    if n < 0 then "-" + NatToString(-n) else NatToString(n)
  }

  /** The number a string of decimal digits denotes. */
  function DigitsValue(s: string): nat
    requires IsDigits(s)
    decreases |s|
  {
    if s == [] then 0 else DigitsValue(s[..|s| - 1]) * 10 + (s[|s| - 1] as int - '0' as int)
  }

  /** Reads back an optionally signed decimal integer. */
  function ParseInt(s: string): Option<int>
  {
    if |s| > 1 && s[0] == '-' && IsDigits(s[1..]) then Some(0 - DigitsValue(s[1..]) as int)
    else if |s| > 0 && IsDigits(s) then Some(DigitsValue(s))
    else None
  }

  /** `str(n)` denotes `n` and has no leading zero. */
  lemma {:induction false} NatToStringValue(n: nat)
    ensures DigitsValue(NatToString(n)) == n
    ensures NatToString(n)[0] == '0' ==> n == 0
    decreases n
  {
    var s := NatToString(n);
    if n >= 10 {
      NatToStringValue(n / 10);
      assert s[..|s| - 1] == NatToString(n / 10);
    }
  }

  /** `ParseInt` on a digit string, with or without a minus sign. */
  lemma ParseDigits(digits: string)
    requires |digits| > 0 && IsDigits(digits)
    ensures ParseInt(digits) == Some(DigitsValue(digits) as int)
    ensures ParseInt("-" + digits) == Some(0 - DigitsValue(digits) as int)
  {
    assert digits[0] != '-';
    assert ("-" + digits)[1..] == digits;
  }

  /** The decimal rendering of an integer reads back as that integer. */
  lemma IntToStringRoundTrip(n: int)
    ensures ParseInt(IntToString(n)) == Some(n)
  {
    if n < 0 {
      NatToStringValue(-n);
      ParseDigits(NatToString(-n));
    } else {
      NatToStringValue(n);
      ParseDigits(NatToString(n));
    }
  }
}

/**
  The string operations the views rely on: `String.prototype.toLowerCase`,
  `String.prototype.includes`, and the decimal rendering of an integer inside a
  template literal (`${n}`).
*/
module Text {

  /** Lower-cases one character: the ASCII capitals and the Latin-1 capitals
      U+00C0..U+00DE (except the multiplication sign U+00D7) move up by 0x20. */
  function LowerChar(c: char): (r: char)
  {
    if 'A' <= c <= 'Z' || ('\U{00C0}' <= c <= '\U{00DE}' && c != '\U{00D7}') then
      (c as int + 32) as char
    else
      c
  }

  function ToLower(s: string): (r: string)
    ensures |r| == |s|
    ensures forall i :: 0 <= i < |s| ==> r[i] == LowerChar(s[i])
    decreases |s|
  {
    if s == [] then [] else [LowerChar(s[0])] + ToLower(s[1..])
  }

  /** Lower-casing twice is lower-casing once. */
  lemma ToLowerIdempotent(s: string)
    ensures ToLower(ToLower(s)) == ToLower(s)
  {
  }

  /** `a` and `b` differ at most in the case of their letters. */
  ghost predicate SameUpToCase(a: string, b: string)
  {
    |a| == |b| && forall i :: 0 <= i < |a| ==> LowerChar(a[i]) == LowerChar(b[i])
  }

  lemma SameUpToCaseLowersAlike(a: string, b: string)
    requires SameUpToCase(a, b)
    ensures ToLower(a) == ToLower(b)
  {
  }

  /** `needle` occurs in `hay` starting at position `i`. */
  ghost predicate OccursAt(hay: string, needle: string, i: int)
  {
    0 <= i && i + |needle| <= |hay| && hay[i..i + |needle|] == needle
  }

  /** `hay.includes(needle)`: tries every starting position from the left. */
  function Includes(hay: string, needle: string): bool
    decreases |hay|
  {
    needle <= hay || (hay != [] && Includes(hay[1..], needle))
  }

  /** A search that succeeds names a position where the needle occurs. */
  lemma {:induction false} OccurrenceOfIncludes(hay: string, needle: string) returns (i: nat)
    requires Includes(hay, needle)
    ensures OccursAt(hay, needle, i)
    decreases |hay|
  {
    if needle <= hay {
      i := 0;
      assert hay[0..|needle|] == needle;
    } else {
      var tail := hay[1..];
      var j := OccurrenceOfIncludes(tail, needle);
      i := j + 1;
      assert tail[j..j + |needle|] == hay[i..i + |needle|];
    }
  }

  /** A needle occurring at some position is found by the search. */
  lemma {:induction false} IncludesOfOccurrence(hay: string, needle: string, i: nat)
    requires OccursAt(hay, needle, i)
    ensures Includes(hay, needle)
    decreases i
  {
    if i == 0 {
      assert hay[..|needle|] == needle;
    } else {
      var tail := hay[1..];
      assert tail[i - 1..i - 1 + |needle|] == hay[i..i + |needle|];
      IncludesOfOccurrence(tail, needle, i - 1);
    }
  }

  /** `Includes` holds exactly when the needle occurs at some position; in particular
      the empty needle is included in every string. */
  lemma IncludesIffOccurs(hay: string, needle: string)
    ensures Includes(hay, needle) <==> exists i :: OccursAt(hay, needle, i)
  {
    if Includes(hay, needle) {
      var i := OccurrenceOfIncludes(hay, needle);
    }
    forall i | OccursAt(hay, needle, i)
      ensures Includes(hay, needle)
    {
      IncludesOfOccurrence(hay, needle, i);
    }
  }

  function DigitChar(d: nat): char
    requires d < 10
  {
    ('0' as int + d) as char
  }

  predicate IsDigit(c: char)
  {
    '0' <= c <= '9'
  }

  /** A numeral for a natural number: one or more digits, with no leading zero unless
      the numeral is "0" itself. */
  ghost predicate IsNatNumeral(s: string)
  {
    |s| >= 1 && (forall i :: 0 <= i < |s| ==> IsDigit(s[i])) && (s[0] == '0' ==> |s| == 1)
  }

  /** A numeral for an integer: a natural numeral, or "-" followed by a natural numeral
      other than "0". */
  ghost predicate IsIntNumeral(s: string)
  {
    IsNatNumeral(s) || (|s| >= 2 && s[0] == '-' && IsNatNumeral(s[1..]) && s[1] != '0')
  }

  /** The decimal digits of `n`, most significant first, without leading zeros. */
  function NatToDecimal(n: nat): (r: string)
    ensures IsNatNumeral(r)
    ensures r[0] == '0' <==> n == 0
    decreases n
  {
    if n < 10 then [DigitChar(n)] else NatToDecimal(n / 10) + [DigitChar(n % 10)]
  }

  /** The value of a string of decimal digits. */
  function DecimalValue(s: string): nat
    decreases |s|
  {
    if s == [] then 0
    else
      var d := s[|s| - 1] as int - '0' as int;
      DecimalValue(s[..|s| - 1]) * 10 + (if 0 <= d then d else 0)
  }

  /** Reads back what `IntToDecimal` writes. */
  function ParseInt(s: string): int
  {
    if s != [] && s[0] == '-' then 0 - DecimalValue(s[1..]) as int else DecimalValue(s)
  }

  lemma {:induction false} NatToDecimalRoundTrip(n: nat)
    ensures DecimalValue(NatToDecimal(n)) == n
    decreases n
  {
    if n >= 10 {
      NatToDecimalRoundTrip(n / 10);
      var s := NatToDecimal(n);
      assert s[..|s| - 1] == NatToDecimal(n / 10);
    }
  }

  /** How `${n}` renders an integer-valued number: the integer numeral whose value is `n`
      (which `CanonicalNumeralIsUnique` shows there is only one of). */
  function IntToDecimal(n: int): (r: string)
    ensures IsIntNumeral(r)
    ensures ParseInt(r) == n
  {
    IntToDecimalRoundTrip(n);
    if n < 0 then "-" + NatToDecimal(-n) else NatToDecimal(n)
  }

  lemma IntToDecimalRoundTrip(n: int)
    ensures ParseInt(if n < 0 then "-" + NatToDecimal(-n) else NatToDecimal(n)) == n
  {
    if n < 0 {
      var d := NatToDecimal(-n);
      NatToDecimalRoundTrip(-n);
      assert ("-" + d)[0] == '-' && ("-" + d)[1..] == d;
    } else {
      var d := NatToDecimal(n);
      NatToDecimalRoundTrip(n);
      assert IsDigit(d[0]);
    }
  }

  /** A natural numeral that does not start with '0' has a positive value. */
  lemma {:induction false} LeadingDigitPositive(s: string)
    requires IsNatNumeral(s) && s[0] != '0'
    ensures DecimalValue(s) >= 1
    decreases |s|
  {
    if |s| > 1 {
      var init := s[..|s| - 1];
      assert init[0] == s[0];
      LeadingDigitPositive(init);
    }
  }

  /** Two natural numerals with the same value are the same string. */
  lemma {:induction false} NatNumeralUnique(s: string, t: string)
    requires IsNatNumeral(s) && IsNatNumeral(t)
    requires DecimalValue(s) == DecimalValue(t)
    ensures s == t
    decreases |s| + |t|
  {
    var si, ti := s[..|s| - 1], t[..|t| - 1];
    var ds, dt := s[|s| - 1] as int - '0' as int, t[|t| - 1] as int - '0' as int;
    assert DecimalValue(s) == DecimalValue(si) * 10 + ds;
    assert DecimalValue(t) == DecimalValue(ti) * 10 + dt;
    if |s| > 1 {
      assert si[0] == s[0];
      LeadingDigitPositive(si);
    }
    if |t| > 1 {
      assert ti[0] == t[0];
      LeadingDigitPositive(ti);
    }
    assert ds == dt;
    if |s| > 1 && |t| > 1 {
      NatNumeralUnique(si, ti);
      assert s == si + [s[|s| - 1]] && t == ti + [t[|t| - 1]];
    }
  }

  /** Two integer numerals with the same value are the same string: `IntToDecimal` is the
      only rendering its contract allows. */
  lemma CanonicalNumeralIsUnique(s: string, t: string)
    requires IsIntNumeral(s) && IsIntNumeral(t)
    requires ParseInt(s) == ParseInt(t)
    ensures s == t
  {
    if s[0] == '-' {
      LeadingDigitPositive(s[1..]);
    }
    if t[0] == '-' {
      LeadingDigitPositive(t[1..]);
    }
    if s[0] == '-' && t[0] == '-' {
      NatNumeralUnique(s[1..], t[1..]);
      assert s == [s[0]] + s[1..] && t == [t[0]] + t[1..];
    } else if s[0] != '-' && t[0] != '-' {
      NatNumeralUnique(s, t);
    }
  }

  /** Different integers are rendered differently. */
  lemma IntToDecimalInjective(a: int, b: int)
    requires IntToDecimal(a) == IntToDecimal(b)
    ensures a == b
  {
  }
}

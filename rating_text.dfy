/** The check the rating dialog applies to the text the user typed:
    `Int(ratingText)` must succeed and give a value from 1 to 10. */
module RatingText {
  import opened Wrappers

  /** The range of Swift's 64-bit `Int`. */
  const IntMin := -0x8000_0000_0000_0000
  const IntMax := 0x7FFF_FFFF_FFFF_FFFF

  const LowestRating := 1
  const HighestRating := 10

  predicate IsDigit(c: char)
  {
    '0' <= c <= '9'
  }

  function DigitValue(c: char): (d: nat)
    requires IsDigit(c)
    ensures d <= 9
  {
    (c as int) - ('0' as int)
  }

  predicate AllDigits(s: string)
  {
    forall i | 0 <= i < |s| :: IsDigit(s[i])
  }

  /** The decimal value of a string of digits, read most significant
      digit first. */
  function DigitsValue(s: string): nat
    requires AllDigits(s)
  {
    if s == [] then 0 else DigitsValue(s[..|s| - 1]) * 10 + DigitValue(s[|s| - 1])
  }

  /** `Int(text)`: an optional '+' or '-', then one or more ASCII digits
      and nothing else; no value when the text has any other form or the
      number does not fit in an `Int`. */
  function ParseInt(text: string): (r: Option<int>)
    ensures r.Some? ==> |text| > 0 && IntMin <= r.value <= IntMax
    ensures r.Some? && |text| > 0 && text[0] == '-' ==> r.value <= 0
  {
    var signed := |text| > 0 && (text[0] == '+' || text[0] == '-');
    var digits := if signed then text[1..] else text;
    if digits == [] || !AllDigits(digits) then None
    else
      var v: int := if signed && text[0] == '-' then -(DigitsValue(digits) as int) else DigitsValue(digits);
      if IntMin <= v <= IntMax then Some(v) else None
  }

  /** The save button accepts the text (and stores it unchanged as the
      rating) exactly when it parses to an integer from 1 to 10. */
  predicate IsValidRating(text: string): (valid: bool)
    ensures valid ==> |text| > 0 && text[0] != '-'
  {
    ParseInt(text).Some? && LowestRating <= ParseInt(text).value <= HighestRating
  }

  // ---------------------------------------------------------------------
  // The accepted texts, described character by character
  // ---------------------------------------------------------------------

  function StripLeadingZeros(s: string): (r: string)
    ensures |r| <= |s| && r == s[|s| - |r|..]
    ensures r == [] || r[0] != '0'
  {
    if |s| > 0 && s[0] == '0' then StripLeadingZeros(s[1..]) else s
  }

  /** The accepted texts: an optional '+', any number of zeros, then
      either one digit from 1 to 9 or "10". */
  predicate IsRatingForm(text: string)
  {
    var unsigned := if |text| > 0 && text[0] == '+' then text[1..] else text;
    var z := StripLeadingZeros(unsigned);
    AllDigits(unsigned) && (z == "10" || (|z| == 1 && '1' <= z[0] <= '9'))
  }

  /** A leading zero does not change the value. */
  lemma {:induction false} LeadingZeroValue(s: string)
    requires AllDigits(s)
    ensures AllDigits(['0'] + s) && DigitsValue(['0'] + s) == DigitsValue(s)
  {
    var t := ['0'] + s;
    assert AllDigits(t) by {
      forall i | 0 <= i < |t| ensures IsDigit(t[i]) {
        if i > 0 { assert t[i] == s[i - 1]; }
      }
    }
    if s != [] {
      assert t[..|t| - 1] == ['0'] + s[..|s| - 1];
      LeadingZeroValue(s[..|s| - 1]);
    }
  }

  lemma {:induction false} StripLeadingZerosValue(s: string)
    requires AllDigits(s)
    ensures AllDigits(StripLeadingZeros(s))
    ensures DigitsValue(StripLeadingZeros(s)) == DigitsValue(s)
  {
    if |s| > 0 && s[0] == '0' {
      StripLeadingZerosValue(s[1..]);
      assert s == ['0'] + s[1..];
      LeadingZeroValue(s[1..]);
    }
  }

  /** Without a leading zero, one digit is worth at least 1 and two or
      more digits at least 10, three or more at least 100. */
  lemma {:induction false} NoLeadingZeroBound(z: string)
    requires AllDigits(z) && z != [] && z[0] != '0'
    ensures DigitsValue(z) >= 1
    ensures |z| >= 2 ==> DigitsValue(z) >= 10 * DigitsValue(z[..|z| - 1])
    ensures |z| >= 3 ==> DigitsValue(z) >= 100
  {
    if |z| >= 2 {
      var init := z[..|z| - 1];
      assert AllDigits(init);
      NoLeadingZeroBound(init);
    }
  }

  /** Under the form, the value of the digits is between 1 and 10. */
  lemma RatingFormValue(z: string)
    requires AllDigits(z) && z != [] && z[0] != '0'
    ensures (1 <= DigitsValue(z) <= 10) <==> (z == "10" || (|z| == 1 && '1' <= z[0] <= '9'))
  {
    NoLeadingZeroBound(z);
    if |z| == 2 {
      assert z[..1] == [z[0]];
      if DigitsValue(z) <= 10 {
        assert DigitsValue(z[..1]) == 1;
        assert z[0] == '1' && z[1] == '0';
        assert z == "10";
      }
    }
  }

  /** Without a '-' sign, the text is accepted exactly when what follows
      an optional '+' is digits worth 1 to 10. */
  lemma UnsignedRating(text: string, unsigned: string)
    requires !(|text| > 0 && text[0] == '-')
    requires unsigned == if |text| > 0 && text[0] == '+' then text[1..] else text
    ensures IsValidRating(text) <==> unsigned != [] && AllDigits(unsigned)
                                     && 1 <= DigitsValue(unsigned) <= 10
  {
  }

  /** The accept/reject rule of the rating dialog, stated both ways. */
  lemma RatingAcceptance(text: string)
    ensures IsValidRating(text) <==> IsRatingForm(text)
  {
    var unsigned := if |text| > 0 && text[0] == '+' then text[1..] else text;
    if |text| > 0 && text[0] == '-' {
      assert !IsDigit(unsigned[0]);
    } else {
      UnsignedRating(text, unsigned);
      if AllDigits(unsigned) {
        var z := StripLeadingZeros(unsigned);
        StripLeadingZerosValue(unsigned);
        if z != [] {
          RatingFormValue(z);
        }
      }
    }
  }

  /** The cases the dialog's message spells out. */
  lemma RatingExamples()
    ensures IsValidRating("7") && IsValidRating("10") && IsValidRating("1")
    ensures IsValidRating("+7") && IsValidRating("07")
    ensures !IsValidRating("0") && !IsValidRating("11") && !IsValidRating("-3")
    ensures !IsValidRating("abc") && !IsValidRating("7.5") && !IsValidRating("") && !IsValidRating(" 7")
  {
    assert DigitsValue("1") == 1 && DigitsValue("7") == 7;
    assert "10"[..1] == "1";
    assert DigitsValue("10") == 10;
    assert "07"[..1] == "0";
    assert DigitsValue("07") == 7;
    assert "11"[..1] == "1";
    assert ParseInt("10") == Some(10) && ParseInt("+7") == Some(7) && ParseInt("07") == Some(7);
    assert ParseInt("11") == Some(11);
  }
}

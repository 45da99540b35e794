/** Base-10 integer literals, standing in for Python's `int(s)` on a string:
    an optional sign followed by one or more ASCII digits. */
module IntLiteral {
  import opened Wrappers

  predicate IsDigit(c: char) { '0' <= c <= '9' }

  /** A non-empty run of decimal digits. */
  predicate IsDigits(s: string) {
    |s| > 0 && forall i :: 0 <= i < |s| ==> IsDigit(s[i])
  }

  predicate IsSign(c: char) { c == '+' || c == '-' }

  /** The accepted grammar: `[+-]? digit+`. */
  predicate IsLiteral(s: string) {
    IsDigits(s) || (|s| > 0 && IsSign(s[0]) && IsDigits(s[1..]))
  }

  function DigitValue(c: char): nat
    requires IsDigit(c)
  {
    c as int - '0' as int
  }

  function DigitChar(d: nat): char
    requires d < 10
  {
    ('0' as int + d) as char
  }

  /** The value of a digit string, most significant digit first. */
  function DigitsValue(s: string): nat
    requires forall i :: 0 <= i < |s| ==> IsDigit(s[i])
    decreases |s|
  {
    if |s| == 0 then 0 else DigitsValue(s[..|s| - 1]) * 10 + DigitValue(s[|s| - 1])
  }

  /** `int(s)`: the parsed value, or None where Python raises ValueError. */
  function Parse(s: string): (r: Option<int>)
    ensures r.Some? <==> IsLiteral(s)
    ensures r.Some? && |s| > 0 && s[0] == '-' ==> r.value <= 0
    ensures r.Some? && !(|s| > 0 && s[0] == '-') ==> r.value >= 0
  {
    if IsDigits(s) then Some(DigitsValue(s))
    else if |s| > 0 && IsSign(s[0]) && IsDigits(s[1..]) then
      var magnitude: int := DigitsValue(s[1..]);
      if s[0] == '-' then Some(-magnitude) else Some(magnitude)
    else None
  }

  /** Decimal rendering of a natural number, without leading zeros. */
  function ShowNat(n: nat): (s: string)
    ensures IsDigits(s)
    decreases n
  {
    if n < 10 then [DigitChar(n)] else ShowNat(n / 10) + [DigitChar(n % 10)]
  }

  /** Decimal rendering of an integer, as Python's `str(n)` writes it. */
  function Show(n: int): string {
    if n < 0 then "-" + ShowNat(-n) else ShowNat(n)
  }

  lemma {:induction false} DigitsValueOfShowNat(n: nat)
    ensures DigitsValue(ShowNat(n)) == n
    decreases n
  {
    var s := ShowNat(n);
    if n < 10 {
      assert s == [DigitChar(n)];
      assert s[..0] == [];
    } else {
      var p := ShowNat(n / 10);
      assert s == p + [DigitChar(n % 10)];
      assert s[..|s| - 1] == p;
      DigitsValueOfShowNat(n / 10);
    }
  }

  /** Every integer survives a round trip through its decimal rendering. */
  lemma ParseShow(n: int)
    ensures IsLiteral(Show(n))
    ensures Parse(Show(n)) == Some(n)
  {
    if n < 0 {
      var s := Show(n);
      assert s[1..] == ShowNat(-n);
      assert !IsDigits(s) by { assert !IsDigit(s[0]); }
      DigitsValueOfShowNat(-n);
    } else {
      DigitsValueOfShowNat(n);
    }
  }

  /** A leading zero does not change the value of a digit string. */
  lemma {:induction false} DigitsValueLeadingZero(s: string)
    requires forall i :: 0 <= i < |s| ==> IsDigit(s[i])
    ensures DigitsValue("0" + s) == DigitsValue(s)
    decreases |s|
  {
    var z := "0" + s;
    if |s| == 0 {
      assert z[..0] == [];
    } else {
      var init := s[..|s| - 1];
      assert z[..|z| - 1] == "0" + init;
      assert z[|z| - 1] == s[|s| - 1];
      DigitsValueLeadingZero(init);
    }
  }

  /** The spellings `str(n)` never produces read as `int()` reads them: a
      plus sign and leading zeros change nothing, and a minus sign negates.
      With `ParseShow` this fixes the value of every literal. */
  lemma ParseNonCanonical(s: string)
    requires IsDigits(s)
    ensures Parse("+" + s) == Parse(s)
    ensures Parse("0" + s) == Parse(s)
    ensures Parse("-" + s) == Some(-Parse(s).value)
  {
    assert ("+" + s)[1..] == s && ("-" + s)[1..] == s;
    assert !IsDigit(("+" + s)[0]) && !IsDigit(("-" + s)[0]);
    DigitsValueLeadingZero(s);
  }

  /** Sample inputs of the parse: accepted and rejected spellings. */
  lemma ParseExamples()
    ensures Parse("42") == Some(42)
    ensures Parse("-7") == Some(-7)
    ensures Parse("+007") == Some(7)
    ensures Parse("") == None
    ensures Parse("-") == None
    ensures Parse("4.5") == None
    ensures Parse("abc") == None
  {
    assert "42"[..1] == "4" && "4"[..0] == "";
    assert "-7"[1..] == "7";
    assert "+007"[1..] == "007";
    assert "007"[..2] == "00" && "00"[..1] == "0";
    assert !IsDigit("4.5"[1]);
    assert !IsDigit("abc"[0]);
  }
}

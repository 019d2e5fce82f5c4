/**
  The failable integer initialiser `Int(_: String)` that the quiz applies to the
  text of the answer field, and the decimal rendering of an integer that the
  text field would have to hold for a given answer.

  Accepted text: an optional leading '+' or '-' followed by one or more ASCII
  decimal digits. Everything else (the empty string, a lone sign, spaces,
  letters, a second sign) is rejected. Range overflow is not modelled: integers
  are unbounded here.
 */
module IntParse {

  datatype Option<T> = None | Some(value: T)

  predicate IsDigit(c: char) {
    '0' <= c <= '9'
  }

  predicate IsSign(c: char) {
    c == '+' || c == '-'
  }

  predicate AllDigits(s: string) {
    forall i :: 0 <= i < |s| ==> IsDigit(s[i])
  }

  function DigitValue(c: char): (d: nat)
    requires IsDigit(c)
    ensures d < 10
  {
    c as int - '0' as int
  }

  function DigitChar(d: nat): (c: char)
    requires d < 10
    ensures IsDigit(c) && DigitValue(c) == d
  {
    ('0' as int + d) as char
  }

  /** Value of a run of decimal digits, most significant digit first. */
  function DigitsValue(ds: string): nat
    requires AllDigits(ds)
  {
    if |ds| == 0 then 0
    else DigitsValue(ds[..|ds| - 1]) * 10 + DigitValue(ds[|ds| - 1])
  }

  /**
    Text that `Int(text)` accepts: one or more ASCII digits, optionally after a
    single leading '+' or '-'. The empty string, a lone sign, spaces, letters
    and a second sign are all rejected.
   */
  predicate IsNumeral(s: string) {
    |s| > 0 && (IsDigit(s[0]) || (IsSign(s[0]) && |s| > 1)) && AllDigits(s[1..])
  }

  /** `Int(text)`: `Some(v)` for a well-formed decimal integer, `None` otherwise. */
  function ParseInt(s: string): (r: Option<int>)
    ensures r.Some? <==> IsNumeral(s)
    ensures r.Some? && s[0] == '-' ==> r.value <= 0
    ensures r.Some? && s[0] != '-' ==> r.value >= 0
  {
    if |s| > 0 && IsSign(s[0]) then
      var digits := s[1..];
      if |digits| > 0 && AllDigits(digits) then
        var v: int := DigitsValue(digits);
        Some(if s[0] == '-' then -v else v)
      else
        None
    else if |s| > 0 && AllDigits(s) then
      Some(DigitsValue(s))
    else
      None
  }

  /** Decimal rendering of a natural number, without leading zeros. */
  function RenderNat(n: nat): (s: string)
    ensures |s| > 0 && AllDigits(s)
    decreases n
  {
    if n < 10 then [DigitChar(n)] else RenderNat(n / 10) + [DigitChar(n % 10)]
  }

  /** Decimal rendering of an integer, as string interpolation produces it. */
  function Render(n: int): string {
    if n < 0 then "-" + RenderNat(-n) else RenderNat(n)
  }

  /** Text the rendering can produce: no sign other than a leading '-', no leading zeros, no "-0". */
  predicate IsCanonical(s: string) {
    if |s| > 0 && s[0] == '-' then
      |s| > 1 && AllDigits(s[1..]) && s[1] != '0'
    else
      |s| > 0 && AllDigits(s) && (s[0] != '0' || |s| == 1)
  }

  lemma {:induction false} DigitsOfRender(n: nat)
    ensures DigitsValue(RenderNat(n)) == n
    decreases n
  {
    var s := RenderNat(n);
    if n >= 10 {
      DigitsOfRender(n / 10);
      assert s[..|s| - 1] == RenderNat(n / 10);
    }
  }

  lemma {:induction false} RenderNatLeadingDigit(n: nat)
    ensures RenderNat(n)[0] == '0' ==> n == 0
    decreases n
  {
    if n >= 10 {
      RenderNatLeadingDigit(n / 10);
    }
  }

  /** Every integer, rendered in decimal, is read back by `Int(text)` as itself. */
  lemma ParseRender(n: int)
    ensures ParseInt(Render(n)) == Some(n)
    ensures IsCanonical(Render(n))
  {
    var m := if n < 0 then -n else n;
    DigitsOfRender(m);
    RenderNatLeadingDigit(m);
    if n < 0 {
      assert Render(n)[1..] == RenderNat(m);
    }
  }

  lemma {:induction false} PositiveLeadingDigit(ds: string)
    requires |ds| > 0 && AllDigits(ds) && ds[0] != '0'
    ensures DigitsValue(ds) >= 1
    decreases |ds|
  {
    if |ds| > 1 {
      PositiveLeadingDigit(ds[..|ds| - 1]);
    }
  }

  lemma {:induction false} RenderOfDigits(ds: string)
    requires |ds| > 0 && AllDigits(ds) && (ds[0] != '0' || |ds| == 1)
    ensures RenderNat(DigitsValue(ds)) == ds
    decreases |ds|
  {
    if |ds| > 1 {
      var front := ds[..|ds| - 1];
      RenderOfDigits(front);
      PositiveLeadingDigit(front);
      var v := DigitsValue(ds);
      assert v / 10 == DigitsValue(front) && v % 10 == DigitValue(ds[|ds| - 1]);
      assert ds == front + [ds[|ds| - 1]];
    }
  }

  /** Canonical text survives a parse and a re-render unchanged. */
  lemma RenderParse(s: string)
    requires IsCanonical(s)
    ensures ParseInt(s).Some? && Render(ParseInt(s).value) == s
  {
    if s[0] == '-' {
      RenderOfDigits(s[1..]);
      PositiveLeadingDigit(s[1..]);
      assert s == "-" + s[1..];
    } else {
      RenderOfDigits(s);
    }
  }

  /** A leading zero adds nothing to the value of a run of digits. */
  lemma {:induction false} LeadingZeroDigits(ds: string)
    requires AllDigits(ds)
    ensures AllDigits("0" + ds) && DigitsValue("0" + ds) == DigitsValue(ds)
    decreases |ds|
  {
    var zs := "0" + ds;
    if |ds| > 0 {
      var front := ds[..|ds| - 1];
      LeadingZeroDigits(front);
      assert zs[..|zs| - 1] == "0" + front;
      assert zs[|zs| - 1] == ds[|ds| - 1];
    }
  }

  /** Leading zeros dropped from a run of digits, keeping at least one digit. */
  function StripZeros(ds: string): (r: string)
    requires |ds| > 0 && AllDigits(ds)
    ensures |r| > 0 && AllDigits(r) && (r[0] != '0' || |r| == 1)
    ensures DigitsValue(r) == DigitsValue(ds)
    decreases |ds|
  {
    if |ds| > 1 && ds[0] == '0' then
      LeadingZeroDigits(ds[1..]);
      assert ds == "0" + ds[1..];
      StripZeros(ds[1..])
    else
      ds
  }

  /** The canonical spelling of an accepted text: no '+', no leading zeros, no "-0". */
  function Normalize(s: string): string
    requires IsNumeral(s)
  {
    if IsSign(s[0]) then
      var ds := StripZeros(s[1..]);
      if s[0] == '+' || ds == "0" then ds else "-" + ds
    else
      StripZeros(s)
  }

  /**
    `Int(text)` reads every accepted text as its canonical spelling, which is
    the decimal rendering of the value: so "+7" and "007" are 7 and "-0" is 0.
   */
  lemma NormalizeKeepsValue(s: string)
    requires IsNumeral(s)
    ensures IsCanonical(Normalize(s))
    ensures ParseInt(Normalize(s)) == ParseInt(s)
    ensures Render(ParseInt(s).value) == Normalize(s)
  {
    var n := Normalize(s);
    if IsSign(s[0]) {
      var ds := StripZeros(s[1..]);
      if n != ds {
        assert n[1..] == ds;
      } else if s[0] == '-' {
        assert ds == "0";
        assert DigitsValue(ds) == 0;
      }
    }
    RenderParse(n);
  }

  /** A leading '+' leaves the value unchanged, a leading '-' negates it. */
  lemma SignPrefix(ds: string)
    requires |ds| > 0 && AllDigits(ds)
    ensures ParseInt("+" + ds) == ParseInt(ds)
    ensures ParseInt(ds).Some? && ParseInt("-" + ds) == Some(-ParseInt(ds).value)
  {
    assert ("+" + ds)[1..] == ds;
    assert ("-" + ds)[1..] == ds;
  }

  /** Spellings `Int(text)` accepts besides the canonical ones, and one it rejects. */
  lemma OtherSpellings()
    ensures ParseInt("+7") == Some(7)
    ensures ParseInt("007") == Some(7)
    ensures ParseInt("-0") == Some(0)
    ensures ParseInt(" 7") == None
  {
    NormalizeKeepsValue("+7");
    NormalizeKeepsValue("007");
    NormalizeKeepsValue("-0");
    ParseRender(7);
    ParseRender(0);
  }
}

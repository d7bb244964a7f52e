/** Python's `int(value)` restricted to an optional sign followed by decimal
    digits; any other text raises `ValueError`, modelled as `None`. */
module Numbers {
  import opened Wrappers

  predicate IsDigit(c: char) {
    '0' <= c <= '9'
  }

  predicate AllDigits(s: string) {
    forall i :: 0 <= i < |s| ==> IsDigit(s[i])
  }

  /** The accepted shape, stated character by character: a non-empty string
      whose first character is a digit or a sign with something after it,
      and whose remaining characters are all digits. */
  predicate DecimalLiteral(s: string) {
    && |s| > 0
    && (IsDigit(s[0]) || ((s[0] == '-' || s[0] == '+') && |s| > 1))
    && forall i :: 0 < i < |s| ==> IsDigit(s[i])
  }

  function DigitsValue(s: string): nat
    requires AllDigits(s)
    decreases |s|
  {
    if |s| == 0 then 0
    else DigitsValue(s[..|s| - 1]) * 10 + (s[|s| - 1] as int - '0' as int)
  }

  function ParseInt(s: string): (r: Option<int>)
    ensures r.Some? <==> DecimalLiteral(s)
    ensures r.Some? && s[0] == '-' ==> r.value <= 0
    ensures r.Some? && s[0] != '-' ==> r.value >= 0
  {
    if |s| > 0 && (s[0] == '-' || s[0] == '+') then
      var body := s[1..];
      if |body| > 0 && AllDigits(body) then
        var magnitude: int := DigitsValue(body);
        Some(if s[0] == '-' then -magnitude else magnitude)
      else
        None
    else if |s| > 0 && AllDigits(s) then
      Some(DigitsValue(s))
    else
      None
  }

  /** Decimal rendering of a natural number, most significant digit first. */
  function ShowNat(n: nat): (s: string)
    decreases n
  {
    if n < 10 then [('0' as int + n) as char]
    else ShowNat(n / 10) + [('0' as int + n % 10) as char]
  }

  /** Decimal rendering of an integer, with `-` for negatives. */
  function ShowInt(n: int): string {
    if n < 0 then "-" + ShowNat(-n) else ShowNat(n)
  }

  lemma {:induction false} ShowNatDigits(n: nat)
    ensures |ShowNat(n)| > 0 && AllDigits(ShowNat(n))
    ensures DigitsValue(ShowNat(n)) == n
    decreases n
  {
    var s := ShowNat(n);
    if n >= 10 {
      ShowNatDigits(n / 10);
      assert s[..|s| - 1] == ShowNat(n / 10);
    }
  }

  /** `int(str(n)) == n`: parsing the rendering of any integer gives it back. */
  lemma {:induction false} ParseShowRoundTrip(n: int)
    ensures ParseInt(ShowInt(n)) == Some(n)
  {
    var s := ShowInt(n);
    if n < 0 {
      ShowNatDigits(-n);
      assert s == "-" + ShowNat(-n);
      assert s[1..] == ShowNat(-n);
      assert s[0] == '-';
    } else {
      ShowNatDigits(n);
      assert s == ShowNat(n);
      assert IsDigit(s[0]);
    }
  }

  /** A leading zero does not change the value of a digit string. */
  lemma {:induction false} DigitsValueLeadingZero(d: string)
    requires AllDigits(d)
    ensures AllDigits("0" + d) && DigitsValue("0" + d) == DigitsValue(d)
    decreases |d|
  {
    var z := "0" + d;
    assert forall i :: 0 < i < |z| ==> z[i] == d[i - 1];
    if |d| > 0 {
      DigitsValueLeadingZero(d[..|d| - 1]);
      assert z[..|z| - 1] == "0" + d[..|d| - 1];
    }
  }

  /** A digit string that does not start with `0` denotes a positive number. */
  lemma {:induction false} DigitsValuePositive(d: string)
    requires |d| > 0 && AllDigits(d) && d[0] != '0'
    ensures DigitsValue(d) > 0
    decreases |d|
  {
    if |d| > 1 {
      DigitsValuePositive(d[..|d| - 1]);
    }
  }

  /** `int("+" + d) == int(d)` for every non-empty digit string `d`. */
  lemma ParseIntPlus(d: string)
    requires |d| > 0 && AllDigits(d)
    ensures ParseInt("+" + d).Some? && ParseInt("+" + d) == ParseInt(d)
  {
    assert ("+" + d)[1..] == d;
  }

  /** `int("-" + d) == -int(d)` for every non-empty digit string `d`. */
  lemma ParseIntMinus(d: string)
    requires |d| > 0 && AllDigits(d)
    ensures ParseInt("-" + d).Some? && ParseInt(d).Some?
    ensures ParseInt("-" + d).value == -ParseInt(d).value
  {
    assert ("-" + d)[1..] == d;
  }

  /** Leading zeros are ignored: `int("0" + d) == int(d)`. */
  lemma ParseIntLeadingZero(d: string)
    requires |d| > 0 && AllDigits(d)
    ensures ParseInt("0" + d).Some? && ParseInt("0" + d) == ParseInt(d)
  {
    DigitsValueLeadingZero(d);
  }

  /** A digit string without a superfluous leading zero is the decimal text
      of the value it converts to, so with the sign and leading-zero lemmas
      every accepted text has a determined value. */
  lemma {:induction false} ShowParseRoundTrip(d: string)
    requires |d| > 0 && AllDigits(d) && (d[0] != '0' || |d| == 1)
    ensures ParseInt(d).Some? && ParseInt(d).value >= 0
    ensures ShowNat(ParseInt(d).value) == d
    decreases |d|
  {
    var v := DigitsValue(d);
    assert ParseInt(d) == Some(v);
    if |d| > 1 {
      var front := d[..|d| - 1];
      DigitsValuePositive(front);
      ShowParseRoundTrip(front);
      assert ParseInt(front) == Some(DigitsValue(front));
      assert v / 10 == DigitsValue(front);
      assert v % 10 == d[|d| - 1] as int - '0' as int;
      assert d == front + [d[|d| - 1]];
    }
  }
}

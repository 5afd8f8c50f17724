/** Base-10 signed 64-bit integer parsing, as the binder asks of
    `strconv.ParseInt(s, 10, 64)`, together with the canonical formatter
    that serves as its inverse. The grammar (an optional sign followed by at
    least one ASCII digit, no underscores, value within int64) is written
    here from that library's documented behaviour; the library is not part
    of this model. */
module Decimal {
  import opened Optional

  const Int64Min: int := -0x8000_0000_0000_0000
  const Int64Max: int := 0x7fff_ffff_ffff_ffff

  predicate InInt64(n: int) {
    Int64Min <= n <= Int64Max
  }

  predicate IsDigit(c: char) {
    '0' <= c <= '9'
  }

  predicate AllDigits(s: string) {
    forall i :: 0 <= i < |s| ==> IsDigit(s[i])
  }

  function DigitValue(c: char): (d: nat)
    requires IsDigit(c)
    ensures d < 10
  {
    c as int - '0' as int
  }

  function DigitChar(d: nat): (c: char)
    requires d < 10
    ensures IsDigit(c) && DigitValue(c) == d
  {
    ('0' as int + d) as char
  }

  /** The value of a digit string, most significant digit first. */
  function DigitsValue(s: string): nat
    requires AllDigits(s)
  {
    if |s| == 0 then 0 else 10 * DigitsValue(s[..|s| - 1]) + DigitValue(s[|s| - 1])
  }

  /** The canonical decimal digits of a natural number (no leading zeros). */
  function FormatNat(n: nat): (s: string)
    ensures 0 < |s| && AllDigits(s)
    ensures |s| > 1 ==> s[0] != '0'
  {
    if n < 10 then [DigitChar(n)] else FormatNat(n / 10) + [DigitChar(n % 10)]
  }

  /** The canonical decimal form of an integer: a minus sign for negatives, no plus sign. */
  function FormatInt(n: int): (s: string)
    ensures 0 < |s|
    ensures s[0] == '-' <==> n < 0
  {
    if n < 0 then "-" + FormatNat(-n) else FormatNat(n)
  }

  /** Parses an optional `+` or `-` followed by one or more decimal digits;
      fails on anything else and on values outside the int64 range. */
  function ParseInt(s: string): (r: Option<int>)
    ensures r.Some? ==> InInt64(r.value)
    ensures r.Some? ==> exists i :: 0 <= i < |s| && IsDigit(s[i])
    ensures r.Some? ==> (IsDigit(s[0]) || s[0] == '+' || s[0] == '-') && forall i :: 0 < i < |s| ==> IsDigit(s[i])
    ensures |s| == 0 || s == "+" || s == "-" ==> r.None?
    ensures r.Some? && r.value < 0 ==> s[0] == '-'
  {
    if |s| == 0 then None
    else
      var body := if s[0] == '+' || s[0] == '-' then s[1..] else s;
      if |body| == 0 || !AllDigits(body) then None
      else
        var m: int := DigitsValue(body);
        var n := if s[0] == '-' then -m else m;
        if InInt64(n) then
          assert IsDigit(s[|s| - 1]);
          Some(n)
        else None
  }

  lemma {:induction false} FormatNatRoundTrip(n: nat)
    ensures DigitsValue(FormatNat(n)) == n
  {
    if n >= 10 {
      var s := FormatNat(n);
      assert s[..|s| - 1] == FormatNat(n / 10);
      FormatNatRoundTrip(n / 10);
    }
  }

  /** Every int64 survives formatting and parsing back. */
  lemma ParseFormatInt(n: int)
    requires InInt64(n)
    ensures ParseInt(FormatInt(n)) == Some(n)
  {
    var s := FormatInt(n);
    if n < 0 {
      FormatNatRoundTrip(-n);
      assert s[1..] == FormatNat(-n);
    } else {
      FormatNatRoundTrip(n);
    }
  }

  /** An explicit leading `+` is accepted and changes nothing. */
  lemma ParsePlusSign(n: nat)
    ensures ParseInt("+" + FormatNat(n)) == ParseInt(FormatNat(n))
  {
    var s := "+" + FormatNat(n);
    assert s[1..] == FormatNat(n);
  }

  /** Values outside int64 are rejected rather than wrapped or clamped. */
  lemma ParseIntRejectsOverflow(n: int)
    requires !InInt64(n)
    ensures ParseInt(FormatInt(n)) == None
  {
    var s := FormatInt(n);
    if n < 0 {
      FormatNatRoundTrip(-n);
      assert s[1..] == FormatNat(-n);
    } else {
      FormatNatRoundTrip(n);
    }
  }

  function Abs(n: int): nat {
    if n < 0 then -n else n
  }

  /** The sign character a string starts with, if any. */
  function SignOf(s: string): (p: string)
    ensures p == "" || p == "+" || p == "-"
  {
    if 0 < |s| && (s[0] == '+' || s[0] == '-') then [s[0]] else ""
  }

  function Zeros(k: nat): (z: string)
    ensures |z| == k && forall i :: 0 <= i < k ==> z[i] == '0'
  {
    seq(k, _ => '0')
  }

  /** A leading zero does not change the value of a digit string. */
  lemma {:induction false} LeadingZeroValue(ds: string)
    requires AllDigits(ds)
    ensures AllDigits("0" + ds) && DigitsValue("0" + ds) == DigitsValue(ds)
  {
    if 0 < |ds| {
      var z := "0" + ds;
      assert z[..|z| - 1] == "0" + ds[..|ds| - 1];
      LeadingZeroValue(ds[..|ds| - 1]);
    }
  }

  /** A digit string that does not start with zero has a positive value. */
  lemma {:induction false} NonZeroLeadPositive(ds: string)
    requires AllDigits(ds) && 0 < |ds| && ds[0] != '0'
    ensures DigitsValue(ds) >= 1
  {
    if 1 < |ds| {
      NonZeroLeadPositive(ds[..|ds| - 1]);
    }
  }

  /** A digit string without a leading zero is the canonical form of its value. */
  lemma {:induction false} CanonicalDigits(ds: string)
    requires AllDigits(ds) && 0 < |ds| && (1 < |ds| ==> ds[0] != '0')
    ensures FormatNat(DigitsValue(ds)) == ds
  {
    if 1 < |ds| {
      var init := ds[..|ds| - 1];
      var d := DigitValue(ds[|ds| - 1]);
      NonZeroLeadPositive(init);
      CanonicalDigits(init);
      var v := DigitsValue(ds);
      assert v == 10 * DigitsValue(init) + d && v >= 10;
      assert v / 10 == DigitsValue(init) && v % 10 == d;
      assert DigitChar(d) == ds[|ds| - 1];
      assert ds == init + [ds[|ds| - 1]];
    } else {
      assert DigitChar(DigitValue(ds[0])) == ds[0];
    }
  }

  /** Every digit string is some zeros followed by the canonical form of its value. */
  lemma {:induction false} DigitsCanonicalForm(ds: string)
    requires AllDigits(ds) && 0 < |ds|
    ensures |FormatNat(DigitsValue(ds))| <= |ds|
    ensures ds == Zeros(|ds| - |FormatNat(DigitsValue(ds))|) + FormatNat(DigitsValue(ds))
  {
    if 1 < |ds| && ds[0] == '0' {
      var rest := ds[1..];
      assert ds == "0" + rest;
      LeadingZeroValue(rest);
      DigitsCanonicalForm(rest);
      var f := FormatNat(DigitsValue(rest));
      assert "0" + Zeros(|rest| - |f|) == Zeros(|ds| - |f|);
    } else {
      CanonicalDigits(ds);
      assert Zeros(0) + ds == ds;
    }
  }

  /** Any number of zeros in front of a digit string leaves its value unchanged. */
  lemma {:induction false} ZerosValue(z: nat, ds: string)
    requires AllDigits(ds)
    ensures AllDigits(Zeros(z) + ds) && DigitsValue(Zeros(z) + ds) == DigitsValue(ds)
  {
    if 0 < z {
      ZerosValue(z - 1, ds);
      LeadingZeroValue(Zeros(z - 1) + ds);
      assert Zeros(z) + ds == "0" + (Zeros(z - 1) + ds);
    } else {
      assert Zeros(z) + ds == ds;
    }
  }

  /** The other half of the grammar: an optional sign, any number of leading
      zeros and the digits of an int64 value are accepted and give that value. */
  lemma ParseSignedZeroPadded(p: string, z: nat, m: nat)
    requires p == "" || p == "+" || p == "-"
    requires InInt64(if p == "-" then -(m as int) else m as int)
    ensures ParseInt(p + Zeros(z) + FormatNat(m)) == Some(if p == "-" then -(m as int) else m as int)
  {
    var u := Zeros(z) + FormatNat(m);
    ZerosValue(z, FormatNat(m));
    FormatNatRoundTrip(m);
    var s := p + Zeros(z) + FormatNat(m);
    assert s == p + u;
    assert IsDigit(u[0]);
    if p != "" {
      assert s[0] == p[0] && s[1..] == u;
    } else {
      assert s == u;
    }
  }

  /** What follows the sign character, if any. */
  function Unsigned(s: string): (u: string)
    ensures s == SignOf(s) + u
  {
    if 0 < |s| && (s[0] == '+' || s[0] == '-') then s[1..] else s
  }

  lemma ParsedDigits(s: string, n: int)
    requires ParseInt(s) == Some(n)
    ensures 0 < |Unsigned(s)| && AllDigits(Unsigned(s)) && DigitsValue(Unsigned(s)) == Abs(n)
    ensures n < 0 ==> SignOf(s) == "-"
    ensures n > 0 ==> SignOf(s) != "-"
  {
  }

  /** The converse of the round trip: whatever ParseInt accepts is an optional
      sign, then zeros, then the canonical decimal form of the value; a
      negative value comes with a minus sign and a positive one without. */
  lemma ParseIntAcceptsOnlyDecimal(s: string, n: int)
    requires ParseInt(s) == Some(n)
    ensures |SignOf(s)| + |FormatNat(Abs(n))| <= |s|
    ensures s == SignOf(s) + Zeros(|s| - |SignOf(s)| - |FormatNat(Abs(n))|) + FormatNat(Abs(n))
    ensures n < 0 ==> SignOf(s) == "-"
    ensures n > 0 ==> SignOf(s) != "-"
  {
    ParsedDigits(s, n);
    var u := Unsigned(s);
    DigitsCanonicalForm(u);
    var f := FormatNat(Abs(n));
    assert u == Zeros(|u| - |f|) + f;
    assert |s| == |SignOf(s)| + |u|;
    assert s == SignOf(s) + (Zeros(|u| - |f|) + f);
  }
}

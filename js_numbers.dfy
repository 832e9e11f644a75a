/**
 * JavaScript's conversions between integers and decimal text: `String(n)` and
 * decimal `parseInt`, which skips leading white space, takes an optional sign
 * and reads the longest run of digits. `parseInt` without a radix would read a
 * "0x" prefix as hexadecimal; that case is not modelled.
 */
module JsNumbers {
  import opened Wrappers
  import opened JsStrings

  /** The digit character for `d`. */
  function DigitChar(d: nat): (c: char)
    requires d < 10
    ensures IsDigit(c) && c as int - '0' as int == d
  {
    ('0' as int + d) as char
  }

  /** `String(n)` for a natural number: its decimal digits, most significant first. */
  function NatToString(n: nat): (r: string)
    ensures |r| >= 1 && forall k :: 0 <= k < |r| ==> IsDigit(r[k])
  {
    if n < 10 then [DigitChar(n)] else NatToString(n / 10) + [DigitChar(n % 10)]
  }

  /** `String(i)` for an integer. */
  function IntToString(i: int): (r: string)
    ensures |r| >= 1
  {
    if i < 0 then "-" + NatToString(-i) else NatToString(i)
  }

  /** The value of one decimal digit (a non-digit never reaches it). */
  function DigitValue(c: char): (d: nat)
    ensures IsDigit(c) ==> d == c as int - '0' as int
  {
    if IsDigit(c) then c as int - '0' as int else 0
  }

  /** The number a string of decimal digits denotes. */
  function DigitsValue(ds: string): nat {
    if |ds| == 0 then 0 else DigitsValue(ds[..|ds| - 1]) * 10 + DigitValue(ds[|ds| - 1])
  }

  lemma {:induction false} DigitsOfNat(n: nat)
    ensures DigitsValue(NatToString(n)) == n
  {
    if n >= 10 {
      DigitsOfNat(n / 10);
      var s := NatToString(n);
      assert s[..|s| - 1] == NatToString(n / 10);
    }
  }

  /** End of the run of decimal digits that starts at `i`. */
  function DigitRunFrom(s: string, i: nat): (n: nat)
    requires i <= |s|
    ensures i <= n <= |s|
    ensures forall k :: i <= k < n ==> IsDigit(s[k])
    ensures n < |s| ==> !IsDigit(s[n])
    decreases |s| - i
  {
    if i < |s| && IsDigit(s[i]) then DigitRunFrom(s, i + 1) else i
  }

  /** Decimal `parseInt`: leading white space, an optional sign, then the longest run of
      digits; `None` stands for `NaN` (no digit where one is needed). A "0x" prefix,
      which `parseInt` without a radix reads as hexadecimal, gives 0 here. */
  function ParseInt(s: string): Option<int> {
    ParseSigned(TrimStart(s))
  }

  /** `parseInt` after the leading white space: an optional sign, then the digits. */
  function ParseSigned(t: string): Option<int> {
    var start := if |t| > 0 && (t[0] == '-' || t[0] == '+') then 1 else 0;
    var end := DigitRunFrom(t, start);
    if end == start then None
    else
      var v := DigitsValue(t[start..end]);
      Some(if start == 1 && t[0] == '-' then -(v as int) else v as int)
  }

  lemma {:induction false} DigitRunAll(s: string, i: nat)
    requires i <= |s| && forall k :: i <= k < |s| ==> IsDigit(s[k])
    ensures DigitRunFrom(s, i) == |s|
    decreases |s| - i
  {
    if i < |s| {
      DigitRunAll(s, i + 1);
    }
  }

  /** Unsigned digits are read whole. */
  lemma ParseSignedDigits(ds: string)
    requires |ds| >= 1 && forall k :: 0 <= k < |ds| ==> IsDigit(ds[k])
    ensures ParseSigned(ds) == Some(DigitsValue(ds))
  {
    assert IsDigit(ds[0]);
    DigitRunAll(ds, 0);
    assert ds[0..|ds|] == ds;
  }

  /** After the sign, the digits run to the end of the text. */
  lemma SignedDigitRun(sign: char, ds: string)
    requires forall k :: 0 <= k < |ds| ==> IsDigit(ds[k])
    ensures var s := [sign] + ds; DigitRunFrom(s, 1) == |s| && s[1..|s|] == ds
  {
    var s := [sign] + ds;
    forall k | 1 <= k < |s| ensures IsDigit(s[k]) {
      assert s[k] == ds[k - 1];
    }
    DigitRunAll(s, 1);
    assert s[1..|s|] == ds;
  }

  /** A minus sign before digits negates them. */
  lemma ParseSignedNegated(ds: string)
    requires |ds| >= 1 && forall k :: 0 <= k < |ds| ==> IsDigit(ds[k])
    ensures ParseSigned("-" + ds) == Some(-(DigitsValue(ds) as int))
  {
    var s := "-" + ds;
    SignedDigitRun('-', ds);
    assert s[0] == '-' && DigitRunFrom(s, 1) == |s| && s[1..|s|] == ds;
  }

  /** `String(n)` read back after the white space: the number itself. */
  lemma ParseSignedOfNat(n: nat)
    ensures ParseSigned(NatToString(n)) == Some(n)
  {
    ParseSignedDigits(NatToString(n));
    DigitsOfNat(n);
  }

  /** `String(-n)` read back after the white space: the negative number. */
  lemma ParseSignedOfNegative(n: nat)
    ensures ParseSigned("-" + NatToString(n)) == Some(-(n as int))
  {
    ParseSignedNegated(NatToString(n));
    DigitsOfNat(n);
  }

  /** `String(i)` has no leading white space, and its sign and digits read back as `i`. */
  lemma ParseSignedOfString(i: int)
    ensures ParseSigned(IntToString(i)) == Some(i)
  {
    if i < 0 {
      ParseSignedOfNegative(-i);
    } else {
      ParseSignedOfNat(i);
    }
  }

  /** `parseInt(String(i), 10) === i`. */
  lemma ParseIntOfString(i: int)
    ensures ParseInt(IntToString(i)) == Some(i)
  {
    var s := IntToString(i);
    assert s[0] == '-' || IsDigit(s[0]);
    TrimStartPlain(s);
    ParseSignedOfString(i);
  }

  /** A non-negative numeral reads back as its number. */
  lemma ParseIntOfNat(n: nat)
    ensures ParseInt(NatToString(n)) == Some(n)
  {
    ParseIntOfString(n);
  }
}

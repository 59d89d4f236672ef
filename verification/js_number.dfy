/** The number conversions the tracker relies on: the global `parseInt`
    called without a radix (section 19.2.5 of ECMA-262) and the decimal
    spelling of an integer-valued Number. */
module JsNumber {
  import opened Optional
  import opened JsText

  /** The value of `c` as a digit in any radix up to 36 (letters of either
      case stand for 10..35); 36 for a character that is no digit at all. */
  function DigitValue(c: char): nat {
    if '0' <= c <= '9' then c as int - '0' as int
    else if 'a' <= c <= 'z' then c as int - 'a' as int + 10
    else if 'A' <= c <= 'Z' then c as int - 'A' as int + 10
    else 36
  }

  predicate IsDigitIn(c: char, radix: nat) {
    DigitValue(c) < radix
  }

  /** The longest prefix of `s` made of digits of `radix`. */
  function DigitRun(s: string, radix: nat): (z: string)
    ensures |z| <= |s| && z == s[..|z|]
    ensures forall i :: 0 <= i < |z| ==> IsDigitIn(z[i], radix)
    ensures |z| < |s| ==> !IsDigitIn(s[|z|], radix)
  {
    if |s| > 0 && IsDigitIn(s[0], radix) then [s[0]] + DigitRun(s[1..], radix) else []
  }

  /** The value of a digit string read most significant digit first. */
  function DigitsValue(z: string, radix: nat): nat {
    if |z| == 0 then 0
    else DigitsValue(z[..|z| - 1], radix) * radix + DigitValue(z[|z| - 1])
  }

  /** `parseInt(s)`: skip leading white space, take one optional sign, read
      a `0x`/`0X` prefix as radix 16 and otherwise radix 10, and convert the
      longest run of digits that follows. `None` stands for `NaN`, which the
      function returns when that run is empty. */
  function ParseInt(s: string): (r: Option<int>)
    ensures r.None? <==> DigitRun(ParseBody(s), ParseRadix(s)) == []
    ensures r.Some? && ParseNegative(s) ==> r.value <= 0
    ensures r.Some? && !ParseNegative(s) ==> r.value >= 0
  {
    ReadDigits(ParseNegative(s), ParseRadix(s), ParseBody(s))
  }

  /** The conversion step of `parseInt`, once the sign, the radix and the
      text after the prefix are known. */
  function ReadDigits(negative: bool, radix: nat, body: string): (r: Option<int>)
    ensures r.None? <==> DigitRun(body, radix) == []
    ensures r.Some? && negative ==> r.value <= 0
    ensures r.Some? && !negative ==> r.value >= 0
  {
    var z := DigitRun(body, radix);
    var magnitude: int := DigitsValue(z, radix);
    if z == [] then None
    else if negative then Some(-magnitude)
    else Some(magnitude)
  }

  /** The text after the leading white space and the optional sign. */
  function Unsigned(s: string): string {
    var t := TrimStart(s);
    if |t| > 0 && (t[0] == '-' || t[0] == '+') then t[1..] else t
  }

  predicate ParseNegative(s: string) {
    var t := TrimStart(s);
    |t| > 0 && t[0] == '-'
  }

  predicate HasHexPrefix(u: string) {
    |u| >= 2 && u[0] == '0' && (u[1] == 'x' || u[1] == 'X')
  }

  function ParseRadix(s: string): nat {
    if HasHexPrefix(Unsigned(s)) then 16 else 10
  }

  function ParseBody(s: string): string {
    var u := Unsigned(s);
    if HasHexPrefix(u) then u[2..] else u
  }

  /** The character of a decimal digit value. */
  function DecimalChar(d: nat): (c: char)
    requires d < 10
    ensures DigitValue(c) == d
  {
    ('0' as int + d) as char
  }

  /** The decimal spelling of a natural number, without leading zeros. */
  function NatToDecimal(n: nat): (z: string)
    ensures |z| > 0
    ensures forall i :: 0 <= i < |z| ==> '0' <= z[i] <= '9'
    ensures |z| > 1 ==> z[0] != '0'
    ensures |z| == 1 && z[0] == '0' <==> n == 0
  {
    if n < 10 then [DecimalChar(n)] else NatToDecimal(n / 10) + [DecimalChar(n % 10)]
  }

  /** `String(n)` for an integer-valued Number: a minus sign for negative
      values, then the decimal digits. */
  function IntToDecimal(n: int): (z: string)
    ensures |z| > 0
    ensures z[0] == '-' <==> n < 0
  {
    if n < 0 then "-" + NatToDecimal(-n) else NatToDecimal(n)
  }

  lemma {:induction false} DecimalValue(n: nat)
    ensures DigitsValue(NatToDecimal(n), 10) == n
    decreases n
  {
    if n >= 10 {
      var z := NatToDecimal(n);
      assert z[..|z| - 1] == NatToDecimal(n / 10);
      DecimalValue(n / 10);
    }
  }

  /** Reading back the decimal spelling of any integer gives that integer:
      `parseInt(String(n)) === n`. */
  lemma ParseIntOfDecimal(n: int)
    ensures ParseInt(IntToDecimal(n)) == Some(n)
  {
    ParseIntIgnoresTrailing(n, []);
    assert IntToDecimal(n) + [] == IntToDecimal(n);
  }

  /** Reading stops at the first character that is not a decimal digit:
      `parseInt('12kg') === 12`. The one exception is zero followed by `x`
      or `X`: `'0' + 'x1'` reads as hexadecimal `0x1`. */
  lemma ParseIntIgnoresTrailing(n: int, rest: string)
    requires |rest| == 0 || (!IsDigitIn(rest[0], 10) && !(n == 0 && (rest[0] == 'x' || rest[0] == 'X')))
    ensures ParseInt(IntToDecimal(n) + rest) == Some(n)
  {
    var z := IntToDecimal(n) + rest;
    var m: nat := if n < 0 then -n else n;
    var digits := NatToDecimal(m);
    DecimalSigned(n, rest);
    assert forall i :: 0 <= i < |digits| ==> IsDigitIn(digits[i], 10);
    DigitRunStops(digits, rest, 10);
    ParseIntReads(z, digits);
    DecimalValue(m);
  }

  /** After the sign, the spelling of `n` followed by `rest` is the digits
      of its magnitude followed by `rest`, read in radix 10. */
  lemma DecimalSigned(n: int, rest: string)
    requires |rest| == 0 || (!IsDigitIn(rest[0], 10) && !(n == 0 && (rest[0] == 'x' || rest[0] == 'X')))
    ensures ParseBody(IntToDecimal(n) + rest) == NatToDecimal(if n < 0 then -n else n) + rest
    ensures ParseRadix(IntToDecimal(n) + rest) == 10
    ensures ParseNegative(IntToDecimal(n) + rest) <==> n < 0
  {
    var z := IntToDecimal(n) + rest;
    var digits := NatToDecimal(if n < 0 then -n else n);
    NoHexPrefix(digits, rest);
    if n < 0 {
      assert z == "-" + (digits + rest);
      NegativeDigits(z);
    } else {
      assert z == digits + rest;
      UnsignedDigits(z);
    }
  }

  /** Digits without a hexadecimal prefix are read in radix 10 as they
      stand. */
  lemma UnsignedDigits(u: string)
    requires |u| > 0 && '0' <= u[0] <= '9' && !HasHexPrefix(u)
    ensures ParseBody(u) == u && ParseRadix(u) == 10 && !ParseNegative(u)
  {
    PlainStart(u);
  }

  /** A minus sign followed by such digits reads them negated. */
  lemma NegativeDigits(z: string)
    requires |z| > 1 && z[0] == '-' && '0' <= z[1] <= '9' && !HasHexPrefix(z[1..])
    ensures ParseBody(z) == z[1..] && ParseRadix(z) == 10 && ParseNegative(z)
  {
    NoLeadingSpace(z);
    SignParts(z);
  }

  lemma NoHexPrefix(digits: string, rest: string)
    requires |digits| > 0 && forall i :: 0 <= i < |digits| ==> '0' <= digits[i] <= '9'
    requires |rest| == 0 || (!IsDigitIn(rest[0], 10) && !(|digits| == 1 && digits[0] == '0' && (rest[0] == 'x' || rest[0] == 'X')))
    ensures !HasHexPrefix(digits + rest)
  {
    if |digits| >= 2 {
      assert (digits + rest)[1] == digits[1];
    } else if |rest| > 0 {
      assert (digits + rest)[1] == rest[0];
    }
  }

  /** The digit run of digits followed by a non-digit is those digits. */
  lemma {:induction false} DigitRunStops(digits: string, rest: string, radix: nat)
    requires forall i :: 0 <= i < |digits| ==> IsDigitIn(digits[i], radix)
    requires |rest| == 0 || !IsDigitIn(rest[0], radix)
    ensures DigitRun(digits + rest, radix) == digits
  {
    if |digits| > 0 {
      assert (digits + rest)[1..] == digits[1..] + rest;
      DigitRunStops(digits[1..], rest, radix);
    } else {
      assert digits + rest == rest;
    }
  }

  /** White space in front of the number is skipped: `t` reads as `t`
      without its first character when that character is white space. */
  lemma ParseIntSkipsLeadingSpace(t: string)
    requires |t| > 0 && IsJsSpace(t[0])
    ensures ParseInt(t) == ParseInt(t[1..])
  {
    assert TrimStart(t) == TrimStart(t[1..]);
    ParseIntOfTrimmed(t, t[1..]);
  }

  /** Text that starts with neither white space nor a sign is read as
      it stands: no white space to skip, no sign to remove. */
  lemma PlainStart(s: string)
    requires |s| == 0 || (!IsJsSpace(s[0]) && s[0] != '+' && s[0] != '-')
    ensures LeadingSpace(s) == 0 && TrimStart(s) == s
    ensures Unsigned(s) == s && !ParseNegative(s)
  {
    NoLeadingSpace(s);
  }

  /** Text not starting with white space is its own `trimStart`. */
  lemma NoLeadingSpace(s: string)
    requires |s| == 0 || !IsJsSpace(s[0])
    ensures LeadingSpace(s) == 0 && TrimStart(s) == s
  {
    assert LeadingSpace(s) == 0;
    assert s[0..] == s;
  }

  /** After the white space, a sign is removed and a minus makes the
      result negative. */
  lemma SignParts(t: string)
    requires |t| > 0 && (t[0] == '+' || t[0] == '-') && TrimStart(t) == t
    ensures Unsigned(t) == t[1..] && (ParseNegative(t) <==> t[0] == '-')
  {
  }

  /** When digits follow the prefix, `parseInt` gives their value, negated
      after a minus sign. */
  lemma ParseIntReads(t: string, z: string)
    requires |z| > 0 && DigitRun(ParseBody(t), ParseRadix(t)) == z
    ensures ParseInt(t) == Some(if ParseNegative(t) then -(DigitsValue(z, ParseRadix(t)) as int) else DigitsValue(z, ParseRadix(t)))
  {
    ReadDigitsValue(ParseNegative(t), ParseRadix(t), ParseBody(t), z);
  }

  lemma ReadDigitsValue(negative: bool, radix: nat, body: string, z: string)
    requires |z| > 0 && DigitRun(body, radix) == z
    ensures ReadDigits(negative, radix, body) == Some(if negative then -(DigitsValue(z, radix) as int) else DigitsValue(z, radix))
  {
  }

  /** `parseInt` looks only at the text after the leading white space. */
  lemma ParseIntOfTrimmed(s: string, t: string)
    requires TrimStart(s) == TrimStart(t)
    ensures ParseInt(s) == ParseInt(t)
  {
    assert Unsigned(s) == Unsigned(t) && ParseNegative(s) == ParseNegative(t);
    ParseIntByParts(s, t);
  }

  /** `parseInt` depends only on the sign, the radix and the digits after
      the prefix. */
  lemma ParseIntByParts(s: string, t: string)
    requires ParseNegative(s) == ParseNegative(t)
    requires ParseRadix(s) == ParseRadix(t) && ParseBody(s) == ParseBody(t)
    ensures ParseInt(s) == ParseInt(t)
  {
  }

  /** An explicit plus sign changes nothing: `parseInt('+5') === 5`. The
      text after the sign must start with neither white space nor a sign. */
  lemma ParseIntPlusSign(t: string)
    requires |t| > 0 && t[0] == '+'
    requires |t| == 1 || (!IsJsSpace(t[1]) && t[1] != '+' && t[1] != '-')
    ensures ParseInt(t) == ParseInt(t[1..])
  {
    NoLeadingSpace(t);
    SignParts(t);
    PlainStart(t[1..]);
    ParseIntByParts(t, t[1..]);
  }

  /** `k` zero digits. */
  function Zeros(k: nat): (z: string)
    ensures |z| == k && forall i :: 0 <= i < k ==> z[i] == '0'
  {
    if k == 0 then [] else "0" + Zeros(k - 1)
  }

  lemma {:induction false} ZerosValue(k: nat, radix: nat)
    ensures DigitsValue(Zeros(k), radix) == 0
    decreases k
  {
    if k > 0 {
      var z := Zeros(k);
      assert z[..k - 1] == Zeros(k - 1);
      ZerosValue(k - 1, radix);
    }
  }

  /** Leading zero digits add nothing to a digit string's value. */
  lemma {:induction false} LeadingZerosValue(k: nat, z: string, radix: nat)
    ensures DigitsValue(Zeros(k) + z, radix) == DigitsValue(z, radix)
    decreases |z|
  {
    if |z| == 0 {
      assert Zeros(k) + z == Zeros(k);
      ZerosValue(k, radix);
    } else {
      var w := Zeros(k) + z;
      assert w[..|w| - 1] == Zeros(k) + z[..|z| - 1];
      assert w[|w| - 1] == z[|z| - 1];
      LeadingZerosValue(k, z[..|z| - 1], radix);
    }
  }

  /** Leading zeros are read as decimal digits of no weight:
      `parseInt('007') === 7`. */
  lemma ParseIntLeadingZeros(k: nat, n: nat)
    ensures ParseInt(Zeros(k) + NatToDecimal(n)) == Some(n)
  {
    var digits := Zeros(k) + NatToDecimal(n);
    assert forall i :: 0 <= i < |digits| ==> '0' <= digits[i] <= '9';
    PlainStart(digits);
    assert !HasHexPrefix(digits);
    assert ParseBody(digits) == digits && ParseRadix(digits) == 10;
    DigitRunStops(digits, [], 10);
    assert digits + [] == digits;
    LeadingZerosValue(k, NatToDecimal(n), 10);
    DecimalValue(n);
  }

  /** Text that starts with `0x` or `0X` is read in radix 16 from its
      third character on. */
  lemma HexParts(t: string)
    requires HasHexPrefix(t)
    ensures ParseBody(t) == t[2..] && ParseRadix(t) == 16 && !ParseNegative(t)
  {
    PlainStart(t);
  }

  /** After a `0x` or `0X` prefix the hexadecimal digits `z` are read in
      radix 16, up to the first character that is no hexadecimal digit:
      `parseInt('0x1F') === 31`. */
  lemma ParseIntHex(t: string, z: string)
    requires |t| >= 2 + |z| && t[0] == '0' && (t[1] == 'x' || t[1] == 'X')
    requires |z| > 0 && t[2..2 + |z|] == z
    requires forall i :: 0 <= i < |z| ==> IsDigitIn(z[i], 16)
    requires |t| == 2 + |z| || !IsDigitIn(t[2 + |z|], 16)
    ensures ParseInt(t) == Some(DigitsValue(z, 16))
  {
    var rest := t[2 + |z|..];
    assert t[2..] == z + rest;
    HexParts(t);
    DigitRunStops(z, rest, 16);
    ParseIntReads(t, z);
  }

  /** The quantity field of the product form: `parseInt(v) || 1`, so both
      `NaN` and zero fall back to one. */
  function QuantityOrOne(v: string): (q: int)
    ensures q != 0
    ensures ParseInt(v).Some? && ParseInt(v).value != 0 ==> q == ParseInt(v).value
    ensures ParseInt(v) == None || ParseInt(v) == Some(0) ==> q == 1
  {
    match ParseInt(v)
    case None => 1
    case Some(k) => if k == 0 then 1 else k
  }
}

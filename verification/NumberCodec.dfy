/** The decimal codec: `uintToString` and the integer `valueToString` print, the integer branch of `decodeNumber`
    reads. */
module NumberCodec {
  import opened Bytes

  const TWO_63: int := 0x8000_0000_0000_0000
  const TWO_64: int := 0x1_0000_0000_0000_0000
  const MAX_LARGEST_INT: int := 0x7FFF_FFFF_FFFF_FFFF
  const MAX_LARGEST_UINT: int := 0xFFFF_FFFF_FFFF_FFFF

  /** `3 * sizeof(LargestUInt) + 1`. */
  const BUFFER_SIZE: nat := 25

  // ----- the meaning of digits -------------------------------------------------------------------

  predicate AllDigits(s: bytes) {
    forall i :: 0 <= i < |s| ==> IsDigit(s[i])
  }

  /** The number a digit string denotes in base ten. */
  function DigitsValue(s: bytes): (v: nat)
    requires AllDigits(s)
  {
    if s == [] then 0 else DigitsValue(s[..|s| - 1]) * 10 + (s[|s| - 1] - ZERO)
  }

  /** The decimal digits of a number, without leading zeros. */
  function Decimal(n: nat): (s: bytes)
    ensures s != [] && AllDigits(s)
  {
    if n < 10 then [ZERO + n] else Decimal(n / 10) + [ZERO + n % 10]
  }

  function FormatInt(i: int): bytes {
    if i < 0 then [MINUS] + Decimal(-i) else Decimal(i)
  }

  /** The digits printed denote the number, and only zero starts with a zero. */
  lemma {:induction false} DecimalValue(n: nat)
    ensures DigitsValue(Decimal(n)) == n
    ensures Decimal(n)[0] == ZERO <==> n == 0
    ensures |Decimal(n)| > 1 ==> n >= 10
  {
    if n >= 10 {
      DecimalValue(n / 10);
      assert Decimal(n)[..|Decimal(n)| - 1] == Decimal(n / 10);
    }
  }

  function Pow10(k: nat): (p: nat)
    ensures p >= 1
  {
    if k == 0 then 1 else 10 * Pow10(k - 1)
  }

  lemma {:induction false} DecimalLength(n: nat, k: nat)
    requires k >= 1 && n < Pow10(k)
    ensures |Decimal(n)| <= k
  {
    if n >= 10 {
      DecimalLength(n / 10, k - 1);
    }
  }

  /** Twenty digits are enough for any 64-bit number. */
  lemma DecimalFits(n: nat)
    requires n < TWO_64
    ensures |Decimal(n)| <= 20
  {
    assert Pow10(4) == 10000;
    assert Pow10(8) == 10000_0000;
    assert Pow10(12) == 10000_0000_0000;
    assert Pow10(16) == 10000_0000_0000_0000;
    assert Pow10(20) == 10000_0000_0000_0000_0000;
    DecimalLength(n, 20);
  }

  // ----- numbers of section 6 of RFC 8259 ------------------------------------------------------------

  /** A zero alone, or digits that start with no zero. */
  predicate IsWhole(s: bytes) {
    s != [] && AllDigits(s) && (s[0] == ZERO ==> |s| == 1)
  }

  predicate IsFraction(s: bytes) {
    s == [] || (s[0] == DOT && |s| >= 2 && AllDigits(s[1..]))
  }

  predicate IsExponent(s: bytes) {
    s == [] || ((s[0] == 0x65 || s[0] == 0x45) && |s| >= 2
                && (AllDigits(s[1..]) || ((s[1] == PLUS || s[1] == MINUS) && |s| >= 3 && AllDigits(s[2..]))))
  }

  predicate NumberParts(s: bytes, negative: bool, whole: bytes, fraction: bytes, exponent: bytes) {
    && s == (if negative then [MINUS] else []) + (whole + (fraction + exponent))
    && IsWhole(whole) && IsFraction(fraction) && IsExponent(exponent)
  }

  ghost predicate LegalNumber(s: bytes) {
    exists negative, whole, fraction, exponent :: NumberParts(s, negative, whole, fraction, exponent)
  }

  /** The integers printed are numbers of RFC 8259. */
  lemma FormatIntIsLegal(i: int)
    ensures LegalNumber(FormatInt(i))
  {
    var n := if i < 0 then -i else i;
    DecimalValue(n);
    assert Decimal(n) + ([] + []) == Decimal(n);
    assert NumberParts(FormatInt(i), i < 0, Decimal(n), [], []);
  }

  // ----- printing ----------------------------------------------------------------------------------

  /** `uintToString`: writes a terminating NUL and then the digits, backwards from `current`. */
  method UintToString(value: nat, buffer: array<byte>, current: nat) returns (current': nat)
    requires value < TWO_64 && BUFFER_SIZE <= current <= buffer.Length
    modifies buffer
    ensures current' <= current && current - current' <= 21
    ensures buffer[current'..current] == Decimal(value) + [NUL]
    ensures buffer[..current'] == old(buffer[..current']) && buffer[current..] == old(buffer[current..])
  {
    DecimalFits(value);
    current' := current - 1;
    buffer[current'] := NUL;
    var v := value;
    buffer[current' - 1] := ZERO + v % 10;
    current', v := current' - 1, v / 10;
    while v != 0
      invariant current - 21 <= current' < current - 1
      invariant v == 0 ==> buffer[current'..current - 1] == Decimal(value)
      invariant v != 0 ==> Decimal(v) + buffer[current'..current - 1] == Decimal(value)
      invariant buffer[current - 1] == NUL
      invariant buffer[..current'] == old(buffer[..current']) && buffer[current..] == old(buffer[current..])
      decreases v
    {
      ghost var written, before := buffer[current'..current - 1], v;
      current' := current' - 1;
      buffer[current'] := ZERO + v % 10;
      v := v / 10;
      assert buffer[current'..current - 1] == [ZERO + before % 10] + written;
      if v != 0 {
        assert Decimal(before) + written == Decimal(v) + ([ZERO + before % 10] + written);
      } else {
        assert Decimal(before) == [ZERO + before % 10];
      }
    }
    assert buffer[current'..current] == buffer[current'..current - 1] + [NUL];
  }

  /** The C string starting at the front of `s`. */
  function UpToNul(s: bytes): bytes {
    if s == [] || s[0] == NUL then [] else [s[0]] + UpToNul(s[1..])
  }

  lemma {:induction false} DigitsUpToNul(digits: bytes)
    requires forall i :: 0 <= i < |digits| ==> digits[i] != NUL
    ensures UpToNul(digits + [NUL]) == digits
  {
    if digits != [] {
      DigitsUpToNul(digits[1..]);
      assert (digits + [NUL])[1..] == digits[1..] + [NUL];
    }
  }

  method PutMinus(buffer: array<byte>, current: nat) returns (current': nat)
    requires 1 <= current <= buffer.Length
    modifies buffer
    ensures current' == current - 1
    ensures buffer[current'..] == [MINUS] + old(buffer[current..])
  {
    current' := current - 1;
    buffer[current'] := MINUS;
    assert buffer[current'..][1..] == buffer[current..];
  }

  lemma SignThenNul(value: int)
    ensures value < 0 ==> [MINUS] + (Decimal(-value) + [NUL]) == FormatInt(value) + [NUL]
  {
  }

  /** `valueToString(LargestInt)`: the sign is written in front of the digits, inside the buffer. */
  method ValueToStringInt(value: int) returns (s: bytes)
    requires -TWO_63 <= value < TWO_63
    ensures s == FormatInt(value)
  {
    hide Decimal, UpToNul;
    var buffer := new byte[BUFFER_SIZE](_ => NUL);
    var current: nat := BUFFER_SIZE;
    if value == -TWO_63 {
      current := UintToString(MAX_LARGEST_INT + 1, buffer, current);
      assert buffer[current..] == buffer[current..BUFFER_SIZE];
      current := PutMinus(buffer, current);
    } else if value < 0 {
      current := UintToString(-value, buffer, current);
      assert buffer[current..] == buffer[current..BUFFER_SIZE];
      current := PutMinus(buffer, current);
    } else {
      current := UintToString(value, buffer, current);
      assert buffer[current..] == buffer[current..BUFFER_SIZE];
    }
    SignThenNul(value);
    DigitsUpToNul(FormatInt(value));
    s := UpToNul(buffer[current..]);
  }

  /** `valueToString(LargestUInt)`. */
  method ValueToStringUInt(value: nat) returns (s: bytes)
    requires value < TWO_64
    ensures s == Decimal(value)
  {
    var buffer := new byte[BUFFER_SIZE](_ => NUL);
    var current := UintToString(value, buffer, BUFFER_SIZE);
    assert buffer[current..] == Decimal(value) + [NUL];
    DigitsUpToNul(Decimal(value));
    s := UpToNul(buffer[current..]);
  }

  // ----- reading -----------------------------------------------------------------------------------

  datatype Number = IntNumber(i: int) | UIntNumber(u: nat) | NotInteger

  /** The integer a number token denotes, when all after the sign are digits and it fits 64 bits. */
  function IntegerOf(token: bytes): Number {
    var negative := token != [] && token[0] == MINUS;
    var digits := if negative then token[1..] else token;
    if !AllDigits(digits) then NotInteger
    else
      var v: int := DigitsValue(digits);
      if negative then (if v <= TWO_63 then IntNumber(-v) else NotInteger)
      else if v < TWO_63 then IntNumber(v)
      else if v < TWO_64 then UIntNumber(v)
      else NotInteger
  }

  /** A value of `LargestInt` after wrap-around. */
  function ToInt64(x: int): int {
    if x % TWO_64 < TWO_63 then x % TWO_64 else x % TWO_64 - TWO_64
  }

  lemma {:induction false} PrefixValue(digits: bytes, k: nat)
    requires AllDigits(digits) && k <= |digits|
    ensures DigitsValue(digits[..k]) <= DigitsValue(digits)
    ensures k < |digits| ==> DigitsValue(digits[..k]) * 10 <= DigitsValue(digits)
    decreases |digits|
  {
    if k == |digits| {
      assert digits[..k] == digits;
    } else {
      var front := digits[..|digits| - 1];
      assert front[..k] == digits[..k];
      PrefixValue(front, k);
    }
  }

  /** The overflow guard of the loop, on the k-th digit. */
  predicate GuardFires(digits: bytes, k: nat, threshold: int, maxLastDigit: int)
    requires AllDigits(digits) && 1 <= k <= |digits|
  {
    var value := DigitsValue(digits[..k - 1]);
    value >= threshold && (value > threshold || k != |digits| || digits[k - 1] - ZERO > maxLastDigit)
  }

  /** When the guard fires, the whole number exceeds the limit; while it does not, the digits so far stay within. */
  lemma GuardStep(digits: bytes, k: nat, threshold: int, maxLastDigit: int)
    requires AllDigits(digits) && 1 <= k <= |digits| && 0 <= maxLastDigit <= 9 && threshold >= 1
    ensures GuardFires(digits, k, threshold, maxLastDigit) ==> DigitsValue(digits) > threshold * 10 + maxLastDigit
    ensures !GuardFires(digits, k, threshold, maxLastDigit) ==> DigitsValue(digits[..k]) <= threshold * 10 + maxLastDigit
  {
    assert digits[..k][..k - 1] == digits[..k - 1];
    PrefixValue(digits, k);
    if k == |digits| {
      assert digits[..k] == digits;
    }
  }

  /** The guard fires on some digit exactly when the number exceeds the limit. */
  lemma GuardIsExact(digits: bytes, threshold: int, maxLastDigit: int)
    requires AllDigits(digits) && 0 <= maxLastDigit <= 9 && threshold >= 1
    ensures (exists k :: 1 <= k <= |digits| && GuardFires(digits, k, threshold, maxLastDigit))
            <==> DigitsValue(digits) > threshold * 10 + maxLastDigit
  {
    hide GuardFires;
    forall k | 1 <= k <= |digits|
      ensures GuardFires(digits, k, threshold, maxLastDigit) ==> DigitsValue(digits) > threshold * 10 + maxLastDigit
    {
      GuardStep(digits, k, threshold, maxLastDigit);
    }
    if digits != [] {
      GuardStep(digits, |digits|, threshold, maxLastDigit);
      assert digits[..|digits|] == digits;
    }
  }

  lemma NextDigit(digits: bytes, k: nat)
    requires 1 <= k <= |digits| && AllDigits(digits[..k - 1]) && IsDigit(digits[k - 1])
    ensures AllDigits(digits[..k])
    ensures DigitsValue(digits[..k]) == DigitsValue(digits[..k - 1]) * 10 + (digits[k - 1] - ZERO)
  {
    assert digits[..k][..k - 1] == digits[..k - 1];
  }

  /** The end of `decodeNumber`: negating tens and units apart never leaves the signed range. */
  function WithSign(value: int, isNegative: bool): (n: Number)
    requires 0 <= value <= if isNegative then TWO_63 else MAX_LARGEST_UINT
    ensures n == if isNegative then IntNumber(-value)
                 else if value < TWO_63 then IntNumber(value) else UIntNumber(value)
  {
    if isNegative then
      var lastDigit := value % 10;
      IntNumber(ToInt64(ToInt64(-(value / 10) * 10) - lastDigit))
    else if value <= MAX_LARGEST_INT then IntNumber(value)
    else UIntNumber(value)
  }

  /** Unsigned 64-bit arithmetic. */
  function Append64(value: int, digit: int): (r: int)
    ensures 0 <= value * 10 + digit < TWO_64 ==> r == value * 10 + digit
  {
    (value * 10 + digit) % TWO_64
  }

  /** The loop of `decodeNumber`: unsigned 64-bit arithmetic under a guard, which never wraps and gives up
      exactly when a character is no digit or the number exceeds `threshold * 10 + maxLastDigit`. */
  method ReadMagnitude(doc: bytes, base: nat, end: nat, threshold: int, maxLastDigit: int)
    returns (ok: bool, value: int)
    requires base <= end <= |doc|
    requires threshold >= 1 && 0 <= maxLastDigit <= 9 && threshold * 10 + maxLastDigit < TWO_64
    ensures ok <==> AllDigits(doc[base..end]) && DigitsValue(doc[base..end]) <= threshold * 10 + maxLastDigit
    ensures ok ==> value == DigitsValue(doc[base..end])
  {
    ghost var digits := doc[base..end];
    assert DigitsValue(digits[..0]) == 0;
    hide DigitsValue, Append64;
    var current := base;
    value := 0;
    while current < end
      invariant base <= current <= end
      invariant AllDigits(digits[..current - base])
      invariant value == DigitsValue(digits[..current - base])
      invariant value <= threshold * 10 + maxLastDigit
    {
      var c := doc[current];
      current := current + 1;
      ghost var k := current - base;
      assert c == digits[k - 1];
      if !IsDigit(c) {
        return false, value;
      }
      var digit := c - ZERO;
      if value >= threshold {
        if value > threshold || current != end || digit > maxLastDigit {
          if AllDigits(digits) {
            GuardStep(digits, k, threshold, maxLastDigit);
          }
          return false, value;
        }
      }
      NextDigit(digits, k);
      assert value * 10 + digit <= threshold * 10 + maxLastDigit;
      value := Append64(value, digit);
    }
    assert digits[..current - base] == digits;
    ok := true;
  }

  /** `decodeNumber`, up to the point where it gives up on an integer: it takes the integer branch exactly
      when the number fits. */
  method DecodeNumber(doc: bytes, start: nat, end: nat) returns (n: Number)
    requires start < end <= |doc|
    ensures n == IntegerOf(doc[start..end])
  {
    var isNegative := doc[start] == MINUS;
    var base := if isNegative then start + 1 else start;
    assert doc[base..end] == if isNegative then doc[start..end][1..] else doc[start..end];
    var threshold := if isNegative then TWO_63 / 10 else MAX_LARGEST_UINT / 10;
    var maxLastDigit := if isNegative then TWO_63 % 10 else MAX_LARGEST_UINT % 10;
    var ok, value := ReadMagnitude(doc, base, end, threshold, maxLastDigit);
    n := if ok then WithSign(value, isNegative) else NotInteger;
  }

  /** Reading inverts printing on every signed 64-bit number. */
  lemma IntRoundTrip(i: int)
    requires -TWO_63 <= i < TWO_63
    ensures IntegerOf(FormatInt(i)) == IntNumber(i)
  {
    DecimalValue(if i < 0 then -i else i);
    if i < 0 {
      assert FormatInt(i)[1..] == Decimal(-i);
    } else {
      assert IsDigit(Decimal(i)[0]);
    }
  }

  /** And on every unsigned one, which comes back signed when it can. */
  lemma UIntRoundTrip(u: nat)
    requires u < TWO_64
    ensures IntegerOf(Decimal(u)) == if u <= MAX_LARGEST_INT then IntNumber(u) else UIntNumber(u)
  {
    DecimalValue(u);
    assert IsDigit(Decimal(u)[0]);
  }
}

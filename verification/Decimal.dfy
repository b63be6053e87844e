/**
 Decimal numbers on the wire: the digit printers of the client and of Rust's `to_string`,
 and the saturating digit folds of both ends.
 */
module Decimal {
  import opened Base

  const ZERO: byte := 48
  const MINUS: byte := 45

  predicate IsDigit(b: byte) {
    48 <= b <= 57
  }

  predicate AllDigits(s: Bytes) {
    forall i :: 0 <= i < |s| ==> IsDigit(s[i])
  }

  // The number a digit string denotes.
  function Value(s: Bytes): nat
    requires AllDigits(s)
  {
    if s == [] then 0 else 10 * Value(s[..|s| - 1]) + (s[|s| - 1] - ZERO) as nat
  }

  // The digit string of a number, without leading zeros.
  function Digits(n: nat): (r: Bytes)
    ensures AllDigits(r) && r != []
  {
    if n < 10 then [n as byte + ZERO] else Digits(n / 10) + [(n % 10) as byte + ZERO]
  }

  function Signed(i: int): Bytes {
    if i < 0 then [MINUS] + Digits(-i) else Digits(i)
  }

  // What an unsigned reader accepts: a non-empty digit string, denoting its value clamped to `max`.
  function Unsigned(s: Bytes, max: nat): Option<nat> {
    if s != [] && AllDigits(s) then Some(Min(Value(s), max)) else None
  }

  // What the client's signed reader accepts: an optional minus sign and then any run of digits,
  // the empty run included when there is a sign.
  function SignedValue(s: Bytes): Option<int> {
    if s == [] then None
    else if s[0] == MINUS then
      if AllDigits(s[1..]) then Some(-Min(Value(s[1..]), I64_MAX)) else None
    else
      if AllDigits(s) then Some(Min(Value(s), I64_MAX)) else None
  }

  lemma {:induction false} ValueOfDigits(n: nat)
    ensures Value(Digits(n)) == n
  {
    if n >= 10 {
      var d := Digits(n);
      assert d[..|d| - 1] == Digits(n / 10);
      ValueOfDigits(n / 10);
    }
  }

  function Zeros(k: nat): (r: Bytes)
    ensures |r| == k && AllDigits(r)
  {
    seq(k, _ => ZERO)
  }

  lemma {:induction false} ZerosAdd(k: nat, n: nat)
    ensures AllDigits(Zeros(k) + Digits(n)) && Value(Zeros(k) + Digits(n)) == n
  {
    var s := Zeros(k) + Digits(n);
    if n >= 10 {
      ZerosAdd(k, n / 10);
      assert s[..|s| - 1] == Zeros(k) + Digits(n / 10);
    } else {
      assert s[..|s| - 1] == Zeros(k);
      ZerosAreNothing(k);
    }
  }

  lemma {:induction false} ZerosAreNothing(k: nat)
    ensures Value(Zeros(k)) == 0
  {
    if k > 0 {
      assert Zeros(k)[..k - 1] == Zeros(k - 1);
      ZerosAreNothing(k - 1);
    }
  }

  // A digit string is the digits of its value behind some zeros.
  lemma {:induction false} DigitsBehindZeros(s: Bytes) returns (k: nat)
    requires s != [] && AllDigits(s)
    ensures s == Zeros(k) + Digits(Value(s))
  {
    var front, d := s[..|s| - 1], (s[|s| - 1] - ZERO) as nat;
    var n := Value(s);
    if front == [] {
      k := 0;
      assert s == [s[0]] && Zeros(0) + Digits(n) == Digits(n);
    } else {
      k := DigitsBehindZeros(front);
      assert front + [s[|s| - 1]] == s;
      if Value(front) == 0 {
        assert Zeros(k) + [ZERO] == Zeros(k + 1);
        k := k + 1;
      } else {
        assert n / 10 == Value(front) && n % 10 == d;
        Assoc(Zeros(k), Digits(n / 10), [s[|s| - 1]]);
      }
    }
  }

  // What is read as a number below the maximum is that number's digits, with any zeros before them, and
  // nothing else.
  lemma UnsignedReadsExactly(s: Bytes, max: nat, n: nat)
    requires n < max
    ensures Unsigned(s, max) == Some(n) <==> exists k: nat :: s == Zeros(k) + Digits(n)
  {
    if Unsigned(s, max) == Some(n) {
      var k := DigitsBehindZeros(s);
    }
    forall k: nat | s == Zeros(k) + Digits(n) ensures Unsigned(s, max) == Some(n) {
      ZerosAdd(k, n);
    }
  }

  // The same for the signed reader, a sign in front of the zeros.
  lemma PositiveReadsExactly(s: Bytes, n: int)
    requires 0 < n < I64_MAX
    ensures SignedValue(s) == Some(n) <==> exists k: nat :: s == Zeros(k) + Digits(n)
  {
    if SignedValue(s) == Some(n) {
      var k := DigitsBehindZeros(s);
    }
    forall k: nat | s == Zeros(k) + Digits(n) ensures SignedValue(s) == Some(n) {
      ZerosAdd(k, n);
      assert IsDigit(s[0]);
    }
  }

  lemma NegativeReadsExactly(s: Bytes, n: int)
    requires -I64_MAX < n < 0
    ensures SignedValue(s) == Some(n) <==> exists k: nat :: s == [MINUS] + (Zeros(k) + Digits(-n))
  {
    if SignedValue(s) == Some(n) {
      var k := DigitsBehindZeros(s[1..]);
      assert s == [MINUS] + s[1..];
    }
    forall k: nat | s == [MINUS] + (Zeros(k) + Digits(-n)) ensures SignedValue(s) == Some(n) {
      ZerosAdd(k, -n);
      assert s[1..] == Zeros(k) + Digits(-n);
    }
  }

  // Every unsigned number that fits is read back exactly.
  lemma UnsignedRoundTrip(n: nat, max: nat)
    requires n <= max
    ensures Unsigned(Digits(n), max) == Some(n)
  {
    ValueOfDigits(n);
  }

  // Integer replies survive the trip exactly when they are not below -i64::MAX: the one i64
  // outside that range, the minimum, comes back as minus the maximum.
  lemma SignedRoundTrip(i: int)
    requires -I64_MAX - 1 <= i <= I64_MAX
    ensures SignedValue(Signed(i)) == Some(if i == -I64_MAX - 1 then -I64_MAX else i)
  {
    var digits := Digits(if i < 0 then -i else i);
    ValueOfDigits(if i < 0 then -i else i);
    if i < 0 {
      assert Signed(i) == [MINUS] + digits;
      assert Signed(i)[1..] == digits;
    } else {
      assert IsDigit(digits[0]);
    }
  }

  function Pow10(k: nat): nat {
    if k == 0 then 1 else 10 * Pow10(k - 1)
  }

  lemma {:induction false} DigitsBelow(n: nat, k: nat)
    requires k >= 1 && n < Pow10(k)
    ensures |Digits(n)| <= k
  {
    if n >= 10 {
      assert k >= 2;
      DigitsBelow(n / 10, k - 1);
    }
  }

  // The 20-byte stack buffers of push_usize and encode_u64 are large enough.
  lemma DigitsFitBuffer(n: nat)
    requires n <= USIZE_MAX
    ensures |Digits(n)| <= 20
  {
    assert Pow10(5) == 100_000;
    assert Pow10(10) == 10_000_000_000;
    assert Pow10(15) == 1_000_000_000_000_000;
    assert Pow10(20) == 100_000_000_000_000_000_000;
    DigitsBelow(n, 20);
  }

  function Reversed(s: Bytes): (r: Bytes)
    ensures |r| == |s|
  {
    if s == [] then [] else Reversed(s[1..]) + [s[0]]
  }

  lemma {:induction false} ReversedAt(s: Bytes, k: nat)
    requires k < |s|
    ensures Reversed(s)[k] == s[|s| - 1 - k]
  {
    if k < |s| - 1 {
      ReversedAt(s[1..], k);
    }
  }

  lemma {:induction false} ReversedSnoc(s: Bytes, b: byte)
    ensures Reversed(s + [b]) == [b] + Reversed(s)
  {
    if s != [] {
      assert (s + [b])[1..] == s[1..] + [b];
      ReversedSnoc(s[1..], b);
    }
  }

  // The digits of `value` still to be written, followed by those already in the buffer.
  function Pending(value: nat, written: Bytes): Bytes {
    (if value == 0 then [] else Digits(value)) + Reversed(written)
  }

  lemma PendingStep(value: nat, written: Bytes)
    requires value > 0
    ensures Pending(value / 10, written + [(value % 10) as byte + ZERO]) == Pending(value, written)
  {
    var b := (value % 10) as byte + ZERO;
    ReversedSnoc(written, b);
    var high := if value / 10 == 0 then [] else Digits(value / 10);
    assert Digits(value) == high + [b];
    assert high + ([b] + Reversed(written)) == (high + [b]) + Reversed(written);
  }

  lemma PendingLength(value: nat, written: Bytes, n: nat)
    requires 0 < value && n <= USIZE_MAX
    requires Pending(value, written) == Digits(n)
    ensures |written| < 20
  {
    DigitsFitBuffer(n);
  }

  // Fills `buf` with the digits of `n`, least significant first: the shared first half of
  // push_usize and encode_u64.
  method FillDigits(n: nat, buf: array<byte>) returns (len: nat)
    requires n <= USIZE_MAX && buf.Length == 20
    modifies buf
    ensures 1 <= len <= 20
    ensures Reversed(buf[..len]) == Digits(n)
  {
    len := 0;
    if n == 0 {
      buf[0] := ZERO;
      assert buf[..1] == [ZERO];
      return 1;
    }
    var value := n;
    while value > 0
      invariant len <= 20
      invariant Pending(value, buf[..len]) == Digits(n)
      decreases value
    {
      PendingLength(value, buf[..len], n);
      PendingStep(value, buf[..len]);
      ghost var before := buf[..len];
      buf[len] := (value % 10) as byte + ZERO;
      assert buf[..len + 1] == before + [(value % 10) as byte + ZERO];
      value := value / 10;
      len := len + 1;
    }
    assert Reversed(buf[..len]) == Digits(n);
    assert Digits(n) != [];
  }

  // push_usize: appends the digits of `value` to an output buffer.
  method PushUsize(out: Bytes, value: nat) returns (r: Bytes)
    requires value <= USIZE_MAX
    ensures r == out + Digits(value)
  {
    var buf := new byte[20];
    var len := FillDigits(value, buf);
    ghost var digits := buf[..len];
    r := out;
    var idx := len;
    while idx > 0
      invariant 0 <= idx <= len
      invariant buf[..len] == digits
      invariant r == out + Digits(value)[..len - idx]
    {
      idx := idx - 1;
      ReversedAt(buf[..len], len - 1 - idx);
      r := r + [buf[idx]];
    }
  }

  // encode_u64: the digits of `value` in the first `len` cells of a 20-byte buffer.
  method EncodeU64(value: nat) returns (buf: array<byte>, len: nat)
    requires value <= USIZE_MAX
    ensures fresh(buf) && buf.Length == 20
    ensures 1 <= len <= 20 && buf[..len] == Digits(value)
  {
    buf := new byte[20];
    len := FillDigits(value, buf);
    ghost var digits := buf[..len];
    var i := 0;
    while i < len / 2
      invariant 0 <= i <= len / 2
      invariant forall k :: 0 <= k < i ==> buf[k] == digits[len - 1 - k] && buf[len - 1 - k] == digits[k]
      invariant forall k :: i <= k < len - i ==> buf[k] == digits[k]
    {
      buf[i], buf[len - 1 - i] := buf[len - 1 - i], buf[i];
      i := i + 1;
    }
    forall k | 0 <= k < len ensures buf[..len][k] == Digits(value)[k] {
      ReversedAt(digits, k);
    }
  }

  function SaturatingAdd(a: nat, b: nat, max: nat): nat {
    Min(a + b, max)
  }

  function SaturatingMul(a: nat, b: nat, max: nat): nat {
    Min(a * b, max)
  }

  // parse_usize and parse_u64: the saturating fold over the digits computes the true value,
  // clamped, for digit strings of any length; anything else is refused.
  method ParseUnsigned(data: Bytes, max: nat) returns (r: Option<nat>)
    requires max >= 10
    ensures r == Unsigned(data, max)
  {
    if data == [] {
      return None;
    }
    var value := 0;
    for i := 0 to |data|
      invariant AllDigits(data[..i])
      invariant value == Min(Value(data[..i]), max)
    {
      if data[i] < 48 || data[i] > 57 {
        return None;
      }
      assert data[..i + 1][..i] == data[..i];
      value := SaturatingAdd(SaturatingMul(value, 10, max), (data[i] - ZERO) as nat, max);
    }
    assert data[..|data|] == data;
    r := Some(value);
  }

  // parse_i64 of the client.
  method ParseI64(data: Bytes) returns (r: Option<int>)
    ensures r == SignedValue(data)
  {
    if data == [] {
      return None;
    }
    var negative := false;
    var idx := 0;
    if data[0] == MINUS {
      negative := true;
      idx := 1;
    }
    ghost var start := idx;
    ghost var body := data[start..];
    var value: int := 0;
    while idx < |data|
      invariant start <= idx <= |data|
      invariant AllDigits(body[..idx - start])
      invariant value == Min(Value(body[..idx - start]), I64_MAX)
    {
      var b := data[idx];
      if b < 48 || b > 57 {
        assert body[idx - start] == b && !AllDigits(body);
        return None;
      }
      assert body[..idx - start + 1][..idx - start] == body[..idx - start];
      value := SaturatingAdd(SaturatingMul(value, 10, I64_MAX), (b - ZERO) as nat, I64_MAX);
      idx := idx + 1;
    }
    assert body[..|body|] == body;
    r := Some(if negative then -value else value);
  }
}

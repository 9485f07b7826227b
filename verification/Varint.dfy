/** Base 128 varints of 32-bit values, as in the Protocol Buffers encoding. */
module Varint {
  import opened Bytes
  import opened Common
  import opened Arithmetic

  const MAX_VARINT32_BYTES: nat := 5

  /** static_cast between int and unsigned int. */
  function ToUnsigned(value: int): nat {
    if value < 0 then (value + UINT32) % UINT32 else value
  }

  function ToSigned(u: nat): int {
    if u < 0x8000_0000 then u else u - UINT32
  }

  /** Seven bits a byte, low bits first, the high bit set on all bytes but the last. */
  function Encode(u: nat): (s: seq<byte>)
    ensures |s| > 0
  {
    if u < 0x80 then [u] else [u % 0x80 + 0x80] + Encode(u / 0x80)
  }

  function Pow128(i: nat): (r: nat)
    ensures r > 0
  {
    if i == 0 then 1 else 0x80 * Pow128(i - 1)
  }

  /** The number of bytes consumed, 0 for none, and the unsigned value. */
  datatype Decoded = Decoded(bytes: nat, value: nat)

  const Malformed := Decoded(0, 0)

  /** The decoding loop from byte i on, with `acc` decoded so far, cut to 32 bits. */
  function DecodeFrom(buf: seq<byte>, i: nat, acc: nat): Decoded
    decreases MAX_VARINT32_BYTES - i
  {
    if i >= MAX_VARINT32_BYTES || i >= |buf| then Malformed
    else
      var acc' := (acc + buf[i] % 0x80 * Pow128(i)) % UINT32;
      if buf[i] < 0x80 then Decoded(i + 1, acc') else DecodeFrom(buf, i + 1, acc')
  }

  function Decode(buf: seq<byte>): Decoded {
    DecodeFrom(buf, 0, 0)
  }

  // ---------------------------------------------------------------- the format

  /** Only the last byte has its high bit clear. */
  predicate IsVarint(s: seq<byte>) {
    s != [] && s[|s| - 1] < 0x80 && forall j :: 0 <= j < |s| - 1 ==> s[j] >= 0x80
  }

  /** Without leading zeros, which stand last. */
  predicate Shortest(s: seq<byte>) {
    IsVarint(s) && (|s| > 1 ==> s[|s| - 1] > 0)
  }

  /** The number whose digits to the base 128 are the low seven bits, the lowest first. */
  function Value(s: seq<byte>): nat {
    if s == [] then 0 else s[0] % 0x80 + 0x80 * Value(s[1..])
  }

  lemma {:induction false} EncodingIsShortest(u: nat)
    ensures Shortest(Encode(u)) && Value(Encode(u)) == u
    ensures u > 0 ==> Encode(u)[|Encode(u)| - 1] > 0
    decreases u
  {
    if u < 0x80 {
      assert Value([u]) == u % 0x80 + 0x80 * Value([]);
    } else {
      var s := Encode(u / 0x80);
      EncodingIsShortest(u / 0x80);
      assert Encode(u) == [u % 0x80 + 0x80] + s && Encode(u)[1..] == s;
    }
  }

  lemma {:induction false} ShortestIsEncoding(s: seq<byte>)
    requires Shortest(s)
    ensures Encode(Value(s)) == s && (s[|s| - 1] > 0 ==> Value(s) > 0)
    decreases |s|
  {
    var rest := s[1..];
    assert s == [s[0]] + rest && Encode(s[0] % 0x80) == [s[0] % 0x80];
    ValueStep(s, 0);
    hide Encode, Value;
    if rest != [] {
      ShortestIsEncoding(rest);
      Digits(s[0] % 0x80, Value(rest));
      assert s[0] % 0x80 + 0x80 == s[0];
    }
  }

  lemma Digits(d: nat, n: nat)
    requires d < 0x80 && n > 0
    ensures Encode(d + 0x80 * n) == [d + 0x80] + Encode(n)
  {
    var u := d + 0x80 * n;
    assert u % 0x80 == d && u / 0x80 == n;
  }

  /** The encoding of a number is its shortest varint. */
  lemma EncodeIff(u: nat, s: seq<byte>)
    ensures s == Encode(u) <==> Shortest(s) && Value(s) == u
  {
    hide Encode, Value, Shortest;
    EncodingIsShortest(u);
    if Shortest(s) {
      ShortestIsEncoding(s);
    }
  }

  lemma ReduceSum(a: nat, b: nat, n: nat)
    requires n > 0
    ensures (a % n + b) % n == (a + b) % n
  {
    var q := a / n;
    assert a + b == q * n + (a % n + b);
    Shifted(a % n + b, q, n);
  }

  lemma {:induction false} Shifted(x: nat, q: nat, n: nat)
    requires n > 0
    ensures (q * n + x) % n == x % n
    decreases q
  {
    var r, k := x % n, x / n;
    assert q * n + x == (q + k) * n + r;
    UniqueRemainder(q * n + x, n, q + k, r);
  }

  lemma {:induction false} DecodeFromIff(buf: seq<byte>, i: nat, acc: nat, n: nat)
    requires i < n <= |buf| && n <= MAX_VARINT32_BYTES && acc < UINT32 && IsVarint(buf[i..n])
    ensures DecodeFrom(buf, i, acc) == Decoded(n, (acc + Value(buf[i..n]) * Pow128(i)) % UINT32)
    decreases n - i
  {
    hide DecodeFrom, Value, Pow128;
    var rest := buf[i + 1..n];
    assert buf[i..n][0] == buf[i] && buf[i..n][1..] == rest;
    ValueStep(buf[i..n], i);
    ReadStep(buf, i, acc);
    Weigh(acc, buf[i] % 0x80, Value(rest), Pow128(i));
    if i + 1 < n {
      assert IsVarint(rest);
      DecodeFromIff(buf, i + 1, (acc + buf[i] % 0x80 * Pow128(i)) % UINT32, n);
    }
  }

  lemma ValueStep(s: seq<byte>, i: nat)
    requires s != []
    ensures Value(s) == s[0] % 0x80 + 0x80 * Value(s[1..]) && (|s| == 1 ==> Value(s[1..]) == 0)
    ensures Pow128(i + 1) == 0x80 * Pow128(i)
  {}

  lemma ReadStep(buf: seq<byte>, i: nat, acc: nat)
    requires i < MAX_VARINT32_BYTES && i < |buf|
    ensures var acc' := (acc + buf[i] % 0x80 * Pow128(i)) % UINT32;
            DecodeFrom(buf, i, acc) == if buf[i] < 0x80 then Decoded(i + 1, acc') else DecodeFrom(buf, i + 1, acc')
  {}

  lemma Weigh(acc: nat, d: nat, n: nat, p: nat)
    ensures (acc + (d + 0x80 * n) * p) % UINT32 == ((acc + d * p) % UINT32 + n * (0x80 * p)) % UINT32
  {
    assert (d + 0x80 * n) * p == d * p + n * (0x80 * p);
    ReduceSum(acc + d * p, n * (0x80 * p), UINT32);
  }

  /** The decoding succeeds if and only if one of the first five bytes ends a varint, and gives
      the value of that varint, cut to 32 bits. */
  lemma DecodeIff(buf: seq<byte>, n: nat)
    requires 0 < n <= |buf|
    ensures Decode(buf).bytes == n <==> n <= MAX_VARINT32_BYTES && IsVarint(buf[..n])
    ensures Decode(buf).bytes == n ==> Decode(buf).value == Value(buf[..n]) % UINT32
  {
    hide DecodeFrom, Value;
    assert buf[0..n] == buf[..n];
    if n <= MAX_VARINT32_BYTES && IsVarint(buf[..n]) {
      DecodeFromIff(buf, 0, 0, n);
      assert Pow128(0) == 1;
    }
    if Decode(buf).bytes == n {
      DecodeReads(buf, 0, 0, []);
    }
  }

  // ---------------------------------------------------------------- the bitwise operators of the loop

  /** a | b on unsigned numbers. */
  function BitOr(a: nat, b: nat): nat
    decreases a + b
  {
    if a == 0 && b == 0 then 0
    else (if a % 2 == 1 || b % 2 == 1 then 1 else 0) + 2 * BitOr(a / 2, b / 2)
  }

  function Pow2(k: nat): (r: nat)
    ensures r > 0
  {
    if k == 0 then 1 else 2 * Pow2(k - 1)
  }

  lemma {:induction false} OrZero(a: nat)
    ensures BitOr(0, a) == a
    decreases a
  {
    if a > 0 {
      OrZero(a / 2);
    }
  }

  /** Bits shifted beyond those of a are added by the OR. */
  lemma {:induction false} OrIsPlus(a: nat, bits: nat, k: nat)
    requires a < Pow2(k)
    ensures BitOr(a, bits * Pow2(k)) == a + bits * Pow2(k)
    decreases k
  {
    if k == 0 {
      OrZero(bits);
    } else {
      var half := bits * Pow2(k - 1);
      assert bits * Pow2(k) == 2 * half;
      OrIsPlus(a / 2, bits, k - 1);
    }
  }

  lemma {:induction false} SevenBits(i: nat)
    ensures Pow2(7 * i) == Pow128(i)
  {
    if i > 0 {
      SevenBits(i - 1);
      var k := 7 * (i - 1);
      assert Pow2(k + 2) == 4 * Pow2(k);
      assert Pow2(k + 4) == 4 * Pow2(k + 2);
      assert Pow2(k + 6) == 4 * Pow2(k + 4);
      assert Pow2(k + 7) == 2 * Pow2(k + 6);
    }
  }

  lemma Pow128Values()
    ensures Pow128(0) == 1 && Pow128(1) == 0x80 && Pow128(2) == 0x4000 && Pow128(3) == 0x20_0000
    ensures Pow128(4) == 0x1000_0000 && Pow128(5) == 0x8_0000_0000
  {
    assert Pow128(1) == 0x80 * Pow128(0);
    assert Pow128(2) == 0x80 * Pow128(1);
    assert Pow128(3) == 0x80 * Pow128(2);
    assert Pow128(4) == 0x80 * Pow128(3);
    assert Pow128(5) == 0x80 * Pow128(4);
  }

  /** uValue |= bits << (i * 7): the shift drops what does not fit 32 bits. */
  function OrShifted(acc: nat, bits: nat, i: nat): nat {
    BitOr(acc, bits * Pow128(i) % UINT32)
  }

  /** What the shift keeps of seven bits. */
  function Kept(bits: nat, i: nat): nat { if i < 4 then bits else bits % 16 }

  lemma SmallShift(acc: nat, bits: nat, p: nat)
    requires bits < 0x80 && acc < p <= 0x20_0000
    ensures bits * p % UINT32 == bits * p
    ensures (acc + bits * p) % UINT32 == acc + bits * p < 0x80 * p
  {
    var x := bits * p;
    assert x <= 0x7F * p by {
      assert (0x7F - bits) * p >= 0;
    }
  }

  lemma ShiftKeeps(acc: nat, bits: nat, i: nat)
    requires i < MAX_VARINT32_BYTES && bits < 0x80 && acc < Pow128(i)
    ensures bits * Pow128(i) % UINT32 == Kept(bits, i) * Pow128(i)
    ensures (acc + bits * Pow128(i)) % UINT32 == acc + Kept(bits, i) * Pow128(i) < Pow128(i + 1)
  {
    Pow128Next(i);
    if i < 4 {
      hide Pow128;
      SmallShift(acc, bits, Pow128(i));
    } else {
      hide Pow128;
      LastShift(acc, bits);
    }
  }

  lemma Pow128Next(i: nat)
    requires i < MAX_VARINT32_BYTES
    ensures Pow128(i + 1) == 0x80 * Pow128(i)
    ensures if i < 4 then Pow128(i) <= 0x20_0000 else Pow128(i) == 0x1000_0000
  {
    Pow128Values();
  }

  lemma LastShift(acc: nat, bits: nat)
    requires bits < 0x80 && acc < 0x1000_0000
    ensures bits * 0x1000_0000 % UINT32 == bits % 16 * 0x1000_0000
    ensures (acc + bits * 0x1000_0000) % UINT32 == acc + bits % 16 * 0x1000_0000
  {
    var high := bits / 16;
    assert bits * 0x1000_0000 == high * UINT32 + bits % 16 * 0x1000_0000;
  }

  /** In the decoding loop this is the addition of the specification. */
  lemma OrShiftedIsPlus(acc: nat, bits: nat, i: nat)
    requires i < MAX_VARINT32_BYTES && acc < Pow128(i) && bits < 0x80
    ensures OrShifted(acc, bits, i) == (acc + bits * Pow128(i)) % UINT32
    ensures OrShifted(acc, bits, i) < Pow128(i + 1)
  {
    hide BitOr, Pow2, Pow128, Kept;
    SevenBits(i);
    ShiftKeeps(acc, bits, i);
    OrIsPlus(acc, Kept(bits, i), 7 * i);
  }

  lemma {:induction false} EncodedSize(u: nat, k: nat)
    requires u < Pow128(k) && k > 0
    ensures |Encode(u)| <= k
  {
    if u >= 0x80 {
      EncodedSize(u / 0x80, k - 1);
    }
  }

  lemma EncodedSize32(u: nat)
    requires u < UINT32
    ensures 1 <= |Encode(u)| <= MAX_VARINT32_BYTES
  {
    assert Pow128(3) == 0x20_0000;
    assert Pow128(5) == 0x4000 * Pow128(3);
    EncodedSize(u, 5);
  }

  /** Decoding what was encoded recovers the value and consumes exactly the bytes written,
      whatever bytes follow. */
  lemma VarintRoundTrip(value: int, rest: seq<byte>)
    requires -0x8000_0000 <= value < 0x8000_0000
    ensures var s, d := Encode(ToUnsigned(value)), Decode(Encode(ToUnsigned(value)) + rest);
            && 1 <= |s| <= MAX_VARINT32_BYTES
            && d.bytes == |s| && d.value < UINT32 && ToSigned(d.value) == value
  {
    hide Encode, DecodeFrom;
    var u := ToUnsigned(value);
    var s := Encode(u);
    EncodedSize32(u);
    EncodingIsShortest(u);
    assert (s + rest)[..|s|] == s;
    DecodeIff(s + rest, |s|);
  }

  /** What a successful decoding has seen: at most five bytes, all in the buffer, the high bit
      marking all but the last; nothing behind them matters. */
  lemma {:induction false} DecodeReads(buf: seq<byte>, i: nat, acc: nat, other: seq<byte>)
    requires acc < UINT32 && DecodeFrom(buf, i, acc).bytes > 0
    ensures var n := DecodeFrom(buf, i, acc).bytes;
            && i < n <= MAX_VARINT32_BYTES && n <= |buf|
            && (forall k :: i <= k < n - 1 ==> buf[k] >= 0x80) && buf[n - 1] < 0x80
            && (other[..if n <= |other| then n else 0] == buf[..n] ==> DecodeFrom(other, i, acc) == DecodeFrom(buf, i, acc))
    ensures DecodeFrom(buf, i, acc).value < UINT32
    decreases MAX_VARINT32_BYTES - i
  {
    var acc' := (acc + buf[i] % 0x80 * Pow128(i)) % UINT32;
    if buf[i] >= 0x80 {
      DecodeReads(buf, i + 1, acc', other);
    }
    var n := DecodeFrom(buf, i, acc).bytes;
    if n <= |other| && other[..n] == buf[..n] {
      assert other[..n][i] == buf[..n][i];
    }
  }

  /** encodeVarint32 into `size` bytes at `off`. */
  method EncodeVarint32(buffer: array<byte>, off: nat, size: nat, value: int) returns (n: nat)
    requires off + size <= buffer.Length && -0x8000_0000 <= value < 0x8000_0000
    modifies buffer
    ensures var s := Encode(ToUnsigned(value));
            n == if |s| <= size then |s| else 0
    ensures n > 0 ==> buffer[..] == Patch(old(buffer[..]), off, Encode(ToUnsigned(value)))
    ensures SameAt(old(buffer[..]), buffer[..], 0, off) && SameAt(old(buffer[..]), buffer[..], off + size, buffer.Length - off - size)
  {
    hide ToUnsigned;
    var uValue := ToUnsigned(value);
    ghost var s := Encode(uValue);
    if uValue < 0x80 {
      if size > 0 {
        buffer[off] := uValue;
        return 1;
      }
      return 0;
    }
    n := 0;
    ghost var before := buffer[..];
    while true
      invariant n < |s| && n <= size && s[n..] == Encode(uValue)
      invariant forall k :: 0 <= k < buffer.Length ==>
                  buffer[k] == if off <= k < off + n then s[k - off] else before[k]
      decreases |s| - n
    {
      if n == size {
        return 0;
      }
      var b := uValue % 0x80;
      ghost var tail := Encode(uValue);
      assert uValue >= 0x80 ==> tail == [b + 0x80] + Encode(uValue / 0x80);
      assert uValue < 0x80 ==> tail == [b];
      hide Encode;
      uValue := uValue / 0x80;
      buffer[off + n] := if uValue > 0 then b + 0x80 else b;
      assert s[n] == s[n..][0] == tail[0];
      n := n + 1;
      if uValue == 0 {
        assert |s[n - 1..]| == 1;
        return;
      }
      assert s[n..] == s[n - 1..][1..];
    }
  }

  /** decodeVarint32. */
  method DecodeVarint32(buffer: seq<byte>) returns (n: nat, value: int)
    ensures n == Decode(buffer).bytes
    ensures n > 0 ==> Decode(buffer).value < UINT32 && value == ToSigned(Decode(buffer).value)
  {
    value := 0;
    if |buffer| == 0 {
      return 0, value;
    }
    if buffer[0] < 0x80 {
      assert Decode(buffer) == Decoded(1, buffer[0]);
      return 1, buffer[0];
    }
    hide ToSigned, OrShifted;
    var uValue := 0;
    assert Pow128(0) == 1;
    hide Pow128;
    for i := 0 to MAX_VARINT32_BYTES
      invariant 0 <= uValue < UINT32 && uValue < Pow128(i)
      invariant DecodeFrom(buffer, i, uValue) == Decode(buffer)
    {
      if i >= |buffer| {
        return 0, value;
      }
      OrShiftedIsPlus(uValue, buffer[i] % 0x80, i);
      uValue := OrShifted(uValue, buffer[i] % 0x80, i);
      assert Decode(buffer) == if buffer[i] < 0x80 then Decoded(i + 1, uValue) else DecodeFrom(buffer, i + 1, uValue);
      hide DecodeFrom, Decode;
      if buffer[i] < 0x80 {
        return i + 1, ToSigned(uValue);
      }
    }
    return 0, value;
  }
}

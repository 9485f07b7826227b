/** Byte strings, little-endian numbers in them, and in-place stores. */
module Bytes {

  type byte = b: int | 0 <= b < 256

  function Pow256(k: nat): (r: nat)
    ensures r > 0
  {
    if k == 0 then 1 else 256 * Pow256(k - 1)
  }

  /** The k low-order bytes of n, least significant first. */
  function ToLE(n: nat, k: nat): (s: seq<byte>)
    ensures |s| == k
    decreases k
  {
    if k == 0 then [] else [n % 256] + ToLE(n / 256, k - 1)
  }

  function FromLE(s: seq<byte>): (n: nat)
  {
    if s == [] then 0 else s[0] + 256 * FromLE(s[1..])
  }

  lemma {:induction false} LERoundTrip(n: nat, k: nat)
    requires n < Pow256(k)
    ensures FromLE(ToLE(n, k)) == n
    decreases k
  {
    if k > 0 {
      LERoundTrip(n / 256, k - 1);
      assert ToLE(n, k)[1..] == ToLE(n / 256, k - 1);
    }
  }

  lemma {:induction false} LEOfBytes(s: seq<byte>)
    ensures ToLE(FromLE(s), |s|) == s && FromLE(s) < Pow256(|s|)
  {
    if s != [] {
      LEOfBytes(s[1..]);
      assert (s[0] as nat + 256 * FromLE(s[1..])) / 256 == FromLE(s[1..]);
      assert s == [s[0]] + s[1..];
    }
  }

  lemma WordSizes()
    ensures Pow256(4) == 0x1_0000_0000 && Pow256(8) == 0x1_0000_0000_0000_0000
  {}

  /** mem with the bytes from `off` on replaced by s. */
  function Patch(mem: seq<byte>, off: nat, s: seq<byte>): (r: seq<byte>)
    requires off + |s| <= |mem|
    ensures |r| == |mem|
    ensures forall k :: 0 <= k < |mem| ==> r[k] == if off <= k < off + |s| then s[k - off] else mem[k]
  {
    mem[..off] + s + mem[off + |s|..]
  }

  /** The two memories hold the same `len` bytes at `off`. */
  predicate SameAt(mem: seq<byte>, mem': seq<byte>, off: nat, len: nat) {
    |mem| == |mem'| && off + len <= |mem| &&
    forall k :: off <= k < off + len ==> mem[k] == mem'[k]
  }

  /** memcpy into an array. */
  method Store(a: array<byte>, off: nat, s: seq<byte>)
    requires off + |s| <= a.Length
    modifies a
    ensures a[..] == Patch(old(a[..]), off, s)
  {
    for k := 0 to |s|
      invariant forall i :: 0 <= i < a.Length ==>
                  a[i] == if off <= i < off + k then s[i - off] else old(a[i])
    {
      a[off + k] := s[k];
    }
  }
}

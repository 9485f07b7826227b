/** What the bytes of the ring say: the 16-byte event header (a ready bit, a 32-bit
    size at offset 4, a 64-bit data pointer at offset 8) and the event data. */
module RingMemory {
  import opened Bytes
  import opened RingLayout

  function Slice(mem: seq<byte>, off: nat, len: nat): seq<byte> {
    if off + len <= |mem| then mem[off..off + len] else []
  }

  predicate HdrReady(mem: seq<byte>, p: nat) {
    p < |mem| && mem[p] % 2 == 1
  }

  function HdrSize(mem: seq<byte>, p: nat): nat {
    FromLE(Slice(mem, p + 4, 4))
  }

  function HdrPtr(mem: seq<byte>, p: nat): nat {
    FromLE(Slice(mem, p + 8, 8))
  }

  function Data(mem: seq<byte>, s: Slot): (d: seq<byte>)
    requires s.dptr + Align(s.size) <= |mem|
    ensures |d| == s.size
  {
    mem[s.dptr..s.dptr + s.size]
  }

  /** The slot's regions are inside the memory and its header holds its size and pointer. */
  predicate Describes(mem: seq<byte>, s: Slot) {
    && s.hdr + HEADER_SIZE <= |mem| && s.dptr + Align(s.size) <= |mem|
    && HdrSize(mem, s.hdr) == s.size && HdrPtr(mem, s.hdr) == s.dptr
  }

  /** The two memories agree on everything the slot owns. */
  predicate Untouched(mem: seq<byte>, mem': seq<byte>, s: Slot) {
    && |mem| == |mem'|
    && s.hdr + HEADER_SIZE <= |mem| && s.dptr + Align(s.size) <= |mem|
    && SameAt(mem, mem', s.hdr, HEADER_SIZE) && SameAt(mem, mem', s.dptr, s.size)
  }

  lemma UntouchedReads(mem: seq<byte>, mem': seq<byte>, s: Slot)
    requires Untouched(mem, mem', s)
    ensures HdrReady(mem, s.hdr) == HdrReady(mem', s.hdr)
    ensures HdrSize(mem, s.hdr) == HdrSize(mem', s.hdr) && HdrPtr(mem, s.hdr) == HdrPtr(mem', s.hdr)
    ensures Data(mem, s) == Data(mem', s)
    ensures Describes(mem, s) == Describes(mem', s)
  {
    assert mem[s.hdr + 4..s.hdr + 8] == mem'[s.hdr + 4..s.hdr + 8];
    assert mem[s.hdr + 8..s.hdr + 16] == mem'[s.hdr + 8..s.hdr + 16];
  }

  /** The one-byte stores to the bit field `ready` keep its seven neighbours. */
  function WithReady(mem: seq<byte>, p: nat, ready: bool): seq<byte> {
    if p < |mem| then Patch(mem, p, [mem[p] - mem[p] % 2 + if ready then 1 else 0]) else mem
  }

  function WithPtr(mem: seq<byte>, p: nat, dptr: nat): seq<byte> {
    if p + HEADER_SIZE <= |mem| then Patch(mem, p + 8, ToLE(dptr, 8)) else mem
  }

  function WithSize(mem: seq<byte>, p: nat, size: nat): seq<byte> {
    if p + HEADER_SIZE <= |mem| then Patch(mem, p + 4, ToLE(size, 4)) else mem
  }

  lemma ReadyStored(mem: seq<byte>, p: nat, ready: bool)
    requires p + HEADER_SIZE <= |mem|
    ensures var m := WithReady(mem, p, ready);
            HdrReady(m, p) == ready && HdrSize(m, p) == HdrSize(mem, p) && HdrPtr(m, p) == HdrPtr(mem, p)
  {
    var m := WithReady(mem, p, ready);
    assert m[p + 4..p + 8] == mem[p + 4..p + 8] && m[p + 8..p + 16] == mem[p + 8..p + 16];
  }

  lemma PtrStored(mem: seq<byte>, p: nat, dptr: nat)
    requires p + HEADER_SIZE <= |mem| && dptr < 0x1_0000_0000_0000_0000
    ensures var m := WithPtr(mem, p, dptr);
            HdrReady(m, p) == HdrReady(mem, p) && HdrSize(m, p) == HdrSize(mem, p) && HdrPtr(m, p) == dptr
  {
    hide ToLE, FromLE, Pow256;
    WordSizes();
    LERoundTrip(dptr, 8);
    assert WithPtr(mem, p, dptr)[p + 4..p + 8] == mem[p + 4..p + 8];
  }

  lemma SizeStored(mem: seq<byte>, p: nat, size: nat)
    requires p + HEADER_SIZE <= |mem| && size < 0x1_0000_0000
    ensures var m := WithSize(mem, p, size);
            HdrReady(m, p) == HdrReady(mem, p) && HdrSize(m, p) == size && HdrPtr(m, p) == HdrPtr(mem, p)
  {
    hide ToLE, FromLE, Pow256;
    WordSizes();
    LERoundTrip(size, 4);
    assert WithSize(mem, p, size)[p + 8..p + 16] == mem[p + 8..p + 16];
  }

  /** Following the headers from p: after exactly n of them the walk stands at `target`. */
  predicate WalkReaches(ringSize: nat, mem: seq<byte>, p: nat, target: nat, n: nat)
    decreases n
  {
    if p == target then n == 0
    else
      && RingSize(ringSize) && n > 0 && p + HEADER_SIZE <= ringSize
      && WalkReaches(ringSize, mem, MovePtr(ringSize, HdrPtr(mem, p), Align(HdrSize(mem, p))), target, n - 1)
  }

  /** The headers chain from the read pointer to the write pointer in one step per live event. */
  lemma {:induction false} HeadersReachWritePointer(ringSize: nat, mem: seq<byte>, vr: int, vw: int, rdp: nat, wrp: nat, slots: seq<Slot>)
    requires |mem| == ringSize && Layout(ringSize, vr, vw, rdp, wrp, slots)
    requires forall i :: 0 <= i < |slots| ==> Describes(mem, slots[i])
    ensures WalkReaches(ringSize, mem, rdp, wrp, |slots|)
    decreases |slots|
  {
    if slots != [] {
      var s := slots[0];
      assert SlotFits(ringSize, vr - rdp, vr, vw, s);
      assert rdp != wrp;
      assert Describes(mem, s);
      ReleaseKeepsLayout(ringSize, vr, vw, rdp, wrp, slots);
      HeadersReachWritePointer(ringSize, mem, s.End(), vw, MovePtr(ringSize, s.dptr, Align(s.size)), wrp, slots[1..]);
    }
  }
}

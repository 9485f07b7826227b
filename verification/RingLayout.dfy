/** The pointer arithmetic of the event ring and the geometry behind it.

    The ring hands out regions of a circular buffer of `ringSize` bytes.  Every
    position also has a *virtual* coordinate: the total distance travelled since
    the ring was opened.  With `base` the virtual coordinate of offset 0 of the
    lap the read pointer is in, `Phys` maps virtual coordinates to offsets.  All
    disjointness arguments happen on the virtual line, where regions are simply
    ordered. */
module RingLayout {
  import opened Arithmetic

  const HEADER_SIZE: nat := 16
  const ALIGNMENT: nat := 16

  /** What the ring sizes produced by InitRing satisfy (a pool has 32 bits of size). */
  predicate RingSize(ringSize: nat) {
    ringSize % ALIGNMENT == 0 && 2 * ALIGNMENT <= ringSize < 0x1_0000_0000
  }

  /** TRACE_ALIGN, computed in 64 bits. */
  function Align(size: nat): (r: nat)
    ensures r % ALIGNMENT == 0 && size <= r < size + ALIGNMENT
  {
    (size + ALIGNMENT - 1) / ALIGNMENT * ALIGNMENT
  }

  /** TRACE_ALIGN stored in the 32-bit variable `_size` of _allocate_event. */
  function Align32(size: nat): (r: nat)
    requires size < 0x1_0000_0000
    ensures r % ALIGNMENT == 0
    ensures r == if size <= 0xFFFF_FFF0 then Align(size) else 0
  {
    Align(size) % 0x1_0000_0000
  }

  const PRODUCER_HEADER: nat := Align(7 * 8)
  const CONSUMER_HEADER: nat := Align(4096)
  const MIN_POOL: nat := 32 * 1024

  /** _init_ring: the ring that remains after the headers, cut down to whole cells. */
  function InitRing(pool: nat, externalHeader: bool): (r: nat)
    requires MIN_POOL <= pool < 0x1_0000_0000
    ensures RingSize(r)
    ensures var room := pool - PRODUCER_HEADER - (if externalHeader then 0 else CONSUMER_HEADER);
            room - ALIGNMENT < r <= room
  {
    var room := pool - PRODUCER_HEADER - (if externalHeader then 0 else CONSUMER_HEADER);
    room / ALIGNMENT * ALIGNMENT
  }

  /** x % n by subtraction, which keeps the arithmetic linear. */
  function Modulo(x: nat, n: nat): (r: nat)
    requires n > 0
    ensures r < n
    ensures x < 2 * n ==> r == if x < n then x else x - n
  {
    if x < n then x else Modulo(x - n, n)
  }

  lemma {:induction false} ModuloIsRemainder(x: nat, n: nat)
    requires n > 0
    ensures Modulo(x, n) == x % n
  {
    if x >= n {
      ModuloIsRemainder(x - n, n);
      var q, r := (x - n) / n, (x - n) % n;
      assert x - n == q * n + r;
      assert (q + 1) * n == q * n + n;
      UniqueRemainder(x, n, q + 1, r);
    } else {
      UniqueRemainder(x, n, 0, x);
    }
  }

  /** _move_ptr. */
  function MovePtr(ringSize: nat, ptr: nat, mv: nat): (r: nat)
    requires RingSize(ringSize)
    ensures r < ringSize
    ensures ptr < ringSize && mv <= ringSize ==>
              r == if ptr + mv < ringSize then ptr + mv else ptr + mv - ringSize
  {
    if ptr + mv >= ringSize then Modulo(ptr + mv, ringSize) else ptr + mv
  }

  /** _get_continuous_space; 0 for pointers outside the ring. */
  function ContinuousSpace(ringSize: nat, rdp: nat, wrp: nat): nat {
    if wrp >= ringSize || rdp >= ringSize then 0
    else if wrp >= rdp then
      ringSize - wrp - (if rdp == 0 then 1 else 0)
    else rdp - wrp - 1
  }

  function FreeSpace(ringSize: nat, rdp: nat, wrp: nat): int {
    (if wrp >= rdp then ringSize - (wrp - rdp) else rdp - wrp) - 1
  }

  function IntegrityCheck(ringSize: nat, ptr: nat, count: nat): bool {
    ptr < ringSize && ptr + count <= ringSize
  }

  /** The outcome of the decision part of _allocate_event. `Bug` stands for its
      ENV_BUG branches and for finding a pointer outside the ring. */
  datatype Reservation = Refused | Reserved(dataPtr: nat, next: nat) | Bug

  /** _allocate_event without its stores: rdp may be older than the write pointer. */
  function Reserve(ringSize: nat, rdp: nat, wrp: nat, aligned: nat): Reservation
    requires RingSize(ringSize)
  {
    if wrp >= ringSize || rdp >= ringSize then Bug
    else if HEADER_SIZE > ContinuousSpace(ringSize, rdp, wrp) then Refused
    else if wrp + HEADER_SIZE > ringSize then Bug
    else
      var afterHdr := MovePtr(ringSize, wrp, HEADER_SIZE);
      var continuous := ContinuousSpace(ringSize, rdp, afterHdr);
      if aligned <= continuous then Place(ringSize, afterHdr, aligned)
      else if afterHdr > rdp && rdp != 0 then
        var start := MovePtr(ringSize, afterHdr, continuous);
        if start != 0 then Bug
        else if aligned > ContinuousSpace(ringSize, rdp, start) then Refused
        else Place(ringSize, start, aligned)
      else Refused
  }

  function Place(ringSize: nat, start: nat, aligned: nat): Reservation
    requires RingSize(ringSize)
  {
    if start + aligned > ringSize then Bug
    else Reserved(start, MovePtr(ringSize, start, aligned))
  }

  // ---------------------------------------------------------------- geometry

  /** The ring offset of a virtual coordinate at most two laps past `base`. */
  function Phys(ringSize: nat, base: int, v: int): int {
    if v - base < ringSize then v - base else v - base - ringSize
  }

  /** One reserved event: header at virtual v (offset hdr), `size` data bytes at
      virtual dv (offset dptr). */
  datatype Slot = Slot(v: int, hdr: nat, dv: int, dptr: nat, size: nat) {
    function End(): int { dv + Align(size) }
    function Footprint(): int { End() - v }
  }

  /** The slot lies in the part [vr, limit] of the line, neither region crosses
      the ring's end, and its offsets are those of its virtual coordinates. */
  predicate SlotFits(ringSize: nat, base: int, vr: int, limit: int, s: Slot) {
    && vr <= s.v && s.v + HEADER_SIZE <= s.dv && s.End() <= limit
    && s.hdr == Phys(ringSize, base, s.v) && s.hdr + HEADER_SIZE <= ringSize
    && s.dptr == Phys(ringSize, base, s.dv) && s.dptr + Align(s.size) <= ringSize
    && s.hdr % ALIGNMENT == 0 && s.dptr % ALIGNMENT == 0
  }

  /** The read and write positions: rdp and wrp are the offsets of vr and vw, and
      fewer than ringSize bytes are in use. */
  predicate Window(ringSize: nat, vr: int, vw: int, rdp: nat, wrp: nat) {
    && RingSize(ringSize)
    && vr <= vw < vr + ringSize
    && rdp < ringSize && rdp % ALIGNMENT == 0
    && wrp == Phys(ringSize, vr - rdp, vw) && wrp % ALIGNMENT == 0
  }

  /** t comes after s, immediately if `next`. */
  predicate Follows(s: Slot, t: Slot, next: bool) {
    s.End() <= t.v && (next ==> s.End() == t.v)
  }

  /** The slots tile [vr, vw] in order. */
  ghost predicate Layout(ringSize: nat, vr: int, vw: int, rdp: nat, wrp: nat, slots: seq<Slot>) {
    && Window(ringSize, vr, vw, rdp, wrp)
    && (if slots == [] then vr == vw else slots[0].v == vr && slots[|slots| - 1].End() == vw)
    && (forall i :: 0 <= i < |slots| ==> SlotFits(ringSize, vr - rdp, vr, vw, slots[i]))
    && (forall i, j :: 0 <= i < j < |slots| ==> Follows(slots[i], slots[j], j == i + 1))
  }

  /** [a, a+la) and [b, b+lb) share no offset. */
  predicate Apart(a: int, la: nat, b: int, lb: nat) {
    a + la <= b || b + lb <= a
  }

  /** [off, off+len) lies inside one of the slot's two regions. */
  predicate Inside(s: Slot, off: nat, len: nat) {
    || (s.hdr <= off && off + len <= s.hdr + HEADER_SIZE)
    || (s.dptr <= off && off + len <= s.dptr + Align(s.size))
  }

  predicate SlotsApart(s: Slot, t: Slot) {
    && Apart(s.hdr, HEADER_SIZE, t.hdr, HEADER_SIZE)
    && Apart(s.hdr, HEADER_SIZE, t.dptr, Align(t.size))
    && Apart(s.dptr, Align(s.size), t.hdr, HEADER_SIZE)
    && Apart(s.dptr, Align(s.size), t.dptr, Align(t.size))
  }

  lemma OrderedSlotsApart(ringSize: nat, base: int, vr: int, limit: int, s: Slot, t: Slot)
    requires base <= vr < base + ringSize && limit <= vr + ringSize
    requires SlotFits(ringSize, base, vr, limit, s) && SlotFits(ringSize, base, vr, limit, t)
    requires s.End() <= t.v
    ensures SlotsApart(s, t) && SlotsApart(t, s)
  {
  }

  /** Both regions lie in the ring and do not overlap each other. */
  predicate InRing(ringSize: nat, s: Slot) {
    && s.hdr + HEADER_SIZE <= ringSize && s.dptr + Align(s.size) <= ringSize
    && Apart(s.hdr, HEADER_SIZE, s.dptr, Align(s.size))
  }

  lemma OwnRegionsApart(ringSize: nat, base: int, vr: int, limit: int, s: Slot)
    requires base <= vr < base + ringSize && limit <= vr + ringSize
    requires SlotFits(ringSize, base, vr, limit, s)
    ensures InRing(ringSize, s)
  {}

  /** Header and data regions of all slots lie in the ring and are pairwise disjoint. */
  ghost predicate Separated(ringSize: nat, slots: seq<Slot>) {
    && (forall i :: 0 <= i < |slots| ==> InRing(ringSize, slots[i]))
    && (forall i, j :: 0 <= i < |slots| && 0 <= j < |slots| && i != j ==> SlotsApart(slots[i], slots[j]))
  }

  lemma LiveRegionsDisjoint(ringSize: nat, vr: int, vw: int, rdp: nat, wrp: nat, slots: seq<Slot>)
    requires Layout(ringSize, vr, vw, rdp, wrp, slots)
    ensures Separated(ringSize, slots)
  {
    hide SlotFits, Phys, SlotsApart, InRing;
    forall i, j | 0 <= i < j < |slots|
      ensures SlotsApart(slots[i], slots[j]) && SlotsApart(slots[j], slots[i])
    {
      assert Follows(slots[i], slots[j], j == i + 1);
      OrderedSlotsApart(ringSize, vr - rdp, vr, vw, slots[i], slots[j]);
    }
    forall i | 0 <= i < |slots|
      ensures InRing(ringSize, slots[i])
    {
      OwnRegionsApart(ringSize, vr - rdp, vr, vw, slots[i]);
    }
  }

  /** The slot a successful reservation hands out: it starts at the write position. */
  function NewSlot(ringSize: nat, vw: int, wrp: nat, r: Reservation, size: nat): Slot
    requires r.Reserved?
  {
    var tail := if r.dataPtr > wrp then r.dataPtr - wrp else r.dataPtr - wrp + ringSize;
    Slot(vw, wrp, vw + tail, r.dataPtr, size)
  }

  lemma AlignedRoom(ringSize: nat, ptr: nat)
    requires RingSize(ringSize) && ptr < ringSize && ptr % ALIGNMENT == 0
    ensures ptr + HEADER_SIZE <= ringSize
  {
  }

  lemma ReservePlaces(ringSize: nat, vr: int, vw: int, rdp: nat, wrp: nat, aligned: nat)
    requires Window(ringSize, vr, vw, rdp, wrp)
    ensures var r := Reserve(ringSize, rdp, wrp, aligned);
            && !r.Bug?
            && (r.Reserved? ==>
                  var dv := NewSlot(ringSize, vw, wrp, r, 0).dv;
                  && wrp + HEADER_SIZE <= ringSize && r.dataPtr + aligned <= ringSize
                  && vw + HEADER_SIZE <= dv && dv + aligned <= vr + ringSize - 1
                  && r.dataPtr == Phys(ringSize, vr - rdp, dv)
                  && r.next == Phys(ringSize, vr - rdp, dv + aligned) && r.next != rdp
                  && (r.dataPtr == 0 || r.dataPtr == wrp + HEADER_SIZE)
                  && r.dataPtr < ringSize && r.next == MovePtr(ringSize, r.dataPtr, aligned))
  {
    if HEADER_SIZE <= ContinuousSpace(ringSize, rdp, wrp) {
      var afterHdr := MovePtr(ringSize, wrp, HEADER_SIZE);
      var continuous := ContinuousSpace(ringSize, rdp, afterHdr);
      if aligned <= continuous {
        assert Reserve(ringSize, rdp, wrp, aligned) == Reserved(afterHdr, MovePtr(ringSize, afterHdr, aligned));
      } else if afterHdr > rdp && rdp != 0 {
        assert MovePtr(ringSize, afterHdr, continuous) == 0;
      }
    }
  }

  lemma AlignedSum(ringSize: nat, ptr: nat, mv: nat)
    requires RingSize(ringSize) && ptr < ringSize && mv <= ringSize
    requires ptr % ALIGNMENT == 0 && mv % ALIGNMENT == 0
    ensures MovePtr(ringSize, ptr, mv) % ALIGNMENT == 0
  {}

  /** A reservation made against the read pointer vr never is a Bug, and what it
      hands out fits between the write position and the read position one lap on;
      the new write pointer differs from the read pointer. */
  lemma ReserveFits(ringSize: nat, vr: int, vw: int, rdp: nat, wrp: nat, size: nat)
    requires Window(ringSize, vr, vw, rdp, wrp)
    ensures var r := Reserve(ringSize, rdp, wrp, Align(size));
            && !r.Bug?
            && (r.Reserved? ==>
                  var s := NewSlot(ringSize, vw, wrp, r, size);
                  && SlotFits(ringSize, vr - rdp, vr, vr + ringSize - 1, s)
                  && r.next == Phys(ringSize, vr - rdp, s.End())
                  && r.next % ALIGNMENT == 0 && r.next != rdp)
  {
    ReservePlaces(ringSize, vr, vw, rdp, wrp, Align(size));
    var r := Reserve(ringSize, rdp, wrp, Align(size));
    if r.Reserved? {
      var s := NewSlot(ringSize, vw, wrp, r, size);
      assert s.dv == NewSlot(ringSize, vw, wrp, r, 0).dv;
      assert r.dataPtr % ALIGNMENT == 0;
      AlignedSum(ringSize, r.dataPtr, Align(size));
      assert SlotFits(ringSize, vr - rdp, vr, vr + ringSize - 1, s);
    }
  }

  /** Publishing the reserved slot extends the layout. */
  lemma PublishKeepsLayout(ringSize: nat, vr: int, vw: int, rdp: nat, wrp: nat, slots: seq<Slot>, s: Slot, next: nat)
    requires Layout(ringSize, vr, vw, rdp, wrp, slots)
    requires SlotFits(ringSize, vr - rdp, vr, vr + ringSize - 1, s) && s.v == vw
    requires next == Phys(ringSize, vr - rdp, s.End()) && next % ALIGNMENT == 0
    ensures Layout(ringSize, vr, s.End(), rdp, next, slots + [s])
  {
    var extended := slots + [s];
    forall i | 0 <= i < |extended|
      ensures SlotFits(ringSize, vr - rdp, vr, s.End(), extended[i])
      ensures i < |slots| ==> Follows(extended[i], s, i + 1 == |slots|)
    {
      assert i < |slots| ==> SlotFits(ringSize, vr - rdp, vr, vw, slots[i]);
    }
    assert extended[0].v == vr;
  }

  lemma NextReadPointer(ringSize: nat, vr: int, limit: int, rdp: nat, s: Slot)
    requires RingSize(ringSize) && rdp < ringSize && s.v == vr && limit < vr + ringSize
    requires SlotFits(ringSize, vr - rdp, vr, limit, s)
    ensures var rdp' := MovePtr(ringSize, s.dptr, Align(s.size));
            && rdp' == Phys(ringSize, vr - rdp, s.End()) && rdp' % ALIGNMENT == 0
  {
  }

  /** Moving the read position forward keeps the meaning of everything ahead of it. */
  lemma Rebase(ringSize: nat, vr: int, rdp: nat, vr': int, rdp': nat, limit: int, s: Slot)
    requires rdp < ringSize && vr <= vr' && limit < vr + ringSize
    requires rdp' == Phys(ringSize, vr - rdp, vr') && vr' <= limit
    requires SlotFits(ringSize, vr - rdp, vr, limit, s) && vr' <= s.v
    ensures SlotFits(ringSize, vr' - rdp', vr', limit, s)
  {
  }

  /** Releasing the oldest event: the read pointer computed from its header. */
  lemma ReleaseKeepsLayout(ringSize: nat, vr: int, vw: int, rdp: nat, wrp: nat, slots: seq<Slot>)
    requires Layout(ringSize, vr, vw, rdp, wrp, slots) && slots != []
    ensures var rdp' := MovePtr(ringSize, slots[0].dptr, Align(slots[0].size));
            && rdp' == Phys(ringSize, vr - rdp, slots[0].End())
            && Layout(ringSize, slots[0].End(), vw, rdp', wrp, slots[1..])
  {
    hide Phys, MovePtr, Align;
    var rdp' := MovePtr(ringSize, slots[0].dptr, Align(slots[0].size));
    var vr' := slots[0].End();
    var rest := slots[1..];
    assert SlotFits(ringSize, vr - rdp, vr, vw, slots[0]);
    NextReadPointer(ringSize, vr, vw, rdp, slots[0]);
    RebaseWindow(ringSize, vr, vw, rdp, wrp, vr', rdp');
    if rest != [] {
      assert Follows(slots[0], slots[1], true);
    }
    forall i | 0 <= i < |rest|
      ensures SlotFits(ringSize, vr' - rdp', vr', vw, rest[i])
    {
      assert SlotFits(ringSize, vr - rdp, vr, vw, slots[i + 1]);
      assert Follows(slots[0], slots[i + 1], i == 0);
      Rebase(ringSize, vr, rdp, vr', rdp', vw, slots[i + 1]);
    }
  }

  lemma RebaseWindow(ringSize: nat, vr: int, vw: int, rdp: nat, wrp: nat, vr': int, rdp': nat)
    requires Window(ringSize, vr, vw, rdp, wrp) && vr <= vr' <= vw
    requires rdp' == Phys(ringSize, vr - rdp, vr') && rdp' % ALIGNMENT == 0
    ensures Window(ringSize, vr', vw, rdp', wrp)
  {
  }

  function TotalFootprint(slots: seq<Slot>): int {
    if slots == [] then 0 else slots[0].Footprint() + TotalFootprint(slots[1..])
  }

  /** The free space reported is the ring minus one byte minus what the live events
      occupy: header, skipped tail and aligned data. */
  lemma {:induction false} FootprintsFillWindow(ringSize: nat, vr: int, vw: int, rdp: nat, wrp: nat, slots: seq<Slot>)
    requires Layout(ringSize, vr, vw, rdp, wrp, slots)
    ensures TotalFootprint(slots) == vw - vr
    ensures FreeSpace(ringSize, rdp, wrp) == ringSize - 1 - TotalFootprint(slots)
    decreases |slots|
  {
    if slots != [] {
      ReleaseKeepsLayout(ringSize, vr, vw, rdp, wrp, slots);
      var rdp' := MovePtr(ringSize, slots[0].dptr, Align(slots[0].size));
      FootprintsFillWindow(ringSize, slots[0].End(), vw, rdp', wrp, slots[1..]);
    }
  }

  lemma RefusedSomewhere(ringSize: nat, a: nat) returns (p: nat)
    requires RingSize(ringSize) && a % ALIGNMENT == 0 && 2 * a >= ringSize
    ensures p < ringSize && p % ALIGNMENT == 0 && Reserve(ringSize, p, p, a) == Refused
  {
    p := if a < ringSize then a else 0;
  }

  /** On an empty ring an event is accepted wherever the two pointers stand if and
      only if its aligned size is less than half of the ring. */
  lemma EmptyRingCapacity(ringSize: nat, size: nat)
    requires RingSize(ringSize)
    ensures (forall p: nat :: p < ringSize && p % ALIGNMENT == 0 ==> Reserve(ringSize, p, p, Align(size)).Reserved?)
            <==> 2 * Align(size) < ringSize
  {
    hide Align;
    var a := Align(size);
    if 2 * a >= ringSize {
      hide Reserve;
      var p := RefusedSomewhere(ringSize, a);
      assert !Reserve(ringSize, p, p, a).Reserved?;
    }
  }

  /** A refusal on a non-empty or empty ring is never caused by the bookkeeping: the
      request is granted exactly when header and data fit behind the write position,
      or the header does and the data fits at the start of the ring. */
  lemma ReserveIsComplete(ringSize: nat, vr: int, vw: int, rdp: nat, wrp: nat, size: nat)
    requires Window(ringSize, vr, vw, rdp, wrp)
    ensures Reserve(ringSize, rdp, wrp, Align(size)).Reserved? <==>
            exists s: Slot :: s.v == vw && s.size == size
                              && SlotFits(ringSize, vr - rdp, vr, vr + ringSize - 1, s)
  {
    var r := Reserve(ringSize, rdp, wrp, Align(size));
    ReserveFits(ringSize, vr, vw, rdp, wrp, size);
    if r.Reserved? {
      var s := NewSlot(ringSize, vw, wrp, r, size);
      assert s.v == vw && s.size == size;
    }
    if s: Slot :| s.v == vw && s.size == size && SlotFits(ringSize, vr - rdp, vr, vr + ringSize - 1, s) {
      assert r.Reserved?;
    }
  }

  /** Of all placements that fit, a granted event gets the one that ends first: a tail of the ring
      is skipped only if it cannot hold the event. */
  lemma GrantEndsFirst(ringSize: nat, vr: int, vw: int, rdp: nat, wrp: nat, size: nat, s: Slot)
    requires Window(ringSize, vr, vw, rdp, wrp)
    requires s.v == vw && s.size == size && SlotFits(ringSize, vr - rdp, vr, vr + ringSize - 1, s)
    ensures var r := Reserve(ringSize, rdp, wrp, Align(size));
            && r.Reserved?
            && var granted := NewSlot(ringSize, vw, wrp, r, size);
               granted.End() <= s.End() && (granted == s || granted.End() < s.End())
  {
    ReserveIsComplete(ringSize, vr, vw, rdp, wrp, size);
    ReserveFits(ringSize, vr, vw, rdp, wrp, size);
  }
}

/** The event ring as an object over a byte array, one operation at a time, refining a
    FIFO queue of byte strings whose entries are committed in any order.  The CAS on
    wr_lock and the steps inside an operation are the business of RingProtocol. */
module RingTrace {
  import opened Bytes
  import opened RingLayout
  import opened RingMemory

  datatype Mode = Producer | Consumer

  datatype Status = Ok | EINVAL | EPERM | ENOSPC | EBUSY | EAGAIN | EBADF

  /** A queued event: its bytes, and whether its producer has committed it. */
  datatype Entry = Entry(data: seq<byte>, ready: bool)

  /** The queue a memory holds in the given slots. */
  ghost function QueueOf(mem: seq<byte>, slots: seq<Slot>): (q: seq<Entry>)
    ensures |q| == |slots|
    ensures forall i :: 0 <= i < |q| ==> q[i] == EntryOf(mem, slots[i])
  {
    seq(|slots|, i requires 0 <= i < |slots| => EntryOf(mem, slots[i]))
  }

  ghost function EntryOf(mem: seq<byte>, s: Slot): Entry {
    if Describes(mem, s) then Entry(Data(mem, s), HdrReady(mem, s.hdr)) else Entry([], false)
  }

  lemma UntouchedEntry(mem: seq<byte>, mem': seq<byte>, s: Slot)
    requires Untouched(mem, mem', s)
    ensures EntryOf(mem, s) == EntryOf(mem', s) && Describes(mem, s) == Describes(mem', s)
  {
    UntouchedReads(mem, mem', s);
  }

  /** A store inside slot n's regions touches no other slot. */
  lemma StoreInSlot(ringSize: nat, slots: seq<Slot>, mem: seq<byte>, n: nat, off: nat, bytes: seq<byte>)
    requires |mem| == ringSize && Separated(ringSize, slots)
    requires n < |slots| && Inside(slots[n], off, |bytes|)
    ensures off + |bytes| <= |mem|
    ensures forall i :: 0 <= i < |slots| && i != n ==> Untouched(mem, Patch(mem, off, bytes), slots[i])
  {}

  /** The three header stores of _allocate_event. */
  function WriteHeader(mem: seq<byte>, h: nat, dptr: nat, size: nat): (m: seq<byte>) {
    WithSize(WithPtr(WithReady(mem, h, false), h, dptr), h, size)
  }

  /** "Prepare header": ready, data_ptr, data_size. */
  method StoreHeader(ring: array<byte>, h: nat, dptr: nat, size: nat)
    requires h + HEADER_SIZE <= ring.Length
    modifies ring
    ensures ring[..] == WriteHeader(old(ring[..]), h, dptr, size)
  {
    ring[h] := ring[h] - ring[h] % 2;
    assert ring[..] == WithReady(old(ring[..]), h, false);
    Store(ring, h + 8, ToLE(dptr, 8));
    Store(ring, h + 4, ToLE(size, 4));
  }

  /** The commit: hdr->ready = true. */
  method SetReady(ring: array<byte>, h: nat)
    requires h + HEADER_SIZE <= ring.Length
    modifies ring
    ensures ring[..] == WithReady(old(ring[..]), h, true)
  {
    ring[h] := ring[h] - ring[h] % 2 + 1;
  }

  lemma HeaderWritten(mem: seq<byte>, h: nat, dptr: nat, size: nat)
    requires h + HEADER_SIZE <= |mem| && dptr < 0x1_0000_0000 && size < 0x1_0000_0000
    ensures var m := WriteHeader(mem, h, dptr, size);
            !HdrReady(m, h) && HdrSize(m, h) == size && HdrPtr(m, h) == dptr
  {
    var m1 := WithReady(mem, h, false);
    ReadyStored(mem, h, false);
    PtrStored(m1, h, dptr);
    SizeStored(WithPtr(m1, h, dptr), h, size);
  }

  ghost predicate AllDescribed(mem: seq<byte>, slots: seq<Slot>) {
    forall i :: 0 <= i < |slots| ==> Describes(mem, slots[i])
  }

  /** Writing the header of a new slot appends one uncommitted entry to the queue and
      changes no other. */
  lemma HeaderAppends(ringSize: nat, slots: seq<Slot>, s: Slot, mem: seq<byte>)
    requires |mem| == ringSize < 0x1_0000_0000 && Separated(ringSize, slots + [s]) && AllDescribed(mem, slots)
    requires s.size < 0x1_0000_0000
    ensures InRing(ringSize, s)
    ensures var mem' := WriteHeader(mem, s.hdr, s.dptr, s.size);
            && AllDescribed(mem', slots + [s])
            && QueueOf(mem', slots + [s]) == QueueOf(mem, slots) + [Entry(Data(mem', s), false)]
  {
    var all, n := slots + [s], |slots|;
    assert all[n] == s && InRing(ringSize, all[n]);
    var m1 := WithReady(mem, s.hdr, false);
    var m2 := WithPtr(m1, s.hdr, s.dptr);
    var m3 := WriteHeader(mem, s.hdr, s.dptr, s.size);
    StoreInSlot(ringSize, all, mem, n, s.hdr, [mem[s.hdr] - mem[s.hdr] % 2]);
    StoreInSlot(ringSize, all, m1, n, s.hdr + 8, ToLE(s.dptr, 8));
    StoreInSlot(ringSize, all, m2, n, s.hdr + 4, ToLE(s.size, 4));
    HeaderWritten(mem, s.hdr, s.dptr, s.size);
    forall i | 0 <= i < n
      ensures EntryOf(mem, slots[i]) == EntryOf(m3, all[i]) && Describes(m3, all[i])
    {
      assert all[i] == slots[i] && Describes(mem, slots[i]);
      UntouchedEntry(mem, m1, all[i]);
      UntouchedEntry(m1, m2, all[i]);
      UntouchedEntry(m2, m3, all[i]);
    }
  }

  /** A store inside entry n changes entry n only. */
  lemma StoreChangesOneEntry(ringSize: nat, slots: seq<Slot>, mem: seq<byte>, n: nat, off: nat, bytes: seq<byte>)
    requires |mem| == ringSize && Separated(ringSize, slots) && AllDescribed(mem, slots)
    requires n < |slots| && Inside(slots[n], off, |bytes|)
    ensures off + |bytes| <= |mem|
    ensures var mem' := Patch(mem, off, bytes);
            && (Describes(mem', slots[n]) ==> AllDescribed(mem', slots))
            && QueueOf(mem', slots) == QueueOf(mem, slots)[n := EntryOf(mem', slots[n])]
  {
    var mem' := Patch(mem, off, bytes);
    forall i | 0 <= i < |slots| && i != n
      ensures EntryOf(mem', slots[i]) == EntryOf(mem, slots[i]) && Describes(mem', slots[i])
    {
      assert Describes(mem, slots[i]);
      UntouchedEntry(mem, mem', slots[i]);
    }
  }

  lemma EntryCommitted(mem: seq<byte>, s: Slot)
    requires Describes(mem, s) && InRing(|mem|, s)
    ensures var mem' := WithReady(mem, s.hdr, true);
            Describes(mem', s) && EntryOf(mem', s) == Entry(Data(mem, s), true)
  {
    ReadyStored(mem, s.hdr, true);
    var b := [mem[s.hdr] - mem[s.hdr] % 2 + 1];
    assert Data(Patch(mem, s.hdr, b), s) == Data(mem, s);
  }

  /** Committing entry n sets its ready bit and nothing else. */
  lemma CommitEntry(ringSize: nat, slots: seq<Slot>, mem: seq<byte>, n: nat)
    requires |mem| == ringSize && Separated(ringSize, slots) && AllDescribed(mem, slots) && n < |slots|
    ensures Describes(mem, slots[n]) && InRing(ringSize, slots[n])
    ensures var mem', q := WithReady(mem, slots[n].hdr, true), QueueOf(mem, slots);
            AllDescribed(mem', slots) && QueueOf(mem', slots) == q[n := Entry(q[n].data, true)]
  {
    hide HdrReady, HdrSize, HdrPtr;
    var s := slots[n];
    assert Describes(mem, s) && InRing(ringSize, s);
    EntryCommitted(mem, s);
    assert QueueOf(mem, slots)[n].data == Data(mem, s);
    StoreChangesOneEntry(ringSize, slots, mem, n, s.hdr, [mem[s.hdr] - mem[s.hdr] % 2 + 1]);
  }

  lemma EntryFilled(mem: seq<byte>, s: Slot, at: nat, bytes: seq<byte>)
    requires Describes(mem, s) && InRing(|mem|, s) && at + |bytes| <= s.size
    ensures var mem' := Patch(mem, s.dptr + at, bytes);
            Describes(mem', s) && EntryOf(mem', s) == Entry(Patch(Data(mem, s), at, bytes), HdrReady(mem, s.hdr))
  {
    hide FromLE, Align;
    var mem' := Patch(mem, s.dptr + at, bytes);
    assert Slice(mem', s.hdr + 4, 4) == Slice(mem, s.hdr + 4, 4);
    assert Slice(mem', s.hdr + 8, 8) == Slice(mem, s.hdr + 8, 8);
    assert Data(mem', s) == Patch(Data(mem, s), at, bytes);
  }

  /** Writing bytes at `at` inside entry n's data changes those bytes of entry n only. */
  lemma FillEntry(ringSize: nat, slots: seq<Slot>, mem: seq<byte>, n: nat, at: nat, bytes: seq<byte>)
    requires |mem| == ringSize && Separated(ringSize, slots) && AllDescribed(mem, slots) && n < |slots|
    requires at + |bytes| <= slots[n].size
    ensures Describes(mem, slots[n]) && InRing(ringSize, slots[n]) && |QueueOf(mem, slots)[n].data| == slots[n].size
    ensures var mem', q := Patch(mem, slots[n].dptr + at, bytes), QueueOf(mem, slots);
            && AllDescribed(mem', slots)
            && QueueOf(mem', slots) == q[n := Entry(Patch(q[n].data, at, bytes), q[n].ready)]
  {
    hide HdrReady, HdrSize, HdrPtr;
    var s := slots[n];
    assert Describes(mem, s) && InRing(ringSize, s);
    EntryFilled(mem, s, at, bytes);
    StoreChangesOneEntry(ringSize, slots, mem, n, s.dptr + at, bytes);
  }

  /** Copying the event into the last, uncommitted entry and committing it. */
  lemma LastEntryPushed(ringSize: nat, slots: seq<Slot>, mem: seq<byte>, q: seq<Entry>, event: seq<byte>)
    requires |mem| == ringSize && Separated(ringSize, slots) && AllDescribed(mem, slots)
    requires |slots| == |q| + 1 && |event| == slots[|q|].size
    requires QueueOf(mem, slots)[..|q|] == q
    ensures InRing(ringSize, slots[|q|])
    ensures var s := slots[|q|];
            var mem' := WithReady(Patch(mem, s.dptr, event), s.hdr, true);
            AllDescribed(mem', slots) && QueueOf(mem', slots) == q + [Entry(event, true)]
  {
    hide Separated, AllDescribed, HdrReady, HdrSize, HdrPtr, EntryOf, QueueOf, Describes;
    var n, s := |q|, slots[|q|];
    FillEntry(ringSize, slots, mem, n, 0, event);
    assert Patch(QueueOf(mem, slots)[n].data, 0, event) == event;
    CommitEntry(ringSize, slots, Patch(mem, s.dptr, event), n);
  }

  /** What publishing a reservation does to the layout and the queue. */
  lemma AllocationPublished(ringSize: nat, vr: int, vw: int, rdp: nat, wrp: nat, slots: seq<Slot>, mem: seq<byte>, size: nat)
    requires |mem| == ringSize && Layout(ringSize, vr, vw, rdp, wrp, slots) && AllDescribed(mem, slots)
    requires size <= 0xFFFF_FFF0 && Reserve(ringSize, rdp, wrp, Align(size)).Reserved?
    ensures wrp + HEADER_SIZE <= ringSize
    ensures var r := Reserve(ringSize, rdp, wrp, Align(size));
            var s := NewSlot(ringSize, vw, wrp, r, size);
            var mem' := WriteHeader(mem, wrp, r.dataPtr, size);
            && Layout(ringSize, vr, s.End(), rdp, r.next, slots + [s])
            && InRing(ringSize, s) && AllDescribed(mem', slots + [s])
            && QueueOf(mem', slots + [s]) == QueueOf(mem, slots) + [Entry(Data(mem', s), false)]
  {
    var r := Reserve(ringSize, rdp, wrp, Align(size));
    var s := NewSlot(ringSize, vw, wrp, r, size);
    ReserveFits(ringSize, vr, vw, rdp, wrp, size);
    PublishKeepsLayout(ringSize, vr, vw, rdp, wrp, slots, s, r.next);
    LiveRegionsDisjoint(ringSize, vr, s.End(), rdp, r.next, slots + [s]);
    HeaderAppends(ringSize, slots, s, mem);
  }

  class Trace {
    const ringSize: nat
    const ring: array<byte>
    var magic: bool    // the magic word of the producer header is intact
    var closed: bool
    var rdLock: bool
    var wrPtr: nat
    var rdPtr: nat
    var lost: nat
    ghost var vr: int  // virtual coordinates of rdPtr and wrPtr
    ghost var vw: int
    ghost var slots: seq<Slot>

    ghost predicate Valid()
      reads this, ring
    {
      && RingSize(ringSize) && ring.Length == ringSize
      && (magic ==>
            && Layout(ringSize, vr, vw, rdPtr, wrPtr, slots)
            && AllDescribed(ring[..], slots)
            && (rdLock ==> slots != [] && QueueOf(ring[..], slots)[0].ready))
    }

    ghost function Queue(): seq<Entry>
      requires Valid() && magic
      reads this, ring
    {
      QueueOf(ring[..], slots)
    }

    /** Whether an event of this size is accepted now. */
    predicate HasRoom(size: nat)
      requires Valid()
      reads this, ring
    {
      Reserve(ringSize, rdPtr, wrPtr, Align(size)).Reserved?
    }

    /** octf_trace_open in producer mode. */
    constructor (pool: nat, externalHeader: bool)
      requires MIN_POOL <= pool < 0x1_0000_0000
      ensures Valid() && magic && !rdLock && !closed && lost == 0 && Queue() == []
      ensures ringSize == InitRing(pool, externalHeader)
      ensures forall size: nat :: 2 * Align(size) < ringSize ==> HasRoom(size)
    {
      var n := InitRing(pool, externalHeader);
      ringSize := n;
      ring := new byte[n](_ => 0);
      magic, closed, rdLock := true, false, false;
      wrPtr, rdPtr, lost := 0, 0, 0;
      vr, vw, slots := 0, 0, [];
      new;
      forall size: nat | 2 * Align(size) < ringSize
        ensures HasRoom(size)
      {
        EmptyRingCapacity(ringSize, size);
      }
    }

    /** The part of _allocate_event that looks for room: the data position, or -1. */
    method FindRoom(aligned: nat) returns (dataPtr: int)
      requires Valid() && magic
      ensures var r := Reserve(ringSize, rdPtr, wrPtr, aligned);
              && !r.Bug? && (dataPtr < 0 <==> r.Refused?)
              && (r.Reserved? ==> dataPtr == r.dataPtr && r.next == MovePtr(ringSize, dataPtr, aligned))
      ensures wrPtr + HEADER_SIZE <= ringSize && dataPtr < ringSize
    {
      dataPtr := -1;
      var wrp, rdp := wrPtr, rdPtr;
      ReservePlaces(ringSize, vr, vw, rdp, wrp, aligned);
      AlignedRoom(ringSize, wrp);
      if HEADER_SIZE > ContinuousSpace(ringSize, rdp, wrp) {
        return;
      }
      assert wrp + HEADER_SIZE <= ringSize;  // else ENV_BUG
      wrp := MovePtr(ringSize, wrp, HEADER_SIZE);
      var continuous := ContinuousSpace(ringSize, rdp, wrp);
      if aligned > continuous {
        if wrp > rdp && rdp != 0 {
          wrp := MovePtr(ringSize, wrp, continuous);
          assert wrp == 0;  // ENV_BUG_ON
          if aligned > ContinuousSpace(ringSize, rdp, wrp) {
            return;
          }
        } else {
          return;
        }
      }
      assert wrp + aligned <= ringSize;  // else ENV_BUG
      dataPtr := wrp;
    }

    /** _allocate_event: reserves the regions of one event behind the write pointer
        and publishes it as not ready; -1 stands for NULL.  A size whose alignment
        does not fit 32 bits gets a header and no data. */
    method AllocateEvent(size: nat) returns (hdr: int)
      requires Valid() && magic && size < 0x1_0000_0000
      modifies this`wrPtr, this`vw, this`slots, ring
      ensures hdr < 0 <==> !old(Reserve(ringSize, rdPtr, wrPtr, Align32(size))).Reserved?
      ensures hdr < 0 ==> unchanged(this) && unchanged(ring)
      ensures hdr >= 0 ==> hdr == old(wrPtr) && hdr + HEADER_SIZE <= ringSize && HdrSize(ring[..], hdr) == size
      ensures hdr >= 0 && size <= 0xFFFF_FFF0 ==>
                && Valid() && |slots| == |old(slots)| + 1
                && slots[|old(slots)|].hdr == hdr && slots[|old(slots)|].size == size
                && Queue() == old(Queue()) + [Entry(Data(ring[..], slots[|old(slots)|]), false)]
    {
      hide Layout, AllDescribed, Reserve, QueueOf, EntryOf, Describes, Data, HdrSize, HdrPtr, HdrReady;
      hdr := -1;
      var h, aligned := wrPtr, Align32(size);
      var dataPtr := FindRoom(aligned);
      if dataPtr < 0 {
        return;
      }
      StoreHeader(ring, h, dataPtr, size);
      HeaderWritten(old(ring[..]), h, dataPtr, size);
      if size <= 0xFFFF_FFF0 {
        ghost var r := Reserve(ringSize, rdPtr, h, aligned);
        ghost var s := NewSlot(ringSize, vw, h, r, size);
        AllocationPublished(ringSize, vr, vw, rdPtr, h, slots, old(ring[..]), size);
        vw := s.End();
        slots := slots + [s];
      }
      wrPtr := MovePtr(ringSize, dataPtr, aligned);
      hdr := h;
    }

    /** The entry whose header the handle hdr points to. */
    ghost predicate Handle(hdr: nat, n: nat)
      reads this
    {
      n < |slots| && slots[n].hdr == hdr
    }

    /** octf_trace_push. */
    method Push(mode: Mode, event: seq<byte>) returns (r: Status)
      requires Valid() && |event| < 0x1_0000_0000
      modifies this, ring
      ensures Valid() && closed == old(closed) && rdLock == old(rdLock)
      ensures r == EINVAL && magic == old(magic) <==> !old(magic) || mode != Producer
      ensures r == EINVAL && magic == old(magic) ==> unchanged(this) && unchanged(ring)
      ensures old(magic) && mode == Producer && |event| <= 0xFFFF_FFF0 ==>
                && magic && (r == Ok <==> old(HasRoom(|event|)))
                && (r == Ok ==> Queue() == old(Queue()) + [Entry(event, true)] && lost == old(lost))
                && (r != Ok ==> r == ENOSPC && lost == old(lost) + 1 && Queue() == old(Queue())
                                && unchanged(ring) && wrPtr == old(wrPtr))
      ensures old(magic) && mode == Producer && |event| > 0xFFFF_FFF0 ==>
                if old(HasRoom(0)) then r == EINVAL && !magic
                else r == ENOSPC && magic && lost == old(lost) + 1 && Queue() == old(Queue())
    {
      hide Layout, Reserve, AllDescribed, Separated, QueueOf, EntryOf;
      if !magic || mode != Producer {
        return EINVAL;
      }
      var hdr := AllocateEvent(|event|);
      if hdr < 0 {
        assert ring[..] == old(ring[..]);
        lost := lost + 1;
        return ENOSPC;
      }
      ghost var q := old(Queue());
      if |event| <= 0xFFFF_FFF0 {
        DescribedAt(|q|);
      }
      if !IntegrityCheck(ringSize, HdrPtr(ring[..], hdr), HdrSize(ring[..], hdr)) {
        magic := false;
        return EINVAL;
      }
      ghost var mem, s := ring[..], slots[|q|];
      LiveRegionsDisjoint(ringSize, vr, vw, rdPtr, wrPtr, slots);
      LastEntryPushed(ringSize, slots, mem, q, event);
      Store(ring, HdrPtr(ring[..], hdr), event);
      SetReady(ring, hdr);
      r := Ok;
    }

    /** octf_trace_get_wr_buffer: an uncommitted entry of this size; the handle is the
        header's offset, the buffer starts at `buffer`. */
    method GetWrBuffer(mode: Mode, size: nat) returns (r: Status, hdr: int, buffer: int)
      requires Valid() && size < 0x1_0000_0000
      modifies this, ring
      ensures Valid() && closed == old(closed) && rdLock == old(rdLock)
      ensures r == EINVAL && magic == old(magic) <==> !old(magic) || mode != Producer
      ensures r == EINVAL && magic == old(magic) ==> unchanged(this) && unchanged(ring)
      ensures old(magic) && mode == Producer && size <= 0xFFFF_FFF0 ==>
                && magic && (r == Ok <==> old(HasRoom(size)))
                && (r == Ok ==> && hdr >= 0 && Handle(hdr, |old(slots)|) && buffer == slots[|old(slots)|].dptr
                                && slots[|old(slots)|].size == size && InRing(ringSize, slots[|old(slots)|])
                                && Queue() == old(Queue()) + [Entry(Data(ring[..], slots[|old(slots)|]), false)]
                                && lost == old(lost))
                && (r != Ok ==> r == ENOSPC && hdr == -1 && lost == old(lost) + 1 && Queue() == old(Queue())
                                && unchanged(ring) && wrPtr == old(wrPtr))
      ensures old(magic) && mode == Producer && size > 0xFFFF_FFF0 ==>
                if old(HasRoom(0)) then r == EINVAL && !magic
                else r == ENOSPC && magic && lost == old(lost) + 1 && Queue() == old(Queue())
    {
      hide Layout, Reserve, AllDescribed, Separated, QueueOf, EntryOf;
      hdr, buffer := -1, -1;
      if !magic || mode != Producer {
        return EINVAL, hdr, buffer;
      }
      var h := AllocateEvent(size);
      if h < 0 {
        assert ring[..] == old(ring[..]);
        lost := lost + 1;
        return ENOSPC, hdr, buffer;
      }
      if size <= 0xFFFF_FFF0 {
        DescribedAt(|old(slots)|);
      }
      if !IntegrityCheck(ringSize, HdrPtr(ring[..], h), HdrSize(ring[..], h)) {
        magic := false;
        return EINVAL, hdr, buffer;
      }
      r, hdr, buffer := Ok, h, HdrPtr(ring[..], h);
    }

    /** The caller's stores through the buffer of an uncommitted entry. */
    method Fill(hdr: nat, at: nat, bytes: seq<byte>, ghost n: nat)
      requires Valid() && magic && Handle(hdr, n) && !Queue()[n].ready && at + |bytes| <= |Queue()[n].data|
      modifies ring
      ensures Valid() && Queue() == old(Queue())[n := Entry(Patch(old(Queue())[n].data, at, bytes), false)]
    {
      hide Layout, AllDescribed, Separated, QueueOf, EntryOf;
      LiveRegionsDisjoint(ringSize, vr, vw, rdPtr, wrPtr, slots);
      DescribedAt(n);
      FillEntry(ringSize, slots, ring[..], n, at, bytes);
      ghost var q := Queue();
      Store(ring, HdrPtr(ring[..], hdr) + at, bytes);
      assert Queue() == q[n := Entry(Patch(q[n].data, at, bytes), false)];
    }

    /** octf_trace_commit_wr_buffer: commits may come in any order. */
    method CommitWrBuffer(mode: Mode, hdr: nat, ghost n: nat) returns (r: Status)
      requires Valid() && (magic ==> Handle(hdr, n))
      modifies ring
      ensures Valid()
      ensures r == if old(magic) && mode == Producer then Ok else EINVAL
      ensures r == EINVAL ==> unchanged(ring)
      ensures r == Ok ==> Queue() == old(Queue())[n := Entry(old(Queue())[n].data, true)]
    {
      hide Layout, AllDescribed, Separated, QueueOf, EntryOf;
      if !magic || mode != Producer {
        return EINVAL;
      }
      LiveRegionsDisjoint(ringSize, vr, vw, rdPtr, wrPtr, slots);
      DescribedAt(n);
      assert IntegrityCheck(ringSize, HdrPtr(ring[..], hdr), HdrSize(ring[..], hdr));  // else ENV_BUG
      CommitEntry(ringSize, slots, ring[..], n);
      ghost var q := Queue();
      SetReady(ring, hdr);
      assert Queue() == q[n := Entry(q[n].data, true)];
      r := Ok;
    }

    lemma DescribedAt(n: nat)
      requires Valid() && magic && n < |slots|
      ensures Describes(ring[..], slots[n]) && InRing(ringSize, slots[n]) && slots[n].dptr < ringSize
      ensures |Queue()[n].data| == slots[n].size
    {}

    /** _get_rd_hdr: the oldest event's header if it is committed, else -1. */
    method GetRdHdr() returns (hdr: int)
      requires Valid() && magic
      ensures hdr < 0 <==> Queue() == [] || !Queue()[0].ready
      ensures hdr >= 0 ==> hdr == rdPtr && Handle(hdr, 0) && Describes(ring[..], slots[0]) && InRing(ringSize, slots[0]) && slots[0].dptr < ringSize
    {
      if rdPtr == wrPtr {
        return -1;
      }
      assert slots != [];
      assert slots[0].hdr == rdPtr;
      assert IntegrityCheck(ringSize, rdPtr, HEADER_SIZE);  // else ENV_BUG
      if ring[rdPtr] % 2 != 1 {
        return -1;
      }
      hdr := rdPtr;
    }

    /** _move_rd_ptr: drops the oldest event. */
    method MoveRdPtr(hdr: nat)
      requires Valid() && magic && Handle(hdr, 0) && hdr + HEADER_SIZE <= ring.Length
      modifies this`rdPtr, this`vr, this`slots, this`rdLock
      ensures Valid() && !rdLock && Queue() == old(Queue())[1..] && slots == old(slots)[1..]
    {
      hide Layout;
      assert Describes(ring[..], slots[0]);
      ReleaseKeepsLayout(ringSize, vr, vw, rdPtr, wrPtr, slots);
      ghost var s := slots[0];
      rdPtr := MovePtr(ringSize, HdrPtr(ring[..], hdr), Align(HdrSize(ring[..], hdr)));
      vr := s.End();
      slots := slots[1..];
      rdLock := false;  // _unlock_rd, which every caller does next
      assert AllDescribed(ring[..], slots);
    }

    /** octf_trace_pop into a buffer of the given capacity. */
    method Pop(mode: Mode, capacity: nat) returns (r: Status, event: seq<byte>)
      requires Valid()
      modifies this`rdPtr, this`vr, this`slots, this`rdLock
      ensures Valid() && magic == old(magic)
      ensures r == EINVAL <==> !magic
      ensures r == EPERM <==> magic && mode != Consumer
      ensures r == EBUSY <==> magic && mode == Consumer && old(rdLock)
      ensures magic && mode == Consumer && !old(rdLock) ==>
                var q := old(Queue());
                && !rdLock
                && (r == EBADF <==> (q == [] || !q[0].ready) && closed)
                && (r == EAGAIN <==> (q == [] || !q[0].ready) && !closed)
                && (r == ENOSPC <==> q != [] && q[0].ready && capacity < |q[0].data|)
                && (r == Ok <==> q != [] && q[0].ready && capacity >= |q[0].data|)
                && (r == Ok ==> event == q[0].data && Queue() == q[1..])
      ensures r != Ok ==> unchanged(this)
    {
      hide Layout;
      event := [];
      if !magic {
        return EINVAL, event;
      }
      if mode != Consumer {
        return EPERM, event;
      }
      if rdLock {
        return EBUSY, event;
      }
      var hdr := GetRdHdr();
      if hdr < 0 {
        r := if closed then EBADF else EAGAIN;
        return;
      }
      if capacity < HdrSize(ring[..], hdr) {
        return ENOSPC, event;
      }
      var at, size := HdrPtr(ring[..], hdr), HdrSize(ring[..], hdr);
      assert IntegrityCheck(ringSize, at, size);  // else ENV_BUG
      event := ring[..][at..at + size];
      assert event == Queue()[0].data;
      MoveRdPtr(hdr);
      r := Ok;
    }

    /** octf_trace_get_rd_buffer: on success the lock stays taken and the caller reads
        the event in place. */
    method GetRdBuffer(mode: Mode) returns (r: Status, hdr: int, buffer: int, size: nat)
      requires Valid()
      modifies this`rdLock
      ensures Valid()
      ensures r == EINVAL <==> !magic
      ensures r == EPERM <==> magic && mode != Consumer
      ensures r == EBUSY <==> magic && mode == Consumer && old(rdLock)
      ensures magic && mode == Consumer && !old(rdLock) ==>
                var q := Queue();
                && q == old(Queue()) && rdLock == (r == Ok)
                && (r == EBADF <==> (q == [] || !q[0].ready) && closed)
                && (r == EAGAIN <==> (q == [] || !q[0].ready) && !closed)
                && (r == Ok <==> q != [] && q[0].ready)
                && (r == Ok ==> && hdr >= 0 && Handle(hdr, 0)
                                && 0 <= buffer && buffer + size <= ring.Length && ring[buffer..buffer + size] == q[0].data)
      ensures r != Ok ==> unchanged(this)
    {
      hide Layout;
      hdr, buffer, size := -1, -1, 0;
      if !magic {
        r := EINVAL;
        return;
      }
      if mode != Consumer {
        r := EPERM;
        return;
      }
      if rdLock {
        r := EBUSY;
        return;
      }
      var h := GetRdHdr();
      if h < 0 {
        r := if closed then EBADF else EAGAIN;
        return;
      }
      assert IntegrityCheck(ringSize, HdrPtr(ring[..], h), HdrSize(ring[..], h));  // else ENV_BUG
      size, buffer, hdr := HdrSize(ring[..], h), HdrPtr(ring[..], h), h;
      assert ring[buffer..buffer + size] == ring[..][buffer..buffer + size] == Queue()[0].data;
      rdLock := true;
      r := Ok;
    }

    /** octf_trace_release_rd_buffer by the holder of the lock. */
    method ReleaseRdBuffer(mode: Mode, hdr: nat) returns (r: Status)
      requires Valid() && (magic ==> rdLock && Handle(hdr, 0))
      modifies this`rdPtr, this`vr, this`slots, this`rdLock
      ensures Valid()
      ensures r == if magic && mode == Consumer then Ok else EINVAL
      ensures r == Ok ==> !rdLock && Queue() == old(Queue())[1..]
      ensures r != Ok ==> unchanged(this)
    {
      hide Layout;
      if !magic || mode != Consumer {
        return EINVAL;
      }
      DescribedAt(0);
      assert IntegrityCheck(ringSize, HdrPtr(ring[..], hdr), HdrSize(ring[..], hdr));  // else ENV_BUG
      MoveRdPtr(hdr);
      r := Ok;
    }

    /** octf_trace_get_free_space. The events it accounts for are those the headers chain. */
    method GetFreeSpace() returns (free: int)
      requires Valid()
      ensures free == if magic then ringSize - 1 - TotalFootprint(slots) else -1
      ensures magic ==> WalkReaches(ringSize, ring[..], rdPtr, wrPtr, |Queue()|)
    {
      if !magic {
        return -1;  // -EINVAL
      }
      FootprintsFillWindow(ringSize, vr, vw, rdPtr, wrPtr, slots);
      HeadersReachWritePointer(ringSize, ring[..], vr, vw, rdPtr, wrPtr, slots);
      free := FreeSpace(ringSize, rdPtr, wrPtr);
    }

    /** octf_trace_is_empty. */
    method IsEmpty() returns (r: int)
      requires Valid()
      ensures r == if !magic then -1 else if Queue() == [] then 1 else 0
    {
      if !magic {
        return -1;  // -EINVAL
      }
      assert slots != [] ==> SlotFits(ringSize, vr - rdPtr, vr, vw, slots[0]);
      r := if rdPtr == wrPtr then 1 else 0;
    }

    /** octf_trace_close: only a producer marks the ring closed. */
    method Close(mode: Mode)
      requires Valid()
      modifies this`closed
      ensures Valid() && closed == (old(closed) || (mode == Producer && magic))
      ensures magic ==> Queue() == old(Queue())
    {
      hide Layout;
      if mode == Producer && magic {
        closed := true;
      }
    }
  }
}

/** A push and a pop that no other thread disturbs do what they are for; and a run in which an
    observer of the two pointers is misled. */
module RingProgress {
  import opened Bytes
  import opened RingLayout
  import opened RingMemory
  import opened RingProtocol
  import opened RingObserver

  ghost predicate Reaches(s: State, m: State) {
    Shape(s) && exists actions :: Run(s, actions) == m
  }

  /** m is reached from s, and keeps the invariant. */
  ghost predicate Leads(s: State, m: State) {
    Inv(s) && Shape(s) && Reaches(s, m) && Inv(m) && Shape(m)
  }

  lemma LeadsHere(s: State)
    requires Inv(s)
    ensures Leads(s, s)
  {
    InvShape(s);
    assert Run(s, []) == s;
  }

  lemma LeadsOn(s: State, m: State, a: Action)
    requires Leads(s, m)
    ensures Shape(m) && Leads(s, Apply(m, a))
  {
    hide Inv, Apply;
    var actions :| Run(s, actions) == m;
    var all := actions + [a];
    RunSplits(s, all, |actions|);
    assert all[..|actions|] == actions && all[|actions|..] == [a];
    assert [a][1..] == [] && Run(m, [a]) == Run(Apply(m, a), []);
    ApplyKeepsInv(m, a);
    InvShape(Apply(m, a));
  }

  lemma ProducerGoes(m: State, t: nat)
    requires Inv(m) && t < |m.producers|
    ensures Shape(m) && !StepProducer(m, t).bug
  {
    hide StepProducer;
    ProducerKeepsInv(m, t);
  }

  /** A step that stores nothing, when nobody is in the way. */
  lemma MoveIs(m: State, t: nat, next: Producer, wrLock: bool)
    requires Shape(m) && t < |m.producers|
    requires !m.producers[t].Pending() && !Stores(m, t, m.producers[t])
    requires MoveOf(m, m.producers[t]) == Move(next, wrLock, m.lost)
    ensures Apply(m, ProducerStep(t)) == Set(m, t, next).(wrLock := wrLock)
  {
    hide RingSize, MoveOf;
  }

  lemma QuietLeads(s: State, m: State, t: nat, next: Producer, wrLock: bool)
    requires Leads(s, m) && Shape(m) && t < |m.producers|
    requires !m.producers[t].Pending() && !Stores(m, t, m.producers[t])
    requires MoveOf(m, m.producers[t]) == Move(next, wrLock, m.lost)
    ensures Leads(s, Set(m, t, next).(wrLock := wrLock))
  {
    hide Inv, Leads, MoveOf, Apply;
    MoveIs(m, t, next, wrLock);
    LeadsOn(s, m, ProducerStep(t));
  }

  // ---------------------------------------------------------------- a push

  /** s with producer t elsewhere and its push begun. */
  function Busy(s: State, t: nat, pc: Producer): State
    requires t < |s.producers|
  {
    Set(s, t, pc).(begun := s.begun + 1, writers := s.writers - {t})
  }

  lemma SetTwice<T>(s: seq<T>, t: nat, pc: T, pc': T)
    requires t < |s|
    ensures s[t := pc][t := pc'] == s[t := pc']
  {}

  predicate Ready(s: State, t: nat, event: seq<byte>) {
    && Shape(s) && t < |s.producers| && s.producers[t].PIdle? && !s.wrLock && |event| <= 0xFFFF_FFF0
    && RingLayout.Reserve(s.ringSize, s.rd, s.wr, Align(|event|)).Reserved?
  }

  function SlotOf(s: State, event: seq<byte>): Slot
    requires Shape(s) && RingLayout.Reserve(s.ringSize, s.rd, s.wr, Align(|event|)).Reserved?
  {
    NewSlot(s.ringSize, s.vw, s.wr, RingLayout.Reserve(s.ringSize, s.rd, s.wr, Align(|event|)), |event|)
  }

  function NextOf(s: State, event: seq<byte>): nat
    requires Shape(s) && RingLayout.Reserve(s.ringSize, s.rd, s.wr, Align(|event|)).Reserved?
  {
    RingLayout.Reserve(s.ringSize, s.rd, s.wr, Align(|event|)).next
  }

  lemma Locks(s: State, t: nat, event: seq<byte>)
    requires Inv(s) && Ready(s, t, event)
    ensures Leads(s, Busy(s, t, PReadWr(event)).(wrLock := true))
  {
    hide Inv, Leads, Shape, RingLayout.Reserve;
    LeadsHere(s);
    var m := Busy(s, t, PLock(event, 0));
    LeadsOn(s, s, BeginPush(t, event));
    assert m == Apply(s, BeginPush(t, event));
    QuietLeads(s, m, t, PReadWr(event), true);
    SetTwice(s.producers, t, PLock(event, 0), PReadWr(event));
  }

  lemma Decides(s: State, t: nat, event: seq<byte>)
    requires Inv(s) && Ready(s, t, event)
    ensures Leads(s, Busy(s, t, PClear(event, SlotOf(s, event), NextOf(s, event))).(wrLock := true))
  {
    hide Inv, Leads, Shape, RingLayout.Reserve, Apply, Align;
    Locks(s, t, event);
    var m1 := Busy(s, t, PReadWr(event)).(wrLock := true);
    ShapeOf(s, m1);
    QuietLeads(s, m1, t, PReadRd(event, s.wr), true);
    var m2 := Busy(s, t, PReadRd(event, s.wr)).(wrLock := true);
    SetTwice(s.producers, t, PReadWr(event), PReadRd(event, s.wr));
    ShapeOf(s, m2);
    var last := PClear(event, SlotOf(s, event), NextOf(s, event));
    QuietLeads(s, m2, t, last, true);
    SetTwice(s.producers, t, PReadRd(event, s.wr), last);
  }

  lemma ShapeOf(s: State, m: State)
    requires Leads(s, m)
    ensures Shape(m) && Inv(m)
  {}

  function AfterHeader(pc: Producer): Producer
    requires pc.PClear? || pc.PSetPtr? || pc.PSetSize?
  {
    match pc
    case PClear(event, slot, next) => PSetPtr(event, slot, next)
    case PSetPtr(event, slot, next) => PSetSize(event, slot, next)
    case PSetSize(event, slot, next) => PPublish(event, slot, next)
  }

  lemma HeaderIs(m: State, t: nat)
    requires Inv(m) && t < |m.producers| && (m.producers[t].PClear? || m.producers[t].PSetPtr? || m.producers[t].PSetSize?)
    ensures Shape(m)
    ensures var m' := Apply(m, ProducerStep(t)); m' == Set(m, t, AfterHeader(m.producers[t])).(mem := m'.mem)
  {
    hide Inv, RingSize, WithReady, WithPtr, WithSize;
    InvShape(m);
    ProducerGoes(m, t);
  }

  lemma PublicationIs(m: State, t: nat)
    requires Inv(m) && t < |m.producers| && m.producers[t].PPublish?
    ensures Shape(m)
    ensures var pc := m.producers[t];
            Apply(m, ProducerStep(t)) ==
            Set(m, t, PUnlock(pc.event, |m.log|, pc.slot.hdr)).(
              wr := pc.next, vw := pc.slot.End(), log := m.log + [Event(pc.slot, pc.event, t, false)])
  {
    hide Inv, RingSize;
    InvShape(m);
    ProducerGoes(m, t);
  }

  /** s after the publication of the event. */
  function Published(s: State, t: nat, event: seq<byte>, pc: Producer, mem: seq<byte>, committed: bool): State
    requires Ready(s, t, event)
  {
    var slot := SlotOf(s, event);
    Busy(s, t, pc).(mem := mem, wr := NextOf(s, event), vw := slot.End(), log := s.log + [Event(slot, event, t, committed)])
  }

  lemma Publishes(s: State, t: nat, event: seq<byte>) returns (mem: seq<byte>)
    requires Inv(s) && Ready(s, t, event)
    ensures Leads(s, Published(s, t, event, PUnlock(event, |s.log|, SlotOf(s, event).hdr), mem, false).(wrLock := true))
  {
    hide Inv, Leads, Shape, Apply;
    Decides(s, t, event);
    var slot, next := SlotOf(s, event), NextOf(s, event);
    var m := Busy(s, t, PClear(event, slot, next)).(wrLock := true);
    m := HeaderStep(s, m, t);
    SetTwice(s.producers, t, PClear(event, slot, next), PSetPtr(event, slot, next));
    m := HeaderStep(s, m, t);
    SetTwice(s.producers, t, PSetPtr(event, slot, next), PSetSize(event, slot, next));
    m := HeaderStep(s, m, t);
    SetTwice(s.producers, t, PSetSize(event, slot, next), PPublish(event, slot, next));
    mem := m.mem;
    ShapeOf(s, m);
    PublicationIs(m, t);
    LeadsOn(s, m, ProducerStep(t));
    SetTwice(s.producers, t, PPublish(event, slot, next), PUnlock(event, |s.log|, slot.hdr));
  }

  lemma HeaderStep(s: State, m: State, t: nat) returns (m': State)
    requires Leads(s, m) && t < |m.producers| && (m.producers[t].PClear? || m.producers[t].PSetPtr? || m.producers[t].PSetSize?)
    ensures Leads(s, m') && m' == Set(m, t, AfterHeader(m.producers[t])).(mem := m'.mem)
  {
    hide Inv, Apply;
    HeaderIs(m, t);
    LeadsOn(s, m, ProducerStep(t));
    m' := Apply(m, ProducerStep(t));
  }

  /** The header is checked and the copy begins. */
  lemma Checks(s: State, t: nat, event: seq<byte>) returns (mem: seq<byte>)
    requires Inv(s) && Ready(s, t, event)
    ensures var slot := SlotOf(s, event);
            Leads(s, Published(s, t, event, PCopy(event, |s.log|, slot.hdr, slot.dptr, 0), mem, false))
  {
    hide Inv, Leads, Apply, HdrPtr, HdrSize, IntegrityCheck, SlotOf, NextOf;
    mem := Publishes(s, t, event);
    var slot, n := SlotOf(s, event), |s.log|;
    var m0 := Published(s, t, event, PUnlock(event, n, slot.hdr), mem, false).(wrLock := true);
    ShapeOf(s, m0);
    QuietLeads(s, m0, t, PCheckPtr(event, n, slot.hdr), false);
    SetTwice(s.producers, t, PUnlock(event, n, slot.hdr), PCheckPtr(event, n, slot.hdr));
    ChecksHeader(s, t, event, mem);
  }

  lemma ChecksHeader(s: State, t: nat, event: seq<byte>, mem: seq<byte>)
    requires Inv(s) && Ready(s, t, event)
    requires var slot := SlotOf(s, event);
             Leads(s, Published(s, t, event, PCheckPtr(event, |s.log|, slot.hdr), mem, false))
    ensures var slot := SlotOf(s, event);
            Leads(s, Published(s, t, event, PCopy(event, |s.log|, slot.hdr, slot.dptr, 0), mem, false))
  {
    hide Inv, Leads, Apply, HdrPtr, HdrSize, IntegrityCheck, SlotOf, NextOf;
    var slot, n := SlotOf(s, event), |s.log|;
    HeaderPassed(s, t, event, mem, PCheckPtr(event, n, slot.hdr));
    QuietLeads(s, Published(s, t, event, PCheckPtr(event, n, slot.hdr), mem, false), t, PCheckSize(event, n, slot.hdr, slot.dptr), false);
    SetTwice(s.producers, t, PCheckPtr(event, n, slot.hdr), PCheckSize(event, n, slot.hdr, slot.dptr));
    HeaderPassed(s, t, event, mem, PCheckSize(event, n, slot.hdr, slot.dptr));
    QuietLeads(s, Published(s, t, event, PCheckSize(event, n, slot.hdr, slot.dptr), mem, false), t, PCopy(event, n, slot.hdr, slot.dptr, 0), false);
    SetTwice(s.producers, t, PCheckSize(event, n, slot.hdr, slot.dptr), PCopy(event, n, slot.hdr, slot.dptr, 0));
  }

  lemma HeaderPassed(s: State, t: nat, event: seq<byte>, mem: seq<byte>, pc: Producer)
    requires Inv(s) && Ready(s, t, event) && pc.Owner() && pc.n == |s.log|
    requires Leads(s, Published(s, t, event, pc, mem, false))
    ensures var slot := SlotOf(s, event);
            && Shape(Published(s, t, event, pc, mem, false))
            && pc.hdr + HEADER_SIZE <= |mem| == s.ringSize
            && HdrPtr(mem, pc.hdr) == slot.dptr && HdrSize(mem, pc.hdr) == slot.size
            && IntegrityCheck(s.ringSize, slot.dptr, slot.size)
  {
    hide Inv, Leads, HdrPtr, HdrSize, IntegrityCheck, SlotOf, NextOf;
    var m := Published(s, t, event, pc, mem, false);
    ShapeOf(s, m);
    OwnedHeader(m, t);
  }

  lemma CopyByteIs(m: State, t: nat)
    requires Inv(m) && t < |m.producers| && m.producers[t].PCopy? && m.producers[t].k < |m.producers[t].event|
    ensures Shape(m)
    ensures var m', pc := Apply(m, ProducerStep(t)), m.producers[t];
            m' == Set(m, t, PCopy(pc.event, pc.n, pc.hdr, pc.ptr, pc.k + 1)).(mem := m'.mem)
  {
    hide Inv, RingSize, Patch;
    InvShape(m);
    ProducerGoes(m, t);
  }

  lemma {:induction false} Copies(s: State, t: nat, event: seq<byte>, k: nat) returns (mem: seq<byte>)
    requires Inv(s) && Ready(s, t, event) && k <= |event|
    ensures var slot := SlotOf(s, event);
            Leads(s, Published(s, t, event, PCopy(event, |s.log|, slot.hdr, slot.dptr, k), mem, false))
    decreases k
  {
    hide Inv, Leads, Shape, Apply;
    if k == 0 {
      mem := Checks(s, t, event);
    } else {
      var before := Copies(s, t, event, k - 1);
      var slot, n := SlotOf(s, event), |s.log|;
      var m := Published(s, t, event, PCopy(event, n, slot.hdr, slot.dptr, k - 1), before, false);
      ShapeOf(s, m);
      CopyByteIs(m, t);
      LeadsOn(s, m, ProducerStep(t));
      mem := Apply(m, ProducerStep(t)).mem;
      SetTwice(s.producers, t, PCopy(event, n, slot.hdr, slot.dptr, k - 1), PCopy(event, n, slot.hdr, slot.dptr, k));
    }
  }

  lemma CommitmentIs(m: State, t: nat)
    requires Inv(m) && t < |m.producers| && m.producers[t].PCommit?
    ensures Shape(m) && m.producers[t].n < |m.log|
    ensures var m', n := Apply(m, ProducerStep(t)), m.producers[t].n;
            m' == Set(m, t, PIdle).(mem := m'.mem, log := m.log[n := m.log[n].(committed := true)])
  {
    hide Inv, RingSize, WithReady;
    InvShape(m);
    OwnedHeader(m, t);
    ProducerGoes(m, t);
  }

  /** A push that finds the lock free and room for its event, and is not disturbed, is accepted:
      its event is at the end of the log, committed. */
  lemma UndisturbedPush(s: State, t: nat, event: seq<byte>) returns (m: State)
    requires Inv(s) && Ready(s, t, event)
    ensures Leads(s, m)
    ensures m == s.(mem := m.mem, wr := NextOf(s, event), vw := SlotOf(s, event).End(), begun := s.begun + 1,
                    writers := s.writers - {t}, log := s.log + [Event(SlotOf(s, event), event, t, true)])
  {
    hide Inv, Leads, Shape, Apply;
    var mem := Copies(s, t, event, |event|);
    var slot, n := SlotOf(s, event), |s.log|;
    var m0 := Published(s, t, event, PCopy(event, n, slot.hdr, slot.dptr, |event|), mem, false);
    ShapeOf(s, m0);
    OwnedHeader(m0, t);
    QuietLeads(s, m0, t, PCommit(event, n, slot.hdr), false);
    SetTwice(s.producers, t, PCopy(event, n, slot.hdr, slot.dptr, |event|), PCommit(event, n, slot.hdr));
    var m1 := Published(s, t, event, PCommit(event, n, slot.hdr), mem, false);
    ShapeOf(s, m1);
    CommitmentIs(m1, t);
    LeadsOn(s, m1, ProducerStep(t));
    m := Apply(m1, ProducerStep(t));
    SetTwice(s.producers, t, PCommit(event, n, slot.hdr), PIdle);
    assert s.producers[t := PIdle] == s.producers;
    assert m1.log[n := m1.log[n].(committed := true)] == s.log + [Event(slot, event, t, true)];
  }

  // ---------------------------------------------------------------- a pop

  lemma LookIs(m: State, c: nat, next: Consumer, rdLock: bool)
    requires Shape(m) && c < |m.consumers| && !m.consumers[c].CMove?
    requires LookOf(m, m.consumers[c]) == Look(next, rdLock)
    ensures Apply(m, ConsumerStep(c)) == SetC(m, c, next).(rdLock := rdLock)
  {
    hide RingSize, LookOf;
  }

  predicate Waiting(s: State, c: nat) {
    && Shape(s) && c < |s.consumers| && s.consumers[c].CIdle? && !s.rdLock
    && s.head < |s.log| && s.log[s.head].committed
  }

  lemma OldestIs(m: State)
    requires Inv(m) && m.head < |m.log| && m.log[m.head].committed
    ensures Shape(m) && m.rd != m.wr && m.rd + HEADER_SIZE <= m.ringSize
    ensures var slot := m.log[m.head].slot;
            && HdrReady(m.mem, m.rd) && HdrSize(m.mem, m.rd) == slot.size && HdrPtr(m.mem, m.rd) == slot.dptr
            && slot.dptr + slot.size <= m.ringSize && slot.dptr < m.ringSize && |m.log[m.head].bytes| == slot.size
            && Data(m.mem, slot) == m.log[m.head].bytes
  {
    hide Layout, Live, SlotFits, Phys, HdrReady, HdrPtr, HdrSize;
    ReachedGeometry(m, m.ringSize);
    OldestEvent(m);
    assert EventStored(m.mem, m.log[m.head]);
  }

  /** One step of the pop, from a state that differs from s in the consumer only. */
  lemma PopStep(s: State, c: nat, pc: Consumer, next: Consumer)
    requires c < |s.consumers| && Leads(s, SetC(s, c, pc).(rdLock := true)) && !pc.CMove?
    requires LookOf(SetC(s, c, pc).(rdLock := true), pc) == Look(next, true)
    ensures Leads(s, SetC(s, c, next).(rdLock := true))
  {
    hide Inv, Leads, Shape, LookOf;
    var m := SetC(s, c, pc).(rdLock := true);
    ShapeOf(s, m);
    LeadsOn(s, m, ConsumerStep(c));
    SetTwice(s.consumers, c, pc, next);
  }

  lemma PopLocks(s: State, c: nat)
    requires Inv(s) && Waiting(s, c)
    ensures Leads(s, SetC(s, c, CReadRd(InPlace)).(rdLock := true))
  {
    hide Inv, Leads, Shape;
    LeadsHere(s);
    LeadsOn(s, s, BeginPop(c, InPlace));
    var m := SetC(s, c, CLock(InPlace));
    assert m == Apply(s, BeginPop(c, InPlace));
    LeadsOn(s, m, ConsumerStep(c));
    SetTwice(s.consumers, c, CLock(InPlace), CReadRd(InPlace));
  }

  lemma PopReads(s: State, c: nat)
    requires Inv(s) && Waiting(s, c)
    ensures var slot := s.log[s.head].slot;
            Leads(s, SetC(s, c, CCopy(slot.size, slot.dptr, [])).(rdLock := true))
  {
    hide Inv, Leads, HdrReady, HdrPtr, HdrSize, Data;
    PopLocks(s, c);
    OldestIs(s);
    var slot := s.log[s.head].slot;
    PopStep(s, c, CReadRd(InPlace), CReadWr(InPlace, s.rd));
    PopStep(s, c, CReadWr(InPlace, s.rd), CReadReady(InPlace, s.rd));
    PopStep(s, c, CReadReady(InPlace, s.rd), CReadSize(InPlace, s.rd));
    PopStep(s, c, CReadSize(InPlace, s.rd), CReadPtr(s.rd, slot.size));
    PopStep(s, c, CReadPtr(s.rd, slot.size), CCopy(slot.size, slot.dptr, []));
  }

  lemma {:induction false} PopCopies(s: State, c: nat, k: nat)
    requires Inv(s) && Waiting(s, c) && k <= s.log[s.head].slot.size == |s.log[s.head].bytes|
    ensures var e := s.log[s.head];
            Leads(s, SetC(s, c, CCopy(e.slot.size, e.slot.dptr, e.bytes[..k])).(rdLock := true))
    decreases k
  {
    hide Inv, Leads, HdrReady, HdrPtr, HdrSize;
    var e := s.log[s.head];
    if k == 0 {
      PopReads(s, c);
      assert e.bytes[..0] == [];
    } else {
      PopCopies(s, c, k - 1);
      OldestIs(s);
      assert e.bytes[..k] == e.bytes[..k - 1] + [s.mem[e.slot.dptr + (k - 1)]];
      PopStep(s, c, CCopy(e.slot.size, e.slot.dptr, e.bytes[..k - 1]), CCopy(e.slot.size, e.slot.dptr, e.bytes[..k]));
    }
  }

  lemma ReleaseIs(m: State, c: nat)
    requires Shape(m) && c < |m.consumers| && m.consumers[c].CMove? && m.head < |m.log|
    ensures var pc := m.consumers[c];
            Apply(m, ConsumerStep(c)) ==
            SetC(m, c, CUnlock).(rd := MovePtr(m.ringSize, pc.ptr, Align(pc.size)), head := m.head + 1,
                                 vr := m.log[m.head].slot.End(), delivered := m.delivered + [pc.buf])
  {
    hide RingSize, MovePtr, Align;
  }

  /** A pop that finds the lock free and a committed event, and is not disturbed, delivers it. */
  lemma UndisturbedPop(s: State, c: nat) returns (m: State)
    requires Inv(s) && Waiting(s, c)
    ensures Leads(s, m)
    ensures m == s.(rd := m.rd, head := s.head + 1, vr := s.log[s.head].slot.End(),
                    delivered := s.delivered + [s.log[s.head].bytes])
  {
    hide Inv, Leads, Apply, HdrReady, HdrPtr, HdrSize, MovePtr;
    var e := s.log[s.head];
    OldestIs(s);
    PopCopies(s, c, e.slot.size);
    assert e.bytes[..e.slot.size] == e.bytes;
    PopStep(s, c, CCopy(e.slot.size, e.slot.dptr, e.bytes), CMove(e.slot.size, e.slot.dptr, e.bytes));
    var m0 := SetC(s, c, CMove(e.slot.size, e.slot.dptr, e.bytes)).(rdLock := true);
    ReleaseIs(m0, c);
    LeadsOn(s, m0, ConsumerStep(c));
    var m1 := Apply(m0, ConsumerStep(c));
    LookIs(m1, c, CIdle, false);
    LeadsOn(s, m1, ConsumerStep(c));
    m := Apply(m1, ConsumerStep(c));
    assert s.consumers[c := CIdle] == s.consumers;
  }

  // ---------------------------------------------------------------- the misled observer

  /** Something is published before something is released between the two reads: the free space
      reported is that of no state. */
  lemma PublishedBeforeReleased(s: State, first: seq<Action>, second: seq<Action>, k: nat)
    requires Lapped(s) && Shape(s) && k <= |first + second|
    requires var m, e := Run(s, first), Run(s, first + second);
             m.vr == s.vr < e.vr <= s.vw < m.vw
    ensures s.wr < s.ringSize && Run(s, first + second).rd < s.ringSize
    ensures var b := Between(s, first + second, k);
            b.rd < b.ringSize && b.wr < b.ringSize && FreeSpaceSeen(s, first + second) != FreeSpaceOf(b)
  {
    hide Inv, Lapped, Run;
    var all := first + second;
    FreeSpaceSeenBetween(s, all, k);
    if k <= |first| {
      assert all[..k] == first[..k];
      BetweenBounds(s, first, k);
    } else {
      assert all[..k][..|first|] == first;
      RunSplits(s, all[..k], |first|);
      RunLaps(s, first);
      RunLaps(Run(s, first), all[..k][|first|..]);
    }
  }

  lemma EmptyRingReady(mem: seq<byte>)
    requires |mem| == 64
    ensures var s0 := Init(64, mem, 1, 1);
            Ready(s0, 0, []) && SlotOf(s0, []) == Slot(0, 0, 16, 16, 0) && NextOf(s0, []) == 16
  {}

  /** Room behind the first event. */
  lemma ReadySecond(s: State)
    requires Shape(s) && s.ringSize == 64 && s.rd == 0 && s.wr == 16 && s.vw == 16 && s.producers == [PIdle] && !s.wrLock
    ensures Ready(s, 0, []) && SlotOf(s, []).End() == 32 && NextOf(s, []) == 32
  {}

  lemma FirstPush() returns (s: State)
    ensures Leads(Init(64, seq(64, _ => 0), 1, 1), s) && Lapped(s)
    ensures Ready(s, 0, []) && SlotOf(s, []).End() == 32 && NextOf(s, []) == 32
    ensures s.vr == 0 && s.vw == 16 && s.rd == 0 && s.ringSize == 64 && s.head == 0
    ensures |s.log| == 1 && s.log[0].committed && s.log[0].slot.End() == 16
    ensures s.producers == [PIdle] && s.consumers == [CIdle] && !s.wrLock && !s.rdLock
  {
    hide Inv, Leads, Lapped, Ready, SlotOf, NextOf;
    var mem: seq<byte> := seq(64, _ => 0);
    var s0 := Init(64, mem, 1, 1);
    EmptyRingReady(mem);
    InitLapped(64, mem, 1, 1);
    s := UndisturbedPush(s0, 0, []);
    LeadsLaps(s0, s);
    ShapeOf(s0, s);
    ReadySecond(s);
  }

  lemma LeadsLaps(s: State, m: State)
    requires Leads(s, m) && Lapped(s)
    ensures Lapped(m)
  {
    hide Lapped, Run;
    var actions :| Run(s, actions) == m;
    RunLaps(s, actions);
  }

  /** An observer reads the write pointer while one event is in the ring, another event is pushed,
      the first is popped, and the observer reads the read pointer: it reports an empty ring, which
      at no moment it was. */
  lemma ObserverIsMisled() returns (s: State, actions: seq<Action>)
    ensures Leads(Init(64, seq(64, _ => 0), 1, 1), s) && Lapped(s) && Shape(s)
    ensures s.wr < s.ringSize && Run(s, actions).rd < s.ringSize
    ensures FreeSpaceSeen(s, actions) == 63
    ensures forall k :: 0 <= k <= |actions| ==>
              var b := Between(s, actions, k);
              b.rd < b.ringSize && b.wr < b.ringSize && FreeSpaceOf(b) != 63
  {
    hide Inv, Lapped, Run, SlotOf, NextOf, Ready;
    s := FirstPush();
    var m := UndisturbedPush(s, 0, []);
    var e := UndisturbedPop(m, 0);
    var first :| Run(s, first) == m;
    var second :| Run(m, second) == e;
    actions := first + second;
    RunSplits(s, actions, |first|);
    assert actions[..|first|] == first && actions[|first|..] == second;
    FreeSpaceSeenBetween(s, actions, 0);
    forall k: nat | k <= |actions|
      ensures var b := Between(s, actions, k);
              b.rd < b.ringSize && b.wr < b.ringSize && FreeSpaceOf(b) != 63
    {
      PublishedBeforeReleased(s, first, second, k);
    }
  }

  lemma ReadyShape(s: State)
    requires Ready(s, 0, [])
    ensures Shape(s) && |s.producers| > 0
  {}

  /** The ring is never empty from s on until m is reached. */
  ghost predicate NeverEmptyUntil(s: State, m: State) {
    Shape(s) && exists actions :: Run(s, actions) == m && forall k :: 0 <= k <= |actions| ==> !EmptyIn(Between(s, actions, k))
  }

  /** It is not if the last read position is below the first write position. */
  lemma NotEmptyOnTheWay(s: State, m: State)
    requires Lapped(s) && Leads(s, m) && m.vr < s.vw
    ensures Shape(s) && NeverEmptyUntil(s, m)
  {
    hide Inv, Lapped, Run;
    var actions :| Run(s, actions) == m;
    forall k: nat | k <= |actions|
      ensures !EmptyIn(Between(s, actions, k))
    {
      BetweenBounds(s, actions, k);
    }
  }

  lemma NeverEmptyOn(s: State, m: State, e: State)
    requires Shape(s) && Shape(m) && NeverEmptyUntil(s, m) && NeverEmptyUntil(m, e)
    ensures NeverEmptyUntil(s, e)
  {
    hide Run;
    var first :| Run(s, first) == m && forall k :: 0 <= k <= |first| ==> !EmptyIn(Between(s, first, k));
    var second :| Run(m, second) == e && forall k :: 0 <= k <= |second| ==> !EmptyIn(Between(m, second, k));
    var all := first + second;
    RunSplits(s, all, |first|);
    assert all[..|first|] == first && all[|first|..] == second;
    forall k: nat | k <= |all|
      ensures !EmptyIn(Between(s, all, k))
    {
      if k <= |first| {
        assert all[..k] == first[..k];
        assert Between(s, all, k) == Between(s, first, k);
      } else {
        RunSplits(s, all[..k], |first|);
        assert all[..k][..|first|] == first && all[..k][|first|..] == second[..k - |first|];
        assert Between(s, all, k) == Between(m, second, k - |first|);
      }
    }
  }

  /** One more event pushed and the oldest popped, in a ring of 64 bytes. */
  lemma PushAndPop(s: State) returns (m: State)
    requires Lapped(s) && Ready(s, 0, []) && s.consumers == [CIdle] && !s.rdLock && s.head < |s.log| && s.log[s.head].committed
    requires s.vr < s.vw && s.log[s.head].slot.End() < SlotOf(s, []).End()
    ensures Lapped(m) && Shape(m) && NeverEmptyUntil(s, m) && m.consumers == [CIdle] && !m.rdLock
    ensures m.vw == SlotOf(s, []).End() && m.wr == NextOf(s, []) && m.vr == s.log[s.head].slot.End() && m.head == s.head + 1
    ensures m.log == s.log + [Event(SlotOf(s, []), [], 0, true)]
    ensures m.producers == s.producers && m.wrLock == s.wrLock && m.ringSize == s.ringSize
  {
    hide Inv, Lapped, Leads, SlotOf, NextOf, Ready, Reaches, NeverEmptyUntil;
    LappedShape(s);
    var p := UndisturbedPush(s, 0, []);
    LeadsLaps(s, p);
    ShapeOf(s, p);
    NotEmptyOnTheWay(s, p);
    m := UndisturbedPop(p, 0);
    LeadsLaps(p, m);
    NotEmptyOnTheWay(p, m);
    NeverEmptyOn(s, p, m);
  }

  /** Room at the write position for another empty event. */
  lemma ReadyAgain(s: State)
    requires Lapped(s) && Shape(s) && s.ringSize == 64 && s.producers == [PIdle] && !s.wrLock
    requires (s.vr == 16 && s.vw == 32) || (s.vr == 32 && s.vw == 48)
    ensures Ready(s, 0, []) && SlotOf(s, []).End() == s.vw + 16 && NextOf(s, []) == Modulo(s.vw + 16, 64)
  {
    hide Inv;
    WritePointerLaps(s);
  }

  /** An observer reads the read pointer, a lap is published and all but the last event popped,
      and the observer reads the write pointer: it finds them equal, and the ring was never empty. */
  lemma LapIsTakenForEmpty() returns (s: State, e: State)
    ensures Leads(Init(64, seq(64, _ => 0), 1, 1), s) && Lapped(s) && Shape(s)
    ensures NeverEmptyUntil(s, e) && s.rd == e.wr && e.vw == s.vr + 64
  {
    hide Inv, Lapped, Leads, SlotOf, NextOf, Ready, Reaches, NeverEmptyUntil;
    s := FirstPush();
    ReadyShape(s);
    var m := PushAndPop(s);
    ReadyAgain(m);
    var n := PushAndPop(m);
    NeverEmptyOn(s, m, n);
    ReadyAgain(n);
    LappedShape(n);
    e := UndisturbedPush(n, 0, []);
    NotEmptyOnTheWay(n, e);
    NeverEmptyOn(s, n, e);
    assert Modulo(64, 64) == 0;
  }
}

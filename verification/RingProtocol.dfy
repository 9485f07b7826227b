/** The ring under concurrency: any number of producers and consumers, each making one
    access to the shared ring per step, in any order, under sequential consistency.
    Header fields and event bytes live in the ring's memory itself, so a stray store
    could destroy any event; the main theorems say that none ever does. */
module RingProtocol {
  import opened Bytes
  import opened RingLayout
  import opened RingMemory

  /** A producer inside octf_trace_push, or between octf_trace_get_wr_buffer and the end of
      octf_trace_commit_wr_buffer. Local variables of the code are `event`, the offsets in
      `slot` (hdr, dptr), `next`, `ptr` and the copy position k; the virtual coordinates in
      `slot` and the log index n are bookkeeping. A writer of a reserved buffer has an event of
      which only the size matters until it is in PFill; from then on `event` is what its stores
      have made of the buffer, and it may stay there as long as it likes. */
  datatype Producer =
    | PIdle
    | PLock(event: seq<byte>, tries: nat)
    | PReadWr(event: seq<byte>)
    | PReadRd(event: seq<byte>, wrp: nat)
    | PClear(event: seq<byte>, slot: Slot, next: nat)
    | PSetPtr(event: seq<byte>, slot: Slot, next: nat)
    | PSetSize(event: seq<byte>, slot: Slot, next: nat)
    | PPublish(event: seq<byte>, slot: Slot, next: nat)
    | PUnlock(event: seq<byte>, n: nat, hdr: nat)
    | PCheckPtr(event: seq<byte>, n: nat, hdr: nat)
    | PCheckSize(event: seq<byte>, n: nat, hdr: nat, ptr: nat)
    | PCopy(event: seq<byte>, n: nat, hdr: nat, ptr: nat, k: nat)
    | PFill(event: seq<byte>, n: nat, hdr: nat, ptr: nat)
    | PRecheckPtr(event: seq<byte>, n: nat, hdr: nat)
    | PRecheckSize(event: seq<byte>, n: nat, hdr: nat, ptr: nat)
    | PCommit(event: seq<byte>, n: nat, hdr: nat)
    | PUnlockFull
    | PLost
  {
    /** Holding wr_lock. */
    predicate InCs() {
      PReadWr? || PReadRd? || Pending() || PUnlock? || PUnlockFull?
    }

    /** Between the decision to reserve `slot` and the store that publishes it. */
    predicate Pending() {
      PClear? || PSetPtr? || PSetSize? || PPublish?
    }

    /** Between publishing an event and committing it. */
    predicate Owner() {
      PUnlock? || PCheckPtr? || PCheckSize? || PCopy? || Filled()
    }

    /** The buffer holds exactly `event`. */
    predicate Filled() {
      PFill? || PRecheckPtr? || PRecheckSize? || PCommit?
    }

    /** In a push that is neither accepted nor counted as lost yet. */
    predicate Undecided() {
      !PIdle? && !Owner()
    }
  }

  datatype Capacity = InPlace | Bounded(bytes: nat)

  /** A consumer inside octf_trace_pop (capacity Bounded) or between octf_trace_get_rd_buffer
      and octf_trace_release_rd_buffer (InPlace), which may stay in CCopy as long as it likes. */
  datatype Consumer =
    | CIdle
    | CLock(cap: Capacity)
    | CReadRd(cap: Capacity)
    | CReadWr(cap: Capacity, rdp: nat)
    | CReadReady(cap: Capacity, rdp: nat)
    | CReadSize(cap: Capacity, rdp: nat)
    | CReadPtr(rdp: nat, size: nat)
    | CCopy(size: nat, ptr: nat, buf: seq<byte>)
    | CMove(size: nat, ptr: nat, buf: seq<byte>)
    | CUnlock
  {
    predicate InCs() {
      !CIdle? && !CLock?
    }
  }

  /** One entry of the log of all events ever published. */
  datatype Event = Event(slot: Slot, bytes: seq<byte>, owner: nat, committed: bool)

  /** The shared ring, the threads, and bookkeeping: the log of published events, how many
      of them have been consumed, the number of pushes and reservations begun, the producers
      whose current call is a reservation, the virtual pointers, and the byte strings handed
      out. */
  datatype State = State(
    ringSize: nat, mem: seq<byte>, wr: nat, rd: nat, wrLock: bool, rdLock: bool, lost: nat, bug: bool, begun: nat, writers: set<nat>,
    producers: seq<Producer>, consumers: seq<Consumer>,
    log: seq<Event>, head: nat, vr: int, vw: int, delivered: seq<seq<byte>>)

  datatype Action =
    | BeginPush(t: nat, event: seq<byte>)
    | BeginReserve(t: nat, size: nat)
    | Fill(t: nat, k: nat, b: byte)
    | ProducerStep(t: nat)
    | BeginPop(c: nat, cap: Capacity)
    | ConsumerStep(c: nat)

  function Init(ringSize: nat, mem: seq<byte>, producers: nat, consumers: nat): State {
    State(ringSize, mem, 0, 0, false, false, 0, false, 0, {},
          seq(producers, _ => PIdle), seq(consumers, _ => CIdle), [], 0, 0, 0, [])
  }

  function Set(s: State, t: nat, pc: Producer): State
    requires t < |s.producers|
  {
    s.(producers := s.producers[t := pc])
  }

  function SetC(s: State, c: nat, pc: Consumer): State
    requires c < |s.consumers|
  {
    s.(consumers := s.consumers[c := pc])
  }

  function Bug(s: State): State { s.(bug := true) }

  predicate Shape(s: State) {
    RingSize(s.ringSize) && |s.mem| == s.ringSize
  }

  const RETRIES: nat := 128

  /** One step of producer t. */
  function StepProducer(s: State, t: nat): (s': State)
    requires t < |s.producers| && Shape(s)
    ensures s'.ringSize == s.ringSize && |s'.mem| == |s.mem|
    ensures s'.consumers == s.consumers && s'.head == s.head
  {
    var pc := s.producers[t];
    if pc.Pending() then StepHeader(s, t, pc)
    else if Stores(s, t, pc) then StepCopy(s, t, pc)
    else
      match MoveOf(s, pc)
      case Stop => Bug(s)
      case Move(next, wrLock, lost) => Set(s, t, next).(wrLock := wrLock, lost := lost)
  }

  /** A step that leaves the ring as it is: the next place in the code, and what becomes of
      wr_lock and lost. Stop stands for ENV_BUG. */
  datatype Move = Move(pc: Producer, wrLock: bool, lost: nat) | Stop

  /** The steps of an owner that store into its regions, or hand them out. */
  predicate Stores(s: State, t: nat, pc: Producer) {
    (pc.PCopy? && pc.k < |pc.event|) || pc.PCommit? || (pc.PCheckSize? && t in s.writers)
  }

  function MoveOf(s: State, pc: Producer): Move
    requires Shape(s) && !pc.Pending() && !pc.PCommit?
  {
    if pc.Owner() && !pc.PUnlock? then OwnerMove(s, pc) else LockMove(s, pc)
  }

  function To(s: State, pc: Producer): Move { Move(pc, s.wrLock, s.lost) }

  /** Taking and dropping wr_lock, and the decision made under it. */
  function LockMove(s: State, pc: Producer): Move
    requires RingSize(s.ringSize) && !pc.Pending() && (pc.PUnlock? || !pc.Owner())
  {
    match pc
    case PIdle => To(s, PIdle)
    case PLock(event, tries) =>
      if tries > RETRIES then To(s, PLost)
      else if s.wrLock then To(s, PLock(event, tries + 1))
      else Move(PReadWr(event), true, s.lost)
    case PReadWr(event) => To(s, PReadRd(event, s.wr))
    case PReadRd(event, wrp) => Decide(s, event, wrp)
    case PUnlock(event, n, hdr) => Move(PCheckPtr(event, n, hdr), false, s.lost)
    case PUnlockFull => Move(PLost, false, s.lost)
    case PLost => Move(PIdle, s.wrLock, s.lost + 1)
  }

  /** Reading rd_ptr and deciding; nothing is stored yet, and rd_ptr may move on before it is. */
  function Decide(s: State, event: seq<byte>, wrp: nat): Move
    requires RingSize(s.ringSize)
  {
    match Reserve(s.ringSize, s.rd, wrp, Align(|event|))
    case Bug => Stop
    case Refused => To(s, PUnlockFull)
    case Reserved(dataPtr, next) =>
      To(s, PClear(event, NewSlot(s.ringSize, s.vw, wrp, Reserved(dataPtr, next), |event|), next))
  }

  /** Reading the published header and checking it, before the copy and again before the commit
      of a reserved buffer. */
  function OwnerMove(s: State, pc: Producer): Move
    requires Shape(s) && pc.Owner() && !pc.PUnlock? && !pc.PCommit?
  {
    var event, n, hdr := pc.event, pc.n, pc.hdr;
    if hdr + HEADER_SIZE > s.ringSize then Stop
    else
      match pc
      case PCheckPtr(_, _, _) => To(s, PCheckSize(event, n, hdr, HdrPtr(s.mem, hdr)))
      case PCheckSize(_, _, _, ptr) =>
        if IntegrityCheck(s.ringSize, ptr, HdrSize(s.mem, hdr)) then To(s, PCopy(event, n, hdr, ptr, 0)) else Stop
      case PCopy(_, _, _, _, _) => To(s, PCommit(event, n, hdr))
      case PFill(_, _, _, _) => To(s, PRecheckPtr(event, n, hdr))
      case PRecheckPtr(_, _, _) => To(s, PRecheckSize(event, n, hdr, HdrPtr(s.mem, hdr)))
      case PRecheckSize(_, _, _, ptr) =>
        if IntegrityCheck(s.ringSize, ptr, HdrSize(s.mem, hdr)) then To(s, PCommit(event, n, hdr)) else Stop
  }

  /** Storing the three header fields, then the new write pointer. */
  function StepHeader(s: State, t: nat, pc: Producer): (s': State)
    requires t < |s.producers| && Shape(s) && pc.Pending()
    ensures s'.ringSize == s.ringSize && |s'.mem| == |s.mem|
    ensures s'.consumers == s.consumers && s'.head == s.head
  {
    var slot, next := pc.slot, pc.next;
    if slot.hdr + HEADER_SIZE > s.ringSize then Bug(s)
    else
      match pc
      case PClear(event, _, _) =>
        Set(s, t, PSetPtr(event, slot, next)).(mem := WithReady(s.mem, slot.hdr, false))
      case PSetPtr(event, _, _) =>
        Set(s, t, PSetSize(event, slot, next)).(mem := WithPtr(s.mem, slot.hdr, slot.dptr))
      case PSetSize(event, _, _) =>
        Set(s, t, PPublish(event, slot, next)).(mem := WithSize(s.mem, slot.hdr, |event|))
      case PPublish(event, _, _) =>
        Set(s, t, PUnlock(event, |s.log|, slot.hdr)).(
          wr := next, vw := slot.End(), log := s.log + [Event(slot, event, t, false)])
  }

  /** Copying the event byte by byte, committing it, and handing out a reserved buffer. */
  function StepCopy(s: State, t: nat, pc: Producer): (s': State)
    requires t < |s.producers| && Shape(s) && Stores(s, t, pc)
    ensures s'.ringSize == s.ringSize && |s'.mem| == |s.mem|
    ensures s'.consumers == s.consumers && s'.head == s.head
  {
    match pc
    case PCheckSize(event, n, hdr, ptr) => HandOut(s, t, n, hdr, ptr, |event|)
    case PCopy(event, n, hdr, ptr, k) =>
      if ptr + k >= s.ringSize then Bug(s)
      else Set(s, t, PCopy(event, n, hdr, ptr, k + 1)).(mem := Patch(s.mem, ptr + k, [event[k]]))
    case PCommit(event, n, hdr) =>
      if hdr + HEADER_SIZE > s.ringSize || n >= |s.log| then Bug(s)
      else Set(s, t, PIdle).(mem := WithReady(s.mem, hdr, true), log := s.log[n := s.log[n].(committed := true)])
  }

  /** octf_trace_get_wr_buffer returns the buffer, which holds whatever was in the ring. */
  function HandOut(s: State, t: nat, n: nat, hdr: nat, ptr: nat, size: nat): (s': State)
    requires t < |s.producers| && Shape(s)
    ensures s'.ringSize == s.ringSize && s'.mem == s.mem
    ensures s'.consumers == s.consumers && s'.head == s.head
  {
    if hdr + HEADER_SIZE > s.ringSize || !IntegrityCheck(s.ringSize, ptr, HdrSize(s.mem, hdr)) then Bug(s)
    else if ptr + size > s.ringSize || n >= |s.log| then Bug(s)
    else
      var found := s.mem[ptr..ptr + size];
      Set(s, t, PFill(found, n, hdr, ptr)).(log := s.log[n := s.log[n].(bytes := found)])
  }

  /** The writer stores byte k of its buffer, in any order and as often as it likes. */
  function StepFill(s: State, t: nat, k: nat, b: byte): (s': State)
    requires t < |s.producers| && Shape(s)
    ensures s'.ringSize == s.ringSize && |s'.mem| == |s.mem|
    ensures s'.consumers == s.consumers && s'.head == s.head
  {
    match s.producers[t]
    case PFill(event, n, hdr, ptr) =>
      if k >= |event| then s
      else if ptr + k >= s.ringSize || n >= |s.log| then Bug(s)
      else
        Set(s, t, PFill(event[k := b], n, hdr, ptr)).(
          mem := Patch(s.mem, ptr + k, [b]), log := s.log[n := s.log[n].(bytes := event[k := b])])
    case _ => s
  }

  /** One step of consumer c. */
  function StepConsumer(s: State, c: nat): (s': State)
    requires c < |s.consumers| && Shape(s)
    ensures s'.ringSize == s.ringSize && |s'.mem| == |s.mem|
    ensures s'.log == s.log && s'.producers == s.producers && s'.lost == s.lost && s'.begun == s.begun
  {
    var pc := s.consumers[c];
    if pc.CMove? then Release(s, c, pc.size, pc.ptr, pc.buf)
    else
      match LookOf(s, pc)
      case Broken => Bug(s)
      case Look(next, rdLock) => SetC(s, c, next).(rdLock := rdLock)
  }

  /** _move_rd_ptr: the oldest event leaves the ring. */
  function Release(s: State, c: nat, size: nat, ptr: nat, buf: seq<byte>): (s': State)
    requires c < |s.consumers| && Shape(s)
    ensures s'.ringSize == s.ringSize && s'.mem == s.mem
    ensures s'.log == s.log && s'.producers == s.producers && s'.lost == s.lost && s'.begun == s.begun
  {
    if s.head >= |s.log| then Bug(s)
    else
      SetC(s, c, CUnlock).(
        rd := MovePtr(s.ringSize, ptr, Align(size)), head := s.head + 1,
        vr := s.log[s.head].slot.End(), delivered := s.delivered + [buf])
  }

  /** A step of a consumer that only looks at the ring. Broken stands for ENV_BUG. */
  datatype Look = Look(pc: Consumer, rdLock: bool) | Broken

  function LookOf(s: State, pc: Consumer): Look
    requires Shape(s) && !pc.CMove?
  {
    match pc
    case CIdle => Look(CIdle, s.rdLock)
    case CLock(cap) => Look(if s.rdLock then CIdle else CReadRd(cap), true)
    case CReadRd(cap) => Look(CReadWr(cap, s.rd), s.rdLock)
    case CReadWr(cap, rdp) =>
      if rdp == s.wr then Look(CUnlock, s.rdLock)
      else if !IntegrityCheck(s.ringSize, rdp, HEADER_SIZE) then Broken
      else Look(CReadReady(cap, rdp), s.rdLock)
    case CReadReady(cap, rdp) =>
      if rdp + HEADER_SIZE > s.ringSize then Broken
      else Look(if HdrReady(s.mem, rdp) then CReadSize(cap, rdp) else CUnlock, s.rdLock)
    case CReadSize(cap, rdp) =>
      if rdp + HEADER_SIZE > s.ringSize then Broken
      else if cap.Bounded? && cap.bytes < HdrSize(s.mem, rdp) then Look(CUnlock, s.rdLock)
      else Look(CReadPtr(rdp, HdrSize(s.mem, rdp)), s.rdLock)
    case CReadPtr(rdp, size) =>
      if rdp + HEADER_SIZE > s.ringSize || !IntegrityCheck(s.ringSize, HdrPtr(s.mem, rdp), size) then Broken
      else Look(CCopy(size, HdrPtr(s.mem, rdp), []), s.rdLock)
    case CCopy(size, ptr, buf) =>
      if |buf| >= size then Look(CMove(size, ptr, buf), s.rdLock)
      else if ptr + |buf| >= s.ringSize then Broken
      else Look(CCopy(size, ptr, buf + [s.mem[ptr + |buf|]]), s.rdLock)
    case CUnlock => Look(CIdle, false)
  }

  function Unwritten(size: nat): seq<byte> { seq(size, _ => 0) }

  /** Any action in any state; an action of a thread that does not exist or is busy, and
      an event whose aligned size does not fit 32 bits, does nothing. */
  function Apply(s: State, a: Action): (s': State)
    requires Shape(s)
    ensures Shape(s') && s'.ringSize == s.ringSize
  {
    match a
    case BeginPush(t, event) =>
      if t < |s.producers| && s.producers[t].PIdle? && |event| <= 0xFFFF_FFF0
      then Set(s, t, PLock(event, 0)).(begun := s.begun + 1, writers := s.writers - {t}) else s
    case BeginReserve(t, size) =>
      if t < |s.producers| && s.producers[t].PIdle? && size <= 0xFFFF_FFF0
      then Set(s, t, PLock(Unwritten(size), 0)).(begun := s.begun + 1, writers := s.writers + {t}) else s
    case Fill(t, k, b) => if t < |s.producers| then StepFill(s, t, k, b) else s
    case ProducerStep(t) => if t < |s.producers| then StepProducer(s, t) else s
    case BeginPop(c, cap) =>
      if c < |s.consumers| && s.consumers[c].CIdle? then SetC(s, c, CLock(cap)) else s
    case ConsumerStep(c) => if c < |s.consumers| then StepConsumer(s, c) else s
  }

  function Run(s: State, actions: seq<Action>): (s': State)
    requires Shape(s)
    ensures Shape(s') && s'.ringSize == s.ringSize
    decreases |actions|
  {
    if actions == [] then s else Run(Apply(s, actions[0]), actions[1..])
  }

  // ---------------------------------------------------------------- invariant

  /** The live events' slots, oldest first. */
  function Live(log: seq<Event>, head: nat): (r: seq<Slot>)
    requires head <= |log|
    ensures |r| == |log| - head
    ensures forall i :: 0 <= i < |r| ==> r[i] == log[head + i].slot
  {
    seq(|log| - head, i requires 0 <= i < |log| - head => log[head + i].slot)
  }

  ghost predicate Geometry(s: State) {
    s.head <= |s.log| && Layout(s.ringSize, s.vr, s.vw, s.rd, s.wr, Live(s.log, s.head))
  }

  /** A live event's header is in place; it is ready exactly if committed, and then its
      data is in place too. */
  predicate EventStored(mem: seq<byte>, e: Event) {
    && |e.bytes| == e.slot.size && Describes(mem, e.slot)
    && (e.committed <==> HdrReady(mem, e.slot.hdr))
    && (e.committed ==> Data(mem, e.slot) == e.bytes)
  }

  ghost predicate Memory(s: State) {
    s.head <= |s.log| && forall i :: s.head <= i < |s.log| ==> EventStored(s.mem, s.log[i])
  }

  predicate History(s: State) {
    && |s.delivered| == s.head <= |s.log|
    && (forall i :: 0 <= i < s.head ==> s.delivered[i] == s.log[i].bytes && s.log[i].committed)
  }

  /** The reserved but unpublished slot fits behind the write position. */
  predicate Reservable(s: State, slot: Slot, next: nat) {
    && slot.v == s.vw && s.ringSize < 0x1_0000_0000
    && SlotFits(s.ringSize, s.vr - s.rd, s.vr, s.vr + s.ringSize - 1, slot)
    && next == Phys(s.ringSize, s.vr - s.rd, slot.End()) && next % ALIGNMENT == 0
  }

  predicate Owns(s: State, t: nat, n: nat, hdr: nat, event: seq<byte>) {
    && s.head <= n < |s.log|
    && s.log[n].owner == t && !s.log[n].committed && s.log[n].bytes == event && s.log[n].slot.hdr == hdr
  }

  predicate Copied(s: State, n: nat, event: seq<byte>, k: nat) {
    n < |s.log| &&
    var p := s.log[n].slot.dptr;
    k <= |event| && p + k <= |s.mem| && forall j :: 0 <= j < k ==> s.mem[p + j] == event[j]
  }

  predicate ProducerOk(s: State, t: nat, pc: Producer) {
    && (!pc.PIdle? && !pc.PUnlockFull? && !pc.PLost? ==> |pc.event| <= 0xFFFF_FFF0)
    && (pc.PReadRd? ==> pc.wrp == s.wr)
    && (pc.Pending() ==>
          && pc.slot.size == |pc.event| && Reservable(s, pc.slot, pc.next)
          && pc.slot.hdr + HEADER_SIZE <= |s.mem|
          && (!pc.PClear? ==> !HdrReady(s.mem, pc.slot.hdr))
          && (pc.PSetSize? || pc.PPublish? ==> HdrPtr(s.mem, pc.slot.hdr) == pc.slot.dptr)
          && (pc.PPublish? ==> HdrSize(s.mem, pc.slot.hdr) == pc.slot.size))
    && (pc.Owner() ==> Owns(s, t, pc.n, pc.hdr, pc.event))
    && (pc.PCheckSize? || pc.PCopy? || pc.PFill? || pc.PRecheckSize? ==> pc.ptr == s.log[pc.n].slot.dptr)
    && (pc.PCopy? ==> Copied(s, pc.n, pc.event, pc.k))
    && (pc.Filled() ==> Copied(s, pc.n, pc.event, |pc.event|))
  }

  predicate ConsumerOk(s: State, pc: Consumer) {
    && (pc.CReadWr? || pc.CReadReady? || pc.CReadSize? || pc.CReadPtr? ==> pc.rdp == s.rd)
    && (pc.CReadReady? || pc.CReadSize? || pc.CReadPtr? || pc.CCopy? || pc.CMove? ==> s.head < |s.log|)
    && (pc.CReadSize? || pc.CReadPtr? || pc.CCopy? || pc.CMove? ==> s.log[s.head].committed)
    && (pc.CReadPtr? || pc.CCopy? || pc.CMove? ==> pc.size == s.log[s.head].slot.size)
    && (pc.CCopy? || pc.CMove? ==>
          && pc.ptr == s.log[s.head].slot.dptr
          && |pc.buf| <= |s.log[s.head].bytes| && pc.buf == s.log[s.head].bytes[..|pc.buf|])
    && (pc.CMove? ==> pc.buf == s.log[s.head].bytes)
  }

  ghost predicate Threads(s: State) {
    && (forall t :: 0 <= t < |s.producers| ==> ProducerOk(s, t, s.producers[t]))
    && (forall c :: 0 <= c < |s.consumers| ==> ConsumerOk(s, s.consumers[c]))
  }

  /** At most one thread holds each lock. */
  ghost predicate Locks(s: State) {
    && (forall t :: 0 <= t < |s.producers| && s.producers[t].InCs() ==> s.wrLock)
    && (forall t, u :: 0 <= t < u < |s.producers| ==> !(s.producers[t].InCs() && s.producers[u].InCs()))
    && (forall c :: 0 <= c < |s.consumers| && s.consumers[c].InCs() ==> s.rdLock)
    && (forall c, d :: 0 <= c < d < |s.consumers| ==> !(s.consumers[c].InCs() && s.consumers[d].InCs()))
  }

  ghost predicate Inv(s: State) {
    Shape(s) && Geometry(s) && Memory(s) && History(s) && Threads(s) && Locks(s) && !s.bug
  }

  // ---------------------------------------------------------------- steps that store nothing in the ring

  /** s' differs from s in program counters, locks and counters only. */
  predicate SameRing(s: State, s': State) {
    s' == s.(producers := s'.producers, consumers := s'.consumers, wrLock := s'.wrLock, rdLock := s'.rdLock,
             lost := s'.lost, begun := s'.begun, writers := s'.writers)
  }

  lemma RingUnaffected(s: State, s': State)
    requires SameRing(s, s') && Shape(s) && Geometry(s) && Memory(s) && History(s) && !s.bug
    ensures Shape(s') && Geometry(s') && Memory(s') && History(s') && !s'.bug
  {
    hide Layout, Live, EventStored;
  }

  lemma ThreadUnaffected(s: State, s': State)
    requires SameRing(s, s')
    ensures forall t: nat, pc :: ProducerOk(s, t, pc) ==> ProducerOk(s', t, pc)
    ensures forall pc :: ConsumerOk(s, pc) ==> ConsumerOk(s', pc)
  {
    hide SlotFits, Phys, HdrReady, HdrPtr, HdrSize;
  }

  /** A step of producer t that moves its program counter and possibly takes or drops wr_lock. */
  lemma LocalProducerStep(s: State, t: nat, pc: Producer, wrLock: bool, lost: nat)
    requires Inv(s) && t < |s.producers| && ProducerOk(s, t, pc)
    requires pc.InCs() ==> wrLock && (s.producers[t].InCs() || !s.wrLock)
    requires !wrLock && s.wrLock ==> s.producers[t].InCs()
    ensures Inv(Set(s, t, pc).(wrLock := wrLock, lost := lost))
  {
    hide Shape, Geometry, Memory, History, ProducerOk, ConsumerOk;
    var s' := Set(s, t, pc).(wrLock := wrLock, lost := lost);
    RingUnaffected(s, s');
    ThreadUnaffected(s, s');
  }

  lemma LocalConsumerStep(s: State, c: nat, pc: Consumer, rdLock: bool)
    requires Inv(s) && c < |s.consumers| && ConsumerOk(s, pc)
    requires pc.InCs() ==> rdLock && (s.consumers[c].InCs() || !s.rdLock)
    requires !rdLock && s.rdLock ==> s.consumers[c].InCs()
    ensures Inv(SetC(s, c, pc).(rdLock := rdLock))
  {
    hide Shape, Geometry, Memory, History, ProducerOk, ConsumerOk;
    var s' := SetC(s, c, pc).(rdLock := rdLock);
    RingUnaffected(s, s');
    ThreadUnaffected(s, s');
  }

  /** The decision of _allocate_event is sound against the read pointer it has read. */
  lemma DecisionIsSound(s: State, t: nat)
    requires Inv(s) && t < |s.producers| && s.producers[t].PReadRd?
    ensures var m := Decide(s, s.producers[t].event, s.producers[t].wrp);
            m.Move? && ProducerOk(s, t, m.pc) && (m.pc.PUnlockFull? || m.pc.PClear?)
  {
    hide Live, EventStored, Reserve;
    var pc := s.producers[t];
    assert ProducerOk(s, t, pc);
    ReserveFits(s.ringSize, s.vr, s.vw, s.rd, s.wr, |pc.event|);
  }

  lemma LocksHeld(s: State)
    requires Inv(s)
    ensures forall t :: 0 <= t < |s.producers| && s.producers[t].InCs() ==> s.wrLock
    ensures forall c :: 0 <= c < |s.consumers| && s.consumers[c].InCs() ==> s.rdLock
  {}

  /** What the owner of an event reads in its header, and that the integrity check passes. */
  lemma OwnedHeader(s: State, t: nat)
    requires Inv(s) && t < |s.producers| && s.producers[t].Owner()
    ensures var pc := s.producers[t];
            && ProducerOk(s, t, pc) && pc.n < |s.log| && pc.hdr + HEADER_SIZE <= |s.mem| == s.ringSize
            && HdrPtr(s.mem, pc.hdr) == s.log[pc.n].slot.dptr && HdrSize(s.mem, pc.hdr) == s.log[pc.n].slot.size
            && IntegrityCheck(s.ringSize, s.log[pc.n].slot.dptr, s.log[pc.n].slot.size)
            && s.log[pc.n].slot.size == |pc.event|
  {
    hide Layout, Live, SlotFits, Phys, HdrPtr, HdrSize;
    var pc := s.producers[t];
    assert ProducerOk(s, t, pc) && EventStored(s.mem, s.log[pc.n]);
    SlotOfLive(s, pc.n);
  }

  /** _integrity_check on a published header never fails. */
  lemma ChecksPass(s: State, t: nat)
    requires Inv(s) && t < |s.producers| && !Stores(s, t, s.producers[t])
    requires s.producers[t].Owner() && !s.producers[t].PUnlock?
    ensures var m := OwnerMove(s, s.producers[t]);
            m.Move? && ProducerOk(s, t, m.pc) && !m.pc.InCs() && m.wrLock == s.wrLock && m.lost == s.lost
  {
    hide Inv, HdrPtr, HdrSize, Reservable;
    OwnedHeader(s, t);
  }

  lemma LocksAreKept(s: State, t: nat)
    requires Inv(s) && t < |s.producers|
    requires var pc := s.producers[t]; !pc.Pending() && (pc.PUnlock? || !pc.Owner())
    ensures var m := LockMove(s, s.producers[t]);
            && m.Move? && ProducerOk(s, t, m.pc)
            && (m.pc.InCs() ==> m.wrLock && (s.producers[t].InCs() || !s.wrLock))
            && (!m.wrLock && s.wrLock ==> s.producers[t].InCs())
  {
    hide Inv, Decide, Reservable;
    InvShape(s);
    ProducerAt(s, t);
    if s.producers[t].InCs() {
      LocksHeld(s);
    }
    if s.producers[t].PReadRd? {
      DecisionIsSound(s, t);
      DecisionTo(s, s.producers[t].event, s.producers[t].wrp);
    }
  }

  lemma DecisionTo(s: State, event: seq<byte>, wrp: nat)
    requires RingSize(s.ringSize)
    ensures Decide(s, event, wrp).Move? ==> Decide(s, event, wrp).wrLock == s.wrLock
  {
    hide Reserve;
  }

  /** The steps of a producer that store nothing. */
  lemma QuietStep(s: State, t: nat)
    requires Inv(s) && t < |s.producers| && !s.producers[t].Pending() && !Stores(s, t, s.producers[t])
    ensures Inv(StepProducer(s, t))
  {
    hide Inv, OwnerMove, LockMove, ProducerOk;
    InvShape(s);
    var pc := s.producers[t];
    if pc.Owner() && !pc.PUnlock? {
      ChecksPass(s, t);
    } else {
      LocksAreKept(s, t);
    }
    var m := MoveOf(s, pc);
    LocalProducerStep(s, t, m.pc, m.wrLock, m.lost);
  }

  lemma SlotOfLive(s: State, n: nat)
    requires Shape(s) && Geometry(s) && s.head <= n < |s.log|
    ensures InRing(s.ringSize, s.log[n].slot) && s.log[n].slot.dptr < s.ringSize
    ensures SlotFits(s.ringSize, s.vr - s.rd, s.vr, s.vw, s.log[n].slot)
  {
    var live := Live(s.log, s.head);
    assert live[n - s.head] == s.log[n].slot;
    LiveRegionsDisjoint(s.ringSize, s.vr, s.vw, s.rd, s.wr, live);
  }

  // ---------------------------------------------------------------- stores

  /** Regions of different live events do not meet. */
  lemma LiveApart(s: State, i: nat, n: nat)
    requires Shape(s) && Geometry(s) && s.head <= i < |s.log| && s.head <= n < |s.log| && i != n
    ensures SlotsApart(s.log[n].slot, s.log[i].slot) && InRing(s.ringSize, s.log[i].slot) && InRing(s.ringSize, s.log[n].slot)
  {
    var live := Live(s.log, s.head);
    LiveRegionsDisjoint(s.ringSize, s.vr, s.vw, s.rd, s.wr, live);
    assert SlotsApart(live[n - s.head], live[i - s.head]);
    assert InRing(s.ringSize, live[n - s.head]) && InRing(s.ringSize, live[i - s.head]);
  }

  /** A reserved slot meets no live event. */
  lemma PendingApart(s: State, slot: Slot, next: nat, i: nat)
    requires Shape(s) && Geometry(s) && Reservable(s, slot, next) && s.head <= i < |s.log|
    ensures SlotsApart(slot, s.log[i].slot) && SlotsApart(s.log[i].slot, slot)
    ensures InRing(s.ringSize, slot) && InRing(s.ringSize, s.log[i].slot)
  {
    hide Phys, InRing, SlotsApart, Live;
    SlotOfLive(s, i);
    OrderedSlotsApart(s.ringSize, s.vr - s.rd, s.vr, s.vr + s.ringSize - 1, s.log[i].slot, slot);
    OwnRegionsApart(s.ringSize, s.vr - s.rd, s.vr, s.vr + s.ringSize - 1, slot);
  }

  lemma ReservableInRing(s: State, slot: Slot, next: nat)
    requires Shape(s) && Geometry(s) && Reservable(s, slot, next)
    ensures InRing(s.ringSize, slot)
  {}

  lemma StoreApart(mem: seq<byte>, mine: Slot, other: Slot, off: nat, bytes: seq<byte>)
    requires InRing(|mem|, mine) && InRing(|mem|, other) && SlotsApart(mine, other)
    requires Inside(mine, off, |bytes|)
    ensures off + |bytes| <= |mem| && Untouched(mem, Patch(mem, off, bytes), other)
  {}

  lemma UntouchedEvent(mem: seq<byte>, mem': seq<byte>, e: Event)
    requires Untouched(mem, mem', e.slot) && EventStored(mem, e)
    ensures EventStored(mem', e)
  {
    UntouchedReads(mem, mem', e.slot);
  }

  /** What a producer relies on survives a store that leaves its own slot alone. */
  lemma ProducerFramed(s: State, s': State, t: nat, pc: Producer)
    requires ProducerOk(s, t, pc) && |s'.mem| == |s.mem|
    requires s' == s.(mem := s'.mem, log := s'.log, producers := s'.producers) && |s'.log| == |s.log|
    requires pc.Pending() ==> Untouched(s.mem, s'.mem, pc.slot)
    requires pc.Owner() && s.head <= pc.n < |s.log| ==> s'.log[pc.n] == s.log[pc.n] && Untouched(s.mem, s'.mem, s.log[pc.n].slot) && |s.log[pc.n].bytes| == s.log[pc.n].slot.size
    ensures ProducerOk(s', t, pc)
  {
    hide SlotFits, Phys, HdrReady, HdrPtr, HdrSize;
    if pc.Pending() {
      UntouchedReads(s.mem, s'.mem, pc.slot);
    }
  }

  /** A store into the header of the reserved slot hits only that. */
  lemma HeaderStored(s: State, t: nat, pc': Producer, off: nat, bytes: seq<byte>)
    requires Inv(s) && t < |s.producers| && s.producers[t].Pending() && pc'.InCs()
    requires s.producers[t].slot.hdr <= off && off + |bytes| <= s.producers[t].slot.hdr + HEADER_SIZE <= |s.mem|
    requires ProducerOk(Set(s, t, pc').(mem := Patch(s.mem, off, bytes)), t, pc')
    ensures Inv(Set(s, t, pc').(mem := Patch(s.mem, off, bytes)))
  {
    hide Layout, Live, EventStored, SlotFits, Phys, StepProducer;
    var pc, s' := s.producers[t], Set(s, t, pc').(mem := Patch(s.mem, off, bytes));
    assert ProducerOk(s, t, pc);
    forall i | s.head <= i < |s.log|
      ensures Untouched(s.mem, s'.mem, s.log[i].slot) && EventStored(s'.mem, s.log[i])
    {
      PendingApart(s, pc.slot, pc.next, i);
      assert EventStored(s.mem, s.log[i]);
      UntouchedEvent(s.mem, s'.mem, s.log[i]);
    }
    OthersFramed(s, s', t);
  }

  lemma ProducerAt(s: State, t: nat)
    requires Inv(s) && t < |s.producers|
    ensures ProducerOk(s, t, s.producers[t])
  {
  }

  /** The stores of the header fields. */
  lemma ClearStep(s: State, t: nat)
    requires Inv(s) && t < |s.producers| && s.producers[t].PClear?
    ensures Inv(StepProducer(s, t))
  {
    hide Geometry, Memory, History, Threads, Locks, SlotFits, Phys, FromLE, ToLE;
    var pc := s.producers[t];
    ProducerAt(s, t);
    var h := pc.slot.hdr;
    ReadyStored(s.mem, h, false);
    HeaderStored(s, t, PSetPtr(pc.event, pc.slot, pc.next), h, [s.mem[h] - s.mem[h] % 2]);
  }

  lemma SetPtrStep(s: State, t: nat)
    requires Inv(s) && t < |s.producers| && s.producers[t].PSetPtr?
    ensures Inv(StepProducer(s, t))
  {
    hide Geometry, Memory, History, Threads, Locks, SlotFits, Phys, FromLE, ToLE;
    var pc := s.producers[t];
    ProducerAt(s, t);
    ReservableInRing(s, pc.slot, pc.next);
    PtrStored(s.mem, pc.slot.hdr, pc.slot.dptr);
    HeaderStored(s, t, PSetSize(pc.event, pc.slot, pc.next), pc.slot.hdr + 8, ToLE(pc.slot.dptr, 8));
  }

  lemma SetSizeStep(s: State, t: nat)
    requires Inv(s) && t < |s.producers| && s.producers[t].PSetSize?
    ensures Inv(StepProducer(s, t))
  {
    hide Geometry, Memory, History, Threads, Locks, SlotFits, Phys, FromLE, ToLE;
    var pc := s.producers[t];
    ProducerAt(s, t);
    SizeStored(s.mem, pc.slot.hdr, |pc.event|);
    HeaderStored(s, t, PPublish(pc.event, pc.slot, pc.next), pc.slot.hdr + 4, ToLE(|pc.event|, 4));
  }

  /** After a header store by t the other threads are where they were. */
  lemma OthersFramed(s: State, s': State, t: nat)
    requires Inv(s) && t < |s.producers| && s.producers[t].Pending()
    requires |s'.producers| == |s.producers| && |s'.mem| == |s.mem|
    requires s' == Set(s, t, s'.producers[t]).(mem := s'.mem)
    requires s'.producers[t].InCs() && ProducerOk(s', t, s'.producers[t])
    requires forall i :: s.head <= i < |s.log| ==> Untouched(s.mem, s'.mem, s.log[i].slot) && EventStored(s'.mem, s.log[i])
    ensures Inv(s')
  {
    hide Layout, Live, SlotFits, Phys;
    forall u | 0 <= u < |s'.producers|
      ensures ProducerOk(s', u, s'.producers[u])
    {
      if u != t {
        var other := s.producers[u];
        assert ProducerOk(s, u, other) && !other.InCs();
        assert other.Owner() ==> EventStored(s.mem, s.log[other.n]);
        ProducerFramed(s, s', u, other);
      }
    }
    forall c | 0 <= c < |s'.consumers|
      ensures ConsumerOk(s', s'.consumers[c])
    {
      assert ConsumerOk(s, s.consumers[c]);
    }
    assert Geometry(s') && History(s') && Memory(s');
  }

  /** What the store by the owner of event n leaves alone: every other live event, and
      every reserved slot. */
  lemma OwnerStoreFrame(s: State, t: nat, off: nat, bytes: seq<byte>)
    requires Inv(s) && t < |s.producers| && s.producers[t].Owner()
    requires s.head <= s.producers[t].n < |s.log| && Inside(s.log[s.producers[t].n].slot, off, |bytes|)
    ensures off + |bytes| <= |s.mem|
    ensures forall i :: s.head <= i < |s.log| && i != s.producers[t].n ==>
              Untouched(s.mem, Patch(s.mem, off, bytes), s.log[i].slot) && EventStored(Patch(s.mem, off, bytes), s.log[i])
    ensures forall u :: 0 <= u < |s.producers| && s.producers[u].Pending() ==>
              Untouched(s.mem, Patch(s.mem, off, bytes), s.producers[u].slot)
  {
    hide Layout, Live, EventStored, SlotFits, Phys;
    var n := s.producers[t].n;
    SlotOfLive(s, n);
    var mem' := Patch(s.mem, off, bytes);
    forall i | s.head <= i < |s.log| && i != n
      ensures Untouched(s.mem, mem', s.log[i].slot) && EventStored(mem', s.log[i])
    {
      LiveApart(s, i, n);
      StoreApart(s.mem, s.log[n].slot, s.log[i].slot, off, bytes);
      assert EventStored(s.mem, s.log[i]);
      UntouchedEvent(s.mem, mem', s.log[i]);
    }
    forall u | 0 <= u < |s.producers| && s.producers[u].Pending()
      ensures Untouched(s.mem, mem', s.producers[u].slot)
    {
      var pc := s.producers[u];
      assert ProducerOk(s, u, pc);
      PendingApart(s, pc.slot, pc.next, n);
      StoreApart(s.mem, s.log[n].slot, pc.slot, off, bytes);
    }
  }

  /** After a store by the owner of event n, which may also set its bytes or commit it. */
  lemma OwnerStored(s: State, s': State, t: nat, off: nat, bytes: seq<byte>)
    requires Inv(s) && t < |s.producers| && s.producers[t].Owner() && !s.producers[t].PUnlock?
    requires s.head <= s.producers[t].n < |s.log| && Inside(s.log[s.producers[t].n].slot, off, |bytes|)
    requires off + |bytes| <= |s.mem| && |s'.producers| == |s.producers| && |s'.log| == |s.log|
    requires s' == Set(s, t, s'.producers[t]).(mem := Patch(s.mem, off, bytes), log := s'.log)
    requires var e' := s'.log[s.producers[t].n];
             s'.log == s.log[s.producers[t].n := s.log[s.producers[t].n].(bytes := e'.bytes, committed := e'.committed)]
    requires !s'.producers[t].InCs() && ProducerOk(s', t, s'.producers[t])
    requires EventStored(s'.mem, s'.log[s.producers[t].n])
    ensures Inv(s')
  {
    hide Layout, Live, EventStored, SlotFits, Phys;
    var n := s.producers[t].n;
    assert ProducerOk(s, t, s.producers[t]);
    OwnerStoreFrame(s, t, off, bytes);
    forall u | 0 <= u < |s'.producers|
      ensures ProducerOk(s', u, s'.producers[u])
    {
      if u != t {
        var other := s.producers[u];
        assert ProducerOk(s, u, other);
        if other.Owner() {
          assert s.log[other.n].owner == u && other.n != n;
          EventSize(s, other.n);
        }
        ProducerFramed(s, s', u, other);
      }
    }
    forall c | 0 <= c < |s'.consumers|
      ensures ConsumerOk(s', s'.consumers[c])
    {
      assert ConsumerOk(s, s.consumers[c]);
    }
    SameSlots(s.log, s'.log, s.head);
    assert Geometry(s') && History(s') && Memory(s');
  }

  lemma EventSize(s: State, n: nat)
    requires Memory(s) && s.head <= n < |s.log|
    ensures |s.log[n].bytes| == s.log[n].slot.size
  {}

  lemma SameSlots(log: seq<Event>, log': seq<Event>, head: nat)
    requires head <= |log| == |log'| && forall i :: head <= i < |log| ==> log[i].slot == log'[i].slot
    ensures Live(log, head) == Live(log', head)
  {
  }

  /** A byte stored into an uncommitted event's data keeps its header. */
  lemma ByteStored(mem: seq<byte>, e: Event, k: nat, b: byte)
    requires InRing(|mem|, e.slot) && EventStored(mem, e) && !e.committed && k < e.slot.size
    ensures EventStored(Patch(mem, e.slot.dptr + k, [b]), e)
  {
    StoreApartHeader(mem, e.slot, e.slot.dptr + k, [b]);
  }

  /** A step of the copy loop: byte k of the event arrives at its place. */
  lemma CopyStep(s: State, t: nat)
    requires Inv(s) && t < |s.producers| && s.producers[t].PCopy? && s.producers[t].k < |s.producers[t].event|
    ensures Inv(StepProducer(s, t))
  {
    hide Layout, Live, SlotFits, Phys, EventStored, History, Locks, StepProducer;
    var pc := s.producers[t];
    assert ProducerOk(s, t, pc);
    EventSize(s, pc.n);
    SlotOfLive(s, pc.n);
    assert EventStored(s.mem, s.log[pc.n]);
    ByteStored(s.mem, s.log[pc.n], pc.k, pc.event[pc.k]);
    CopiedMore(s, t);
    CopyIs(s, t);
    assert s.log == s.log[pc.n := s.log[pc.n]];
    OwnerStored(s, StepProducer(s, t), t, pc.ptr + pc.k, [pc.event[pc.k]]);
  }

  lemma CopyIs(s: State, t: nat)
    requires Shape(s) && t < |s.producers| && s.producers[t].PCopy? && s.producers[t].k < |s.producers[t].event|
    requires s.producers[t].ptr + s.producers[t].k < s.ringSize
    ensures var pc := s.producers[t];
            StepProducer(s, t) ==
            Set(s, t, PCopy(pc.event, pc.n, pc.hdr, pc.ptr, pc.k + 1)).(mem := Patch(s.mem, pc.ptr + pc.k, [pc.event[pc.k]]))
  {
    hide RingSize;
  }

  /** A writer gets its buffer. */
  lemma HandOutStep(s: State, t: nat)
    requires Inv(s) && t < |s.producers| && s.producers[t].PCheckSize? && t in s.writers
    ensures Inv(StepProducer(s, t))
  {
    hide Layout, Live, SlotFits, Phys, History, Locks, EventStored, HdrPtr, HdrSize, StepProducer;
    var pc := s.producers[t];
    OwnedHeader(s, t);
    assert EventStored(s.mem, s.log[pc.n]);
    SlotOfLive(s, pc.n);
    HandOutIs(s, t);
    OtherBytes(s.mem, s.log[pc.n], s.mem[pc.ptr..pc.ptr + |pc.event|]);
    OwnerStored(s, StepProducer(s, t), t, pc.ptr, []);
  }

  lemma HandOutIs(s: State, t: nat)
    requires Shape(s) && t < |s.producers| && s.producers[t].PCheckSize? && t in s.writers
    requires var pc := s.producers[t];
             && pc.n < |s.log| && pc.hdr + HEADER_SIZE <= s.ringSize && HdrSize(s.mem, pc.hdr) == |pc.event|
             && IntegrityCheck(s.ringSize, pc.ptr, |pc.event|)
    ensures var pc := s.producers[t];
            var found := s.mem[pc.ptr..pc.ptr + |pc.event|];
            StepProducer(s, t) ==
            Set(s, t, PFill(found, pc.n, pc.hdr, pc.ptr)).(log := s.log[pc.n := s.log[pc.n].(bytes := found)])
  {
    hide RingSize, HdrSize;
  }

  /** A writer stores a byte of its buffer. */
  lemma FillStep(s: State, t: nat, k: nat, b: byte)
    requires Inv(s) && t < |s.producers|
    ensures Inv(StepFill(s, t, k, b))
  {
    hide Inv, InRing, EventStored, StepFill, ProducerOk, Patch;
    InvShape(s);
    var pc, s' := s.producers[t], StepFill(s, t, k, b);
    if pc.PFill? && k < |pc.event| {
      FillFacts(s, t);
      ByteStored(s.mem, s.log[pc.n], k, b);
      FillIs(s, t, k, b);
      FilledMore(s, t, k, b);
      OtherBytes(s'.mem, s.log[pc.n], pc.event[k := b]);
      OwnerStored(s, s', t, pc.ptr + k, [b]);
    } else {
      FillIs(s, t, k, b);
    }
  }

  lemma FillFacts(s: State, t: nat)
    requires Inv(s) && t < |s.producers| && s.producers[t].PFill?
    ensures var pc := s.producers[t];
            && s.head <= pc.n < |s.log| && !s.log[pc.n].committed && s.log[pc.n].bytes == pc.event
            && pc.ptr == s.log[pc.n].slot.dptr && |pc.event| == s.log[pc.n].slot.size
            && EventStored(s.mem, s.log[pc.n]) && InRing(|s.mem|, s.log[pc.n].slot)
            && pc.ptr + |pc.event| <= |s.mem| == s.ringSize
  {
    hide Layout, Live, SlotFits, Phys, HdrReady, HdrPtr, HdrSize, Reservable;
    var pc := s.producers[t];
    assert ProducerOk(s, t, pc) && EventStored(s.mem, s.log[pc.n]);
    SlotOfLive(s, pc.n);
  }

  lemma FilledMore(s: State, t: nat, k: nat, b: byte)
    requires Inv(s) && t < |s.producers| && s.producers[t].PFill? && k < |s.producers[t].event|
    requires s.producers[t].ptr + k < s.ringSize && s.producers[t].n < |s.log|
    ensures ProducerOk(StepFill(s, t, k, b), t, StepFill(s, t, k, b).producers[t])
  {
    hide Geometry, Memory, History, Locks, RingSize, Reservable, HdrReady, HdrPtr, HdrSize, StepFill;
    assert ProducerOk(s, t, s.producers[t]);
    FillIs(s, t, k, b);
  }

  lemma FillIs(s: State, t: nat, k: nat, b: byte)
    requires Shape(s) && t < |s.producers|
    requires var pc := s.producers[t];
             pc.PFill? && k < |pc.event| ==> pc.ptr + k < s.ringSize && pc.n < |s.log|
    ensures var pc := s.producers[t];
            StepFill(s, t, k, b) ==
            if !pc.PFill? || k >= |pc.event| then s
            else
              var event := pc.event[k := b];
              Set(s, t, PFill(event, pc.n, pc.hdr, pc.ptr)).(
                mem := Patch(s.mem, pc.ptr + k, [b]), log := s.log[pc.n := s.log[pc.n].(bytes := event)])
  {
    hide RingSize;
  }

  /** What an uncommitted event's bytes are does not matter to its header. */
  lemma OtherBytes(mem: seq<byte>, e: Event, bytes: seq<byte>)
    requires EventStored(mem, e) && !e.committed && |bytes| == |e.bytes|
    ensures EventStored(mem, e.(bytes := bytes))
  {}

  lemma CopiedMore(s: State, t: nat)
    requires t < |s.producers| && s.producers[t].PCopy? && ProducerOk(s, t, s.producers[t])
    requires s.producers[t].k < |s.producers[t].event| && s.producers[t].ptr + s.producers[t].k < |s.mem|
    ensures var pc := s.producers[t];
            var next := PCopy(pc.event, pc.n, pc.hdr, pc.ptr, pc.k + 1);
            ProducerOk(Set(s, t, next).(mem := Patch(s.mem, pc.ptr + pc.k, [pc.event[pc.k]])), t, next)
  {
    hide Reservable, HdrReady, HdrPtr, HdrSize;
  }

  lemma StoreApartHeader(mem: seq<byte>, slot: Slot, off: nat, bytes: seq<byte>)
    requires InRing(|mem|, slot) && slot.dptr <= off && off + |bytes| <= slot.dptr + Align(slot.size)
    ensures var m := Patch(mem, off, bytes);
            && HdrReady(m, slot.hdr) == HdrReady(mem, slot.hdr)
            && HdrSize(m, slot.hdr) == HdrSize(mem, slot.hdr) && HdrPtr(m, slot.hdr) == HdrPtr(mem, slot.hdr)
  {
    var m := Patch(mem, off, bytes);
    assert m[slot.hdr + 4..slot.hdr + 8] == mem[slot.hdr + 4..slot.hdr + 8];
    assert m[slot.hdr + 8..slot.hdr + 16] == mem[slot.hdr + 8..slot.hdr + 16];
  }

  lemma CommitIs(s: State, t: nat)
    requires Shape(s) && t < |s.producers| && s.producers[t].PCommit?
    requires s.producers[t].n < |s.log| && s.producers[t].hdr + HEADER_SIZE <= s.ringSize
    ensures var pc := s.producers[t];
            StepProducer(s, t) ==
            Set(s, t, PIdle).(mem := Patch(s.mem, pc.hdr, [s.mem[pc.hdr] - s.mem[pc.hdr] % 2 + 1]),
                              log := s.log[pc.n := s.log[pc.n].(committed := true)])
  {
    hide RingSize, HdrReady, HdrPtr, HdrSize;
  }

  lemma CommittedStored(mem: seq<byte>, e: Event)
    requires InRing(|mem|, e.slot) && EventStored(mem, e) && Data(mem, e.slot) == e.bytes
    ensures EventStored(WithReady(mem, e.slot.hdr, true), e.(committed := true))
  {
    hide HdrReady, HdrPtr, HdrSize;
    var bytes := [mem[e.slot.hdr] - mem[e.slot.hdr] % 2 + 1];
    ReadyStored(mem, e.slot.hdr, true);
    assert Data(Patch(mem, e.slot.hdr, bytes), e.slot) == e.bytes;
  }

  /** The commit makes exactly this event visible, with exactly its bytes. */
  lemma CommitStep(s: State, t: nat)
    requires Inv(s) && t < |s.producers| && s.producers[t].PCommit?
    ensures Inv(StepProducer(s, t))
  {
    hide Layout, Live, SlotFits, Phys, EventStored, History, Locks, StepProducer;
    var pc := s.producers[t];
    assert ProducerOk(s, t, pc);
    SlotOfLive(s, pc.n);
    var e := s.log[pc.n];
    assert EventStored(s.mem, e);
    EventSize(s, pc.n);
    assert Data(s.mem, e.slot) == e.bytes;
    CommittedStored(s.mem, e);
    CommitIs(s, t);
    OwnerStored(s, StepProducer(s, t), t, pc.hdr, [s.mem[pc.hdr] - s.mem[pc.hdr] % 2 + 1]);
  }

  // ---------------------------------------------------------------- publish and release

  /** Publishing appends the event to the log; the write pointer stays off the read pointer. */
  lemma PublishStep(s: State, t: nat)
    requires Inv(s) && t < |s.producers| && s.producers[t].PPublish?
    ensures Inv(StepProducer(s, t)) && StepProducer(s, t).wr != s.rd
  {
    hide Layout, SlotFits, EventStored, Threads, Locks, StepProducer;
    var pc, s' := s.producers[t], StepProducer(s, t);
    ProducerAt(s, t);
    PublishIs(s, t);
    PublishKeepsLayout(s.ringSize, s.vr, s.vw, s.rd, s.wr, Live(s.log, s.head), pc.slot, pc.next);
    assert Live(s'.log, s'.head) == Live(s.log, s.head) + [pc.slot];
    NewEventStored(s, pc);
    PublishThreads(s, t);
    forall i | s'.head <= i < |s'.log|
      ensures EventStored(s'.mem, s'.log[i])
    {
      assert i < |s.log| ==> EventStored(s.mem, s.log[i]);
    }
    WritePointerMoves(s, pc.slot, pc.next);
  }

  /** What other threads rely on survives the publication of an event. */
  lemma ProducerAfterPublish(s: State, s': State, u: nat, pc: Producer, e: Event)
    requires s' == s.(producers := s'.producers, wr := s'.wr, vw := s'.vw, log := s.log + [e])
    requires ProducerOk(s, u, pc) && !pc.InCs()
    ensures ProducerOk(s', u, pc)
  {
    hide Reservable, HdrReady, HdrPtr, HdrSize;
  }

  lemma PublishIs(s: State, t: nat)
    requires Shape(s) && t < |s.producers| && s.producers[t].PPublish? && s.producers[t].slot.hdr + HEADER_SIZE <= s.ringSize
    ensures var pc := s.producers[t];
            StepProducer(s, t) ==
            Set(s, t, PUnlock(pc.event, |s.log|, pc.slot.hdr)).(
              wr := pc.next, vw := pc.slot.End(), log := s.log + [Event(pc.slot, pc.event, t, false)])
  {
    hide RingSize;
  }

  lemma PublishThreads(s: State, t: nat)
    requires Inv(s) && t < |s.producers| && s.producers[t].PPublish?
    ensures Threads(StepProducer(s, t)) && Locks(StepProducer(s, t))
  {
    assert Shape(s) && s.head <= |s.log|;
    var pc := s.producers[t];
    assert ProducerOk(s, t, pc);
    hide RingSize, Geometry, Memory, History, Reservable, HdrReady, HdrPtr, HdrSize, StepProducer, ProducerOk, ConsumerOk;
    PublishIs(s, t);
    var s' := StepProducer(s, t);
    var e := Event(pc.slot, pc.event, t, false);
    forall u | 0 <= u < |s'.producers| && u != t
      ensures ProducerOk(s', u, s'.producers[u])
    {
      ProducerAfterPublish(s, s', u, s.producers[u], e);
    }
    forall c | 0 <= c < |s'.consumers|
      ensures ConsumerOk(s', s'.consumers[c])
    {
    }
  }

  lemma NewEventStored(s: State, pc: Producer)
    requires Shape(s) && Geometry(s) && pc.PPublish? && ProducerOk(s, 0, pc)
    ensures EventStored(s.mem, Event(pc.slot, pc.event, 0, false))
    ensures forall t :: EventStored(s.mem, Event(pc.slot, pc.event, t, false))
  {}

  lemma WritePointerMoves(s: State, slot: Slot, next: nat)
    requires Shape(s) && Geometry(s) && Reservable(s, slot, next)
    ensures next != s.rd
  {
  }

  /** The consumer holding the lock drops the oldest event. */
  lemma MoveStep(s: State, c: nat)
    requires Inv(s) && c < |s.consumers| && s.consumers[c].CMove?
    ensures Inv(StepConsumer(s, c))
  {
    hide Layout, EventStored, SlotFits, MovePtr, Phys, ProducerOk, LookOf;
    var pc, s' := s.consumers[c], StepConsumer(s, c);
    assert ConsumerOk(s, pc);
    ReleaseKeepsLayout(s.ringSize, s.vr, s.vw, s.rd, s.wr, Live(s.log, s.head));
    assert Live(s'.log, s'.head) == Live(s.log, s.head)[1..];
    forall u | 0 <= u < |s'.producers|
      ensures ProducerOk(s', u, s'.producers[u])
    {
      assert ProducerOk(s, u, s.producers[u]);
      ProducerAfterMove(s, s', u, s.producers[u]);
    }
    forall d | 0 <= d < |s'.consumers|
      ensures ConsumerOk(s', s'.consumers[d])
    {
      assert ConsumerOk(s, s.consumers[d]) && (d != c ==> !s.consumers[d].InCs());
    }
    forall i | 0 <= i < s'.head
      ensures s'.delivered[i] == s'.log[i].bytes && s'.log[i].committed
    {
      if i < s.head {
        assert s.delivered[i] == s.log[i].bytes;
      }
    }
  }

  lemma ProducerAfterMove(s: State, s': State, u: nat, pc: Producer)
    requires Shape(s) && Geometry(s) && s.head < |s.log| && s.log[s.head].committed && ProducerOk(s, u, pc)
    requires s' == s.(consumers := s'.consumers, rd := s'.rd, head := s.head + 1, vr := s'.vr, delivered := s'.delivered)
    requires s'.vr == s.log[s.head].slot.End() && s'.rd == Phys(s.ringSize, s.vr - s.rd, s'.vr)
    ensures ProducerOk(s', u, pc)
  {
    hide Reservable, Geometry, HdrReady, HdrPtr, HdrSize, Phys;
    if pc.Pending() {
      ReservableAfterMove(s, s', pc.slot, pc.next);
    }
  }

  /** A reservation decided against an older read pointer stays sound. */
  lemma ReservableAfterMove(s: State, s': State, slot: Slot, next: nat)
    requires Shape(s) && Geometry(s) && Reservable(s, slot, next) && s.head < |s.log|
    requires s'.ringSize == s.ringSize && s'.vw == s.vw
    requires s'.vr == s.log[s.head].slot.End() && s'.rd == Phys(s.ringSize, s.vr - s.rd, s'.vr)
    ensures Reservable(s', slot, next)
  {}

  /** Reading the header of the oldest event: it is there, and it is ready only if committed. */
  lemma LookIsSound(s: State, c: nat)
    requires Inv(s) && c < |s.consumers|
    requires var pc := s.consumers[c]; pc.CReadWr? || pc.CReadReady? || pc.CReadSize? || pc.CReadPtr?
    ensures var l := LookOf(s, s.consumers[c]);
            l.Look? && ConsumerOk(s, l.pc) && l.pc.InCs() && l.rdLock == s.rdLock
  {
    hide Live, Phys, FromLE, History, Layout;
    var pc := s.consumers[c];
    assert ConsumerOk(s, pc);
    if !(pc.CReadWr? && pc.rdp == s.wr) {
      OldestEvent(s);
      assert EventStored(s.mem, s.log[s.head]);
    }
  }

  /** Taking one byte out of the ring. */
  lemma CopyOutIsSound(s: State, c: nat)
    requires Inv(s) && c < |s.consumers| && s.consumers[c].CCopy?
    ensures var l := LookOf(s, s.consumers[c]);
            l.Look? && ConsumerOk(s, l.pc) && l.pc.InCs() && l.rdLock == s.rdLock
  {
    hide Geometry, History, HdrSize, HdrPtr, HdrReady;
    var pc := s.consumers[c];
    assert ConsumerOk(s, pc);
    var e := s.log[s.head];
    assert EventStored(s.mem, e);
    if |pc.buf| < pc.size {
      assert Data(s.mem, e.slot)[|pc.buf|] == s.mem[pc.ptr + |pc.buf|];
    }
  }

  lemma OldestEvent(s: State)
    requires Shape(s) && Geometry(s) && (s.rd != s.wr || s.head < |s.log|)
    ensures s.head < |s.log| && s.log[s.head].slot.hdr == s.rd
    ensures InRing(s.ringSize, s.log[s.head].slot) && s.log[s.head].slot.dptr < s.ringSize
  {}

  // ---------------------------------------------------------------- whole runs

  lemma ProducerKeepsInv(s: State, t: nat)
    requires Inv(s) && t < |s.producers|
    ensures Inv(StepProducer(s, t))
  {
    hide Inv, StepProducer;
    var pc := s.producers[t];
    if !pc.Pending() && !Stores(s, t, pc) {
      QuietStep(s, t);
    } else {
      match pc {
        case PClear(_, _, _) => ClearStep(s, t);
        case PSetPtr(_, _, _) => SetPtrStep(s, t);
        case PSetSize(_, _, _) => SetSizeStep(s, t);
        case PPublish(_, _, _) => PublishStep(s, t);
        case PCheckSize(_, _, _, _) => HandOutStep(s, t);
        case PCopy(_, _, _, _, _) => CopyStep(s, t);
        case PCommit(_, _, _) => CommitStep(s, t);
      }
    }
  }

  lemma ConsumerKeepsInv(s: State, c: nat)
    requires Inv(s) && c < |s.consumers|
    ensures Inv(StepConsumer(s, c))
  {
    hide Inv, IntegrityCheck, HdrReady, HdrSize, HdrPtr;
    InvShape(s);
    var pc := s.consumers[c];
    if pc.CMove? {
      MoveStep(s, c);
    } else {
      if pc.InCs() {
        LocksHeld(s);
      }
      if pc.CReadWr? || pc.CReadReady? || pc.CReadSize? || pc.CReadPtr? {
        LookIsSound(s, c);
      } else if pc.CCopy? {
        CopyOutIsSound(s, c);
      }
      var l := LookOf(s, pc);
      LocalConsumerStep(s, c, l.pc, l.rdLock);
    }
  }

  lemma CountIsIrrelevant(s: State, begun: nat, writers: set<nat>)
    requires Inv(s)
    ensures Inv(s.(begun := begun, writers := writers))
  {
    hide Layout, Live, EventStored, SlotFits, Phys;
    var s' := s.(begun := begun, writers := writers);
    assert forall t :: 0 <= t < |s.producers| ==> ProducerOk(s, t, s.producers[t]);
    assert forall c :: 0 <= c < |s.consumers| ==> ConsumerOk(s, s.consumers[c]);
  }

  lemma BeginKeepsInv(s: State, t: nat, event: seq<byte>, writers: set<nat>)
    requires Inv(s) && t < |s.producers| && s.producers[t].PIdle? && |event| <= 0xFFFF_FFF0
    ensures Inv(Set(s, t, PLock(event, 0)).(begun := s.begun + 1, writers := writers))
  {
    hide Geometry, Memory, History, Threads, Locks;
    LocalProducerStep(s, t, PLock(event, 0), s.wrLock, s.lost);
    CountIsIrrelevant(Set(s, t, PLock(event, 0)), s.begun + 1, writers);
  }

  lemma ApplyKeepsInv(s: State, a: Action)
    requires Inv(s)
    ensures Inv(Apply(s, a))
  {
    hide Inv, StepProducer, StepConsumer, StepFill, Unwritten;
    InvShape(s);
    match a {
      case BeginPush(t, event) =>
        if t < |s.producers| && s.producers[t].PIdle? && |event| <= 0xFFFF_FFF0 {
          BeginKeepsInv(s, t, event, s.writers - {t});
        }
      case BeginReserve(t, size) =>
        if t < |s.producers| && s.producers[t].PIdle? && size <= 0xFFFF_FFF0 {
          UnwrittenSize(size);
          BeginKeepsInv(s, t, Unwritten(size), s.writers + {t});
        }
      case Fill(t, k, b) =>
        if t < |s.producers| {
          FillStep(s, t, k, b);
        }
      case ProducerStep(t) =>
        if t < |s.producers| {
          ProducerKeepsInv(s, t);
        }
      case BeginPop(c, cap) =>
        if c < |s.consumers| && s.consumers[c].CIdle? {
          BeginPopKeepsInv(s, c, cap);
        }
      case ConsumerStep(c) =>
        if c < |s.consumers| {
          ConsumerKeepsInv(s, c);
        }
    }
  }

  lemma UnwrittenSize(size: nat)
    ensures |Unwritten(size)| == size
  {}

  lemma BeginPopKeepsInv(s: State, c: nat, cap: Capacity)
    requires Inv(s) && c < |s.consumers| && s.consumers[c].CIdle?
    ensures Inv(SetC(s, c, CLock(cap)))
  {
    LocalConsumerStep(s, c, CLock(cap), s.rdLock);
  }

  lemma {:induction false} RunKeepsInv(s: State, actions: seq<Action>)
    requires Inv(s)
    ensures Inv(Run(s, actions))
    decreases |actions|
  {
    hide Geometry, Memory, History, Threads, Locks, Apply;
    if actions != [] {
      ApplyKeepsInv(s, actions[0]);
      RunKeepsInv(Apply(s, actions[0]), actions[1..]);
    }
  }

  lemma InitInv(ringSize: nat, mem: seq<byte>, producers: nat, consumers: nat)
    requires RingSize(ringSize) && |mem| == ringSize
    ensures Inv(Init(ringSize, mem, producers, consumers))
  {}

  /** Main theorem.  Whatever the threads do in whatever order, from an empty ring of any
      size with any memory contents: no ENV_BUG and no failed integrity check happens, the
      live events' regions are disjoint and in the ring, and the pointers are aligned. */
  lemma EveryRunIsSafe(ringSize: nat, mem: seq<byte>, producers: nat, consumers: nat, actions: seq<Action>)
    requires RingSize(ringSize) && |mem| == ringSize
    ensures var s := Run(Init(ringSize, mem, producers, consumers), actions);
            && Inv(s) && !s.bug
            && s.head <= |s.log| && Separated(ringSize, Live(s.log, s.head))
            && s.wr < ringSize && s.wr % ALIGNMENT == 0 && s.rd % ALIGNMENT == 0
            && (s.wr == s.rd <==> s.head == |s.log|)
  {
    var s0 := Init(ringSize, mem, producers, consumers);
    var s := Run(s0, actions);
    RunKeepsInv(s0, actions);
    ReachedGeometry(s, ringSize);
  }

  lemma ReachedGeometry(s: State, ringSize: nat)
    requires Shape(s) && Geometry(s)
    ensures Separated(s.ringSize, Live(s.log, s.head)) && s.wr < s.ringSize
    ensures s.wr % ALIGNMENT == 0 && s.rd % ALIGNMENT == 0 && (s.wr == s.rd <==> s.head == |s.log|)
  {
    var live := Live(s.log, s.head);
    LiveRegionsDisjoint(s.ringSize, s.vr, s.vw, s.rd, s.wr, live);
    if live != [] {
      assert SlotFits(s.ringSize, s.vr - s.rd, s.vr, s.vw, live[0]);
    }
  }

  /** The events ever accepted, in the order their regions were allocated. */
  function Accepted(s: State): (r: seq<seq<byte>>)
    ensures |r| == |s.log| && forall i :: 0 <= i < |r| ==> r[i] == s.log[i].bytes
  {
    seq(|s.log|, i requires 0 <= i < |s.log| => s.log[i].bytes)
  }

  /** FIFO: in every run the byte strings handed to consumers are a prefix of the byte
      strings accepted from producers, in allocation order, even though commits and copies
      of different events interleave freely. */
  lemma EveryRunIsFifo(ringSize: nat, mem: seq<byte>, producers: nat, consumers: nat, actions: seq<Action>)
    requires RingSize(ringSize) && |mem| == ringSize
    ensures var s := Run(Init(ringSize, mem, producers, consumers), actions);
            |s.delivered| <= |Accepted(s)| && s.delivered == Accepted(s)[..|s.delivered|]
  {
    var s0 := Init(ringSize, mem, producers, consumers);
    InitInv(ringSize, mem, producers, consumers);
    RunKeepsInv(s0, actions);
  }

  predicate Carries(pc: Producer) { !pc.PIdle? && !pc.PUnlockFull? && !pc.PLost? }

  /** The free space the trace reports and the header walk, in every reachable state. */
  lemma EveryRunAccountsSpace(ringSize: nat, mem: seq<byte>, producers: nat, consumers: nat, actions: seq<Action>)
    requires RingSize(ringSize) && |mem| == ringSize
    ensures var s := Run(Init(ringSize, mem, producers, consumers), actions);
            && s.ringSize == ringSize && s.head <= |s.log| && s.rd < ringSize && s.wr < ringSize
            && FreeSpace(ringSize, s.rd, s.wr) == ringSize - 1 - TotalFootprint(Live(s.log, s.head))
            && WalkReaches(ringSize, s.mem, s.rd, s.wr, |s.log| - s.head)
  {
    hide SlotFits, Phys;
    var s0 := Init(ringSize, mem, producers, consumers);
    EveryRunIsSafe(ringSize, mem, producers, consumers, actions);
    var s := Run(s0, actions);
    var live := Live(s.log, s.head);
    FootprintsFillWindow(ringSize, s.vr, s.vw, s.rd, s.wr, live);
    forall i | 0 <= i < |live|
      ensures Describes(s.mem, live[i])
    {
      assert EventStored(s.mem, s.log[s.head + i]);
    }
    HeadersReachWritePointer(ringSize, s.mem, s.vr, s.vw, s.rd, s.wr, live);
  }

  /** While consumer c holds the oldest event in place, nothing other threads do moves the
      read position, changes that event's header or overwrites any of its bytes. */
  lemma {:induction false} HeldEventIsStable(s: State, c: nat, actions: seq<Action>)
    requires Inv(s) && c < |s.consumers| && s.consumers[c].CCopy?
    requires ConsumerStep(c) !in actions
    ensures var s' := Run(s, actions);
            && c < |s'.consumers| && s'.consumers[c] == s.consumers[c]
            && s'.head == s.head < |s'.log| && s'.log[s.head].bytes == s.log[s.head].bytes
            && s'.log[s.head].slot == s.log[s.head].slot
            && EventStored(s.mem, s.log[s.head]) && EventStored(s'.mem, s'.log[s.head])
            && Data(s'.mem, s.log[s.head].slot) == Data(s.mem, s.log[s.head].slot) == s.log[s.head].bytes
    decreases |actions|
  {
    hide Layout, Live, SlotFits, Phys, StepProducer, StepConsumer;
    assert ConsumerOk(s, s.consumers[c]);
    assert EventStored(s.mem, s.log[s.head]);
    if actions != [] {
      var s1 := Apply(s, actions[0]);
      ApplyKeepsInv(s, actions[0]);
      HeldOneStep(s, c, actions[0]);
      HeldEventIsStable(s1, c, actions[1..]);
    }
  }

  lemma HeldOneStep(s: State, c: nat, a: Action)
    requires Inv(s) && c < |s.consumers| && s.consumers[c].CCopy? && a != ConsumerStep(c)
    ensures var s' := Apply(s, a);
            && |s'.consumers| == |s.consumers| && s'.consumers[c] == s.consumers[c]
            && s'.head == s.head < |s.log| <= |s'.log| && s'.log[s.head].bytes == s.log[s.head].bytes
            && s'.log[s.head].slot == s.log[s.head].slot
  {
    hide Inv, StepProducer, StepConsumer, StepFill, Effect, Reservable;
    InvShape(s);
    HeldIsCommitted(s, c);
    match a {
      case ProducerStep(t) =>
        if t < |s.producers| {
          StepEffect(s, t);
          EffectOnHead(s, StepProducer(s, t), t);
        }
      case Fill(t, k, b) =>
        if t < |s.producers| {
          FillEffect(s, t, k, b);
          EffectOnHead(s, StepFill(s, t, k, b), t);
        }
      case ConsumerStep(d) =>
        if d < |s.consumers| {
          OtherConsumer(s, c, d);
        }
      case _ =>
    }
  }

  lemma HeldIsCommitted(s: State, c: nat)
    requires Inv(s) && c < |s.consumers| && s.consumers[c].CCopy?
    ensures s.head < |s.log| && s.log[s.head].committed
  {
    assert ConsumerOk(s, s.consumers[c]);
  }

  /** A producer changes no committed event. */
  lemma EffectOnHead(s: State, s': State, t: nat)
    requires Inv(s) && t < |s.producers| && Effect(s, s', t) && s.head < |s.log| && s.log[s.head].committed
    ensures |s.log| <= |s'.log| && s'.log[s.head].bytes == s.log[s.head].bytes && s'.log[s.head].slot == s.log[s.head].slot
  {
    hide Shape, Geometry, Memory, History, Locks, Reservable;
    assert ProducerOk(s, t, s.producers[t]);
  }

  lemma OtherConsumer(s: State, c: nat, d: nat)
    requires Inv(s) && c < |s.consumers| && s.consumers[c].CCopy? && d < |s.consumers| && d != c
    ensures var s' := StepConsumer(s, d);
            |s'.consumers| == |s.consumers| && s'.consumers[c] == s.consumers[c] && s'.head == s.head
  {
    hide Geometry, Memory, History, Threads;
    assert !s.consumers[d].InCs();
  }

  // ---------------------------------------------------------------- conservation

  function Weight(pc: Producer): nat { if pc.Undecided() then 1 else 0 }

  /** The number of undecided pushes. */
  function InFlight(producers: seq<Producer>): nat {
    if producers == [] then 0 else Weight(producers[0]) + InFlight(producers[1..])
  }

  lemma {:induction false} InFlightUpdate(producers: seq<Producer>, t: nat, pc: Producer)
    requires t < |producers|
    ensures InFlight(producers[t := pc]) + Weight(producers[t]) == InFlight(producers) + Weight(pc)
    decreases t
  {
    var updated := producers[t := pc];
    if t == 0 {
      assert updated[1..] == producers[1..];
    } else {
      assert updated[1..] == producers[1..][t - 1 := pc];
      InFlightUpdate(producers[1..], t - 1, pc);
    }
  }

  lemma {:induction false} NoneInFlight(producers: seq<Producer>)
    requires forall t :: 0 <= t < |producers| ==> producers[t].PIdle?
    ensures InFlight(producers) == 0
  {
    if producers != [] {
      NoneInFlight(producers[1..]);
    }
  }

  /** Every push begun has been accepted, has been counted as lost, or is undecided; and an
      accepted event that is not committed is being copied by the producer that owns it. */
  ghost predicate Conserved(s: State) {
    && |s.log| + s.lost + InFlight(s.producers) == s.begun
    && (forall i :: 0 <= i < |s.log| && !s.log[i].committed ==> BeingCopied(s, i))
  }

  predicate BeingCopied(s: State, i: nat) {
    i < |s.log| &&
    var t := s.log[i].owner;
    t < |s.producers| && s.producers[t].Owner() && s.producers[t].n == i
  }

  /** What a producer step can do to the log and to the count of lost events. */
  ghost predicate Effect(s: State, s': State, t: nat) {
    && t < |s.producers| && |s'.producers| == |s.producers|
    && var p, p' := s.producers[t], s'.producers[t];
    && s'.producers == s.producers[t := p'] && s'.begun == s.begun
    && |s'.log| + s'.lost + Weight(p') == |s.log| + s.lost + Weight(p)
    && (|| s'.log == s.log
        || (p.PPublish? && s'.log == s.log + [Event(p.slot, p.event, t, false)] && p'.Owner() && p'.n == |s.log|)
        || (p.PCommit? && p.n < |s.log| && s'.log == s.log[p.n := s.log[p.n].(committed := true)])
        || (p.Owner() && p.n < |s.log| && |s'.log| == |s.log| && s'.log == s.log[p.n := s.log[p.n].(bytes := s'.log[p.n].bytes)]))
    && (p.Owner() ==>
          || (p'.Owner() && p'.n == p.n)
          || (p.n < |s'.log| && s'.log[p.n].committed))
  }

  lemma StepEffect(s: State, t: nat)
    requires Shape(s) && t < |s.producers|
    ensures Effect(s, StepProducer(s, t), t)
  {
    hide RingSize, MoveOf, StepHeader, StepCopy, Effect;
    var pc := s.producers[t];
    if pc.Pending() {
      HeaderEffect(s, t);
    } else if Stores(s, t, pc) {
      CopyEffect(s, t);
    } else {
      MoveWeights(s, pc);
      QuietEffect(s, StepProducer(s, t), t);
    }
  }

  lemma MoveWeights(s: State, pc: Producer)
    requires Shape(s) && !pc.Pending() && !pc.PCommit?
    ensures var m := MoveOf(s, pc);
            m.Move? ==>
              && m.lost + Weight(m.pc) == s.lost + Weight(pc)
              && (pc.Owner() ==> m.pc.Owner() && m.pc.n == pc.n)
  {
    hide RingSize, IntegrityCheck, HdrPtr, HdrSize, Reserve;
  }

  lemma HeaderEffect(s: State, t: nat)
    requires Shape(s) && t < |s.producers| && s.producers[t].Pending()
    ensures Effect(s, StepHeader(s, t, s.producers[t]), t)
  {
    hide WithReady, WithPtr, WithSize, RingSize;
  }

  lemma CopyEffect(s: State, t: nat)
    requires Shape(s) && t < |s.producers| && Stores(s, t, s.producers[t])
    ensures Effect(s, StepCopy(s, t, s.producers[t]), t)
  {
    hide WithReady, Patch, RingSize, Effect, HandOut;
    var pc := s.producers[t];
    match pc {
      case PCheckSize(_, _, _, _) => HandOutEffect(s, t);
      case PCommit(_, _, _) => CommitEffect(s, t);
      case PCopy(_, _, _, _, _) => QuietEffect(s, StepCopy(s, t, pc), t);
    }
  }

  /** A step that does not touch the log. */
  lemma QuietEffect(s: State, s': State, t: nat)
    requires t < |s.producers| && |s'.producers| == |s.producers|
    requires s'.producers == s.producers || s'.producers == s.producers[t := s'.producers[t]]
    requires s'.log == s.log && s'.begun == s.begun
    requires s'.lost + Weight(s'.producers[t]) == s.lost + Weight(s.producers[t])
    requires s.producers[t].Owner() ==> s'.producers[t].Owner() && s'.producers[t].n == s.producers[t].n
    ensures Effect(s, s', t)
  {
    assert s.producers == s.producers[t := s.producers[t]];
  }

  lemma HandOutEffect(s: State, t: nat)
    requires Shape(s) && t < |s.producers| && s.producers[t].PCheckSize?
    ensures var pc := s.producers[t];
            Effect(s, HandOut(s, t, pc.n, pc.hdr, pc.ptr, |pc.event|), t)
  {
    hide RingSize, HdrSize, IntegrityCheck;
    assert s.producers == s.producers[t := s.producers[t]];
  }

  lemma CommitEffect(s: State, t: nat)
    requires Shape(s) && t < |s.producers| && s.producers[t].PCommit?
    ensures Effect(s, StepCopy(s, t, s.producers[t]), t)
  {
    hide WithReady, RingSize;
    assert s.producers == s.producers[t := s.producers[t]];
  }

  lemma ProducerConserves(s: State, t: nat)
    requires Inv(s) && Conserved(s) && t < |s.producers|
    ensures Conserved(StepProducer(s, t))
  {
    hide Inv, StepProducer;
    assert Shape(s) by { InvShape(s); }
    StepEffect(s, t);
    var s' := StepProducer(s, t);
    InFlightUpdate(s.producers, t, s'.producers[t]);
  }

  lemma InvShape(s: State)
    requires Inv(s)
    ensures Shape(s)
  {
  }

  lemma FillConserves(s: State, t: nat, k: nat, b: byte)
    requires Inv(s) && Conserved(s) && t < |s.producers|
    ensures Conserved(StepFill(s, t, k, b))
  {
    hide Inv, StepFill;
    InvShape(s);
    FillEffect(s, t, k, b);
    var s' := StepFill(s, t, k, b);
    InFlightUpdate(s.producers, t, s'.producers[t]);
  }

  lemma FillEffect(s: State, t: nat, k: nat, b: byte)
    requires Shape(s) && t < |s.producers|
    ensures Effect(s, StepFill(s, t, k, b), t)
  {
    hide RingSize, Patch;
    assert s.producers == s.producers[t := s.producers[t]];
  }

  lemma BeginConserves(s: State, t: nat, event: seq<byte>, writers: set<nat>)
    requires Conserved(s) && t < |s.producers| && s.producers[t].PIdle?
    ensures Conserved(Set(s, t, PLock(event, 0)).(begun := s.begun + 1, writers := writers))
  {
    var s' := Set(s, t, PLock(event, 0)).(begun := s.begun + 1, writers := writers);
    InFlightUpdate(s.producers, t, PLock(event, 0));
  }

  lemma ApplyConserves(s: State, a: Action)
    requires Inv(s) && Conserved(s)
    ensures Conserved(Apply(s, a))
  {
    hide Inv, Conserved, StepProducer, StepConsumer, StepFill, Unwritten, InFlight;
    InvShape(s);
    match a {
      case BeginPush(t, event) =>
        if t < |s.producers| && s.producers[t].PIdle? {
          BeginConserves(s, t, event, s.writers - {t});
        }
      case BeginReserve(t, size) =>
        if t < |s.producers| && s.producers[t].PIdle? {
          BeginConserves(s, t, Unwritten(size), s.writers + {t});
        }
      case Fill(t, k, b) =>
        if t < |s.producers| {
          FillConserves(s, t, k, b);
        }
      case ProducerStep(t) =>
        if t < |s.producers| {
          ProducerConserves(s, t);
        }
      case BeginPop(c, cap) =>
        SameProducersConserve(s, Apply(s, a));
      case ConsumerStep(c) =>
        SameProducersConserve(s, Apply(s, a));
    }
  }

  lemma SameProducersConserve(s: State, s': State)
    requires Conserved(s) && s'.producers == s.producers && s'.log == s.log && s'.lost == s.lost && s'.begun == s.begun
    ensures Conserved(s')
  {
    forall i | 0 <= i < |s.log| && !s.log[i].committed
      ensures BeingCopied(s', i)
    {
      assert BeingCopied(s, i);
    }
  }

  lemma {:induction false} RunConserves(s: State, actions: seq<Action>)
    requires Inv(s) && Conserved(s)
    ensures Conserved(Run(s, actions))
    decreases |actions|
  {
    hide Geometry, Memory, History, Threads, Locks, Apply, Conserved;
    if actions != [] {
      ApplyConserves(s, actions[0]);
      ApplyKeepsInv(s, actions[0]);
      RunConserves(Apply(s, actions[0]), actions[1..]);
    }
  }

  lemma IdleMeansCommitted(s: State)
    requires Conserved(s) && forall t :: 0 <= t < |s.producers| ==> s.producers[t].PIdle?
    ensures |s.log| + s.lost == s.begun && forall i :: 0 <= i < |s.log| ==> s.log[i].committed
  {
    NoneInFlight(s.producers);
    forall i | 0 <= i < |s.log|
      ensures s.log[i].committed
    {
      assert !s.log[i].committed ==> BeingCopied(s, i);
    }
  }

  /** No event is lost silently: once the producers are idle, every push and every reservation
      ever begun is an accepted event, committed and hence readable, or is counted in `lost`. */
  lemma EveryPushIsAcceptedOrCounted(ringSize: nat, mem: seq<byte>, producers: nat, consumers: nat, actions: seq<Action>)
    requires RingSize(ringSize) && |mem| == ringSize
    ensures var s := Run(Init(ringSize, mem, producers, consumers), actions);
            (forall t :: 0 <= t < |s.producers| ==> s.producers[t].PIdle?) ==>
              && |Accepted(s)| + s.lost == s.begun
              && (forall i :: s.head <= i < |s.log| ==> EventStored(s.mem, s.log[i]) && s.log[i].committed)
  {
    hide EventStored, InFlight, Run;
    var s0 := Init(ringSize, mem, producers, consumers);
    NoneInFlight(s0.producers);
    RunKeepsInv(s0, actions);
    RunConserves(s0, actions);
    var s := Run(s0, actions);
    if forall t :: 0 <= t < |s.producers| ==> s.producers[t].PIdle? {
      IdleMeansCommitted(s);
    }
  }
}

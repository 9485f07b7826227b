/** How long a call can take, why a push is lost, and why a pop comes back without an event: in
    every interleaving. */
module RingDecisions {
  import opened Bytes
  import opened RingLayout
  import opened RingMemory
  import opened RingProtocol
  import RingHistory

  /** An action of a thread that produces. */
  predicate ByProducer(a: Action, t: nat) {
    (a.BeginPush? || a.BeginReserve? || a.Fill? || a.ProducerStep?) && a.t == t
  }

  lemma OthersKeepProducer(s: State, a: Action, t: nat)
    requires Inv(s) && t < |s.producers| && !ByProducer(a, t)
    ensures Shape(s) && |Apply(s, a).producers| == |s.producers| && Apply(s, a).producers[t] == s.producers[t]
  {
    hide Inv, StepProducer, StepConsumer, StepFill, RingHistory.PlaceKept;
    InvShape(s);
    match a
    case ProducerStep(u) =>
      if u < |s.producers| {
        RingHistory.StepMoves(s, u);
      }
    case Fill(u, k, b) =>
      if u < |s.producers| {
        FillOfProducer(s, u, k, b);
      }
    case _ =>
  }

  lemma FillOfProducer(s: State, t: nat, k: nat, b: byte)
    requires Shape(s) && t < |s.producers|
    ensures var s' := StepFill(s, t, k, b);
            && |s'.producers| == |s.producers| && s'.producers == s.producers[t := s'.producers[t]] && s'.lost == s.lost
            && (s.producers[t] == s'.producers[t] || (s.producers[t].PFill? && s'.producers[t].PFill?))
  {
    hide RingSize, Patch;
  }

  // ---------------------------------------------------------------- every call ends

  /** How many more steps of its own a producer's call can take. */
  function StepsLeft(pc: Producer): nat {
    match pc
    case PIdle => 0
    case PLost => 1
    case PUnlockFull => 2
    case PCommit(_, _, _) => 1
    case PRecheckSize(_, _, _, _) => 2
    case PRecheckPtr(_, _, _) => 3
    case PFill(_, _, _, _) => 4
    case PCopy(event, _, _, _, k) => (if k < |event| then |event| - k else 0) + 2
    case PCheckSize(event, _, _, _) => |event| + 5
    case PCheckPtr(event, _, _) => |event| + 6
    case PUnlock(event, _, _) => |event| + 7
    case PPublish(event, _, _) => |event| + 8
    case PSetSize(event, _, _) => |event| + 9
    case PSetPtr(event, _, _) => |event| + 10
    case PClear(event, _, _) => |event| + 11
    case PReadRd(event, _) => |event| + 12
    case PReadWr(event) => |event| + 13
    case PLock(event, tries) => |event| + 14 + if tries <= RETRIES then RETRIES + 1 - tries else 0
  }

  /** Where a producer can go from pc, and that each step leads on. */
  predicate GoesTo(s: State, pc: Producer, next: Producer) {
    && (!pc.PIdle? ==> StepsLeft(next) < StepsLeft(pc))
    && (next.PLock? ==> pc.PLock? && s.wrLock && pc.tries <= RETRIES && next.tries == pc.tries + 1)
    && (next.PReadWr? ==> pc.PLock? && !s.wrLock)
    && (next.PReadRd? || next.Pending() || next.Owner() ==> pc.PReadWr? || pc.PReadRd? || pc.Pending() || pc.Owner())
    && (next.PUnlockFull? ==> pc.PReadRd?)
    && (next.PLost? ==> (pc.PLock? && pc.tries > RETRIES) || pc.PUnlockFull?)
    && (pc.PIdle? ==> next.PIdle?)
  }

  lemma HeaderGoes(s: State, t: nat)
    requires Shape(s) && t < |s.producers| && s.producers[t].Pending()
    ensures var s' := StepHeader(s, t, s.producers[t]);
            |s'.producers| == |s.producers| && s'.lost == s.lost && (s'.bug || GoesTo(s, s.producers[t], s'.producers[t]))
  {
    hide RingSize, WithReady, WithPtr, WithSize;
  }

  lemma CopyGoes(s: State, t: nat)
    requires Shape(s) && t < |s.producers| && Stores(s, t, s.producers[t])
    ensures var s' := StepCopy(s, t, s.producers[t]);
            |s'.producers| == |s.producers| && s'.lost == s.lost && (s'.bug || GoesTo(s, s.producers[t], s'.producers[t]))
  {
    hide RingSize, HandOut, WithReady, Patch;
    if s.producers[t].PCheckSize? {
      HandOutGoes(s, t);
    }
  }

  lemma HandOutGoes(s: State, t: nat)
    requires Shape(s) && t < |s.producers| && s.producers[t].PCheckSize?
    ensures var pc := s.producers[t];
            var s' := HandOut(s, t, pc.n, pc.hdr, pc.ptr, |pc.event|);
            |s'.producers| == |s.producers| && s'.lost == s.lost && (s'.bug || s'.producers[t].PFill?)
  {
    hide RingSize, IntegrityCheck, HdrSize;
  }

  lemma QuietGoes(s: State, t: nat)
    requires Shape(s) && t < |s.producers| && !s.producers[t].Pending() && !Stores(s, t, s.producers[t])
    ensures var m := MoveOf(s, s.producers[t]);
            if m.Stop? then !s.producers[t].PLost?
            else GoesTo(s, s.producers[t], m.pc) && m.lost == s.lost + if s.producers[t].PLost? then 1 else 0
  {
    hide IntegrityCheck, HdrSize, HdrPtr, Reserve;
  }

  lemma StepGoes(s: State, t: nat)
    requires Inv(s) && t < |s.producers|
    ensures Shape(s) && t < |StepProducer(s, t).producers| && GoesTo(s, s.producers[t], StepProducer(s, t).producers[t])
  {
    hide Inv, StepHeader, StepCopy, MoveOf, GoesTo;
    InvShape(s);
    ProducerKeepsInv(s, t);
    NoBug(StepProducer(s, t));
    var pc := s.producers[t];
    if pc.Pending() {
      HeaderGoes(s, t);
    } else if Stores(s, t, pc) {
      CopyGoes(s, t);
    } else {
      QuietGoes(s, t);
    }
  }

  lemma NoBug(s: State)
    requires Inv(s)
    ensures !s.bug
  {}

  /** No action but its own changes where a producer stands, and each of its own steps leads on. */
  lemma CallGoesOn(s: State, a: Action, t: nat)
    requires Inv(s) && t < |s.producers| && !s.producers[t].PIdle?
    ensures Shape(s) && t < |Apply(s, a).producers|
    ensures StepsLeft(Apply(s, a).producers[t]) + (if a == ProducerStep(t) then 1 else 0) <= StepsLeft(s.producers[t])
  {
    hide Inv, StepProducer, StepConsumer, StepFill, RingHistory.PlaceKept;
    InvShape(s);
    if !ByProducer(a, t) {
      hide Apply;
      OthersKeepProducer(s, a, t);
    } else if a.Fill? {
      FillOfProducer(s, t, a.k, a.b);
    } else if a.ProducerStep? {
      StepGoes(s, t);
    }
  }

  function OwnSteps(actions: seq<Action>, t: nat): nat {
    if actions == [] then 0 else OwnSteps(actions[1..], t) + if actions[0] == ProducerStep(t) then 1 else 0
  }

  /** In every interleaving a push or reservation is over after a bounded number of steps of its
      own thread, whatever the other threads do or leave undone. */
  lemma {:induction false} EveryCallEnds(s: State, actions: seq<Action>, t: nat) returns (k: nat)
    requires Inv(s) && t < |s.producers| && OwnSteps(actions, t) >= StepsLeft(s.producers[t])
    ensures Shape(s) && k <= |actions|
    ensures var m := Run(s, actions[..k]); t < |m.producers| && m.producers[t].PIdle?
    decreases |actions|
  {
    hide Inv, Apply;
    InvShape(s);
    if s.producers[t].PIdle? {
      k := 0;
      assert actions[..0] == [];
    } else {
      StillSteps(s.producers[t]);
      CallGoesOn(s, actions[0], t);
      ApplyKeepsInv(s, actions[0]);
      var j := EveryCallEnds(Apply(s, actions[0]), actions[1..], t);
      k := j + 1;
      assert actions[..k][1..] == actions[1..][..j] && actions[..k][0] == actions[0];
    }
  }

  lemma StillSteps(pc: Producer)
    ensures !pc.PIdle? ==> StepsLeft(pc) > 0
    ensures pc.PLock? && pc.tries == 0 ==> StepsLeft(pc) == |pc.event| + 143
  {}

  // ---------------------------------------------------------------- why a push is lost

  /** What a producer has met in its current call: how often it found wr_lock taken, and whether
      there was no room for its event when it looked. */
  datatype Met = Met(busy: nat, full: bool)

  const NOTHING: Met := Met(0, false)

  /** No placement of the event fits between the write position and the read position. */
  ghost predicate NoRoom(s: State, size: nat) {
    !exists slot: Slot ::
      slot.v == s.vw && slot.size == size && SlotFits(s.ringSize, s.vr - s.rd, s.vr, s.vr + s.ringSize - 1, slot)
  }

  ghost function Meet(s: State, t: nat, w: Met, a: Action): Met {
    if t >= |s.producers| || s.producers[t].PIdle? then NOTHING
    else if a != ProducerStep(t) then w
    else
      match s.producers[t]
      case PLock(_, _) => if s.wrLock then w.(busy := w.busy + 1) else w
      case PReadRd(event, _) => w.(full := NoRoom(s, |event|))
      case _ => w
  }

  ghost function MeetAll(s: State, t: nat, w: Met, actions: seq<Action>): Met
    requires Shape(s)
    decreases |actions|
  {
    if actions == [] then w else MeetAll(Apply(s, actions[0]), t, Meet(s, t, w, actions[0]), actions[1..])
  }

  /** What a producer has met explains where it stands. */
  predicate Explained(pc: Producer, w: Met) {
    && (pc.PLock? ==> w == Met(pc.tries, false) && pc.tries <= RETRIES + 1)
    && (pc.PReadWr? || pc.PReadRd? || pc.Pending() || pc.Owner() ==> !w.full)
    && (pc.PUnlockFull? ==> w.full)
    && (pc.PLost? ==> w.full || w.busy > RETRIES)
  }

  /** The decision refuses exactly when there is no room. */
  lemma DecisionIsExact(s: State, t: nat)
    requires Inv(s) && t < |s.producers| && s.producers[t].PReadRd?
    ensures Shape(s)
    ensures var pc := s.producers[t];
            var next := StepProducer(s, t).producers[t];
            if NoRoom(s, |pc.event|) then next.PUnlockFull? else next.PClear?
  {
    hide Live, EventStored, Reserve, SlotFits;
    var pc := s.producers[t];
    ProducerAt(s, t);
    DecisionIsSound(s, t);
    ReserveIsComplete(s.ringSize, s.vr, s.vw, s.rd, s.wr, |pc.event|);
  }

  lemma StepIsExplained(s: State, t: nat, w: Met)
    requires Inv(s) && t < |s.producers| && Explained(s.producers[t], w)
    ensures Shape(s) && t < |StepProducer(s, t).producers|
    ensures Explained(StepProducer(s, t).producers[t], Meet(s, t, w, ProducerStep(t)))
  {
    hide Inv, NoRoom, StepProducer, StepsLeft;
    StepGoes(s, t);
    if s.producers[t].PReadRd? {
      DecisionIsExact(s, t);
    }
  }

  lemma ActionIsExplained(s: State, a: Action, t: nat, w: Met)
    requires Inv(s) && t < |s.producers| && Explained(s.producers[t], w)
    ensures Shape(s) && t < |Apply(s, a).producers|
    ensures Explained(Apply(s, a).producers[t], Meet(s, t, w, a))
  {
    hide Inv, StepProducer, StepConsumer, StepFill, RingHistory.PlaceKept;
    InvShape(s);
    if !ByProducer(a, t) {
      hide Apply;
      OthersKeepProducer(s, a, t);
    } else if a.Fill? {
      FillOfProducer(s, t, a.k, a.b);
    } else if a.ProducerStep? {
      StepIsExplained(s, t, w);
    }
  }

  lemma {:induction false} RunIsExplained(s: State, actions: seq<Action>, t: nat, w: Met)
    requires Inv(s) && t < |s.producers| && Explained(s.producers[t], w)
    ensures Shape(s) && t < |Run(s, actions).producers|
    ensures Explained(Run(s, actions).producers[t], MeetAll(s, t, w, actions))
    decreases |actions|
  {
    hide Inv, Apply, Meet, Explained;
    InvShape(s);
    if actions != [] {
      ActionIsExplained(s, actions[0], t, w);
      ApplyKeepsInv(s, actions[0]);
      RunIsExplained(Apply(s, actions[0]), actions[1..], t, Meet(s, t, w, actions[0]));
    }
  }

  /** In every interleaving a push or reservation is counted lost only if it found the lock taken
      at each of 129 attempts, or if no placement of its event fitted when it read the pointers;
      and one that has found room gets its event into the ring. */
  lemma EveryLossHasACause(ringSize: nat, mem: seq<byte>, producers: nat, consumers: nat, actions: seq<Action>, t: nat)
    requires RingSize(ringSize) && |mem| == ringSize && t < producers
    ensures var s0 := Init(ringSize, mem, producers, consumers);
            var s, w := Run(s0, actions), MeetAll(s0, t, NOTHING, actions);
            && t < |s.producers|
            && (s.producers[t].PLost? ==> w.full || w.busy >= 129)
            && (s.producers[t].Pending() || s.producers[t].Owner() ==> !w.full)
    ensures var s := Run(Init(ringSize, mem, producers, consumers), actions);
            forall a :: Apply(s, a).lost == s.lost + if LosesOne(s, a) then 1 else 0
  {
    var s0 := Init(ringSize, mem, producers, consumers);
    InitInv(ringSize, mem, producers, consumers);
    RunIsExplained(s0, actions, t, NOTHING);
    var s := Run(s0, actions);
    forall a
      ensures Apply(s, a).lost == s.lost + if LosesOne(s, a) then 1 else 0
    {
      LostOnlyThere(s, a);
    }
  }

  predicate LosesOne(s: State, a: Action) {
    a.ProducerStep? && a.t < |s.producers| && s.producers[a.t].PLost?
  }

  lemma LostOnlyThere(s: State, a: Action)
    requires Shape(s)
    ensures Apply(s, a).lost == s.lost + if LosesOne(s, a) then 1 else 0
  {
    hide StepProducer, StepConsumer, StepFill;
    match a
    case ProducerStep(t) =>
      if t < |s.producers| {
        StepLoses(s, t);
      }
    case Fill(t, k, b) =>
      if t < |s.producers| {
        FillOfProducer(s, t, k, b);
      }
    case _ =>
  }

  lemma StepLoses(s: State, t: nat)
    requires Shape(s) && t < |s.producers|
    ensures StepProducer(s, t).lost == s.lost + if s.producers[t].PLost? then 1 else 0
  {
    hide RingSize, StepHeader, StepCopy, MoveOf;
    if s.producers[t].Pending() {
      HeaderGoes(s, t);
    } else if Stores(s, t, s.producers[t]) {
      CopyGoes(s, t);
    } else {
      QuietGoes(s, t);
    }
  }

  // ---------------------------------------------------------------- why a pop comes back

  /** A consumer's way through the code in terms of the queue: it stops if and only if the lock is
      taken, nothing is in the ring, the oldest event is not committed, or it does not fit the
      caller's buffer; otherwise it takes exactly that event. */
  lemma PopGoesOnIff(s: State, c: nat)
    requires Inv(s) && c < |s.consumers|
    ensures Shape(s) && s.head <= |s.log| && c < |StepConsumer(s, c).consumers|
    ensures var pc, next := s.consumers[c], StepConsumer(s, c).consumers[c];
            match pc
            case CIdle => next.CIdle?
            case CLock(cap) => next == if s.rdLock then CIdle else CReadRd(cap)
            case CReadRd(cap) => next == CReadWr(cap, s.rd)
            case CReadWr(cap, rdp) => next == if s.head == |s.log| then CUnlock else CReadReady(cap, rdp)
            case CReadReady(cap, rdp) => s.head < |s.log| && next == if s.log[s.head].committed then CReadSize(cap, rdp) else CUnlock
            case CReadSize(cap, rdp) =>
              && s.head < |s.log|
              && var size := |s.log[s.head].bytes|;
                 next == if cap.Bounded? && cap.bytes < size then CUnlock else CReadPtr(rdp, size)
            case CReadPtr(rdp, size) => next.CCopy? && next.buf == [] && next.size == size
            case CCopy(size, ptr, buf) =>
              && s.head < |s.log|
              && var bytes := s.log[s.head].bytes;
                 if |buf| < |bytes| then next == CCopy(size, ptr, bytes[..|buf| + 1]) else next == CMove(size, ptr, bytes)
            case CMove(size, ptr, buf) => next == CUnlock && s.head < |s.log| && buf == s.log[s.head].bytes
            case CUnlock => next == CIdle
  {
    hide Inv, HdrReady, HdrSize, HdrPtr, IntegrityCheck, MovePtr, Align, RingSize;
    InvShape(s);
    var pc := s.consumers[c];
    ConsumerAt(s, c);
    if pc.CReadWr? || pc.CReadReady? || pc.CReadSize? || pc.CReadPtr? {
      LookIsSound(s, c);
      LookIsExact(s, c);
    } else if pc.CCopy? {
      CopyOutIsSound(s, c);
    }
  }

  lemma ConsumerAt(s: State, c: nat)
    requires Inv(s) && c < |s.consumers|
    ensures ConsumerOk(s, s.consumers[c]) && s.head <= |s.log|
  {}

  /** What the header of the oldest event says is so. */
  lemma LookIsExact(s: State, c: nat)
    requires Inv(s) && c < |s.consumers|
    requires var pc := s.consumers[c]; pc.CReadWr? || pc.CReadReady? || pc.CReadSize? || pc.CReadPtr?
    ensures s.rd == s.wr <==> s.head == |s.log|
    ensures s.head < |s.log| ==> (HdrReady(s.mem, s.rd) <==> s.log[s.head].committed)
    ensures s.head < |s.log| ==> HdrSize(s.mem, s.rd) == s.log[s.head].slot.size == |s.log[s.head].bytes| <= s.ringSize
  {
    hide Live, Phys, FromLE, History, Layout, Threads, Locks, HdrReady, HdrSize, HdrPtr;
    ReachedGeometry(s, s.ringSize);
    if s.head < |s.log| {
      OldestEvent(s);
      assert EventStored(s.mem, s.log[s.head]);
    }
  }

  /** How many more steps of its own a consumer's call can take. */
  function LooksLeft(ringSize: nat, pc: Consumer): nat {
    match pc
    case CIdle => 0
    case CUnlock => 1
    case CMove(_, _, _) => 2
    case CCopy(size, _, buf) => 3 + if |buf| < size then size - |buf| else 0
    case CReadPtr(_, size) => size + 4
    case CReadSize(_, _) => ringSize + 5
    case CReadReady(_, _) => ringSize + 6
    case CReadWr(_, _) => ringSize + 7
    case CReadRd(_) => ringSize + 8
    case CLock(_) => ringSize + 9
  }

  predicate ByConsumer(a: Action, c: nat) {
    (a.BeginPop? || a.ConsumerStep?) && a.c == c
  }

  lemma OthersKeepConsumer(s: State, a: Action, c: nat)
    requires Shape(s) && c < |s.consumers| && !ByConsumer(a, c)
    ensures |Apply(s, a).consumers| == |s.consumers| && Apply(s, a).consumers[c] == s.consumers[c]
  {
    hide StepProducer, StepFill, RingSize, LookOf, MovePtr, Align;
  }

  lemma PopGoesOn(s: State, a: Action, c: nat)
    requires Inv(s) && c < |s.consumers| && !s.consumers[c].CIdle?
    ensures Shape(s) && c < |Apply(s, a).consumers|
    ensures LooksLeft(s.ringSize, Apply(s, a).consumers[c]) + (if a == ConsumerStep(c) then 1 else 0) <= LooksLeft(s.ringSize, s.consumers[c])
  {
    hide Inv, StepConsumer;
    InvShape(s);
    if !ByConsumer(a, c) {
      hide Apply;
      OthersKeepConsumer(s, a, c);
    } else if a.ConsumerStep? {
      PopGoesOnIff(s, c);
      ConsumerAt(s, c);
      if s.consumers[c].CReadSize? {
        LookIsExact(s, c);
      } else if s.consumers[c].CCopy? {
        CommittedSize(s);
      }
    }
  }

  lemma CommittedSize(s: State)
    requires Inv(s) && s.head < |s.log|
    ensures |s.log[s.head].bytes| == s.log[s.head].slot.size
  {
    assert EventStored(s.mem, s.log[s.head]);
  }

  function OwnLooks(actions: seq<Action>, c: nat): nat {
    if actions == [] then 0 else OwnLooks(actions[1..], c) + if actions[0] == ConsumerStep(c) then 1 else 0
  }

  /** In every interleaving a pop is over after a bounded number of steps of its own thread. */
  lemma {:induction false} EveryPopEnds(s: State, actions: seq<Action>, c: nat) returns (k: nat)
    requires Inv(s) && c < |s.consumers| && OwnLooks(actions, c) >= LooksLeft(s.ringSize, s.consumers[c])
    ensures Shape(s) && k <= |actions|
    ensures var m := Run(s, actions[..k]); c < |m.consumers| && m.consumers[c].CIdle?
    decreases |actions|
  {
    hide Inv, Apply;
    InvShape(s);
    if s.consumers[c].CIdle? {
      k := 0;
      assert actions[..0] == [];
    } else {
      assert LooksLeft(s.ringSize, s.consumers[c]) > 0;
      PopGoesOn(s, actions[0], c);
      ApplyKeepsInv(s, actions[0]);
      var j := EveryPopEnds(Apply(s, actions[0]), actions[1..], c);
      k := j + 1;
      assert actions[..k][1..] == actions[1..][..j] && actions[..k][0] == actions[0];
    }
  }
}

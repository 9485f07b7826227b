/** Which call of a producer each event in the ring comes from. The book is kept beside a run of the
    ring and influences nothing. */
module RingHistory {
  import opened Bytes
  import opened RingLayout
  import opened RingMemory
  import opened RingProtocol

  /** A call of octf_trace_push, or of octf_trace_get_wr_buffer. */
  datatype Call = PushCall(event: seq<byte>) | ReserveCall(size: nat)

  /** All calls begun so far, the latest call of each producer, and the call of each event. */
  datatype Book = Book(calls: seq<Call>, current: map<nat, nat>, ofEvent: seq<nat>)

  predicate Begins(s: State, t: nat, size: nat) {
    t < |s.producers| && s.producers[t].PIdle? && size <= 0xFFFF_FFF0
  }

  function Enter(b: Book, t: nat, call: Call): Book {
    b.(calls := b.calls + [call], current := b.current[t := |b.calls|])
  }

  /** The book after an action in state s. */
  function Note(s: State, b: Book, a: Action): Book
    requires Shape(s)
  {
    match a
    case BeginPush(t, event) => if Begins(s, t, |event|) then Enter(b, t, PushCall(event)) else b
    case BeginReserve(t, size) => if Begins(s, t, size) then Enter(b, t, ReserveCall(size)) else b
    case ProducerStep(t) =>
      if t in b.current && |Apply(s, a).log| > |s.log| then b.(ofEvent := b.ofEvent + [b.current[t]]) else b
    case _ => b
  }

  function NoteAll(s: State, b: Book, actions: seq<Action>): Book
    requires Shape(s)
    decreases |actions|
  {
    if actions == [] then b else NoteAll(Apply(s, actions[0]), Note(s, b, actions[0]), actions[1..])
  }

  const EMPTY: Book := Book([], map[], [])

  /** What a producer carries in a call. */
  predicate Fits(call: Call, event: seq<byte>, inPlace: bool) {
    match call
    case PushCall(pushed) => !inPlace && event == pushed
    case ReserveCall(size) => inPlace && |event| == size
  }

  /** What an event that comes from a call may hold. */
  predicate ComesFrom(bytes: seq<byte>, call: Call) {
    match call
    case PushCall(pushed) => bytes == pushed
    case ReserveCall(size) => |bytes| == size
  }

  ghost predicate ThreadsBooked(s: State, b: Book) {
    && (forall t :: 0 <= t < |s.producers| && !s.producers[t].PIdle? ==> t in b.current && b.current[t] < |b.calls|)
    && (forall t :: 0 <= t < |s.producers| && Carries(s.producers[t]) ==>
          Fits(b.calls[b.current[t]], s.producers[t].event, t in s.writers))
    && (forall t :: 0 <= t < |s.producers| && s.producers[t].PFill? ==> t in s.writers)
    && (forall t, u :: 0 <= t < u < |s.producers| && !s.producers[t].PIdle? && !s.producers[u].PIdle? ==>
          b.current[t] != b.current[u])
  }

  ghost predicate EventsBooked(s: State, b: Book) {
    && |b.ofEvent| == |s.log|
    && (forall i :: 0 <= i < |s.log| ==> b.ofEvent[i] < |b.calls| && ComesFrom(s.log[i].bytes, b.calls[b.ofEvent[i]]))
    && (forall i, j :: 0 <= i < j < |s.log| ==> b.ofEvent[i] != b.ofEvent[j])
  }

  /** A producer whose call has no event yet, and one that owns the event of its call. */
  ghost predicate OwnersBooked(s: State, b: Book) {
    && ThreadsBooked(s, b) && EventsBooked(s, b)
    && (forall t, i :: 0 <= t < |s.producers| && s.producers[t].Undecided() && 0 <= i < |s.log| ==> b.ofEvent[i] != b.current[t])
    && (forall t :: 0 <= t < |s.producers| && s.producers[t].Owner() ==>
          s.producers[t].n < |s.log| && b.ofEvent[s.producers[t].n] == b.current[t])
  }

  ghost predicate Booked(s: State, b: Book) {
    ThreadsBooked(s, b) && EventsBooked(s, b) && OwnersBooked(s, b)
  }

  // ---------------------------------------------------------------- what one step of a producer does

  predicate PlaceKept(p: Producer, p': Producer, inPlace: bool, size: nat, size': nat) {
    && (!p'.PIdle? ==> !p.PIdle?)
    && (Carries(p') ==> Carries(p) && |p'.event| == |p.event| && (!inPlace ==> p'.event == p.event))
    && (p'.PFill? ==> p.PFill? || inPlace)
    && (p'.Undecided() ==> p.Undecided())
    && (p'.Owner() ==> if size' == size then p.Owner() && p'.n == p.n else p'.n == size)
  }

  ghost predicate Moved(s: State, s': State, t: nat) {
    && t < |s.producers| && |s'.producers| == |s.producers| && s'.producers == s.producers[t := s'.producers[t]] && s'.writers == s.writers
    && |s.log| <= |s'.log| <= |s.log| + 1
    && PlaceKept(s.producers[t], s'.producers[t], t in s.writers, |s.log|, |s'.log|)
    && (|s'.log| > |s.log| ==>
          s.producers[t].PPublish? && s'.producers[t].Owner() && s'.log[|s.log|].bytes == s.producers[t].event)
    && (forall i :: 0 <= i < |s.log| ==>
          || s'.log[i].bytes == s.log[i].bytes
          || (s.producers[t].Owner() && i == s.producers[t].n && t in s.writers && |s'.log[i].bytes| == |s.log[i].bytes|))
  }

  lemma HeaderMoves(s: State, t: nat)
    requires Shape(s) && t < |s.producers| && s.producers[t].Pending()
    ensures Moved(s, StepProducer(s, t), t)
  {
    hide RingSize, WithReady, WithPtr, WithSize, PlaceKept;
    PlaceOfHeader(s, t);
  }

  lemma PlaceOfHeader(s: State, t: nat)
    requires Shape(s) && t < |s.producers| && s.producers[t].Pending()
    ensures var s' := StepProducer(s, t);
            |s'.producers| == |s.producers| &&
            PlaceKept(s.producers[t], s'.producers[t], t in s.writers, |s.log|, |s'.log|)
  {
    hide RingSize, WithReady, WithPtr, WithSize;
  }

  lemma QuietMoves(s: State, t: nat)
    requires Shape(s) && t < |s.producers| && !s.producers[t].Pending() && !Stores(s, t, s.producers[t])
    ensures Moved(s, StepProducer(s, t), t)
  {
    hide RingSize, MoveOf;
    PlaceOfMove(s, s.producers[t], t in s.writers);
  }

  lemma PlaceOfMove(s: State, pc: Producer, inPlace: bool)
    requires Shape(s) && !pc.Pending() && !pc.PCommit?
    ensures var m := MoveOf(s, pc);
            PlaceKept(pc, if m.Move? then m.pc else pc, inPlace, |s.log|, |s.log|)
  {
    hide RingSize, Reserve, IntegrityCheck, HdrPtr, HdrSize;
  }

  lemma CopyMoves(s: State, t: nat)
    requires Shape(s) && t < |s.producers| && Stores(s, t, s.producers[t])
    requires var pc := s.producers[t]; pc.n < |s.log| ==> |s.log[pc.n].bytes| == |pc.event|
    ensures Moved(s, StepProducer(s, t), t)
  {
    hide RingSize, WithReady, Patch, IntegrityCheck, HdrSize, PlaceKept;
    PlaceOfCopy(s, t);
  }

  lemma PlaceOfCopy(s: State, t: nat)
    requires Shape(s) && t < |s.producers| && Stores(s, t, s.producers[t])
    ensures var s' := StepProducer(s, t);
            |s'.producers| == |s.producers| && |s'.log| == |s.log| &&
            PlaceKept(s.producers[t], s'.producers[t], t in s.writers, |s.log|, |s'.log|)
  {
    hide RingSize, StepCopy;
    StoringMoves(s, t, s.producers[t]);
  }

  lemma StoringMoves(s: State, t: nat, pc: Producer)
    requires Shape(s) && t < |s.producers| && pc == s.producers[t] && Stores(s, t, pc)
    ensures var s' := StepCopy(s, t, pc);
            && |s'.producers| == |s.producers| && |s'.log| == |s.log|
            && PlaceKept(pc, s'.producers[t], t in s.writers, |s.log|, |s.log|)
  {
    hide RingSize, WithReady, Patch, IntegrityCheck, HdrSize;
  }

  lemma FillMoves(s: State, t: nat, k: nat, v: byte)
    requires Shape(s) && t < |s.producers|
    requires var pc := s.producers[t]; pc.PFill? ==> t in s.writers && (pc.n < |s.log| ==> |s.log[pc.n].bytes| == |pc.event|)
    ensures Moved(s, StepFill(s, t, k, v), t)
  {
    hide RingSize, Patch;
  }

  lemma OwnedSize(s: State, t: nat)
    requires Inv(s) && t < |s.producers| && s.producers[t].Owner()
    ensures s.producers[t].n < |s.log| && s.log[s.producers[t].n].bytes == s.producers[t].event
  {
    assert ProducerOk(s, t, s.producers[t]);
  }

  lemma StepMoves(s: State, t: nat)
    requires Inv(s) && t < |s.producers|
    ensures Shape(s) && Moved(s, StepProducer(s, t), t)
  {
    hide Inv, Moved, StepProducer;
    InvShape(s);
    var pc := s.producers[t];
    if pc.Pending() {
      HeaderMoves(s, t);
    } else if Stores(s, t, pc) {
      OwnedSize(s, t);
      CopyMoves(s, t);
    } else {
      QuietMoves(s, t);
    }
  }

  // ---------------------------------------------------------------- the book stays right

  lemma ThreadsAfterMove(s: State, s': State, t: nat, b: Book)
    requires t < |s.producers| && Moved(s, s', t) && ThreadsBooked(s, b)
    ensures ThreadsBooked(s', b)
  {}

  /** A step of a producer that publishes nothing. */
  lemma MoveKeepsBook(s: State, s': State, t: nat, b: Book)
    requires t < |s.producers| && Moved(s, s', t) && Booked(s, b) && |s'.log| == |s.log|
    requires s.producers[t].Owner() && t in s.writers ==> Carries(s.producers[t])
    ensures Booked(s', b)
  {
    ThreadsAfterMove(s, s', t, b);
    hide PlaceKept;
    forall i | 0 <= i < |s.log|
      ensures ComesFrom(s'.log[i].bytes, b.calls[b.ofEvent[i]])
    {
      if s'.log[i].bytes != s.log[i].bytes {
        assert Fits(b.calls[b.current[t]], s.producers[t].event, true);
      }
    }
  }

  lemma EventsAfterPublish(s: State, s': State, t: nat, b: Book)
    requires t < |s.producers| && Moved(s, s', t) && Booked(s, b) && |s'.log| == |s.log| + 1
    requires forall i :: 0 <= i < |s.log| ==> s'.log[i].bytes == s.log[i].bytes
    ensures t in b.current && EventsBooked(s', b.(ofEvent := b.ofEvent + [b.current[t]]))
  {
    hide PlaceKept;
    var b' := b.(ofEvent := b.ofEvent + [b.current[t]]);
    assert Fits(b.calls[b.current[t]], s.producers[t].event, t in s.writers);
    forall i | 0 <= i < |s'.log|
      ensures b'.ofEvent[i] < |b.calls| && ComesFrom(s'.log[i].bytes, b.calls[b'.ofEvent[i]])
      ensures i < |s.log| ==> b'.ofEvent[i] == b.ofEvent[i] && b'.ofEvent[i] != b.current[t]
    {
    }
  }

  /** The publication of an event enters the call of its producer. */
  lemma PublishKeepsBook(s: State, s': State, t: nat, b: Book)
    requires t < |s.producers| && Moved(s, s', t) && Booked(s, b) && |s'.log| == |s.log| + 1
    requires t in b.current && forall i :: 0 <= i < |s.log| ==> s'.log[i].bytes == s.log[i].bytes
    ensures Booked(s', b.(ofEvent := b.ofEvent + [b.current[t]]))
  {
    var b' := b.(ofEvent := b.ofEvent + [b.current[t]]);
    EventsAfterPublish(s, s', t, b);
  }

  predicate Begun(s: State, s': State, t: nat, call: Call) {
    && t < |s.producers| == |s'.producers| && s.producers[t].PIdle? && s'.producers[t].PLock?
    && s'.producers == s.producers[t := s'.producers[t]] && s'.log == s.log
    && Fits(call, s'.producers[t].event, t in s'.writers)
    && s'.writers - {t} == s.writers - {t}
  }

  lemma ThreadsAfterBegin(s: State, s': State, t: nat, b: Book, call: Call)
    requires Begun(s, s', t, call) && ThreadsBooked(s, b)
    ensures ThreadsBooked(s', Enter(b, t, call))
  {
    var b' := Enter(b, t, call);
    forall u | 0 <= u < |s'.producers| && !s'.producers[u].PIdle?
      ensures u in b'.current && b'.current[u] < |b'.calls|
      ensures Carries(s'.producers[u]) ==> Fits(b'.calls[b'.current[u]], s'.producers[u].event, u in s'.writers)
      ensures u != t ==> b'.current[u] == b.current[u] < |b.calls|
    {
      if u != t {
        assert s'.producers[u] == s.producers[u];
        assert u in s'.writers - {t} <==> u in s.writers - {t};
      }
    }
  }

  lemma EventsAfterBegin(s: State, s': State, t: nat, b: Book, call: Call)
    requires Begun(s, s', t, call) && EventsBooked(s, b)
    ensures EventsBooked(s', Enter(b, t, call))
  {
    hide Fits;
    forall i | 0 <= i < |s.log|
      ensures ComesFrom(s.log[i].bytes, Enter(b, t, call).calls[b.ofEvent[i]])
    {
      assert Enter(b, t, call).calls[b.ofEvent[i]] == b.calls[b.ofEvent[i]];
    }
  }

  /** A call is entered. */
  lemma BeginKeepsBook(s: State, s': State, t: nat, b: Book, call: Call)
    requires Begun(s, s', t, call) && Booked(s, b)
    ensures Booked(s', Enter(b, t, call))
  {
    ThreadsAfterBegin(s, s', t, b, call);
    EventsAfterBegin(s, s', t, b, call);
    assert forall i :: 0 <= i < |s.log| ==> b.ofEvent[i] < |b.calls|;
    BusyAreBooked(s, b);
    hide ThreadsBooked, EventsBooked, Fits;
    forall u | 0 <= u < |s'.producers| && u != t
      ensures s'.producers[u] == s.producers[u]
    {
    }
  }

  lemma BusyAreBooked(s: State, b: Book)
    requires Booked(s, b)
    ensures forall t :: 0 <= t < |s.producers| && !s.producers[t].PIdle? ==> t in b.current
    ensures forall t :: 0 <= t < |s.producers| && s.producers[t].PFill? ==> t in s.writers
  {}

  lemma NoteKeepsBook(s: State, b: Book, a: Action)
    requires Inv(s) && Booked(s, b)
    ensures Shape(s) && Booked(Apply(s, a), Note(s, b, a))
  {
    hide Inv, Booked, Moved, StepProducer, StepFill, StepConsumer, Unwritten;
    InvShape(s);
    match a {
      case BeginPush(t, event) =>
        if Begins(s, t, |event|) {
          BeginKeepsBook(s, Apply(s, a), t, b, PushCall(event));
        }
      case BeginReserve(t, size) =>
        if Begins(s, t, size) {
          UnwrittenSize(size);
          BeginKeepsBook(s, Apply(s, a), t, b, ReserveCall(size));
        }
      case ProducerStep(t) =>
        if t < |s.producers| {
          StepKeepsBook(s, t, b);
        }
      case Fill(t, k, v) =>
        if t < |s.producers| {
          FillKeepsBook(s, t, k, v, b);
        }
      case BeginPop(c, cap) => SameKeepsBook(s, Apply(s, a), b);
      case ConsumerStep(c) => ConsumerKeepsBook(s, c, b);
    }
  }

  lemma SameKeepsBook(s: State, s': State, b: Book)
    requires Booked(s, b) && s'.producers == s.producers && s'.log == s.log && s'.writers == s.writers
    ensures Booked(s', b)
  {}

  lemma ConsumerKeepsBook(s: State, c: nat, b: Book)
    requires Shape(s) && Booked(s, b)
    ensures Booked(Apply(s, ConsumerStep(c)), b)
  {
    hide RingSize, Booked, LookOf;
    SameKeepsBook(s, Apply(s, ConsumerStep(c)), b);
  }

  lemma StepKeepsBook(s: State, t: nat, b: Book)
    requires Inv(s) && Booked(s, b) && t < |s.producers|
    ensures Shape(s) && Booked(StepProducer(s, t), Note(s, b, ProducerStep(t)))
  {
    hide Inv, Moved, StepProducer, ThreadsBooked, EventsBooked, OwnersBooked;
    StepMoves(s, t);
    var s' := StepProducer(s, t);
    Grown(s, s', t);
    if |s'.log| > |s.log| {
      BusyAreBooked(s, b);
      PublishKeepsBook(s, s', t, b);
    } else {
      MoveKeepsBook(s, s', t, b);
    }
  }

  lemma Grown(s: State, s': State, t: nat)
    requires t < |s.producers| && Moved(s, s', t)
    ensures |s.log| <= |s'.log| <= |s.log| + 1
    ensures |s'.log| > |s.log| ==> !s.producers[t].PIdle? && forall i :: 0 <= i < |s.log| ==> s'.log[i].bytes == s.log[i].bytes
  {}

  lemma FillKeepsBook(s: State, t: nat, k: nat, v: byte, b: Book)
    requires Inv(s) && Booked(s, b) && t < |s.producers|
    ensures Shape(s) && Booked(StepFill(s, t, k, v), b)
  {
    hide Inv, Moved, StepFill, Booked;
    InvShape(s);
    if s.producers[t].PFill? {
      OwnedSize(s, t);
      BusyAreBooked(s, b);
    }
    FillMoves(s, t, k, v);
    FillAdds(s, t, k, v);
    MoveKeepsBook(s, StepFill(s, t, k, v), t, b);
  }

  lemma FillAdds(s: State, t: nat, k: nat, v: byte)
    requires Shape(s) && t < |s.producers|
    ensures |StepFill(s, t, k, v).log| == |s.log|
  {
    hide RingSize, Patch;
  }

  // ---------------------------------------------------------------- whole runs

  lemma {:induction false} RunKeepsBook(s: State, b: Book, actions: seq<Action>)
    requires Inv(s) && Booked(s, b)
    ensures Shape(s) && Booked(Run(s, actions), NoteAll(s, b, actions))
    decreases |actions|
  {
    hide Inv, Booked, Apply, Note;
    InvShape(s);
    if actions != [] {
      NoteKeepsBook(s, b, actions[0]);
      ApplyKeepsInv(s, actions[0]);
      RunKeepsBook(Apply(s, actions[0]), Note(s, b, actions[0]), actions[1..]);
    }
  }

  /** In every run each event in the ring comes from a call of its own, and an event that comes
      from a push, delivered or not, holds exactly the bytes that push was called with. */
  lemma EveryRunKeepsPushedBytes(ringSize: nat, mem: seq<byte>, producers: nat, consumers: nat, actions: seq<Action>)
    requires RingSize(ringSize) && |mem| == ringSize
    ensures var s0 := Init(ringSize, mem, producers, consumers);
            var s, b := Run(s0, actions), NoteAll(s0, EMPTY, actions);
            && |b.ofEvent| == |s.log|
            && (forall i :: 0 <= i < |s.log| ==> b.ofEvent[i] < |b.calls|)
            && (forall i, j :: 0 <= i < j < |s.log| ==> b.ofEvent[i] != b.ofEvent[j])
            && (forall i :: 0 <= i < |s.log| ==> ComesFrom(s.log[i].bytes, b.calls[b.ofEvent[i]]))
            && |s.delivered| <= |s.log|
            && (forall i :: 0 <= i < |s.delivered| ==> ComesFrom(s.delivered[i], b.calls[b.ofEvent[i]]))
  {
    hide Inv, Run, NoteAll;
    var s0 := Init(ringSize, mem, producers, consumers);
    InitInv(ringSize, mem, producers, consumers);
    RunKeepsBook(s0, EMPTY, actions);
    EveryRunIsFifo(ringSize, mem, producers, consumers, actions);
    var s := Run(s0, actions);
    assert forall i :: 0 <= i < |s.delivered| ==> s.delivered[i] == Accepted(s)[i] == s.log[i].bytes;
  }
}

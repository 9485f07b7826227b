/** What a thread sees that reads the two pointers of the ring one after the other, without a lock,
    while producers and consumers go on: octf_trace_get_free_space and octf_trace_is_empty. Such
    a thread changes nothing, so it is given by the state at its first read and the actions
    that others take until its second. */
module RingObserver {
  import opened Bytes
  import opened Common
  import opened RingLayout
  import opened RingMemory
  import opened RingProtocol

  // ---------------------------------------------------------------- pointers and whole laps

  /** The read pointer is the virtual read position, less whole laps. */
  ghost predicate Lapped(s: State) {
    Inv(s) && s.vr >= 0 && s.rd == Modulo(s.vr, s.ringSize)
  }

  lemma {:induction false} ModuloOfSum(base: nat, x: nat, n: nat)
    requires n > 0 && Modulo(base, n) == 0
    ensures Modulo(base + x, n) == Modulo(x, n)
    decreases base
  {
    if base > 0 {
      ModuloOfSum(base - n, x, n);
    }
  }

  lemma {:induction false} ModuloDown(x: nat, n: nat)
    requires n > 0
    ensures Modulo(x, n) <= x && Modulo(x - Modulo(x, n), n) == 0
    decreases x
  {
    if x >= n {
      ModuloDown(x - n, n);
    }
  }

  lemma PhysIsModulo(vr: nat, v: nat, n: nat)
    requires n > 0 && vr <= v <= vr + n
    ensures Modulo(vr, n) <= vr
    ensures Phys(n, vr - Modulo(vr, n), v) == Modulo(v, n)
  {
    ModuloDown(vr, n);
    var base := vr - Modulo(vr, n);
    ModuloOfSum(base, v - base, n);
  }

  lemma WritePointerLaps(s: State)
    requires Lapped(s)
    ensures s.ringSize > 0 && s.vr <= s.vw < s.vr + s.ringSize && s.wr == Modulo(s.vw, s.ringSize) && s.rd < s.ringSize && s.wr < s.ringSize
  {
    hide Modulo, Memory, History, Threads, Locks;
    PhysIsModulo(s.vr, s.vw, s.ringSize);
  }

  lemma InitLapped(ringSize: nat, mem: seq<byte>, producers: nat, consumers: nat)
    requires RingSize(ringSize) && |mem| == ringSize
    ensures Lapped(Init(ringSize, mem, producers, consumers))
  {
  }

  /** One action moves the virtual positions forward only. */
  lemma StepLaps(s: State, a: Action)
    requires Lapped(s)
    ensures Shape(s) && Lapped(Apply(s, a)) && s.vr <= Apply(s, a).vr && s.vw <= Apply(s, a).vw
  {
    hide Inv, Modulo, StepProducer, StepConsumer, StepFill, Unwritten;
    InvShape(s);
    ApplyKeepsInv(s, a);
    match a {
      case ProducerStep(t) =>
        if t < |s.producers| {
          ProducerMovesWriter(s, t);
        }
      case Fill(t, k, b) =>
        if t < |s.producers| {
          FillMovesNothing(s, t, k, b);
        }
      case ConsumerStep(c) =>
        if c < |s.consumers| {
          ConsumerMovesReader(s, c);
        }
      case _ =>
    }
  }

  lemma FillMovesNothing(s: State, t: nat, k: nat, b: byte)
    requires Shape(s) && t < |s.producers|
    ensures var s' := StepFill(s, t, k, b); s'.vr == s.vr && s'.rd == s.rd && s'.vw == s.vw
  {
    hide RingSize, Patch;
  }

  lemma ProducerMovesWriter(s: State, t: nat)
    requires Inv(s) && t < |s.producers|
    ensures Shape(s) && var s' := StepProducer(s, t); s'.vr == s.vr && s'.rd == s.rd && s.vw <= s'.vw
  {
    hide Geometry, Memory, History, Locks, RingSize, WithReady, WithPtr, WithSize, Patch, MoveOf, IntegrityCheck, HdrSize, Phys, Align;
    assert ProducerOk(s, t, s.producers[t]);
  }

  lemma ConsumerMovesReader(s: State, c: nat)
    requires Lapped(s) && c < |s.consumers|
    ensures Shape(s)
    ensures var s' := StepConsumer(s, c);
            s'.vr >= s.vr && s'.vw == s.vw && s'.ringSize == s.ringSize && s'.rd == Modulo(s'.vr, s.ringSize)
  {
    hide Inv, Modulo;
    InvShape(s);
    if s.consumers[c].CMove? {
      ReleaseMovesReader(s, c);
    } else {
      LookingMovesNothing(s, c);
    }
  }

  lemma ReleaseMovesReader(s: State, c: nat)
    requires Lapped(s) && c < |s.consumers| && s.consumers[c].CMove?
    ensures Shape(s)
    ensures var s' := StepConsumer(s, c);
            s'.vr >= s.vr && s'.vw == s.vw && s'.ringSize == s.ringSize && s'.rd == Modulo(s'.vr, s.ringSize)
  {
    hide Modulo, MovePtr, LookOf, Memory, Locks, History, Align;
    assert ConsumerOk(s, s.consumers[c]);
    var live := Live(s.log, s.head);
    ReleaseKeepsLayout(s.ringSize, s.vr, s.vw, s.rd, s.wr, live);
    PhysIsModulo(s.vr, live[0].End(), s.ringSize);
  }

  lemma {:induction false} RunLaps(s: State, actions: seq<Action>)
    requires Lapped(s)
    ensures Shape(s) && Lapped(Run(s, actions)) && s.vr <= Run(s, actions).vr && s.vw <= Run(s, actions).vw
    decreases |actions|
  {
    hide Lapped, Apply;
    LappedShape(s);
    if actions != [] {
      StepLaps(s, actions[0]);
      RunLaps(Apply(s, actions[0]), actions[1..]);
    }
  }

  lemma LappedShape(s: State)
    requires Lapped(s)
    ensures Inv(s) && Shape(s)
  {}

  lemma {:induction false} RunSplits(s: State, actions: seq<Action>, k: nat)
    requires Shape(s) && k <= |actions|
    ensures Run(s, actions) == Run(Run(s, actions[..k]), actions[k..])
    decreases k
  {
    if k == 0 {
      assert actions[..0] == [] && actions[0..] == actions;
    } else {
      RunSplits(Apply(s, actions[0]), actions[1..], k - 1);
      assert actions[1..][..k - 1] == actions[..k][1..] && actions[1..][k - 1..] == actions[k..];
      assert actions[..k][0] == actions[0];
    }
  }

  /** The state k actions after the first read. */
  function Between(s: State, actions: seq<Action>, k: nat): State
    requires Shape(s) && k <= |actions|
  {
    Run(s, actions[..k])
  }

  lemma BetweenBounds(s: State, actions: seq<Action>, k: nat)
    requires Lapped(s) && k <= |actions|
    ensures Shape(s)
    ensures var m, e := Between(s, actions, k), Run(s, actions);
            Lapped(m) && m.ringSize == s.ringSize && s.vr <= m.vr <= e.vr && s.vw <= m.vw <= e.vw
  {
    hide Lapped, Run;
    RunLaps(s, actions[..k]);
    RunSplits(s, actions, k);
    RunLaps(Run(s, actions[..k]), actions[k..]);
  }

  // ---------------------------------------------------------------- get_free_space

  /** octf_trace_get_free_space reads wr_ptr first and rd_ptr after the actions. */
  function FreeSpaceSeen(s: State, actions: seq<Action>): int
    requires Shape(s)
  {
    FreeSpace(s.ringSize, Run(s, actions).rd, s.wr)
  }

  function FreeSpaceOf(m: State): int {
    FreeSpace(m.ringSize, m.rd, m.wr)
  }

  lemma FreeSpaceIs(m: State)
    requires Lapped(m)
    ensures m.rd < m.ringSize && m.wr < m.ringSize && FreeSpaceOf(m) == m.ringSize - 1 - (m.vw - m.vr)
  {
    hide Inv, Modulo;
    WritePointerLaps(m);
    InUse(m.vr, m.vw, m.ringSize);
  }

  /** The distance of two positions less than a lap apart, from their offsets. */
  lemma InUse(vr: nat, vw: nat, n: nat)
    requires n > 0 && vr <= vw < vr + n
    ensures var rd, wr := Modulo(vr, n), Modulo(vw, n);
            vw - vr == if wr >= rd then wr - rd else wr - rd + n
  {
    hide Modulo;
    PhysIsModulo(vr, vw, n);
  }

  /** The consumers have not yet overtaken the write position that was read: the answer is the
      free space of a state between the two reads if and only if in that state everything had
      been released that was to be, and nothing published. It is never too low. */
  lemma FreeSpaceSeenBetween(s: State, actions: seq<Action>, k: nat)
    requires Lapped(s) && Shape(s) && Run(s, actions).vr <= s.vw && k <= |actions|
    ensures s.wr < s.ringSize && Run(s, actions).rd < s.ringSize
    ensures var m := Between(s, actions, k);
            && m.rd < m.ringSize && m.wr < m.ringSize
            && FreeSpaceOf(m) <= FreeSpaceSeen(s, actions) == s.ringSize - 1 - (s.vw - Run(s, actions).vr)
            && (FreeSpaceSeen(s, actions) == FreeSpaceOf(m) <==> m.vw == s.vw && m.vr == Run(s, actions).vr)
  {
    hide Inv, Run, Modulo;
    var e := Run(s, actions);
    BetweenBounds(s, actions, k);
    RunLaps(s, actions);
    WritePointerLaps(s);
    WritePointerLaps(e);
    InUse(e.vr, s.vw, s.ringSize);
    FreeSpaceIs(Between(s, actions, k));
  }

  /** Whatever happens between the reads, the answer is that of a state if and only if what is in
      use there leads from the read position that was read to the write position that was read,
      less whole laps. */
  lemma FreeSpaceSeenIff(s: State, actions: seq<Action>, k: nat)
    requires Lapped(s) && Shape(s) && k <= |actions|
    ensures s.wr < s.ringSize && Run(s, actions).rd < s.ringSize
    ensures var m, e := Between(s, actions, k), Run(s, actions);
            && m.rd < m.ringSize && m.wr < m.ringSize && 0 <= m.vw - m.vr && 0 <= e.vr && 0 <= s.vw
            && (FreeSpaceSeen(s, actions) == FreeSpaceOf(m) <==>
                  Modulo(e.vr + (m.vw - m.vr), s.ringSize) == Modulo(s.vw, s.ringSize))
  {
    hide Inv, Run, Modulo;
    var e, m := Run(s, actions), Between(s, actions, k);
    BetweenBounds(s, actions, k);
    RunLaps(s, actions);
    WritePointerLaps(s);
    WritePointerLaps(e);
    WritePointerLaps(m);
    FreeSpaceIs(m);
    InUse(e.vr, e.vr + (m.vw - m.vr), s.ringSize);
  }

  // ---------------------------------------------------------------- is_empty

  /** octf_trace_is_empty reads rd_ptr first and wr_ptr after the actions. */
  predicate EmptySeen(s: State, actions: seq<Action>) {
    Shape(s) && s.rd == Run(s, actions).wr
  }

  predicate EmptyIn(m: State) { m.vr == m.vw }

  /** The answer is that there is nothing if and only if the write position read is whole laps
      ahead of the read position read. An answer that there is something is true in some state
      between the reads. An answer that there is nothing is true in all of them, provided less than one lap has been published
      since the read position that was read; it is given then exactly if nothing has. */
  lemma EmptySeenBetween(s: State, actions: seq<Action>)
    requires Lapped(s) && Shape(s)
    ensures 0 <= s.vr && 0 <= Run(s, actions).vw
    ensures EmptySeen(s, actions) <==> Modulo(s.vr, s.ringSize) == Modulo(Run(s, actions).vw, s.ringSize)
    ensures !EmptySeen(s, actions) ==> exists k :: 0 <= k <= |actions| && !EmptyIn(Between(s, actions, k))
    ensures Run(s, actions).vw < s.vr + s.ringSize ==>
              && (EmptySeen(s, actions) <==> Run(s, actions).vw == s.vr)
              && (EmptySeen(s, actions) ==> forall k :: 0 <= k <= |actions| ==> EmptyIn(Between(s, actions, k)))
  {
    hide Inv, Run, Modulo;
    var e := Run(s, actions);
    RunLaps(s, actions);
    WritePointerLaps(s);
    WritePointerLaps(e);
    if e.vw < s.vr + s.ringSize {
      InUse(s.vr, e.vw, s.ringSize);
      forall k | 0 <= k <= |actions| && e.vw == s.vr
        ensures EmptyIn(Between(s, actions, k))
      {
        BetweenBounds(s, actions, k);
        WritePointerLaps(Between(s, actions, k));
      }
    }
    if s.rd != e.wr {
      SomethingBetween(s, actions);
    }
  }

  /** If the positions read differ, something was in the ring at some moment. */
  lemma {:induction false} SomethingBetween(s: State, actions: seq<Action>)
    requires Lapped(s) && Shape(s) && s.rd != Run(s, actions).wr
    ensures exists k :: 0 <= k <= |actions| && !EmptyIn(Between(s, actions, k))
    decreases |actions|
  {
    if s.vr != s.vw || actions == [] {
      WritePointerLaps(s);
      assert actions[..0] == [];
      assert !EmptyIn(Between(s, actions, 0));
    } else {
      var s1 := Apply(s, actions[0]);
      StepLaps(s, actions[0]);
      WritePointerLaps(s);
      WritePointerLaps(s1);
      if s1.vr == s1.vw == s.vr {
        SomethingBetween(s1, actions[1..]);
        var k :| 0 <= k <= |actions[1..]| && !EmptyIn(Between(s1, actions[1..], k));
        LaterBetween(s, actions, k);
      } else {
        EmptyReadKeepsReader(s, actions[0]);
        assert actions[..1] == [actions[0]] && Run(s, [actions[0]]) == s1;
        assert !EmptyIn(Between(s, actions, 1));
      }
    }
  }

  lemma LaterBetween(s: State, actions: seq<Action>, k: nat)
    requires Shape(s) && actions != [] && k <= |actions| - 1
    ensures Between(Apply(s, actions[0]), actions[1..], k) == Between(s, actions, k + 1)
  {
    assert actions[..k + 1][0] == actions[0] && actions[..k + 1][1..] == actions[1..][..k];
  }

  /** Nothing is released from an empty ring. */
  lemma EmptyReadKeepsReader(s: State, a: Action)
    requires Lapped(s) && Shape(s) && s.vr == s.vw
    ensures Apply(s, a).vr == s.vr
  {
    hide Modulo, Memory, Locks, History, StepProducer, StepFill, LookOf, Layout;
    match a {
      case ConsumerStep(c) =>
        if c < |s.consumers| {
          NobodyReleases(s, c);
          LookingMovesNothing(s, c);
        }
      case ProducerStep(t) =>
        if t < |s.producers| {
          ProducerMovesWriter(s, t);
        }
      case Fill(t, k, b) =>
        if t < |s.producers| {
          FillMovesNothing(s, t, k, b);
        }
      case _ =>
    }
  }

  lemma NobodyReleases(s: State, c: nat)
    requires Inv(s) && s.vr == s.vw && c < |s.consumers|
    ensures Shape(s) && !s.consumers[c].CMove?
  {
    NothingLive(s);
    assert ConsumerOk(s, s.consumers[c]);
  }

  lemma LookingMovesNothing(s: State, c: nat)
    requires Shape(s) && c < |s.consumers| && !s.consumers[c].CMove?
    ensures var s' := StepConsumer(s, c); s'.vr == s.vr && s'.rd == s.rd && s'.vw == s.vw && s'.ringSize == s.ringSize
  {
    hide RingSize, LookOf;
  }

  lemma NothingLive(s: State)
    requires Shape(s) && Geometry(s) && s.vr == s.vw
    ensures s.head == |s.log|
  {
    SlotsTakeRoom(s.ringSize, s.vr, s.vw, s.rd, s.wr, Live(s.log, s.head));
  }

  lemma SlotsTakeRoom(ringSize: nat, vr: int, vw: int, rdp: nat, wrp: nat, slots: seq<Slot>)
    requires Layout(ringSize, vr, vw, rdp, wrp, slots)
    ensures slots != [] ==> vr < vw
  {
    if slots != [] {
      assert SlotFits(ringSize, vr - rdp, vr, vw, slots[0]);
    }
  }
}

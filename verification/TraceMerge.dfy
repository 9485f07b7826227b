/** The trace parser's merge of the per-queue files: a std::set holds the next event of every
    queue, ordered by the caller's compare function. */
module TraceMerge {
  import opened Common

  /** An event; `key` is its rank in the order of the compare function. */
  datatype Event = Event(key: int, data: seq<int>)

  /** EventInfo: an event and the queue it was read from. */
  datatype EventInfo = EventInfo(queue: nat, event: Event)

  /** The unread events of every reader, and m_events in the order of the set. */
  datatype Merge = Merge(readers: seq<seq<Event>>, heads: seq<EventInfo>)

  /** std::set::insert: an element with an equivalent key keeps the new one out. */
  function SetInsert(heads: seq<EventInfo>, info: EventInfo): (r: seq<EventInfo>)
    ensures |heads| <= |r| <= |heads| + 1
    ensures forall x :: x in r ==> x == info || x in heads
  {
    if heads == [] || info.event.key < heads[0].event.key then [info] + heads
    else if info.event.key == heads[0].event.key then heads
    else [heads[0]] + SetInsert(heads[1..], info)
  }

  /** Reads the next event of queue q, if there is one, into the set. */
  function Refill(m: Merge, q: nat): Merge {
    if q >= |m.readers| || m.readers[q] == [] then m
    else Merge(m.readers[q := m.readers[q][1..]], SetInsert(m.heads, EventInfo(q, m.readers[q][0])))
  }

  /** init: the heads of the first i queues are loaded. */
  function Loaded(queues: seq<seq<Event>>, i: nat): (m: Merge)
    requires i <= |queues|
    ensures |m.readers| == |queues|
  {
    if i == 0 then Merge(queues, []) else Refill(Loaded(queues, i - 1), i - 1)
  }

  function Init(queues: seq<seq<Event>>): (m: Merge)
    ensures |m.readers| == |queues|
  {
    Loaded(queues, |queues|)
  }

  predicate Shape(m: Merge) {
    forall i :: 0 <= i < |m.heads| ==> m.heads[i].queue < |m.readers|
  }

  /** parseTraceEvent on a non-empty set: the smallest event goes out. */
  function Next(m: Merge): Merge {
    if m.heads == [] then m else Refill(m.(heads := m.heads[1..]), m.heads[0].queue)
  }

  /** isFinished. */
  predicate Finished(m: Merge) {
    m.heads == [] && forall q :: 0 <= q < |m.readers| ==> m.readers[q] == []
  }

  function Total(queues: seq<seq<Event>>): nat {
    if queues == [] then 0 else |queues[0]| + Total(queues[1..])
  }

  function Size(m: Merge): nat { |m.heads| + Total(m.readers) }

  lemma {:induction false} TotalUpdate(queues: seq<seq<Event>>, q: nat, r: seq<Event>)
    requires q < |queues|
    ensures Total(queues[q := r]) + |queues[q]| == Total(queues) + |r|
    decreases q
  {
    if q == 0 {
      assert queues[q := r][1..] == queues[1..];
    } else {
      assert queues[q := r][1..] == queues[1..][q - 1 := r];
      TotalUpdate(queues[1..], q - 1, r);
    }
  }

  lemma {:induction false} TotalEmpty(queues: seq<seq<Event>>)
    ensures Total(queues) == 0 <==> forall q :: 0 <= q < |queues| ==> queues[q] == []
  {
    if queues != [] {
      TotalEmpty(queues[1..]);
      assert forall q :: 1 <= q < |queues| ==> queues[q] == queues[1..][q - 1];
    }
  }

  predicate HasKey(heads: seq<EventInfo>, key: int) {
    exists i :: 0 <= i < |heads| && heads[i].event.key == key
  }

  predicate Sorted(heads: seq<EventInfo>) {
    forall i, j :: 0 <= i < j < |heads| ==> heads[i].event.key < heads[j].event.key
  }

  /** The events of one queue, in the order of the list. */
  function FromQueue(infos: seq<EventInfo>, q: nat): seq<Event> {
    if infos == [] then []
    else (if infos[0].queue == q then [infos[0].event] else []) + FromQueue(infos[1..], q)
  }

  lemma {:induction false} Member(infos: seq<EventInfo>, i: nat)
    requires i < |infos|
    ensures infos[i].event in FromQueue(infos, infos[i].queue)
    decreases i
  {
    if i > 0 {
      Member(infos[1..], i - 1);
    }
  }

  lemma {:induction false} InsertSorted(heads: seq<EventInfo>, info: EventInfo)
    requires Sorted(heads)
    ensures Sorted(SetInsert(heads, info))
    decreases |heads|
  {
    if heads != [] && info.event.key > heads[0].event.key {
      InsertSorted(heads[1..], info);
      var r := SetInsert(heads[1..], info);
      forall j | 0 <= j < |r|
        ensures heads[0].event.key < r[j].event.key
      {
        assert r[j] in r;
      }
    }
  }

  /** Insertion does nothing exactly when the key is present. */
  lemma {:induction false} InsertCollides(heads: seq<EventInfo>, info: EventInfo)
    requires Sorted(heads)
    ensures HasKey(heads, info.event.key) ==> SetInsert(heads, info) == heads
    ensures !HasKey(heads, info.event.key) ==> |SetInsert(heads, info)| == |heads| + 1
    decreases |heads|
  {
    if heads != [] {
      if info.event.key > heads[0].event.key {
        InsertCollides(heads[1..], info);
      }
    }
  }

  lemma {:induction false} InsertFromQueue(heads: seq<EventInfo>, info: EventInfo, q: nat)
    requires !HasKey(heads, info.event.key) && FromQueue(heads, info.queue) == []
    ensures FromQueue(SetInsert(heads, info), q) == if q == info.queue then [info.event] else FromQueue(heads, q)
    decreases |heads|
  {
    if heads == [] || info.event.key < heads[0].event.key {
      assert ([info] + heads)[1..] == heads;
    } else {
      InsertFromQueue(heads[1..], info, q);
      assert SetInsert(heads, info)[1..] == SetInsert(heads[1..], info);
    }
  }

  // ---------------------------------------------------------------- the merge

  /** Events of queue q still to come. */
  function Pending(m: Merge, q: nat): seq<Event> {
    FromQueue(m.heads, q) + if q < |m.readers| then m.readers[q] else []
  }

  function Keys(s: seq<Event>): set<int> {
    set e | e in s :: e.key
  }

  /** No key occurs in two queues. */
  predicate Distinct(queues: seq<seq<Event>>) {
    forall q, r :: 0 <= q < r < |queues| ==> Keys(queues[q]) !! Keys(queues[r])
  }

  function AllPending(m: Merge): (p: seq<seq<Event>>)
    ensures |p| == |m.readers| && forall q :: 0 <= q < |p| ==> p[q] == Pending(m, q)
  {
    seq(|m.readers|, q requires 0 <= q < |m.readers| => Pending(m, q))
  }

  /** The set is in order and holds at most one event of each queue; it holds one of each of
      the first n queues that has unread events, and none of the others. */
  predicate OkUpTo(m: Merge, n: nat) {
    && Shape(m) && Sorted(m.heads)
    && forall q :: 0 <= q < |m.readers| ==>
         && |FromQueue(m.heads, q)| <= (if q < n then 1 else 0)
         && (q < n && m.readers[q] != [] ==> FromQueue(m.heads, q) != [])
  }

  predicate Ok(m: Merge) { OkUpTo(m, |m.readers|) }

  /** Refilling from q loses an event exactly when an equal key is in the set. */
  lemma RefillSize(m: Merge, q: nat)
    requires q < |m.readers| && Shape(m) && Sorted(m.heads)
    ensures Size(Refill(m, q)) <= Size(m)
    ensures Size(Refill(m, q)) == Size(m) <==> m.readers[q] == [] || !HasKey(m.heads, m.readers[q][0].key)
    ensures Shape(Refill(m, q)) && Sorted(Refill(m, q).heads)
    ensures |Refill(m, q).readers| == |m.readers|
  {
    hide HasKey, Sorted, SetInsert, Total;
    if m.readers[q] != [] {
      var info := EventInfo(q, m.readers[q][0]);
      InsertSorted(m.heads, info);
      InsertCollides(m.heads, info);
      TotalUpdate(m.readers, q, m.readers[q][1..]);
      var m' := Refill(m, q);
      forall i | 0 <= i < |m'.heads|
        ensures m'.heads[i].queue < |m.readers|
      {
        assert m'.heads[i] in SetInsert(m.heads, info);
      }
    }
  }

  /** A refill that loses nothing moves one event of q into the set and touches no other queue. */
  lemma RefillKeeps(m: Merge, q: nat)
    requires q < |m.readers| && Shape(m) && Sorted(m.heads) && FromQueue(m.heads, q) == []
    requires Size(Refill(m, q)) == Size(m)
    ensures var m' := Refill(m, q);
            && |m'.readers| == |m.readers|
            && (forall r :: 0 <= r < |m.readers| ==> Pending(m', r) == Pending(m, r))
            && (forall r :: 0 <= r < |m.readers| && r != q ==>
                  FromQueue(m'.heads, r) == FromQueue(m.heads, r) && m'.readers[r] == m.readers[r])
            && |FromQueue(m'.heads, q)| <= 1
            && (m'.readers[q] != [] ==> FromQueue(m'.heads, q) != [])
  {
    hide HasKey, Sorted, SetInsert, Total, FromQueue, Shape;
    RefillSize(m, q);
    if m.readers[q] != [] {
      var info, m' := EventInfo(q, m.readers[q][0]), Refill(m, q);
      forall r: nat | r < |m.readers|
        ensures FromQueue(m'.heads, r) == if r == q then [info.event] else FromQueue(m.heads, r)
      {
        InsertFromQueue(m.heads, info, r);
      }
      assert Pending(m', q) == [info.event] + m.readers[q][1..] == m.readers[q];
      assert Pending(m, q) == m.readers[q];
    }
  }

  lemma KeyOf(s: seq<Event>, e: Event)
    requires e in s
    ensures e.key in Keys(s)
  {}

  /** With distinct keys nothing in the set can keep the next event of q out. */
  lemma NothingKeepsOut(m: Merge, q: nat)
    requires q < |m.readers| && Shape(m) && FromQueue(m.heads, q) == [] && m.readers[q] != []
    requires Distinct(AllPending(m))
    ensures !HasKey(m.heads, m.readers[q][0].key)
  {
    var p := AllPending(m);
    forall i | 0 <= i < |m.heads|
      ensures m.heads[i].event.key != m.readers[q][0].key
    {
      var r := m.heads[i].queue;
      Member(m.heads, i);
      assert r != q;
      KeyOf(p[r], m.heads[i].event);
      assert Keys(p[if r < q then r else q]) !! Keys(p[if r < q then q else r]);
    }
  }

  /** The state between the erase and the insert of one parse. */
  function Popped(m: Merge): Merge {
    if m.heads == [] then m else m.(heads := m.heads[1..])
  }

  lemma PopEffect(m: Merge)
    requires Ok(m) && m.heads != []
    ensures var q, p := m.heads[0].queue, Popped(m);
            && Shape(p) && Sorted(p.heads) && Size(p) == Size(m) - 1
            && FromQueue(p.heads, q) == []
            && Pending(m, q) == [m.heads[0].event] + Pending(p, q)
            && forall r :: 0 <= r < |m.readers| && r != q ==>
                 FromQueue(p.heads, r) == FromQueue(m.heads, r) && Pending(m, r) == Pending(p, r)
  {
    hide Total;
    var q, p := m.heads[0].queue, Popped(m);
    assert FromQueue(m.heads, q) == [m.heads[0].event] + FromQueue(p.heads, q);
    forall i, j | 0 <= i < j < |p.heads|
      ensures p.heads[i].event.key < p.heads[j].event.key
    {
      assert p.heads[i] == m.heads[i + 1] && p.heads[j] == m.heads[j + 1];
    }
    forall i | 0 <= i < |p.heads|
      ensures p.heads[i].queue < |m.readers|
    {
      assert p.heads[i] == m.heads[i + 1];
    }
  }

  /** One parse shrinks the merge by at least one; by exactly one when nothing is lost, and then
      the parsed event leaves its queue and every other queue keeps its events. */
  lemma NextEffect(m: Merge)
    requires Ok(m) && m.heads != []
    ensures var n := Next(m);
            && Size(n) <= Size(m) - 1 && |n.readers| == |m.readers|
            && (Size(n) == Size(m) - 1 ==>
                  && Ok(n) && Shape(n)
                  && forall q :: 0 <= q < |m.readers| ==>
                       Pending(m, q) == (if q == m.heads[0].queue then [m.heads[0].event] else []) + Pending(n, q))
  {
    hide HasKey, Sorted, SetInsert, Total, FromQueue, Pending;
    PopEffect(m);
    var p, q := Popped(m), m.heads[0].queue;
    RefillSize(p, q);
    if Size(Next(m)) == Size(m) - 1 {
      RefillKeeps(p, q);
    }
  }

  lemma DistinctTail(p: seq<seq<Event>>, p': seq<seq<Event>>)
    requires |p'| == |p| && Distinct(p)
    requires forall q :: 0 <= q < |p| ==> Keys(p'[q]) <= Keys(p[q])
    ensures Distinct(p')
  {}

  /** With distinct keys one parse loses nothing and leaves distinct keys. */
  lemma NextDistinct(m: Merge)
    requires Ok(m) && m.heads != [] && Distinct(AllPending(m))
    ensures var n := Next(m);
            && Ok(n) && Shape(n) && Size(n) == Size(m) - 1 && |n.readers| == |m.readers|
            && Distinct(AllPending(n))
            && forall q :: 0 <= q < |m.readers| ==>
                 Pending(m, q) == (if q == m.heads[0].queue then [m.heads[0].event] else []) + Pending(n, q)
  {
    hide HasKey, Sorted, SetInsert, Total, FromQueue, Pending, Distinct;
    PopEffect(m);
    var p, q := Popped(m), m.heads[0].queue;
    forall r | 0 <= r < |m.readers|
      ensures Keys(AllPending(p)[r]) <= Keys(AllPending(m)[r])
    {
    }
    DistinctTail(AllPending(m), AllPending(p));
    RefillSize(p, q);
    if p.readers[q] != [] {
      NothingKeepsOut(p, q);
    }
    NextEffect(m);
    RefillKeeps(p, q);
    assert AllPending(Next(m)) == AllPending(p);
  }

  // ---------------------------------------------------------------- loading

  lemma {:induction false} LoadedSize(queues: seq<seq<Event>>, i: nat)
    requires i <= |queues|
    ensures var m := Loaded(queues, i);
            && Shape(m) && Sorted(m.heads) && Size(m) <= Total(queues)
            && (forall q :: i <= q < |queues| ==> FromQueue(m.heads, q) == [] && m.readers[q] == queues[q])
    ensures i > 0 && Size(Loaded(queues, i)) == Total(queues) ==> Size(Loaded(queues, i - 1)) == Total(queues)
    decreases i
  {
    if i > 0 {
      LoadedSize(queues, i - 1);
      LoadOne(queues, i);
    }
  }

  lemma LoadOne(queues: seq<seq<Event>>, i: nat)
    requires 0 < i <= |queues|
    requires var m := Loaded(queues, i - 1);
             && Shape(m) && Sorted(m.heads) && Size(m) <= Total(queues)
             && (forall q :: i - 1 <= q < |queues| ==> FromQueue(m.heads, q) == [] && m.readers[q] == queues[q])
    ensures var m := Loaded(queues, i);
            && Shape(m) && Sorted(m.heads) && Size(m) <= Size(Loaded(queues, i - 1))
            && (forall q :: i <= q < |queues| ==> FromQueue(m.heads, q) == [] && m.readers[q] == queues[q])
  {
    hide Sorted, SetInsert, Total, FromQueue;
    var m := Loaded(queues, i - 1);
    RefillSize(m, i - 1);
    if m.readers[i - 1] != [] {
      forall q: nat | i <= q < |queues|
        ensures FromQueue(Loaded(queues, i).heads, q) == []
      {
        OtherQueueAbsent(m.heads, EventInfo(i - 1, m.readers[i - 1][0]), q);
      }
    }
  }

  lemma {:induction false} OtherQueueAbsent(heads: seq<EventInfo>, info: EventInfo, q: nat)
    requires info.queue != q && FromQueue(heads, q) == []
    ensures FromQueue(SetInsert(heads, info), q) == []
    decreases |heads|
  {
    if heads == [] || info.event.key < heads[0].event.key {
      assert ([info] + heads)[1..] == heads;
    } else if info.event.key > heads[0].event.key {
      OtherQueueAbsent(heads[1..], info, q);
      assert SetInsert(heads, info)[1..] == SetInsert(heads[1..], info);
    }
  }

  lemma LoadedNone(queues: seq<seq<Event>>)
    ensures OkUpTo(Loaded(queues, 0), 0) && AllPending(Loaded(queues, 0)) == queues
  {
    var m := Loaded(queues, 0);
    assert m == Merge(queues, []) && FromQueue(m.heads, 0) == [];
    assert forall q: nat :: q < |queues| ==> Pending(m, q) == queues[q];
  }

  /** Loading that loses nothing leaves every queue's events pending. */
  lemma {:induction false} LoadedKeeps(queues: seq<seq<Event>>, i: nat)
    requires i <= |queues| && Size(Loaded(queues, i)) == Total(queues)
    ensures OkUpTo(Loaded(queues, i), i)
    ensures AllPending(Loaded(queues, i)) == queues
    decreases i
  {
    hide Sorted, SetInsert, Size, FromQueue, Pending, Shape;
    LoadedSize(queues, i);
    LoadedNone(queues);
    if i > 0 {
      LoadedSize(queues, i - 1);
      LoadedKeeps(queues, i - 1);
      var m := Loaded(queues, i - 1);
      RefillKeeps(m, i - 1);
      assert AllPending(Loaded(queues, i)) == AllPending(m);
    }
  }

  lemma {:induction false} LoadedDistinct(queues: seq<seq<Event>>, i: nat)
    requires i <= |queues| && Distinct(queues)
    ensures Size(Loaded(queues, i)) == Total(queues)
    decreases i
  {
    hide Sorted, SetInsert, Total, Distinct, HasKey, FromQueue;
    if i > 0 {
      LoadedDistinct(queues, i - 1);
      LoadedSize(queues, i - 1);
      LoadedKeeps(queues, i - 1);
      var m := Loaded(queues, i - 1);
      RefillSize(m, i - 1);
      if m.readers[i - 1] != [] {
        NothingKeepsOut(m, i - 1);
      }
    }
  }

  // ---------------------------------------------------------------- whole runs

  lemma SizeNext(m: Merge)
    requires m.heads != []
    ensures Size(Next(m)) < Size(m) && (Shape(m) ==> Shape(Next(m)))
  {
    hide Total, SetInsert;
    var q := m.heads[0].queue;
    if q < |m.readers| && m.readers[q] != [] {
      TotalUpdate(m.readers, q, m.readers[q][1..]);
      var m' := Next(m);
      forall i | 0 <= i < |m'.heads| && Shape(m)
        ensures m'.heads[i].queue < |m.readers|
      {
        assert m'.heads[i] in SetInsert(m.heads[1..], EventInfo(q, m.readers[q][0]));
      }
    }
  }

  /** The events a caller parses until the set is empty. */
  function Drain(m: Merge): (out: seq<EventInfo>)
    decreases Size(m)
  {
    if m.heads == [] then []
    else
      SizeNext(m);
      [m.heads[0]] + Drain(Next(m))
  }

  /** The state after k parses, or the first one with an empty set. */
  function After(m: Merge, k: nat): Merge
    decreases k
  {
    if k == 0 || m.heads == [] then m else After(Next(m), k - 1)
  }

  /** Without stuck queues nothing is left as soon as the set is empty. */
  lemma FinishedIffNothingLeft(m: Merge)
    ensures Finished(m) <==> Size(m) == 0
    ensures Ok(m) ==> (m.heads == [] <==> Size(m) == 0)
  {
    TotalEmpty(m.readers);
  }

  lemma {:induction false} DrainCounts(m: Merge)
    requires Shape(m) && Ok(m) && Distinct(AllPending(m))
    ensures |Drain(m)| == Size(m)
    decreases Size(m)
  {
    hide Sorted, SetInsert, Total, Distinct, OkUpTo;
    FinishedIffNothingLeft(m);
    if m.heads != [] {
      NextDistinct(m);
      DrainCounts(Next(m));
    }
  }

  lemma {:induction false} DrainComplete(m: Merge, q: nat)
    requires Shape(m) && Ok(m) && Distinct(AllPending(m)) && q < |m.readers|
    ensures FromQueue(Drain(m), q) == Pending(m, q)
    decreases Size(m)
  {
    hide Sorted, SetInsert, Total, Distinct, OkUpTo;
    FinishedIffNothingLeft(m);
    if m.heads == [] {
      FinishedIffNothingLeft(m);
    } else {
      NextDistinct(m);
      DrainComplete(Next(m), q);
      assert Drain(m)[1..] == Drain(Next(m));
    }
  }

  lemma {:induction false} AfterSize(m: Merge, k: nat)
    requires Shape(m) && Ok(m) && Distinct(AllPending(m)) && k <= Size(m)
    ensures Size(After(m, k)) == Size(m) - k
    decreases k
  {
    hide Sorted, SetInsert, Total, Distinct, OkUpTo;
    FinishedIffNothingLeft(m);
    if k > 0 {
      NextDistinct(m);
      AfterSize(Next(m), k - 1);
    }
  }

  /** Distinct keys: every event of every queue is parsed once, each queue in its own order, and
      isFinished turns true exactly when the last of them has been parsed. */
  lemma MergeIsComplete(queues: seq<seq<Event>>)
    requires Distinct(queues)
    ensures Shape(Init(queues)) && |Drain(Init(queues))| == Total(queues)
    ensures forall q :: 0 <= q < |queues| ==> FromQueue(Drain(Init(queues)), q) == queues[q]
    ensures forall k: nat :: k <= Total(queues) ==> (Finished(After(Init(queues), k)) <==> k == Total(queues))
  {
    hide Sorted, SetInsert, Total, Distinct, FromQueue;
    var m := Init(queues);
    LoadedSize(queues, |queues|);
    LoadedDistinct(queues, |queues|);
    LoadedKeeps(queues, |queues|);
    forall k: nat | k <= Total(queues)
      ensures Finished(After(m, k)) <==> k == Total(queues)
    {
      AfterSize(m, k);
      FinishedIffNothingLeft(After(m, k));
    }
    DrainCounts(m);
    forall q: nat | q < |queues|
      ensures FromQueue(Drain(m), q) == queues[q]
    {
      DrainComplete(m, q);
    }
  }

  // ---------------------------------------------------------------- order of the stream

  predicate NonDecreasing(s: seq<Event>) {
    forall i, j :: 0 <= i < j < |s| ==> s[i].key <= s[j].key
  }

  predicate StreamInOrder(s: seq<EventInfo>) {
    forall i, j :: 0 <= i < j < |s| ==> s[i].event.key <= s[j].event.key
  }

  /** Nothing in the set, and nothing unread behind an element of the set, is below key. */
  predicate Ahead(m: Merge) {
    && Shape(m)
    && (forall q :: 0 <= q < |m.readers| ==> NonDecreasing(m.readers[q]))
    && forall h, e :: h in m.heads && e in m.readers[h.queue] ==> h.event.key <= e.key
  }

  lemma RefillAhead(m: Merge, q: nat)
    requires Shape(m) && Ahead(m) && q < |m.readers|
    ensures Shape(Refill(m, q)) && Ahead(Refill(m, q))
  {
    hide SetInsert;
    if m.readers[q] != [] {
      var m', s := Refill(m, q), m.readers[q];
      var info := EventInfo(q, s[0]);
      forall i | 0 <= i < |m'.heads|
        ensures m'.heads[i].queue < |m.readers|
      {
        assert m'.heads[i] in SetInsert(m.heads, info);
      }
      forall h, e | h in m'.heads && e in m'.readers[h.queue]
        ensures h.event.key <= e.key
      {
        assert h == info || h in m.heads;
        assert e in m.readers[h.queue];
      }
    }
  }

  lemma {:induction false} LoadedAhead(queues: seq<seq<Event>>, i: nat)
    requires i <= |queues| && forall q :: 0 <= q < |queues| ==> NonDecreasing(queues[q])
    ensures Shape(Loaded(queues, i)) && Ahead(Loaded(queues, i)) && Sorted(Loaded(queues, i).heads)
    decreases i
  {
    hide NonDecreasing, Sorted, SetInsert;
    LoadedSize(queues, i);
    if i > 0 {
      LoadedAhead(queues, i - 1);
      RefillAhead(Loaded(queues, i - 1), i - 1);
    }
  }

  /** Parsing k leaves only events that are not below it. */
  lemma NextAhead(m: Merge)
    requires Shape(m) && Sorted(m.heads) && Ahead(m) && m.heads != []
    ensures var n := Next(m);
            && Shape(n) && Sorted(n.heads) && Ahead(n)
            && forall h :: h in n.heads ==> m.heads[0].event.key <= h.event.key
  {
    hide SetInsert, NonDecreasing;
    var p, q := Popped(m), m.heads[0].queue;
    assert Sorted(p.heads) by {
      forall i, j | 0 <= i < j < |p.heads|
        ensures p.heads[i].event.key < p.heads[j].event.key
      {
        assert p.heads[i] == m.heads[i + 1] && p.heads[j] == m.heads[j + 1];
      }
    }
    forall i | 0 <= i < |p.heads|
      ensures p.heads[i].queue < |m.readers|
    {
      assert p.heads[i] == m.heads[i + 1];
    }
    assert p.readers == m.readers && Next(m) == Refill(p, q);
    RefillAhead(p, q);
    RefillSize(p, q);
    hide Next, Popped, Sorted, Shape;
    forall h | h in Next(m).heads
      ensures m.heads[0].event.key <= h.event.key
    {
      assert h in p.heads || (m.readers[q] != [] && h.event == m.readers[q][0]);
    }
  }

  lemma {:induction false} DrainInOrder(m: Merge)
    requires Shape(m) && Sorted(m.heads) && Ahead(m)
    ensures StreamInOrder(Drain(m))
    ensures Drain(m) != [] ==> m.heads != [] && Drain(m)[0] == m.heads[0]
    decreases Size(m)
  {
    hide Ahead, Sorted, Size;
    if m.heads != [] {
      SizeNext(m);
      NextAhead(m);
      DrainInOrder(Next(m));
      var d := Drain(Next(m));
      assert Drain(m) == [m.heads[0]] + d;
      forall j | 0 <= j < |d|
        ensures m.heads[0].event.key <= d[j].event.key
      {
        assert d[0] in Next(m).heads;
        assert d[0].event.key <= d[j].event.key;
      }
    }
  }

  /** When every queue is in order the parsed stream is, whatever keys coincide. */
  lemma MergeIsInOrder(queues: seq<seq<Event>>)
    requires forall q :: 0 <= q < |queues| ==> NonDecreasing(queues[q])
    ensures Shape(Init(queues)) && StreamInOrder(Drain(Init(queues)))
  {
    hide NonDecreasing, Sorted, StreamInOrder, Ahead;
    LoadedAhead(queues, |queues|);
    DrainInOrder(Init(queues));
  }

  // ---------------------------------------------------------------- when nothing is lost

  lemma {:induction false} DrainBound(m: Merge)
    requires Shape(m)
    ensures |Drain(m)| <= Size(m)
    decreases Size(m)
  {
    if m.heads != [] {
      SizeNext(m);
      DrainBound(Next(m));
    }
  }

  /** The smallest key of the set occurs in no other queue. */
  lemma SmallestIsAlone(m: Merge, q: nat, e: Event)
    requires Ok(m) && Ahead(m) && m.heads != [] && q < |m.readers| && q != m.heads[0].queue
    requires e in Pending(m, q)
    ensures m.heads[0].event.key < e.key
  {
    hide Ahead;
    assert FromQueue(m.heads, q) != [];
    var i := Find(m.heads, q);
    assert i > 0;
    if e !in FromQueue(m.heads, q) {
      assert m.heads[i].event.key <= e.key by {
        AheadOf(m, m.heads[i], e);
      }
    } else {
      assert FromQueue(m.heads, q) == [m.heads[i].event];
    }
  }

  lemma AheadOf(m: Merge, h: EventInfo, e: Event)
    requires Shape(m) && Ahead(m) && h in m.heads && h.queue < |m.readers| && e in m.readers[h.queue]
    ensures h.event.key <= e.key
  {}

  /** The position of the first element of queue q. */
  ghost function Find(heads: seq<EventInfo>, q: nat): (i: nat)
    requires FromQueue(heads, q) != []
    ensures i < |heads| && heads[i].queue == q && FromQueue(heads, q)[0] == heads[i].event
  {
    if heads[0].queue == q then 0 else Find(heads[1..], q) + 1
  }

  lemma {:induction false} CompleteMeansDistinct(m: Merge)
    requires Ok(m) && Ahead(m) && |Drain(m)| == Size(m)
    ensures Distinct(AllPending(m))
    decreases Size(m)
  {
    hide Ahead, Sorted, Total, SetInsert;
    FinishedIffNothingLeft(m);
    if m.heads == [] {
      FinishedIffNothingLeft(m);
      assert forall q :: 0 <= q < |m.readers| ==> AllPending(m)[q] == [];
    } else {
      SizeNext(m);
      NextEffect(m);
      NextAhead(m);
      DrainBound(Next(m));
      CompleteMeansDistinct(Next(m));
      PrependKeepsDistinct(m);
    }
  }

  lemma PrependKeepsDistinct(m: Merge)
    requires Shape(m) && Ok(m) && Ahead(m) && m.heads != [] && Size(Next(m)) == Size(m) - 1
    requires Shape(Next(m)) && Distinct(AllPending(Next(m)))
    ensures Distinct(AllPending(m))
  {
    hide Ahead, Sorted, Total, SetInsert, FromQueue, Pending, OkUpTo;
    NextEffect(m);
    var p, p', h := AllPending(m), AllPending(Next(m)), m.heads[0];
    assert h.queue < |m.readers|;
    forall q | 0 <= q < |p|
      ensures Keys(p[q]) <= Keys(p'[q]) + (if q == h.queue then {h.event.key} else {})
      ensures q != h.queue ==> h.event.key !in Keys(p[q])
    {
      forall e: Event | e in p[q] && q != h.queue
        ensures h.event.key < e.key
      {
        SmallestIsAlone(m, q, e);
      }
    }
    forall q, r | 0 <= q < r < |p|
      ensures Keys(p[q]) !! Keys(p[r])
    {
      assert Keys(p'[q]) !! Keys(p'[r]);
    }
  }

  /** For queues in order the merge parses every event exactly when no key occurs in two
      queues. */
  lemma CompleteIffDistinct(queues: seq<seq<Event>>)
    requires forall q :: 0 <= q < |queues| ==> NonDecreasing(queues[q])
    ensures Shape(Init(queues))
    ensures |Drain(Init(queues))| == Total(queues) <==> Distinct(queues)
  {
    hide NonDecreasing, Sorted, Distinct, Ahead, Total, SetInsert;
    var m := Init(queues);
    LoadedAhead(queues, |queues|);
    LoadedSize(queues, |queues|);
    if Distinct(queues) {
      MergeIsComplete(queues);
    }
    DrainBound(m);
    if |Drain(m)| == Total(queues) {
      LoadedKeeps(queues, |queues|);
      CompleteMeansDistinct(m);
    }
  }

  /** Two queues holding the same key: one event is lost, and isFinished still turns true. */
  lemma EqualKeysLoseAnEvent(e: Event, f: Event)
    requires e.key == f.key
    ensures Shape(Init([[e], [f]])) && Drain(Init([[e], [f]])) == [EventInfo(0, e)]
    ensures Finished(After(Init([[e], [f]]), 1))
  {
    var queues := [[e], [f]];
    var m0, m1 := Merge(queues, []), Merge([[], [f]], [EventInfo(0, e)]);
    var none: seq<Event> := [];
    assert [e][1..] == none && [f][1..] == none;
    assert m0.readers[0 := none] == [[], [f]] && m1.readers[1 := none] == [[], []];
    assert SetInsert([], EventInfo(0, e)) == [EventInfo(0, e)] == SetInsert([EventInfo(0, e)], EventInfo(1, f));
    assert Refill(m0, 0) == m1;
    assert Refill(m1, 1) == Merge([[], []], [EventInfo(0, e)]);
    assert Loaded(queues, 0) == m0 && Loaded(queues, 1) == m1;
    var n := Next(Init(queues));
    assert n == Merge([[], []], []);
    assert After(Init(queues), 1) == n;
  }

  // ---------------------------------------------------------------- the parser

  class TraceFileParser {
    var readers: seq<seq<Event>>
    var events: seq<EventInfo>

    ghost function Contents(): Merge
      reads this
    {
      Merge(readers, events)
    }

    constructor (queues: seq<seq<Event>>)
      ensures Contents() == Init(queues) && Shape(Contents())
    {
      readers, events := queues, [];
      new;
      var i := 0;
      while i < |readers|
        invariant i <= |readers| == |queues| && Contents() == Loaded(queues, i) && Shape(Contents())
      {
        if readers[i] != [] {
          var info := EventInfo(i, readers[i][0]);
          readers := readers[i := readers[i][1..]];
          events := SetInsert(events, info);
          assert forall x: EventInfo :: x in events ==> x.queue < |readers|;
        }
        i := i + 1;
      }
    }

    /** Parsing from an empty set is refused. */
    method ParseTraceEvent() returns (ok: bool, event: Event)
      requires Shape(Contents())
      modifies this
      ensures ok == (old(events) != [])
      ensures !ok ==> Contents() == old(Contents())
      ensures ok ==> event == old(events[0].event) && Contents() == old(Next(Contents())) && Shape(Contents())
    {
      ok, event := events != [], Event(0, []);
      if ok {
        ghost var before := Contents();
        SizeNext(before);
        var smallest := events[0];
        event := smallest.event;
        events := events[1..];
        if readers[smallest.queue] != [] {
          var info := EventInfo(smallest.queue, readers[smallest.queue][0]);
          readers := readers[smallest.queue := readers[smallest.queue][1..]];
          events := SetInsert(events, info);
        }
      }
    }

    method IsFinished() returns (finished: bool)
      ensures finished == Finished(Contents())
    {
      for i := 0 to |readers|
        invariant forall q: nat :: q < i ==> readers[q] == []
      {
        if readers[i] != [] {
          return false;
        }
      }
      return events == [];
    }
  }

  lemma DrainIsAfter(m: Merge)
    requires Shape(m)
    ensures Finished(m) ==> Drain(m) == [] && After(m, 0) == m
    ensures m.heads == [] ==> Drain(m) == []
  {}

  /** The caller's loop, cancelled after `patience` events: it parses the stream of the merge up
      to there, and ends with an error when the set runs empty before isFinished. */
  method ProcessEvents(parser: TraceFileParser, patience: nat) returns (ok: bool, out: seq<Event>)
    requires Shape(parser.Contents())
    modifies parser
    ensures |out| == Min(patience, |old(Drain(parser.Contents()))|)
    ensures forall i :: 0 <= i < |out| ==> out[i] == old(Drain(parser.Contents()))[i].event
    ensures parser.Contents() == old(After(parser.Contents(), |out|))
    ensures ok <==> |out| == patience || Finished(parser.Contents())
  {
    hide Size, Next, Finished;
    ok, out := true, [];
    ghost var all, start := Drain(parser.Contents()), parser.Contents();
    var finished := parser.IsFinished();
    DrainIsAfter(parser.Contents());
    while !finished && |out| < patience
      invariant ok && finished == Finished(parser.Contents())
      invariant Shape(parser.Contents()) && |out| <= |all| && |out| <= patience
      invariant forall i :: 0 <= i < |out| ==> out[i] == all[i].event
      invariant all[|out|..] == Drain(parser.Contents())
      invariant After(start, |out|) == parser.Contents()
      invariant finished ==> |out| == |all|
      decreases Size(parser.Contents())
    {
      ghost var m := parser.Contents();
      var event: Event;
      ok, event := parser.ParseTraceEvent();
      if !ok {
        return;
      }
      SizeNext(m);
      assert all[|out|..][1..] == all[|out| + 1..];
      OneMoreAfter(start, |out|);
      out := out + [event];
      finished := parser.IsFinished();
      DrainIsAfter(parser.Contents());
    }
  }

  lemma {:induction false} OneMoreAfter(m: Merge, k: nat)
    requires Shape(m)
    ensures Shape(After(m, k))
    ensures After(m, k).heads != [] ==> After(m, k + 1) == Next(After(m, k))
    decreases k
  {
    hide Next, Shape, Size;
    if m.heads != [] {
      SizeNext(m);
      if k > 0 {
        OneMoreAfter(Next(m), k - 1);
      }
    }
  }
}

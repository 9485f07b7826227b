/** Which traces the merge of the queue files can parse to the end. A parse whose insertion is
    refused leaves its queue without an element in the set, and such a queue is never read again. */
module MergeFinish {
  import opened TraceMerge

  // ---------------------------------------------------------------- queues that got stuck

  /** Unread events, and nothing in the set that would have them read. */
  predicate Stuck(m: Merge, q: nat) {
    q < |m.readers| && FromQueue(m.heads, q) == [] && m.readers[q] != []
  }

  lemma RefillOther(m: Merge, r: nat, q: nat)
    requires q < |m.readers| && r < |m.readers| && q != r && FromQueue(m.heads, q) == []
    ensures |Refill(m, r).readers| == |m.readers|
    ensures FromQueue(Refill(m, r).heads, q) == [] && Refill(m, r).readers[q] == m.readers[q]
  {
    hide FromQueue, SetInsert;
    if m.readers[r] != [] {
      OtherQueueAbsent(m.heads, EventInfo(r, m.readers[r][0]), q);
    }
  }

  lemma NextOther(m: Merge, q: nat)
    requires Shape(m) && m.heads != [] && q < |m.readers| && FromQueue(m.heads, q) == []
    ensures |Next(m).readers| == |m.readers|
    ensures FromQueue(Next(m).heads, q) == [] && Next(m).readers[q] == m.readers[q]
  {
    RefillOther(Popped(m), m.heads[0].queue, q);
  }

  /** A queue without an element in the set keeps its unread events for good. */
  lemma {:induction false} NeverReadAgain(m: Merge, q: nat, k: nat)
    requires Shape(m) && q < |m.readers| && FromQueue(m.heads, q) == []
    ensures |After(m, k).readers| == |m.readers| && After(m, k).readers[q] == m.readers[q]
    decreases k
  {
    hide FromQueue;
    if k > 0 && m.heads != [] {
      NextOther(m, q);
      SizeNext(m);
      NeverReadAgain(Next(m), q, k - 1);
    }
  }

  /** At most one element of each queue is in the set, in every state of every run. */
  predicate Single(m: Merge) {
    Shape(m) && Sorted(m.heads) && forall q :: 0 <= q < |m.readers| ==> |FromQueue(m.heads, q)| <= 1
  }

  lemma RefillSingle(m: Merge, q: nat)
    requires Single(m) && q < |m.readers| && FromQueue(m.heads, q) == []
    ensures Single(Refill(m, q)) && |Refill(m, q).readers| == |m.readers|
  {
    hide FromQueue, SetInsert, Sorted, HasKey, Size;
    RefillSize(m, q);
    if m.readers[q] != [] {
      var info := EventInfo(q, m.readers[q][0]);
      InsertCollides(m.heads, info);
      forall r: nat | r < |m.readers|
        ensures |FromQueue(Refill(m, q).heads, r)| <= 1
      {
        if !HasKey(m.heads, info.event.key) {
          InsertFromQueue(m.heads, info, r);
        }
      }
    }
  }

  lemma RefusedInsertion(heads: seq<EventInfo>, info: EventInfo)
    requires Sorted(heads) && HasKey(heads, info.event.key)
    ensures SetInsert(heads, info) == heads
  {
    InsertCollides(heads, info);
  }

  lemma NextSingle(m: Merge)
    requires Single(m) && m.heads != []
    ensures Single(Next(m)) && FromQueue(Popped(m).heads, m.heads[0].queue) == []
  {
    hide SetInsert, Size;
    var q, p := m.heads[0].queue, Popped(m);
    forall r: nat | r < |m.readers|
      ensures FromQueue(m.heads, r) == (if r == q then [m.heads[0].event] else []) + FromQueue(p.heads, r)
    {
    }
    RefillSingle(p, q);
  }

  lemma PoppedSorted(m: Merge)
    requires Shape(m) && Sorted(m.heads) && m.heads != []
    ensures Shape(Popped(m)) && Sorted(Popped(m).heads)
  {
    var p := Popped(m);
    assert forall i :: 0 <= i < |p.heads| ==> p.heads[i] == m.heads[i + 1];
  }

  lemma {:induction false} AfterSingle(m: Merge, k: nat)
    requires Single(m)
    ensures Single(After(m, k))
    decreases k
  {
    hide Single;
    assert Shape(m) by { SingleShape(m); }
    if k > 0 && m.heads != [] {
      NextSingle(m);
      AfterSingle(Next(m), k - 1);
    }
  }

  lemma SingleShape(m: Merge)
    requires Single(m)
    ensures Shape(m)
  {}

  lemma {:induction false} LoadedSingle(queues: seq<seq<Event>>, i: nat)
    requires i <= |queues|
    ensures Single(Loaded(queues, i))
    decreases i
  {
    hide Sorted, SetInsert, Total, FromQueue;
    LoadedSize(queues, i);
    if i == 0 {
      LoadedNone(queues);
    } else {
      LoadedSize(queues, i - 1);
      LoadedSingle(queues, i - 1);
      RefillSingle(Loaded(queues, i - 1), i - 1);
    }
  }

  /** When the insertion of a parse is refused, in whatever state of whatever run, that event is
      lost and so is everything behind it in its queue: it is never read. */
  lemma RefusedQueueIsNeverReadAgain(queues: seq<seq<Event>>, j: nat, k: nat)
    requires Shape(Init(queues)) && Shape(After(Init(queues), j))
    requires var m := After(Init(queues), j);
             m.heads != [] && Size(Next(m)) < Size(m) - 1
    ensures var m := After(Init(queues), j);
            var q := m.heads[0].queue;
            && Shape(Next(m)) && m.readers[q] != []
            && |After(Next(m), k).readers| == |m.readers|
            && After(Next(m), k).readers[q] == m.readers[q][1..]
  {
    hide Sorted, SetInsert, Total, FromQueue, Init, HasKey;
    var m := After(Init(queues), j);
    InitSingle(queues);
    AfterSingle(Init(queues), j);
    SizeNext(m);
    NextSingle(m);
    PoppedSorted(m);
    var q, p := m.heads[0].queue, Popped(m);
    RefillSize(p, q);
    RefusedInsertion(p.heads, EventInfo(q, p.readers[q][0]));
    NeverReadAgain(Next(m), q, k);
  }

  lemma InitSingle(queues: seq<seq<Event>>)
    ensures Single(Init(queues))
  {
    LoadedSingle(queues, |queues|);
  }

  // ---------------------------------------------------------------- keys that occur in two queues

  /** The first event of its key in a queue that is in order. */
  predicate FirstOfKey(s: seq<Event>, i: nat) {
    i < |s| && (i == 0 || s[i - 1].key < s[i].key)
  }

  /** Event i of queue a gets to the set before event j of queue b: first events are loaded in
      the order of the queues, later ones when the event in front of them is parsed. */
  predicate Precedes(p: seq<seq<Event>>, a: nat, i: nat, b: nat, j: nat) {
    && a < |p| && b < |p| && i < |p[a]| && j < |p[b]|
    && if j == 0 then i == 0 && a < b else i == 0 || p[a][i - 1].key < p[b][j - 1].key
  }

  /** Event j of queue b finds its key taken by event i of queue a. */
  predicate Loses(p: seq<seq<Event>>, a: nat, i: nat, b: nat, j: nat) {
    && a < |p| && b < |p| && a != b && FirstOfKey(p[a], i) && FirstOfKey(p[b], j)
    && p[a][i].key == p[b][j].key && Precedes(p, a, i, b, j)
  }

  /** Every event that finds its key taken is the last of its queue. */
  ghost predicate TiesAreLast(p: seq<seq<Event>>) {
    forall a: nat, i: nat, b: nat, j: nat :: Loses(p, a, i, b, j) ==> j + 1 == |p[b]|
  }

  ghost predicate Ordered(p: seq<seq<Event>>) {
    forall q :: 0 <= q < |p| ==> NonDecreasing(p[q])
  }

  /** Queue a holds the smallest key, and no other queue holds it. */
  ghost predicate Smallest(p: seq<seq<Event>>, a: nat) {
    && a < |p| && p[a] != []
    && forall q, j :: 0 <= q < |p| && q != a && 0 <= j < |p[q]| ==> p[a][0].key < p[q][j].key
  }

  /** The front key of no queue but a is k. */
  ghost predicate FreeKey(p: seq<seq<Event>>, a: nat, k: int) {
    forall q :: 0 <= q < |p| && q != a && p[q] != [] ==> p[q][0].key != k
  }

  function Tail(p: seq<seq<Event>>, a: nat): seq<seq<Event>>
    requires a < |p| && p[a] != []
  {
    p[a := p[a][1..]]
  }

  /** Position i of queue q before the front of a is taken off, and after it. */
  function Shift(q: nat, a: nat, i: nat): nat { if q == a then i + 1 else i }

  lemma ShiftedTie(p: seq<seq<Event>>, a: nat, q: nat, i: nat, r: nat, j: nat)
    requires Smallest(p, a) && (|p[a]| > 1 ==> FreeKey(p, a, p[a][1].key))
    ensures Loses(Tail(p, a), q, i, r, j) <==> Loses(p, q, Shift(q, a, i), r, Shift(r, a, j))
  {
  }

  /** Taking off the smallest event changes nothing about the ties. */
  lemma TiesOfTail(p: seq<seq<Event>>, a: nat)
    requires Smallest(p, a) && (|p[a]| > 1 ==> FreeKey(p, a, p[a][1].key))
    ensures TiesAreLast(p) <==> TiesAreLast(Tail(p, a))
  {
    assert p[a] != [];
    hide Loses, Smallest, FreeKey;
    var t := Tail(p, a);
    assert |t| == |p| && forall q: nat :: q < |p| && q != a ==> t[q] == p[q];
    if TiesAreLast(p) {
      forall q: nat, i: nat, r: nat, j: nat | Loses(t, q, i, r, j)
        ensures j + 1 == |t[r]|
      {
        ShiftedTie(p, a, q, i, r, j);
      }
    }
    if TiesAreLast(t) {
      forall q: nat, i: nat, r: nat, j: nat | Loses(p, q, i, r, j)
        ensures j + 1 == |p[r]|
      {
        var i', j' := if q == a then i - 1 else i, if r == a then j - 1 else j;
        ShiftedTie(p, a, q, i', r, j');
      }
    }
  }

  /** The last event e of queue a, whose key the front of queue b holds, can be left out. */
  lemma TiesWithoutLast(p: seq<seq<Event>>, a: nat, b: nat, q: nat, i: nat, r: nat, j: nat)
    requires Ordered(p) && a < |p| && b < |p| && a != b && p[a] != [] && p[b] != []
    requires p[b][0].key == p[a][|p[a]| - 1].key && Loses(p, q, i, r, j)
    requires q == a ==> i + 1 == |p[a]| && (j == 0 ==> b < r && r != b)
    ensures r == a || Loses(p[a := []], if q == a then b else q, if q == a then 0 else i, r, j)
  {
  }

  /** Queue a holds the smallest event and one more, which finds its key taken. */
  lemma TiesOfPair(p: seq<seq<Event>>, a: nat, b: nat)
    requires Ordered(p) && Smallest(p, a) && |p[a]| == 2 && b < |p| && b != a && p[b] != []
    requires p[b][0].key == p[a][1].key
    ensures TiesAreLast(p) <==> TiesAreLast(p[a := []])
  {
    var t := p[a := []];
    forall q: nat, i: nat, r: nat, j: nat | Loses(t, q, i, r, j)
      ensures Loses(p, q, i, r, j)
    {
    }
    if TiesAreLast(t) {
      forall q: nat, i: nat, r: nat, j: nat | Loses(p, q, i, r, j)
        ensures j + 1 == |p[r]|
      {
        TiesWithoutLast(p, a, b, q, i, r, j);
      }
    }
  }

  /** Queue a holds one event, which finds its key taken by an earlier queue b when it is loaded. */
  lemma TiesOfOne(p: seq<seq<Event>>, a: nat, b: nat)
    requires Ordered(p) && b < a < |p| && |p[a]| == 1 && p[b] != [] && p[b][0].key == p[a][0].key
    ensures TiesAreLast(p) <==> TiesAreLast(p[a := []])
  {
    var t := p[a := []];
    forall q: nat, i: nat, r: nat, j: nat | Loses(t, q, i, r, j)
      ensures Loses(p, q, i, r, j)
    {
    }
    if TiesAreLast(t) {
      forall q: nat, i: nat, r: nat, j: nat | Loses(p, q, i, r, j)
        ensures j + 1 == |p[r]|
      {
        TiesWithoutLast(p, a, b, q, i, r, j);
      }
    }
  }

  // ---------------------------------------------------------------- to the end or not

  /** The caller's loop, run until the set is empty, ends with isFinished. */
  predicate Finishes(m: Merge) {
    Finished(After(m, |Drain(m)|))
  }

  lemma FinishesNext(m: Merge)
    requires Shape(m) && m.heads != []
    ensures Shape(Next(m)) && (Finishes(m) <==> Finishes(Next(m)))
  {
    SizeNext(m);
    hide Next, Size;
  }

  lemma StuckNeverFinishes(m: Merge, q: nat)
    requires Shape(m) && Stuck(m, q)
    ensures !Finishes(m)
  {
    hide FromQueue;
    NeverReadAgain(m, q, |Drain(m)|);
  }

  /** The first pending event of a queue is its element in the set. */
  lemma FrontInSet(m: Merge, q: nat) returns (i: nat)
    requires Ok(m) && q < |m.readers| && Pending(m, q) != []
    ensures i < |m.heads| && m.heads[i].queue == q && m.heads[i].event == Pending(m, q)[0]
  {
    assert FromQueue(m.heads, q) != [];
    i := Find(m.heads, q);
  }

  lemma ElementIsFront(m: Merge, i: nat)
    requires Ok(m) && i < |m.heads|
    ensures m.heads[i].queue < |m.readers|
    ensures Pending(m, m.heads[i].queue) == [m.heads[i].event] + m.readers[m.heads[i].queue]
  {
    var q := m.heads[i].queue;
    Member(m.heads, i);
    assert FromQueue(m.heads, q) == [m.heads[i].event];
  }

  /** What a state without stuck queues looks like from outside. */
  lemma PendingShape(m: Merge)
    requires Ok(m) && Ahead(m)
    ensures Ordered(AllPending(m))
    ensures m.heads != [] ==> Smallest(AllPending(m), m.heads[0].queue)
  {
    hide Sorted, FromQueue;
    forall q: nat | q < |m.readers|
      ensures NonDecreasing(Pending(m, q))
    {
      PendingInOrder(m, q);
    }
    if m.heads != [] {
      ElementIsFront(m, 0);
      forall q: nat, j: nat | q < |m.readers| && q != m.heads[0].queue && j < |Pending(m, q)|
        ensures m.heads[0].event.key < Pending(m, q)[j].key
      {
        SmallestIsAlone(m, q, Pending(m, q)[j]);
      }
    }
  }

  lemma PendingInOrder(m: Merge, q: nat)
    requires Ok(m) && Ahead(m) && q < |m.readers|
    ensures NonDecreasing(Pending(m, q))
  {
    if Pending(m, q) == [] || FromQueue(m.heads, q) == [] {
      assert Pending(m, q) == m.readers[q];
    } else {
      var i := FrontInSet(m, q);
      ElementIsFront(m, i);
      forall e | e in m.readers[q]
        ensures m.heads[i].event.key <= e.key
      {
      }
    }
  }

  /** A queue whose next event is not refused has a key that is free. */
  lemma InsertedKeyIsFree(m: Merge)
    requires Ok(m) && m.heads != [] && m.readers[m.heads[0].queue] != []
    requires !HasKey(Popped(m).heads, m.readers[m.heads[0].queue][0].key)
    ensures FreeKey(AllPending(m), m.heads[0].queue, m.readers[m.heads[0].queue][0].key)
  {
    hide FromQueue, Pending, Sorted;
    var a := m.heads[0].queue;
    forall q: nat | q < |m.readers| && q != a && Pending(m, q) != []
      ensures Pending(m, q)[0].key != m.readers[a][0].key
    {
      var i := FrontInSet(m, q);
      assert Popped(m).heads[i - 1] == m.heads[i];
    }
  }

  lemma NextOrRefused(m: Merge)
    requires Ok(m) && m.heads != []
    ensures var q, p := m.heads[0].queue, Popped(m);
            && q < |m.readers|
            && (Size(Next(m)) == Size(m) - 1 <==> m.readers[q] == [] || !HasKey(p.heads, m.readers[q][0].key))
            && (Size(Next(m)) < Size(m) - 1 ==>
                  Next(m) == Merge(m.readers[q := m.readers[q][1..]], p.heads) && Stays(m, Next(m), q))
  {
    hide HasKey, Sorted, Total, FromQueue, SetInsert;
    var q, p := m.heads[0].queue, Popped(m);
    PopEffect(m);
    RefillSize(p, q);
    if Size(Next(m)) < Size(m) - 1 {
      RefusedInsertion(p.heads, EventInfo(q, m.readers[q][0]));
    }
  }

  /** n is m with the element of q taken out of the set. */
  predicate Stays(m: Merge, n: Merge, q: nat) {
    && q < |m.readers| == |n.readers| && Sorted(n.heads) && Shape(n) && FromQueue(n.heads, q) == []
    && forall r :: 0 <= r < |m.readers| && r != q ==> FromQueue(n.heads, r) == FromQueue(m.heads, r) && n.readers[r] == m.readers[r]
  }

  /** The refused event was the last of its queue: the state is as if it had not been there. */
  lemma RefusedLast(m: Merge)
    requires Ok(m) && m.heads != [] && Size(Next(m)) < Size(m) - 1 && |m.readers[m.heads[0].queue]| == 1
    ensures Ok(Next(m)) && AllPending(Next(m)) == AllPending(m)[m.heads[0].queue := []]
  {
    hide HasKey, Sorted, Total, FromQueue, SetInsert, Size;
    NextOrRefused(m);
    var q, n := m.heads[0].queue, Next(m);
    assert n.readers[q] == [];
    forall r: nat | r < |m.readers|
      ensures AllPending(n)[r] == AllPending(m)[q := []][r]
    {
    }
  }

  /** The queue that holds the key of a refused event. */
  lemma TakenBy(m: Merge) returns (b: nat)
    requires Ok(m) && m.heads != [] && m.readers[m.heads[0].queue] != []
    requires HasKey(Popped(m).heads, m.readers[m.heads[0].queue][0].key)
    ensures b < |m.readers| && b != m.heads[0].queue && Pending(m, b) != []
    ensures Pending(m, b)[0].key == m.readers[m.heads[0].queue][0].key
  {
    PopEffect(m);
    var p, k := Popped(m), m.readers[m.heads[0].queue][0].key;
    var i :| 0 <= i < |p.heads| && p.heads[i].event.key == k;
    assert p.heads[i] == m.heads[i + 1];
    b := p.heads[i].queue;
    Member(p.heads, i);
    ElementIsFront(m, i + 1);
  }

  lemma {:induction false} FinishesIff(m: Merge)
    requires Ok(m) && Shape(m) && Ahead(m)
    ensures Finishes(m) <==> TiesAreLast(AllPending(m))
    decreases Size(m)
  {
    assert Sorted(m.heads);
    hide Ahead, Sorted, Total, SetInsert, FromQueue, Pending, OkUpTo, Finishes, TiesAreLast, HasKey, Size;
    if m.heads != [] {
      FinishesNext(m);
      NextAhead(m);
      NextEffect(m);
      NextOrRefused(m);
      if Size(Next(m)) == Size(m) - 1 {
        FinishesIff(Next(m));
        TiesOfNext(m);
      } else if |m.readers[m.heads[0].queue]| == 1 {
        RefusedLast(m);
        FinishesIff(Next(m));
        TiesOfRefusedLast(m);
      } else {
        RefusedTooEarly(m);
      }
    }
  }

  lemma TiesOfNext(m: Merge)
    requires Ok(m) && Ahead(m) && m.heads != [] && Size(Next(m)) == Size(m) - 1
    ensures TiesAreLast(AllPending(m)) <==> TiesAreLast(AllPending(Next(m)))
  {
    hide Ahead, Sorted, Total, SetInsert, FromQueue, TiesAreLast, HasKey, Size, Pending, Next;
    var a, p := m.heads[0].queue, AllPending(m);
    PendingShape(m);
    ElementIsFront(m, 0);
    NextEffect(m);
    NextOrRefused(m);
    if m.readers[a] != [] {
      InsertedKeyIsFree(m);
    }
    assert p[a] == [m.heads[0].event] + Pending(Next(m), a);
    forall q: nat | q < |m.readers|
      ensures AllPending(Next(m))[q] == Tail(p, a)[q]
    {
    }
    assert AllPending(Next(m)) == Tail(p, a);
    TiesOfTail(p, a);
  }

  lemma TiesOfRefusedLast(m: Merge)
    requires Ok(m) && Ahead(m) && m.heads != [] && Size(Next(m)) < Size(m) - 1 && |m.readers[m.heads[0].queue]| == 1
    ensures TiesAreLast(AllPending(m)) <==> TiesAreLast(AllPending(m)[m.heads[0].queue := []])
  {
    hide Ahead, Sorted, Total, SetInsert, FromQueue, TiesAreLast, HasKey, Size;
    PendingShape(m);
    ElementIsFront(m, 0);
    NextEffect(m);
    NextOrRefused(m);
    var b := TakenBy(m);
    TiesOfPair(AllPending(m), m.heads[0].queue, b);
  }

  lemma RefusedTooEarly(m: Merge)
    requires Ok(m) && Shape(m) && Ahead(m) && m.heads != [] && Size(Next(m)) < Size(m) - 1
    requires |m.readers[m.heads[0].queue]| != 1
    ensures !Finishes(m) && !TiesAreLast(AllPending(m))
  {
    hide Ahead, Sorted, Total, SetInsert, FromQueue, HasKey, Size, Finishes;
    var a, p := m.heads[0].queue, AllPending(m);
    PendingShape(m);
    ElementIsFront(m, 0);
    NextEffect(m);
    NextOrRefused(m);
    var b := TakenBy(m);
    assert Loses(p, b, 0, a, 1);
    FinishesNext(m);
    StuckNeverFinishes(Next(m), a);
  }

  // ---------------------------------------------------------------- loading

  /** The first i queues are loaded, and the ties are those of the whole trace. */
  ghost predicate LoadedWell(queues: seq<seq<Event>>, i: nat) {
    i <= |queues| &&
    var m := Loaded(queues, i);
    && Shape(m) && OkUpTo(m, i) && Ordered(AllPending(m))
    && (TiesAreLast(queues) <==> TiesAreLast(AllPending(m)))
    && forall q :: i <= q < |queues| ==> Pending(m, q) == m.readers[q] == queues[q]
  }

  /** Some queue got stuck among the first i. */
  ghost predicate LoadedStuck(queues: seq<seq<Event>>, i: nat) {
    i <= |queues| && !TiesAreLast(queues) && exists q :: 0 <= q < i && Stuck(Loaded(queues, i), q)
  }

  lemma {:induction false} LoadedEither(queues: seq<seq<Event>>, i: nat)
    requires i <= |queues| && Ordered(queues)
    ensures LoadedWell(queues, i) || LoadedStuck(queues, i)
    decreases i
  {
    hide LoadedWell, LoadedStuck;
    if i == 0 {
      NothingLoaded(queues);
    } else {
      LoadedEither(queues, i - 1);
      if LoadedStuck(queues, i - 1) {
        StaysStuck(queues, i);
      } else {
        LoadNext(queues, i);
      }
    }
  }

  lemma NothingLoaded(queues: seq<seq<Event>>)
    requires Ordered(queues)
    ensures LoadedWell(queues, 0)
  {
    LoadedNone(queues);
    forall q: nat | q < |queues|
      ensures Pending(Loaded(queues, 0), q) == queues[q]
    {
      assert AllPending(Loaded(queues, 0))[q] == queues[q];
    }
  }

  lemma StaysStuck(queues: seq<seq<Event>>, i: nat)
    requires 0 < i <= |queues| && LoadedStuck(queues, i - 1)
    ensures LoadedStuck(queues, i)
  {
    hide FromQueue, TiesAreLast;
    var q: nat :| q < i - 1 && Stuck(Loaded(queues, i - 1), q);
    RefillOther(Loaded(queues, i - 1), i - 1, q);
    assert Stuck(Loaded(queues, i), q);
  }

  lemma LoadNext(queues: seq<seq<Event>>, i: nat)
    requires 0 < i <= |queues| && LoadedWell(queues, i - 1)
    ensures LoadedWell(queues, i) || LoadedStuck(queues, i)
  {
    hide LoadedWell, LoadedStuck, FromQueue, Sorted, HasKey, SetInsert, Size, Shape;
    var a, m := i - 1, Loaded(queues, i - 1);
    WellOrdered(queues, a);
    RefillSize(m, a);
    if m.readers[a] == [] || !HasKey(m.heads, m.readers[a][0].key) {
      LoadKeeps(queues, i);
    } else {
      LoadRefused(queues, i);
    }
  }

  lemma WellOrdered(queues: seq<seq<Event>>, i: nat)
    requires LoadedWell(queues, i)
    ensures i <= |queues| && Shape(Loaded(queues, i)) && Sorted(Loaded(queues, i).heads)
  {}

  lemma RefillLoads(m: Merge, a: nat)
    requires OkUpTo(m, a) && Shape(m) && a < |m.readers| && Size(Refill(m, a)) == Size(m)
    ensures var n := Refill(m, a);
            && Shape(n) && OkUpTo(n, a + 1) && AllPending(n) == AllPending(m) && |n.readers| == |m.readers|
            && forall q :: a < q < |m.readers| ==> n.readers[q] == m.readers[q]
  {
    hide FromQueue, Sorted, SetInsert, Size, Pending;
    RefillSize(m, a);
    RefillKeeps(m, a);
    assert AllPending(Refill(m, a)) == AllPending(m);
  }

  lemma LoadKeeps(queues: seq<seq<Event>>, i: nat)
    requires 0 < i <= |queues| && LoadedWell(queues, i - 1)
    requires Size(Loaded(queues, i)) == Size(Loaded(queues, i - 1))
    ensures LoadedWell(queues, i)
  {
    hide OkUpTo, TiesAreLast, SetInsert, Size, Pending, Ordered, Refill, Shape;
    var m := Loaded(queues, i - 1);
    RefillLoads(m, i - 1);
    forall q: nat | i <= q < |queues|
      ensures Pending(Loaded(queues, i), q) == Loaded(queues, i).readers[q] == queues[q]
    {
      assert AllPending(Loaded(queues, i))[q] == AllPending(m)[q];
    }
  }

  /** The refused event is dropped and nothing else changes. */
  lemma RefillRefused(m: Merge, a: nat)
    requires OkUpTo(m, a) && a < |m.readers| && m.readers[a] != [] && HasKey(m.heads, m.readers[a][0].key)
    ensures Refill(m, a) == Merge(m.readers[a := m.readers[a][1..]], m.heads) && Shape(Refill(m, a))
    ensures FromQueue(m.heads, a) == []
    ensures |m.readers[a]| == 1 ==> OkUpTo(Refill(m, a), a + 1) && AllPending(Refill(m, a)) == AllPending(m)[a := []]
  {
    hide Sorted, SetInsert, FromQueue;
    RefusedInsertion(m.heads, EventInfo(a, m.readers[a][0]));
    var n := Refill(m, a);
    if |m.readers[a]| == 1 {
      assert n.readers[a] == [];
      assert AllPending(n) == AllPending(m)[a := []];
    }
  }

  lemma LoadRefused(queues: seq<seq<Event>>, i: nat)
    requires 0 < i <= |queues| && LoadedWell(queues, i - 1)
    requires var m := Loaded(queues, i - 1);
             m.readers[i - 1] != [] && HasKey(m.heads, m.readers[i - 1][0].key)
    ensures LoadedWell(queues, i) || LoadedStuck(queues, i)
  {
    hide TiesAreLast, OkUpTo, SetInsert, Pending, FromQueue, Refill, HasKey, NonDecreasing, Shape;
    var a, m := i - 1, Loaded(queues, i - 1);
    var p, n := AllPending(m), Loaded(queues, i);
    RefillRefused(m, a);
    var b := LoadTakenBy(m, a);
    assert p[a] == m.readers[a];
    if |m.readers[a]| == 1 {
      TiesOfOne(p, a, b);
      NothingInOrder();
      forall q: nat | i <= q < |queues|
        ensures Pending(n, q) == n.readers[q] == queues[q]
      {
        assert AllPending(n)[q] == p[q];
      }
    } else {
      LosesEarly(p, b, a);
      assert Stuck(n, a);
    }
  }

  lemma NothingInOrder()
    ensures NonDecreasing([])
  {}

  lemma LosesEarly(p: seq<seq<Event>>, b: nat, a: nat)
    requires Loses(p, b, 0, a, 0) && |p[a]| != 1
    ensures !TiesAreLast(p)
  {}

  /** The loaded queue whose front holds the key. */
  lemma LoadTakenBy(m: Merge, a: nat) returns (b: nat)
    requires OkUpTo(m, a) && a < |m.readers| && m.readers[a] != [] && HasKey(m.heads, m.readers[a][0].key)
    ensures b < a && Pending(m, b) != [] && Pending(m, b)[0].key == m.readers[a][0].key
  {
    var i :| 0 <= i < |m.heads| && m.heads[i].event.key == m.readers[a][0].key;
    b := m.heads[i].queue;
    Member(m.heads, i);
    assert FromQueue(m.heads, b) == [m.heads[i].event];
  }

  /** For queues in order the caller's loop reaches isFinished if and only if every event that
      finds its key taken by another queue is the last of its own. */
  lemma FinishesIffTiesAreLast(queues: seq<seq<Event>>)
    requires Ordered(queues)
    ensures Shape(Init(queues)) && (Finishes(Init(queues)) <==> TiesAreLast(queues))
  {
    hide FromQueue, TiesAreLast, Sorted, SetInsert, Size, Finishes, Ahead, NonDecreasing;
    var m := Init(queues);
    LoadedAhead(queues, |queues|);
    LoadedEither(queues, |queues|);
    if LoadedWell(queues, |queues|) {
      FinishesIff(m);
    } else {
      var q: nat :| q < |queues| && Stuck(m, q);
      StuckNeverFinishes(m, q);
    }
  }

  /** Two queues whose first events have the same key: the second queue is stuck behind its lost
      event, and the loop ends with an error. */
  lemma EqualKeysCanStopTheLoop(e: Event, f: Event, g: Event)
    requires e.key == f.key <= g.key
    ensures Shape(Init([[e], [f, g]])) && !Finishes(Init([[e], [f, g]]))
  {
    var queues := [[e], [f, g]];
    FinishesIffTiesAreLast(queues);
    assert Loses(queues, 0, 0, 1, 0);
  }
}

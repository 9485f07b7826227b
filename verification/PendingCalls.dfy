/** The client side of a connection: calls waiting for a response, keyed by sequence id. */
module PendingCalls {
  import opened Common

  const SIDS: nat := UINT32
  const MAX_PENDING_METHODS: nat := 10000

  /** A call is identified by its own object; cancelling looks it up by its controller. */
  datatype Call = Call(id: nat, controller: nat)

  datatype Outcome = Completed | Failed

  datatype Settlement = Settlement(call: Call, outcome: Outcome)

  /** m_clntPendingMethods and, in order, the settlements reported to the callers. */
  datatype Table = Table(pending: map<nat, Call>, log: seq<Settlement>)

  datatype Response = Response(sid: nat, hasResult: bool, success: bool, parses: bool)

  /** completeClientMethod and MethodClient::complete: anything but a readable success fails. */
  function OutcomeOf(resp: Response): Outcome {
    if !resp.hasResult then Failed
    else if !resp.success then Failed
    else if resp.parses then Completed
    else Failed
  }

  function Report(t: Table, call: Call, outcome: Outcome): Table {
    t.(log := t.log + [Settlement(call, outcome)])
  }

  /** Settles the call pending under sid, if there is one, and erases it. */
  function Settle(t: Table, sid: nat, outcome: Outcome): Table {
    if sid in t.pending then Report(t, t.pending[sid], outcome).(pending := t.pending - {sid}) else t
  }

  /** The locked part of sendMethod: too many calls, or a sid in use, fail the new call. */
  function Register(t: Table, sid: nat, call: Call): Table {
    if Accepts(t, sid) then t.(pending := t.pending[sid := call]) else Report(t, call, Failed)
  }

  predicate Accepts(t: Table, sid: nat) {
    |t.pending| <= MAX_PENDING_METHODS && sid !in t.pending
  }

  predicate Least(sids: set<nat>, sid: nat) {
    sid in sids && forall s :: s in sids ==> sid <= s
  }

  lemma {:induction false} HasLeast(sids: set<nat>, s: nat)
    requires s in sids
    ensures exists sid :: Least(sids, sid)
    decreases s
  {
    if r :| r in sids && r < s {
      HasLeast(sids, r);
    } else {
      assert Least(sids, s);
    }
  }

  /** The first element in the order of the map. */
  ghost function First(sids: set<nat>): (sid: nat)
    requires sids != {}
    ensures Least(sids, sid)
  {
    var s :| s in sids;
    HasLeast(sids, s);
    var sid :| Least(sids, sid);
    sid
  }

  function WithController(t: Table, controller: nat): set<nat> {
    set sid | sid in t.pending && t.pending[sid].controller == controller
  }

  /** cancelClientMethod: the first call with the controller fails; others stay. */
  ghost function Cancel(t: Table, controller: nat): Table {
    var sids := WithController(t, controller);
    if sids == {} then t else Settle(t, First(sids), Failed)
  }

  /** cancelAllClientMethods: every call fails, in the order of the map. */
  ghost function CancelAll(t: Table): (r: Table)
    ensures r.pending == map[]
    decreases |t.pending|
  {
    if t.pending.Keys == {} then t
    else
      var sid := First(t.pending.Keys);
      CancelAll(Settle(t, sid, Failed))
  }

  lemma CancelAllOfNone(log: seq<Settlement>)
    ensures CancelAll(Table(map[], log)) == Table(map[], log)
  {}

  lemma CancelAllStep(t: Table, sid: nat)
    requires Least(t.pending.Keys, sid)
    ensures CancelAll(t) == CancelAll(Settle(t, sid, Failed))
    ensures |Settle(t, sid, Failed).pending| == |t.pending| - 1
  {}

  // ---------------------------------------------------------------- the class

  /** How many increments lead from sid to the counter. */
  function Behind(counter: nat, sid: nat): nat {
    (counter + SIDS - sid) % SIDS
  }

  lemma JustDrawn(sid: nat)
    requires sid < SIDS
    ensures Behind((sid + 1) % SIDS, sid) == 1
    ensures Behind(sid, sid) == 0
  {}

  /** The id drawn after k other ones. */
  function Later(counter: nat, k: nat): nat { (counter + k) % SIDS }

  /** The first k ids drawn from the counter on are all pending. */
  predicate AllTaken(pending: map<nat, Call>, counter: nat, k: nat) {
    forall j :: 0 <= j < k ==> Later(counter, j) in pending
  }

  lemma OneLater(counter: nat, k: nat)
    ensures (Later(counter, k) + 1) % SIDS == Later(counter, k + 1)
  {}

  /** The next id drawn is none of the last ones, unless they lap the counter. */
  lemma DrawAgain(counter: nat, drawn: set<nat>, used: nat)
    requires counter < SIDS && used + 1 < SIDS
    requires forall s :: s in drawn ==> s < SIDS && 1 <= Behind(counter, s) <= used
    ensures counter !in drawn
    ensures var next := (counter + 1) % SIDS;
            Behind(next, counter) == 1 && forall s :: s in drawn ==> 1 <= Behind(next, s) <= used + 1
  {}

  lemma Proper(s: set<nat>, t: set<nat>, x: nat)
    requires s <= t && x in t && x !in s
    ensures |s| < |t|
  {
    var u := t - s;
    assert x in u && t == s + u;
    assert |t| == |s| + |u|;
  }

  class ConnectionContext {
    var sidRef: nat
    var pending: map<nat, Call>
    ghost var log: seq<Settlement>

    ghost function Contents(): Table
      reads this
    {
      Table(pending, log)
    }

    ghost predicate Valid()
      reads this
    {
      sidRef < SIDS && |pending| <= MAX_PENDING_METHODS + 1
    }

    constructor ()
      ensures Valid() && sidRef == 0 && Contents() == Table(map[], [])
    {
      sidRef, pending, log := 0, map[], [];
    }

    /** getNextSid. In front of its i-th increment inside the loop other senders make others[i]
        increments, and none once those are used up. The loop ends at a free id, with the counter
        behind it: undisturbed it tries no id twice and takes the first that is free. */
    method GetNextSid(others: seq<nat>) returns (sid: nat)
      requires Valid()
      modifies this`sidRef
      ensures Valid() && sid < SIDS && sid !in pending && sidRef == (sid + 1) % SIDS
      ensures others == [] ==> exists k: nat :: sid == Later(old(sidRef), k) && AllTaken(pending, old(sidRef), k)
    {
      hide Behind;
      sid := sidRef;
      sidRef := (sidRef + 1) % SIDS;
      JustDrawn(sid);
      var i := 0;
      ghost var tried: set<nat> := {};    // since others has been used up
      ghost var k: nat, start := 0, old(sidRef);
      assert Later(start, 0) == start;
      hide Later;
      while sid in pending
        invariant sidRef == (sid + 1) % SIDS
        invariant others == [] ==> sid == Later(start, k) && AllTaken(pending, start, k)
        invariant Valid() && sid < SIDS && i <= |others| && (i < |others| ==> tried == {})
        invariant tried <= pending.Keys && sid !in tried
        invariant forall s :: s in tried || s == sid ==> s < SIDS && 1 <= Behind(sidRef, s) <= |tried| + 1
        decreases |others| - i, |pending| - |tried|
      {
        assert |pending.Keys| == |pending|;
        Proper(tried, pending.Keys, sid);
        if i < |others| {
          sidRef := (sidRef + others[i]) % SIDS;
          i := i + 1;
        } else {
          tried := tried + {sid};
          DrawAgain(sidRef, tried, |tried|);
        }
        sid := sidRef;
        sidRef := (sidRef + 1) % SIDS;
        OneLater(start, k);
        k := k + 1;
        JustDrawn(sid);
      }
    }

    /** The locked part of sendMethod. */
    method RegisterMethod(sid: nat, call: Call)
      requires Valid()
      modifies this`pending, this`log
      ensures Valid() && Contents() == Register(old(Contents()), sid, call)
    {
      if |pending| > MAX_PENDING_METHODS {
        Settled(call, Failed);
        return;
      }
      if sid in pending {
        Settled(call, Failed);
        return;
      }
      pending := pending[sid := call];
    }

    /** sendMethod without other threads in between, except for their increments. Either the call
        waits under a free id, or the table is as before and the call failed, once. */
    method SendMethod(call: Call, prepared: bool, serialized: bool, sent: bool, others: seq<nat>) returns (sid: nat)
      requires Valid()
      modifies this
      ensures Valid() && sid !in old(pending) && sidRef == (sid + 1) % SIDS
      ensures Contents() ==
              if prepared && old(|pending|) <= MAX_PENDING_METHODS && serialized && sent
              then old(Contents()).(pending := old(pending)[sid := call])
              else Report(old(Contents()), call, Failed)
    {
      sid := GetNextSid(others);
      if !prepared {
        Settled(call, Failed);
        return;
      }
      ghost var before := pending;
      RegisterMethod(sid, call);
      if sid !in pending {
        return;
      }
      assert before[sid := call] - {sid} == before;
      if !serialized {
        FailClientMethod(sid);
        return;
      }
      if !sent {
        FailClientMethod(sid);
      }
    }

    /** MethodClient::fail and MethodClient::complete: runs the caller's closure. */
    ghost method Settled(call: Call, outcome: Outcome)
      modifies this`log
      ensures log == old(log) + [Settlement(call, outcome)]
    {
      log := log + [Settlement(call, outcome)];
    }

    method CompleteClientMethod(resp: Response)
      requires Valid()
      modifies this`pending, this`log
      ensures Valid() && Contents() == Settle(old(Contents()), resp.sid, OutcomeOf(resp))
      ensures resp.sid in old(pending) ==>
                var completed := resp.hasResult && resp.success && resp.parses;
                log == old(log) + [Settlement(old(pending)[resp.sid], if completed then Completed else Failed)]
    {
      if resp.sid in pending {
        var call := pending[resp.sid];
        if !resp.hasResult {
          Settled(call, Failed);
        } else if !resp.success {
          Settled(call, Failed);
        } else {
          Settled(call, if resp.parses then Completed else Failed);
        }
        pending := pending - {resp.sid};
      }
    }

    method FailClientMethod(sid: nat)
      requires Valid()
      modifies this`pending, this`log
      ensures Valid() && Contents() == Settle(old(Contents()), sid, Failed)
    {
      if sid in pending {
        Settled(pending[sid], Failed);
        pending := pending - {sid};
      }
    }

    method CancelAllClientMethods()
      requires Valid()
      modifies this`pending, this`log
      ensures Valid() && Contents() == CancelAll(old(Contents()))
    {
      hide CancelAll;
      while pending != map[]
        invariant Valid() && CancelAll(Contents()) == CancelAll(old(Contents()))
        decreases |pending|
      {
        ghost var least := First(pending.Keys);
        var sid :| sid in pending && forall s :: s in pending.Keys ==> sid <= s;
        CancelAllStep(Contents(), sid);
        Settled(pending[sid], Failed);
        pending := pending - {sid};
      }
      CancelAllOfNone(log);
    }

    /** The walk in sid order; visited is the part of the map behind the iterator. */
    method CancelClientMethod(controller: nat)
      requires Valid()
      modifies this`pending, this`log
      ensures Valid() && Contents() == Cancel(old(Contents()), controller)
    {
      var rest := pending.Keys;
      while rest != {}
        invariant rest <= pending.Keys && Contents() == old(Contents())
        invariant forall s :: s in pending && s !in rest ==> pending[s].controller != controller
        invariant forall s, r :: s in pending && s !in rest && r in rest ==> s < r
      {
        ghost var least := First(rest);
        var sid :| sid in rest && forall s :: s in rest ==> sid <= s;
        if pending[sid].controller == controller {
          assert Least(WithController(Contents(), controller), sid);
          assert sid == First(WithController(Contents(), controller));
          Settled(pending[sid], Failed);
          pending := pending - {sid};
          return;
        }
        rest := rest - {sid};
      }
      assert WithController(Contents(), controller) == {};
    }
  }

  // ---------------------------------------------------------------- interleaved senders

  /** Where the sendMethod of a call stands. */
  datatype Phase =
    | Idle
    | Drawn(sid: nat)        // first increment of getNextSid, lock not taken
    | Searching(sid: nat)    // in the loop of getNextSid, holding the lock
    | Chosen(sid: nat)       // getNextSid returned
    | Prepared(sid: nat)     // the packet is ready
    | Sending(sid: nat)      // registered, data not sent yet
    | Over(sid: nat)

  datatype System = System(sidRef: nat, table: Table, phases: map<Call, Phase>, lock: Option<Call>) {
    function PhaseOf(c: Call): Phase { if c in phases then phases[c] else Idle }
    function At(c: Call, p: Phase): System { this.(phases := phases[c := p]) }
  }

  /** One access to shared state: an increment of the counter, or a section under the lock. */
  datatype Step =
    | Draw(call: Call)
    | Lock(call: Call)
    | Search(call: Call)
    | Prepare(call: Call, ok: bool)
    | Enter(call: Call)
    | Sent(call: Call, ok: bool)
    | Respond(resp: Response)
    | CancelOne(controller: nat)
    | CancelEvery

  /** A step that is not enabled changes nothing. */
  ghost function Apply(s: System, step: Step): System {
    match step
    case Draw(c) =>
      if s.PhaseOf(c).Idle? then s.At(c, Drawn(s.sidRef)).(sidRef := (s.sidRef + 1) % SIDS) else s
    case Lock(c) =>
      if s.PhaseOf(c).Drawn? && s.lock.None? then s.At(c, Searching(s.PhaseOf(c).sid)).(lock := Some(c)) else s
    case Search(c) =>
      if !s.PhaseOf(c).Searching? then s
      else if s.PhaseOf(c).sid in s.table.pending then
        s.At(c, Searching(s.sidRef)).(sidRef := (s.sidRef + 1) % SIDS)
      else s.At(c, Chosen(s.PhaseOf(c).sid)).(lock := None)
    case Prepare(c, ok) =>
      if !s.PhaseOf(c).Chosen? then s
      else if ok then s.At(c, Prepared(s.PhaseOf(c).sid))
      else s.At(c, Over(s.PhaseOf(c).sid)).(table := Report(s.table, c, Failed))
    case Enter(c) =>
      if !s.PhaseOf(c).Prepared? || s.lock.Some? then s
      else
        var sid := s.PhaseOf(c).sid;
        s.At(c, if Accepts(s.table, sid) then Sending(sid) else Over(sid)).(table := Register(s.table, sid, c))
    case Sent(c, ok) =>
      if !s.PhaseOf(c).Sending? then s
      else if ok then s.At(c, Over(s.PhaseOf(c).sid))
      else if s.lock.Some? then s
      else s.At(c, Over(s.PhaseOf(c).sid)).(table := Settle(s.table, s.PhaseOf(c).sid, Failed))
    case Respond(resp) =>
      if s.lock.Some? then s else s.(table := Settle(s.table, resp.sid, OutcomeOf(resp)))
    case CancelOne(controller) =>
      if s.lock.Some? then s else s.(table := Cancel(s.table, controller))
    case CancelEvery =>
      if s.lock.Some? then s else s.(table := CancelAll(s.table))
  }

  ghost function Run(s: System, steps: seq<Step>): System
    decreases |steps|
  {
    if steps == [] then s else Apply(Run(s, steps[..|steps| - 1]), steps[|steps| - 1])
  }

  const START: System := System(0, Table(map[], []), map[], None)

  /** The call has been taken over by the table. */
  predicate HandedOver(p: Phase) { p.Sending? || p.Over? }

  predicate Waiting(t: Table, c: Call) {
    exists sid :: sid in t.pending && t.pending[sid] == c
  }

  predicate Logged(t: Table, c: Call) {
    exists i :: 0 <= i < |t.log| && t.log[i].call == c
  }

  /** No call is pending twice or settled twice, and none is both pending and settled. */
  ghost predicate Exclusive(t: Table) {
    && (forall r, s :: r in t.pending && s in t.pending && r != s ==> t.pending[r] != t.pending[s])
    && (forall i, j :: 0 <= i < j < |t.log| ==> t.log[i].call != t.log[j].call)
    && (forall s :: s in t.pending ==> !Logged(t, t.pending[s]))
  }

  ghost predicate Known(t: Table, c: Call) { Waiting(t, c) || Logged(t, c) }

  ghost predicate Inv(s: System) {
    && |s.table.pending| <= MAX_PENDING_METHODS + 1
    && Exclusive(s.table)
    && forall c :: Known(s.table, c) <==> HandedOver(s.PhaseOf(c))
  }

  /** Settling moves one call from the table to the end of the log. */
  lemma SettleEffect(t: Table, sid: nat, outcome: Outcome)
    requires Exclusive(t)
    ensures var r := Settle(t, sid, outcome);
            && Exclusive(r) && |r.pending| <= |t.pending| && t.log <= r.log
            && r.pending == t.pending - {sid}
            && forall c :: Known(r, c) <==> Known(t, c)
  {
    if sid in t.pending {
      var call := t.pending[sid];
      ReportEffect(t, call, outcome);
      forall c
        ensures Waiting(t, c) <==> Waiting(Settle(t, sid, outcome), c) || c == call
      {
        WaitsWithout(t, sid, outcome, c);
      }
    } else {
      assert t.pending - {sid} == t.pending;
    }
  }

  lemma WaitsWithout(t: Table, sid: nat, outcome: Outcome, c: Call)
    requires sid in t.pending
    ensures Waiting(t, c) <==> Waiting(Settle(t, sid, outcome), c) || c == t.pending[sid]
  {
    var r := Settle(t, sid, outcome);
    if Waiting(t, c) && c != t.pending[sid] {
      var s :| s in t.pending && t.pending[s] == c;
      assert s in r.pending;
    }
    if Waiting(r, c) {
      var s :| s in r.pending && r.pending[s] == c;
      assert s in t.pending;
    }
  }

  lemma ReportEffect(t: Table, call: Call, outcome: Outcome)
    ensures var r := Report(t, call, outcome);
            forall c :: Logged(r, c) <==> Logged(t, c) || c == call
  {
    var r := Report(t, call, outcome);
    forall c
      ensures Logged(r, c) <==> Logged(t, c) || c == call
    {
      if Logged(t, c) {
        var i :| 0 <= i < |t.log| && t.log[i].call == c;
        assert r.log[i].call == c;
      }
      assert r.log[|t.log|].call == call;
    }
  }

  lemma {:induction false} CancelAllEffect(t: Table)
    requires Exclusive(t)
    ensures var r := CancelAll(t);
            Exclusive(r) && t.log <= r.log && forall c :: Known(r, c) <==> Known(t, c)
    decreases |t.pending|
  {
    hide Exclusive, Known, Settle;
    if t.pending.Keys != {} {
      var sid := First(t.pending.Keys);
      SettleEffect(t, sid, Failed);
      CancelAllEffect(Settle(t, sid, Failed));
    }
  }

  /** A new call is registered or failed: known from then on. */
  lemma RegisterEffect(t: Table, sid: nat, call: Call)
    requires Exclusive(t) && !Known(t, call)
    ensures var r := Register(t, sid, call);
            && Exclusive(r) && t.log <= r.log
            && |r.pending| <= |t.pending| + (if |t.pending| <= MAX_PENDING_METHODS then 1 else 0)
            && forall c :: Known(r, c) <==> Known(t, c) || c == call
  {
    var r := Register(t, sid, call);
    ReportEffect(t, call, Failed);
    if Accepts(t, sid) {
      assert r.pending[sid] == call;
      forall c
        ensures Known(r, c) <==> Known(t, c) || c == call
      {
        if Waiting(t, c) {
          var s :| s in t.pending && t.pending[s] == c;
          assert s in r.pending && r.pending[s] == c;
        }
        assert Waiting(r, call);
      }
    }
  }

  /** A call failed before it reached the table. */
  lemma FailEffect(t: Table, call: Call)
    requires Exclusive(t) && !Known(t, call)
    ensures var r := Report(t, call, Failed);
            && Exclusive(r) && t.log <= r.log && r.pending == t.pending
            && forall c :: Known(r, c) <==> Known(t, c) || c == call
  {
    ReportEffect(t, call, Failed);
  }

  /** The sender of c moves on to phase p while the table becomes t. */
  lemma SenderMoves(s: System, c: Call, p: Phase, t: Table)
    requires Inv(s) && Exclusive(t) && |t.pending| <= MAX_PENDING_METHODS + 1
    requires HandedOver(s.PhaseOf(c)) ==> HandedOver(p)
    requires forall d :: Known(t, d) <==> Known(s.table, d) || (d == c && HandedOver(p))
    ensures Inv(s.At(c, p).(table := t))
  {
    hide Known, Exclusive;
    forall d
      ensures Known(t, d) <==> HandedOver(s.At(c, p).PhaseOf(d))
    {
      assert Known(s.table, d) <==> HandedOver(s.PhaseOf(d));
    }
  }

  /** The steps in front of the table. */
  lemma EarlyStepKeepsInv(s: System, step: Step)
    requires Inv(s) && (step.Draw? || step.Lock? || step.Search? || step.Prepare?)
    ensures Inv(Apply(s, step)) && s.table.log <= Apply(s, step).table.log
  {
    hide Exclusive, Known, Report;
    match step
    case Draw(c) =>
    case Lock(c) =>
    case Search(c) =>
    case Prepare(c, ok) =>
      if s.PhaseOf(c).Chosen? {
        FailEffect(s.table, c);
      }
  }

  lemma InvOfTable(s: System)
    requires Inv(s)
    ensures Exclusive(s.table) && |s.table.pending| <= MAX_PENDING_METHODS + 1
    ensures forall c :: Known(s.table, c) <==> HandedOver(s.PhaseOf(c))
    ensures forall c :: Waiting(s.table, c) ==> HandedOver(s.PhaseOf(c))
  {}

  /** The table becomes t without any sender moving. */
  lemma TableChanges(s: System, t: Table)
    requires Inv(s) && Exclusive(t) && |t.pending| <= MAX_PENDING_METHODS + 1
    requires forall c :: Known(t, c) <==> Known(s.table, c)
    ensures Inv(s.(table := t))
  {
    hide Known, Exclusive;
  }

  lemma EnterKeepsInv(s: System, c: Call)
    requires Inv(s)
    ensures Inv(Apply(s, Enter(c))) && s.table.log <= Apply(s, Enter(c)).table.log
  {
    hide Inv, Exclusive, Known, Register;
    if s.PhaseOf(c).Prepared? {
      InvOfTable(s);
      var sid := s.PhaseOf(c).sid;
      RegisterEffect(s.table, sid, c);
      SenderMoves(s, c, if Accepts(s.table, sid) then Sending(sid) else Over(sid), Register(s.table, sid, c));
    }
  }

  lemma SentKeepsInv(s: System, c: Call, ok: bool)
    requires Inv(s)
    ensures Inv(Apply(s, Sent(c, ok))) && s.table.log <= Apply(s, Sent(c, ok)).table.log
  {
    hide Inv, Exclusive, Known, Settle;
    if s.PhaseOf(c).Sending? {
      InvOfTable(s);
      var sid := s.PhaseOf(c).sid;
      SettleEffect(s.table, sid, Failed);
      SenderMoves(s, c, Over(sid), if ok then s.table else Settle(s.table, sid, Failed));
    }
  }

  lemma StepKeepsInv(s: System, step: Step)
    requires Inv(s)
    ensures Inv(Apply(s, step)) && s.table.log <= Apply(s, step).table.log
  {
    if step.Enter? {
      EnterKeepsInv(s, step.call);
    } else if step.Sent? {
      SentKeepsInv(s, step.call, step.ok);
    } else if step.Draw? || step.Lock? || step.Search? || step.Prepare? {
      EarlyStepKeepsInv(s, step);
    } else {
      LateStepKeepsInv(s, step);
    }
  }

  /** The steps of the receiving thread and of the callers that cancel. */
  lemma LateStepKeepsInv(s: System, step: Step)
    requires Inv(s) && (step.Respond? || step.CancelOne? || step.CancelEvery?)
    ensures Inv(Apply(s, step)) && s.table.log <= Apply(s, step).table.log
  {
    hide Inv, Exclusive, Known, Settle, CancelAll, Cancel;
    InvOfTable(s);
    match step
    case Respond(resp) =>
      SettleEffect(s.table, resp.sid, OutcomeOf(resp));
      TableChanges(s, Settle(s.table, resp.sid, OutcomeOf(resp)));
    case CancelOne(controller) =>
      CancelEffect(s.table, controller);
      TableChanges(s, Cancel(s.table, controller));
    case CancelEvery =>
      CancelAllEffect(s.table);
      TableChanges(s, CancelAll(s.table));
  }

  lemma CancelEffect(t: Table, controller: nat)
    requires Exclusive(t)
    ensures var r := Cancel(t, controller);
            && Exclusive(r) && |r.pending| <= |t.pending| && t.log <= r.log
            && r.pending.Keys <= t.pending.Keys
            && forall c :: Known(r, c) <==> Known(t, c)
  {
    hide Exclusive, Known;
    var sids := WithController(t, controller);
    if sids != {} {
      SettleEffect(t, First(sids), Failed);
    }
  }

  lemma {:induction false} RunKeepsInv(steps: seq<Step>)
    ensures Inv(Run(START, steps))
  {
    if steps == [] {
      assert forall c :: !Waiting(START.table, c) && !Logged(START.table, c) && START.PhaseOf(c).Idle?;
    } else {
      RunKeepsInv(steps[..|steps| - 1]);
      StepKeepsInv(Run(START, steps[..|steps| - 1]), steps[|steps| - 1]);
    }
  }

  // ---------------------------------------------------------------- main results

  ghost function Settlements(log: seq<Settlement>, c: Call): nat {
    if log == [] then 0 else Settlements(log[..|log| - 1], c) + if log[|log| - 1].call == c then 1 else 0
  }

  /** How many ids the call is pending under. */
  function Waits(t: Table, c: Call): nat {
    |set sid | sid in t.pending && t.pending[sid] == c|
  }

  lemma WaitsOnce(t: Table, c: Call)
    requires Exclusive(t)
    ensures Waits(t, c) == if Waiting(t, c) then 1 else 0
  {
    var sids := set sid | sid in t.pending && t.pending[sid] == c;
    if Waiting(t, c) {
      var sid :| sid in t.pending && t.pending[sid] == c;
      assert sids == {sid};
    } else {
      assert sids == {};
    }
  }

  lemma {:induction false} CountOfUnique(log: seq<Settlement>, c: Call)
    requires forall i, j :: 0 <= i < j < |log| ==> log[i].call != log[j].call
    ensures Settlements(log, c) == if exists i :: 0 <= i < |log| && log[i].call == c then 1 else 0
  {
    if log != [] {
      var rest := log[..|log| - 1];
      CountOfUnique(rest, c);
      if exists i :: 0 <= i < |log| && log[i].call == c {
        var i :| 0 <= i < |log| && log[i].call == c;
        assert i < |rest| ==> rest[i].call == c;
      }
    }
  }

  /** In every interleaving a call whose sender has handed it over is pending, under one id, or
      settled, once, and not both; before that it is neither. The table stays within its limit. */
  lemma EveryCallSettledAtMostOnce(steps: seq<Step>, c: Call)
    ensures var s := Run(START, steps);
            && Waits(s.table, c) + Settlements(s.table.log, c) == (if HandedOver(s.PhaseOf(c)) then 1 else 0)
            && |s.table.pending| <= MAX_PENDING_METHODS + 1
  {
    RunKeepsInv(steps);
    var t := Run(START, steps).table;
    CountOfUnique(t.log, c);
    WaitsOnce(t, c);
    assert Logged(t, c) <==> exists i :: 0 <= i < |t.log| && t.log[i].call == c;
    if Waiting(t, c) {
      assert !Logged(t, c);
    }
    assert Known(t, c) <==> HandedOver(Run(START, steps).PhaseOf(c));
  }

  /** The call may still be put into the table. */
  predicate OnTheWay(p: Phase) { !HandedOver(p) }

  /** A settlement is final: it stays where it is in the log. */
  lemma {:induction false} SettlementsAreFinal(steps: seq<Step>, more: seq<Step>)
    ensures Run(START, steps).table.log <= Run(START, steps + more).table.log
    decreases |more|
  {
    if more == [] {
      assert steps + more == steps;
    } else {
      var front := more[..|more| - 1];
      SettlementsAreFinal(steps, front);
      assert (steps + more)[..|steps + more| - 1] == steps + front;
      assert (steps + more)[|steps + more| - 1] == more[|more| - 1];
      RunKeepsInv(steps + front);
      StepKeepsInv(Run(START, steps + front), more[|more| - 1]);
    }
  }

  /** After cancelAllClientMethods the only calls pending are those that were on their way to the
      table when it ran. */
  lemma {:induction false} OnlyLateCallsPend(steps: seq<Step>, more: seq<Step>, c: Call)
    requires Run(START, steps).lock.None?
    ensures Waiting(Run(START, steps + [CancelEvery] + more).table, c) ==> OnTheWay(Run(START, steps).PhaseOf(c))
    decreases |more|
  {
    var before := steps + [CancelEvery];
    var s := Run(START, before + more);
    if more == [] {
      assert before + more == before && before[..|steps|] == steps;
      assert s == Apply(Run(START, steps), CancelEvery);
    } else {
      var front, last := more[..|more| - 1], more[|more| - 1];
      assert (before + more)[..|before + more| - 1] == before + front;
      var p := Run(START, before + front);
      assert s == Apply(p, last);
      PhasesOnlyAdvance(steps, [CancelEvery] + front, c);
      assert steps + ([CancelEvery] + front) == before + front;
      OnlyLateCallsPend(steps, front, c);
    }
  }

  lemma {:induction false} PhasesOnlyAdvance(steps: seq<Step>, more: seq<Step>, c: Call)
    ensures HandedOver(Run(START, steps).PhaseOf(c)) ==> HandedOver(Run(START, steps + more).PhaseOf(c))
    decreases |more|
  {
    if more == [] {
      assert steps + more == steps;
    } else {
      var front := more[..|more| - 1];
      PhasesOnlyAdvance(steps, front, c);
      assert (steps + more)[..|steps + more| - 1] == steps + front;
    }
  }

  /** Once the senders are through and cancelAllClientMethods has run, nothing pends and every
      call that was sent has been settled exactly once, whatever responses and cancellations
      follow. */
  lemma NothingStaysPending(steps: seq<Step>, more: seq<Step>, c: Call)
    requires var s := Run(START, steps);
             s.lock.None? && forall d :: s.PhaseOf(d).Idle? || HandedOver(s.PhaseOf(d))
    requires forall step :: step in more ==> !step.Draw?
    ensures var s := Run(START, steps + [CancelEvery] + more);
            && s.table.pending == map[]
            && Settlements(s.table.log, c) == if HandedOver(Run(START, steps).PhaseOf(c)) then 1 else 0
  {
    var all := steps + ([CancelEvery] + more);
    assert steps + [CancelEvery] + more == all;
    var t := Run(START, all).table;
    forall sid | sid in t.pending
      ensures false
    {
      var d := t.pending[sid];
      NobodyWaits(steps, more, d);
      assert Waiting(t, d);
    }
    assert t.pending.Keys == {};
    EveryCallSettledAtMostOnce(all, c);
    NobodyWaits(steps, more, c);
    OnlyHandedOverAtTheEnd(steps, more, c);
  }

  lemma OnlyHandedOverAtTheEnd(steps: seq<Step>, more: seq<Step>, c: Call)
    requires var p := Run(START, steps).PhaseOf(c); p.Idle? || HandedOver(p)
    requires forall step :: step in more ==> !step.Draw?
    ensures HandedOver(Run(START, steps + ([CancelEvery] + more)).PhaseOf(c)) <==> HandedOver(Run(START, steps).PhaseOf(c))
  {
    hide Run;
    PhasesOnlyAdvance(steps, [CancelEvery] + more, c);
    IdleStays(steps, [CancelEvery] + more, c);
  }

  lemma NobodyWaits(steps: seq<Step>, more: seq<Step>, c: Call)
    requires Run(START, steps).lock.None?
    requires var p := Run(START, steps).PhaseOf(c); p.Idle? || HandedOver(p)
    requires forall step :: step in more ==> !step.Draw?
    ensures !Waiting(Run(START, steps + ([CancelEvery] + more)).table, c)
  {
    hide Run, Exclusive, Known, Waiting;
    var all := steps + ([CancelEvery] + more);
    assert steps + [CancelEvery] + more == all;
    OnlyLateCallsPend(steps, more, c);
    OnlyHandedOverAtTheEnd(steps, more, c);
    RunKeepsInv(all);
    InvOfTable(Run(START, all));
  }

  lemma {:induction false} IdleStays(steps: seq<Step>, more: seq<Step>, c: Call)
    requires forall step :: step in more ==> !step.Draw?
    ensures Run(START, steps).PhaseOf(c).Idle? ==> Run(START, steps + more).PhaseOf(c).Idle?
    decreases |more|
  {
    if more == [] {
      assert steps + more == steps;
    } else {
      var front := more[..|more| - 1];
      assert forall step :: step in front ==> step in more;
      IdleStays(steps, front, c);
      assert (steps + more)[..|steps + more| - 1] == steps + front;
      assert more[|more| - 1] in more;
    }
  }

  // ---------------------------------------------------------------- the search for an id

  /** k steps of the search, with nobody in between. */
  ghost function Searches(s: System, c: Call, k: nat): System {
    if k == 0 then s else Apply(Searches(s, c, k - 1), Search(c))
  }

  /** Under the lock the search takes the first id from the counter on that is not pending, and
      gives the lock back. */
  lemma SearchTakesFirstFree(s: System, c: Call, k: nat)
    requires s.PhaseOf(c).Searching? && s.sidRef < SIDS && s.PhaseOf(c).sid in s.table.pending
    requires AllTaken(s.table.pending, s.sidRef, k) && Later(s.sidRef, k) !in s.table.pending
    ensures Searches(s, c, k + 2) ==
            s.(sidRef := Later(s.sidRef, k + 1), phases := s.phases[c := Chosen(Later(s.sidRef, k))], lock := None)
  {
    hide AllTaken;
    SearchGoesOn(s, c, k);
    assert Searches(s, c, k + 2) == Apply(Searches(s, c, k + 1), Search(c));
  }

  lemma {:induction false} SearchGoesOn(s: System, c: Call, k: nat)
    requires s.PhaseOf(c).Searching? && s.sidRef < SIDS && s.PhaseOf(c).sid in s.table.pending
    requires AllTaken(s.table.pending, s.sidRef, k)
    ensures Searches(s, c, k + 1) ==
            s.(sidRef := Later(s.sidRef, k + 1), phases := s.phases[c := Searching(Later(s.sidRef, k))])
  {
    if k == 0 {
      assert Searches(s, c, 1) == Apply(Searches(s, c, 0), Search(c));
    } else {
      SearchGoesOn(s, c, k - 1);
      OneLater(s.sidRef, k);
      assert Later(s.sidRef, k - 1) in s.table.pending;
      assert Searches(s, c, k + 1) == Apply(Searches(s, c, k), Search(c));
    }
  }

  // ---------------------------------------------------------------- the causes of settlements

  predicate PendingUnder(t: Table, sid: nat, c: Call) {
    sid in t.pending && t.pending[sid] == c
  }

  predicate IsReadableSuccess(resp: Response) { resp.hasResult && resp.success && resp.parses }

  /** The step reports success to the caller of c. */
  predicate Completes(s: System, step: Step, c: Call) {
    step.Respond? && s.lock.None? && PendingUnder(s.table, step.resp.sid, c) && IsReadableSuccess(step.resp)
  }

  /** The step reports an error to the caller of c. */
  ghost predicate Fails(s: System, step: Step, c: Call) {
    match step
    case Prepare(d, ok) => d == c && s.PhaseOf(c).Chosen? && !ok
    case Enter(d) =>
      && d == c && s.PhaseOf(c).Prepared? && s.lock.None?
      && (|s.table.pending| > MAX_PENDING_METHODS || s.PhaseOf(c).sid in s.table.pending)
    case Sent(d, ok) => s.PhaseOf(d).Sending? && !ok && s.lock.None? && PendingUnder(s.table, s.PhaseOf(d).sid, c)
    case Respond(resp) => s.lock.None? && PendingUnder(s.table, resp.sid, c) && !IsReadableSuccess(resp)
    case CancelOne(controller) => s.lock.None? && IsFirstOf(s.table, controller, c)
    case CancelEvery => s.lock.None? && Waiting(s.table, c)
    case _ => false
  }

  /** Of the pending calls with the controller c is the one with the smallest id. */
  ghost predicate IsFirstOf(t: Table, controller: nat, c: Call) {
    exists sid: nat ::
      && PendingUnder(t, sid, c) && c.controller == controller
      && forall r :: r in t.pending && t.pending[r].controller == controller ==> sid <= r
  }

  ghost predicate SettledBy(s: System, step: Step, c: Call, outcome: Outcome) {
    if outcome.Completed? then Completes(s, step, c) else Fails(s, step, c)
  }

  lemma SettleLogs(t: Table, sid: nat, outcome: Outcome, e: Settlement)
    ensures e in Settle(t, sid, outcome).log <==> e in t.log || (PendingUnder(t, sid, e.call) && e.outcome == outcome)
  {}

  lemma CancelLogs(t: Table, controller: nat, e: Settlement)
    ensures e in Cancel(t, controller).log <==> e in t.log || (e.outcome.Failed? && IsFirstOf(t, controller, e.call))
  {
    var sids := WithController(t, controller);
    assert forall r: nat :: PendingUnder(t, r, e.call) && e.call.controller == controller ==> r in sids;
    if sids != {} {
      var sid := First(sids);
      SettleLogs(t, sid, Failed, e);
      assert IsFirstOf(t, controller, t.pending[sid]) by {
        assert PendingUnder(t, sid, t.pending[sid]);
        assert forall r :: r in t.pending && t.pending[r].controller == controller ==> r in sids;
      }
      if IsFirstOf(t, controller, e.call) {
        var r: nat :| PendingUnder(t, r, e.call) && e.call.controller == controller
                      && forall q :: q in t.pending && t.pending[q].controller == controller ==> r <= q;
        assert r in sids && sid in sids;
      }
    }
  }

  /** cancelAllClientMethods fails every pending call, in the order of the ids. */
  lemma {:induction false} CancelAllInOrder(t: Table) returns (sids: seq<nat>)
    ensures forall i, j :: 0 <= i < j < |sids| ==> sids[i] < sids[j]
    ensures forall sid :: sid in sids <==> sid in t.pending
    ensures CancelledInOrder(t, sids, CancelAll(t).log)
    decreases |t.pending|
  {
    hide CancelledInOrder;
    if t.pending.Keys == {} {
      sids := [];
      assert CancelledInOrder(t, [], t.log) by { NothingCancelled(t); }
    } else {
      var sid := First(t.pending.Keys);
      var next := Settle(t, sid, Failed);
      var rest := CancelAllInOrder(next);
      CancelAllStep(t, sid);
      OneMoreCancelled(t, sid, rest, CancelAll(t).log);
      sids := [sid] + rest;
    }
  }

  lemma OneMoreCancelled(t: Table, sid: nat, rest: seq<nat>, log: seq<Settlement>)
    requires Least(t.pending.Keys, sid)
    requires forall i, j :: 0 <= i < j < |rest| ==> rest[i] < rest[j]
    requires forall r :: r in rest <==> r in Settle(t, sid, Failed).pending
    requires CancelledInOrder(Settle(t, sid, Failed), rest, log)
    ensures var sids := [sid] + rest;
            && (forall i, j :: 0 <= i < j < |sids| ==> sids[i] < sids[j])
            && (forall r :: r in sids <==> r in t.pending)
            && CancelledInOrder(t, sids, log)
  {
    var next, sids := Settle(t, sid, Failed), [sid] + rest;
    forall i | 0 <= i < |rest|
      ensures sid < rest[i] && rest[i] in next.pending && next.pending[rest[i]] == t.pending[rest[i]]
    {
      assert rest[i] in rest;
    }
    assert log[|t.log|] == next.log[|t.log|];
    forall i | 0 <= i < |sids|
      ensures log[|t.log| + i] == Settlement(t.pending[sids[i]], Failed)
    {
      assert i > 0 ==> log[|next.log| + (i - 1)] == Settlement(next.pending[rest[i - 1]], Failed);
    }
  }

  lemma NothingCancelled(t: Table)
    ensures CancelledInOrder(t, [], t.log)
  {}

  /** The log goes on from that of the table with the failures of the calls pending under the ids. */
  ghost predicate CancelledInOrder(t: Table, sids: seq<nat>, log: seq<Settlement>) {
    && t.log <= log && |log| == |t.log| + |sids|
    && forall i :: 0 <= i < |sids| ==> sids[i] in t.pending && log[|t.log| + i] == Settlement(t.pending[sids[i]], Failed)
  }

  lemma CancelAllLogs(t: Table, e: Settlement)
    ensures e in CancelAll(t).log <==> e in t.log || (e.outcome.Failed? && Waiting(t, e.call))
  {
    hide CancelAll;
    var sids := CancelAllInOrder(t);
    var r := CancelAll(t);
    if e in r.log {
      var i :| 0 <= i < |r.log| && r.log[i] == e;
      if i >= |t.log| {
        assert sids[i - |t.log|] in sids;
      }
    }
    if Waiting(t, e.call) {
      var sid :| sid in t.pending && t.pending[sid] == e.call;
      var i :| 0 <= i < |sids| && sids[i] == sid;
      assert r.log[|t.log| + i] == Settlement(e.call, Failed);
    }
  }

  lemma StepLogs(s: System, step: Step, c: Call, outcome: Outcome)
    ensures Settlement(c, outcome) in Apply(s, step).table.log <==>
            Settlement(c, outcome) in s.table.log || SettledBy(s, step, c, outcome)
  {
    hide Settle, Cancel, CancelAll, IsFirstOf, Waiting;
    var e := Settlement(c, outcome);
    match step
    case Sent(d, ok) =>
      if s.PhaseOf(d).Sending? {
        SettleLogs(s.table, s.PhaseOf(d).sid, Failed, e);
      }
    case Respond(resp) =>
      SettleLogs(s.table, resp.sid, OutcomeOf(resp), e);
    case CancelOne(controller) =>
      CancelLogs(s.table, controller, e);
    case CancelEvery =>
      CancelAllLogs(s.table, e);
    case _ =>
  }

  /** Some step of the run was the cause. */
  ghost predicate Caused(steps: seq<Step>, c: Call, outcome: Outcome) {
    exists k :: 0 <= k < |steps| && SettledBy(Run(START, steps[..k]), steps[k], c, outcome)
  }

  lemma CausedByLast(steps: seq<Step>, last: Step, c: Call, outcome: Outcome)
    ensures Caused(steps + [last], c, outcome) <==> Caused(steps, c, outcome) || SettledBy(Run(START, steps), last, c, outcome)
  {
    hide Run, SettledBy;
    var all := steps + [last];
    assert all[..|steps|] == steps && all[|steps|] == last;
    assert forall k :: 0 <= k < |steps| ==> steps[..k] == all[..k] && steps[k] == all[k];
    if Caused(steps, c, outcome) {
      var k :| 0 <= k < |steps| && SettledBy(Run(START, steps[..k]), steps[k], c, outcome);
      assert SettledBy(Run(START, all[..k]), all[k], c, outcome);
    }
  }

  /** In every interleaving: a caller is told of success if and only if some response was a
      readable success to the id its call was pending under, and of an error if and only if some
      step was one of the causes listed in Fails. */
  lemma {:induction false} SettledIff(steps: seq<Step>, c: Call, outcome: Outcome)
    ensures Settlement(c, outcome) in Run(START, steps).table.log <==>
            exists k :: 0 <= k < |steps| && SettledBy(Run(START, steps[..k]), steps[k], c, outcome)
  {
    hide Apply, SettledBy;
    assert Caused(steps, c, outcome) <==>
           exists k :: 0 <= k < |steps| && SettledBy(Run(START, steps[..k]), steps[k], c, outcome);
    if steps != [] {
      hide Caused;
      var front, last := steps[..|steps| - 1], steps[|steps| - 1];
      assert front + [last] == steps;
      SettledIff(front, c, outcome);
      StepLogs(Run(START, front), last, c, outcome);
      CausedByLast(front, last, c, outcome);
    }
  }

  // ---------------------------------------------------------------- ids and their calls

  /** How often the counter has been incremented. */
  ghost function Increments(steps: seq<Step>): nat {
    if steps == [] then 0
    else
      var front := steps[..|steps| - 1];
      Increments(front) + if Run(START, steps).sidRef != Run(START, front).sidRef then 1 else 0
  }

  /** A pending call is found under the id its sender has drawn. */
  ghost predicate Placed(s: System) {
    forall sid :: sid in s.table.pending ==>
      HandedOver(s.PhaseOf(s.table.pending[sid])) && s.PhaseOf(s.table.pending[sid]).sid == sid
  }

  ghost predicate HasSid(s: System, c: Call, sid: nat) {
    !s.PhaseOf(c).Idle? && s.PhaseOf(c).sid == sid
  }

  /** How many ids had been drawn when c drew the one it has. */
  ghost function DrawTime(steps: seq<Step>, c: Call): nat {
    if steps == [] then 0
    else
      var front := steps[..|steps| - 1];
      if Run(START, steps).sidRef != Run(START, front).sidRef && Drawer(steps[|steps| - 1]) == Some(c)
      then Increments(front)
      else DrawTime(front, c)
  }

  function Drawer(step: Step): Option<Call> {
    if step.Draw? || step.Search? then Some(step.call) else None
  }

  /** A call's id is its place in the order of all drawings, cut to 32 bits. */
  ghost predicate Timed(s: System, n: nat, time: Call -> nat) {
    && s.sidRef == n % SIDS
    && (forall c, sid: nat :: HasSid(s, c, sid) ==> time(c) < n && sid == time(c) % SIDS)
    && (forall c, d, k: nat, l: nat :: HasSid(s, c, k) && HasSid(s, d, l) && time(c) == time(d) ==> c == d)
  }

  lemma FewerPending(s: System, sid: nat, outcome: Outcome)
    requires Placed(s)
    ensures Placed(s.(table := Settle(s.table, sid, outcome))) && Placed(s.(table := CancelAll(s.table)))
  {}

  lemma StepKeepsPlaced(s: System, step: Step)
    requires Placed(s)
    ensures Placed(Apply(s, step))
  {
    hide Placed, Settle, CancelAll, Accepts, Register;
    match step
    case Draw(c) =>
      if s.PhaseOf(c).Idle? {
        EarlyPhase(s, c, Drawn(s.sidRef));
      }
    case Lock(c) =>
      if s.PhaseOf(c).Drawn? {
        EarlyPhase(s, c, Searching(s.PhaseOf(c).sid));
      }
    case Search(c) =>
      if s.PhaseOf(c).Searching? {
        EarlyPhase(s, c, Searching(s.sidRef));
        EarlyPhase(s, c, Chosen(s.PhaseOf(c).sid));
      }
    case Prepare(c, ok) =>
      if s.PhaseOf(c).Chosen? {
        EarlyPhase(s, c, Prepared(s.PhaseOf(c).sid));
        EarlyPhase(s, c, Over(s.PhaseOf(c).sid));
      }
    case Enter(c) =>
      if s.PhaseOf(c).Prepared? {
        HandOverPlaces(s, c);
      }
    case Sent(c, ok) =>
      if s.PhaseOf(c).Sending? {
        var sid := s.PhaseOf(c).sid;
        HandOverPlaces(s, c);
        FewerPending(s.At(c, Over(sid)), sid, Failed);
      }
    case Respond(resp) =>
      FewerPending(s, resp.sid, OutcomeOf(resp));
    case CancelOne(controller) =>
      var sids := WithController(s.table, controller);
      if sids != {} {
        FewerPending(s, First(sids), Failed);
      }
    case CancelEvery =>
      FewerPending(s, 0, Failed);
  }

  /** The call is handed over, or its sender is through. */
  lemma HandOverPlaces(s: System, c: Call)
    requires Placed(s)
    ensures s.PhaseOf(c).Sending? ==> Placed(s.At(c, Over(s.PhaseOf(c).sid)))
    ensures s.PhaseOf(c).Prepared? ==> Placed(Apply(s, Enter(c)))
  {}

  /** A phase before the call is handed over may change to any other. */
  lemma EarlyPhase(s: System, c: Call, p: Phase)
    requires Placed(s) && !HandedOver(s.PhaseOf(c))
    ensures forall k, l, t: Table :: t.pending == s.table.pending ==> Placed(s.At(c, p).(sidRef := k, lock := l, table := t))
  {}

  lemma {:induction false} RunKeepsPlaced(steps: seq<Step>)
    ensures Placed(Run(START, steps))
  {
    hide Apply, Placed;
    if steps == [] {
      StartIsEmpty(c => 0);
    } else {
      RunKeepsPlaced(steps[..|steps| - 1]);
      StepKeepsPlaced(Run(START, steps[..|steps| - 1]), steps[|steps| - 1]);
    }
  }

  /** A call's id changes by drawing from the counter only. */
  lemma SidsAreDrawn(s: System, step: Step)
    requires s.sidRef < SIDS
    ensures var r := Apply(s, step);
            if r.sidRef == s.sidRef then forall d, sid: nat :: HasSid(r, d, sid) <==> HasSid(s, d, sid)
            else
              && (step.Draw? || step.Search?) && r.sidRef == (s.sidRef + 1) % SIDS
              && forall d, sid: nat :: HasSid(r, d, sid) <==>
                   if d == step.call then sid == s.sidRef else HasSid(s, d, sid)
  {
    hide Settle, Register, Report, Cancel, CancelAll, Accepts;
    var r := Apply(s, step);
  }

  lemma {:induction false} RunKeepsTimed(steps: seq<Step>)
    ensures Timed(Run(START, steps), Increments(steps), c => DrawTime(steps, c))
  {
    hide Apply, Timed;
    if steps == [] {
      StartIsEmpty(c => DrawTime(steps, c));
    } else {
      var front := steps[..|steps| - 1];
      RunKeepsTimed(front);
      StepKeepsTimed(Run(START, front), steps[|steps| - 1], Increments(front), c => DrawTime(front, c), c => DrawTime(steps, c));
    }
  }

  lemma StepKeepsTimed(s: System, step: Step, n: nat, time: Call -> nat, time': Call -> nat)
    requires Timed(s, n, time)
    requires var r := Apply(s, step);
             forall c :: time'(c) == if r.sidRef != s.sidRef && Drawer(step) == Some(c) then n else time(c)
    ensures var r := Apply(s, step);
            Timed(r, if r.sidRef != s.sidRef then n + 1 else n, time')
  {
    hide Apply, HasSid;
    SidsAreDrawn(s, step);
  }

  lemma StartIsEmpty(time: Call -> nat)
    ensures Placed(START) && Timed(START, 0, time)
  {}

  /** A response to a call, or the failure of its sending, settles that call if it is pending. It
      settles another call if and only if that one is pending and drew its id a multiple of 2^32
      drawings earlier or later. */
  lemma SettlesItsOwnCall(steps: seq<Step>, c: Call, d: Call, outcome: Outcome)
    requires !Run(START, steps).PhaseOf(c).Idle? && d != c
    ensures var s := Run(START, steps);
            var t := Settle(s.table, s.PhaseOf(c).sid, outcome);
            && (Waiting(s.table, c) ==> t.log == s.table.log + [Settlement(c, outcome)])
            && (t.log == s.table.log + [Settlement(d, outcome)] <==>
                  Waiting(s.table, d) && DrawTime(steps, c) % SIDS == DrawTime(steps, d) % SIDS)
            && (Waiting(s.table, d) ==> DrawTime(steps, c) != DrawTime(steps, d))
  {
    hide Run, DrawTime, Increments;
    RunKeepsPlaced(steps);
    RunKeepsTimed(steps);
    var s := Run(START, steps);
    assert HasSid(s, c, s.PhaseOf(c).sid);
    if Waiting(s.table, d) {
      var sid :| sid in s.table.pending && s.table.pending[sid] == d;
      assert HasSid(s, d, sid);
    }
    SettledCall(s.table, s.PhaseOf(c).sid, d, outcome);
  }

  lemma SettledCall(t: Table, sid: nat, d: Call, outcome: Outcome)
    ensures Settle(t, sid, outcome).log == t.log + [Settlement(d, outcome)] <==> sid in t.pending && t.pending[sid] == d
  {
    var last := Settlement(d, outcome);
    assert |t.log + [last]| == |t.log| + 1 && (t.log + [last])[|t.log|] == last;
    assert sid in t.pending ==> Settle(t, sid, outcome).log[|t.log|] == Settlement(t.pending[sid], outcome);
  }

  /** The system can be in state s after n ids have been drawn. */
  ghost predicate ReachableIn(s: System, n: nat) {
    exists steps :: Run(START, steps) == s && Increments(steps) == n
  }

  /** As long as no more than n ids have been drawn, a response to a call that is no longer
      pending, or the failure of its sending, settles nothing. */
  ghost predicate OwnCallOnly(n: nat) {
    forall s, k: nat, c, outcome | k <= n && ReachableIn(s, k) && !s.PhaseOf(c).Idle? && !Waiting(s.table, c) ::
      Settle(s.table, s.PhaseOf(c).sid, outcome) == s.table
  }

  lemma NotLapped(s: System, n: nat, c: Call, outcome: Outcome)
    requires n <= SIDS && ReachableIn(s, n) && !s.PhaseOf(c).Idle? && !Waiting(s.table, c)
    ensures Settle(s.table, s.PhaseOf(c).sid, outcome) == s.table
  {
    hide Run, DrawTime, Increments;
    var steps :| Run(START, steps) == s && Increments(steps) == n;
    var sid := s.PhaseOf(c).sid;
    RunKeepsPlaced(steps);
    RunKeepsTimed(steps);
    assert HasSid(s, c, sid);
    assert forall d :: HasSid(s, d, sid) ==> d == c;
    assert sid in s.table.pending ==> HasSid(s, s.table.pending[sid], sid);
  }

  /** Matching by id alone is safe for exactly 2^32 drawn ids. */
  lemma OwnCallOnlyIffNotLapped(n: nat)
    ensures OwnCallOnly(n) <==> n <= SIDS
  {
    hide ReachableIn, Settle, Waiting;
    if n <= SIDS {
      forall s, k: nat, c, outcome | k <= n && ReachableIn(s, k) && !s.PhaseOf(c).Idle? && !Waiting(s.table, c)
        ensures Settle(s.table, s.PhaseOf(c).sid, outcome) == s.table
      {
        NotLapped(s, k, c, outcome);
      }
    } else {
      var s, c, d := LappedFailureSettlesAnotherCall();
    }
  }

  lemma ReachesNext(s: System, n: nat, step: Step)
    requires ReachableIn(s, n)
    ensures ReachableIn(Apply(s, step), if Apply(s, step).sidRef == s.sidRef then n else n + 1)
  {
    hide Apply;
    var steps :| Run(START, steps) == s && Increments(steps) == n;
    var all := steps + [step];
    assert all[..|all| - 1] == steps;
    assert Run(START, all) == Apply(s, step);
  }

  /** A sender that is not disturbed registers its call under the counter's value. */
  lemma UndisturbedSender(s: System, n: nat, c: Call) returns (t: System)
    requires ReachableIn(s, n) && s.lock.None? && s.PhaseOf(c).Idle? && s.sidRef < SIDS
    requires s.sidRef !in s.table.pending && |s.table.pending| <= MAX_PENDING_METHODS
    ensures ReachableIn(t, n + 1) && t.lock.None? && t.sidRef == (s.sidRef + 1) % SIDS
    ensures t.table == s.table.(pending := s.table.pending[s.sidRef := c])
    ensures t.phases == s.phases[c := Sending(s.sidRef)]
  {
    hide ReachableIn;
    t := s;
    ReachesNext(t, n, Draw(c));
    t := Apply(t, Draw(c));
    ReachesNext(t, n + 1, Lock(c));
    t := Apply(t, Lock(c));
    ReachesNext(t, n + 1, Search(c));
    t := Apply(t, Search(c));
    ReachesNext(t, n + 1, Prepare(c, true));
    t := Apply(t, Prepare(c, true));
    ReachesNext(t, n + 1, Enter(c));
    t := Apply(t, Enter(c));
    assert t.phases == s.phases[c := Sending(s.sidRef)];
  }

  /** k more calls draw an id and wait for the lock. */
  lemma {:induction false} ManyDraw(s: System, n: nat, k: nat) returns (t: System)
    requires ReachableIn(s, n) && s.sidRef < SIDS && forall c: Call :: c.id >= 2 ==> s.PhaseOf(c).Idle?
    ensures ReachableIn(t, n + k) && t.table == s.table && t.lock == s.lock && t.sidRef == (s.sidRef + k) % SIDS
    ensures forall c: Call :: c.id < 2 ==> t.PhaseOf(c) == s.PhaseOf(c)
    ensures forall c: Call :: c.id >= k + 2 ==> t.PhaseOf(c).Idle?
    decreases k
  {
    hide ReachableIn, Settle, Register, Cancel, CancelAll;
    t := s;
    if k > 0 {
      t := ManyDraw(s, n, k - 1);
      ReachesNext(t, n + k - 1, Draw(Call(k + 1, 0)));
      t := Apply(t, Draw(Call(k + 1, 0)));
    }
  }

  /** With one id more, the failure of a sending whose call has been cancelled meanwhile can
      settle another call, which is being sent under the same id. */
  lemma LappedFailureSettlesAnotherCall() returns (s: System, c: Call, d: Call)
    ensures ReachableIn(s, SIDS + 1) && s.lock.None?
    ensures c != d && s.PhaseOf(c).Sending? && s.PhaseOf(d).Sending? && !Waiting(s.table, c)
    ensures Settlements(s.table.log, c) == 1 && Settlements(s.table.log, d) == 0
    ensures Settlements(Apply(s, Sent(c, false)).table.log, d) == 1
  {
    hide ReachableIn, Settlements, CancelAll, Apply, Waiting, Settle;
    c, d := Call(0, 0), Call(1, 0);
    var s2 := CancelledWhileSending(c);
    var s3 := ManyDraw(s2, 1, SIDS - 1);
    s := UndisturbedSender(s3, SIDS, d);
    LogOfTwo(c, d);
    FailureHits(s, c, d);
  }

  lemma FailureHits(s: System, c: Call, d: Call)
    requires s.lock.None? && s.PhaseOf(c) == Sending(0) && s.table.pending == map[0 := d] && c != d
    ensures !Waiting(s.table, c)
    ensures Apply(s, Sent(c, false)).table.log == s.table.log + [Settlement(d, Failed)]
  {}

  lemma CancelledWhileSending(c: Call) returns (t: System)
    ensures ReachableIn(t, 1) && t.lock.None? && t.sidRef == 1 && t.phases == map[c := Sending(0)]
    ensures t.table == Table(map[], [Settlement(c, Failed)])
  {
    hide CancelAll, Apply, ReachableIn, Settle;
    StartReachable();
    var s := UndisturbedSender(START, 0, c);
    assert s.table == Table(map[0 := c], []) && s.phases == map[c := Sending(0)];
    ReachesNext(s, 1, CancelEvery);
    t := Apply(s, CancelEvery);
    CancelEveryIs(s, c);
    CancelAllStep(s.table, 0);
    CancelAllOfNone([Settlement(c, Failed)]);
  }

  lemma StartReachable()
    ensures ReachableIn(START, 0)
  {
    assert Run(START, []) == START && Increments([]) == 0;
  }

  lemma CancelEveryIs(s: System, c: Call)
    requires s.lock.None?
    ensures Apply(s, CancelEvery) == s.(table := CancelAll(s.table))
    ensures Settle(Table(map[0 := c], []), 0, Failed) == Table(map[], [Settlement(c, Failed)])
  {}

  lemma LogOfTwo(c: Call, d: Call)
    requires c != d
    ensures var one := [Settlement(c, Failed)];
            var two := one + [Settlement(d, Failed)];
            Settlements(one, c) == 1 && Settlements(one, d) == 0 && Settlements(two, d) == 1
  {
    var one := [Settlement(c, Failed)];
    var two := one + [Settlement(d, Failed)];
    assert one[..0] == [] && two[..1] == one;
  }
}

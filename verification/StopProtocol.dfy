/** Stopping a trace: pushers count themselves in and out per queue, and the controller sets the
    stop flags and then polls the counters one queue at a time. Every step is one access to a
    shared variable. */
module StopProtocol {

  /** The queue a push goes to, as coded: an id equal to the number of queues is kept. */
  function QueueOf(id: nat, queues: nat): nat
    requires queues > 0
  {
    if id > queues then id % queues else id
  }

  /** That id, and no other, is out of range. */
  lemma QueueInRange(id: nat, queues: nat)
    requires queues > 0
    ensures QueueOf(id, queues) < queues <==> id != queues
  {}

  /** Where a push stands. */
  datatype Pusher =
    | Out
    | Entered(queue: nat)    // counted in, flag not read
    | Inside(queue: nat)     // the inner push is in progress
    | Leaving(queue: nat)    // refused or done, not counted out
  {
    predicate At(q: nat) { !Out? && queue == q }
  }

  datatype Controller =
    | Running
    | Starting(queue: nat)
    | Stopping(queue: nat)
    | Polling(queue: nat)
    | Stopped

  /** traceStopping and tracingRefCounter of every queue, and the threads. */
  datatype System = System(stopping: seq<bool>, counter: seq<int>, pushers: map<nat, Pusher>, controller: Controller) {
    function Queues(): nat { |stopping| }
    function PusherOf(p: nat): Pusher { if p in pushers then pushers[p] else Out }
    function Move(p: nat, to: Pusher): System { this.(pushers := pushers[p := to]) }
    function Bump(q: nat, d: int): System {
      if q < |counter| then this.(counter := counter[q := counter[q] + d]) else this
    }
  }

  datatype Step =
    | Arrive(pusher: nat, id: nat)
    | Check(pusher: nat)
    | Finish(pusher: nat)
    | Leave(pusher: nat)
    | Start
    | Stop
    | Advance

  function Initial(queues: nat): System {
    System(seq(queues, q => true), seq(queues, q => 0), map[], Stopped)
  }

  ghost predicate Shape(s: System) {
    && s.Queues() > 0 && |s.counter| == s.Queues()
    && forall p :: p in s.pushers ==> s.pushers[p].Out? || s.pushers[p].queue < s.Queues()
  }

  /** A step that is not enabled changes nothing. */
  function Apply(s: System, step: Step): (t: System)
    requires Shape(s)
    ensures Shape(t) && t.Queues() == s.Queues()
  {
    match step
    case Arrive(p, id) =>
      if s.PusherOf(p).Out? && id != s.Queues() then
        QueueInRange(id, s.Queues());
        var q := QueueOf(id, s.Queues());
        s.Move(p, Entered(q)).Bump(q, 1)
      else s
    case Check(p) =>
      if s.PusherOf(p).Entered? then
        var q := s.PusherOf(p).queue;
        s.Move(p, if s.stopping[q] then Leaving(q) else Inside(q))
      else s
    case Finish(p) =>
      if s.PusherOf(p).Inside? then s.Move(p, Leaving(s.PusherOf(p).queue)) else s
    case Leave(p) =>
      if s.PusherOf(p).Leaving? then s.Move(p, Out).Bump(s.PusherOf(p).queue, -1) else s
    case Start => if s.controller.Stopped? || s.controller.Running? then s.(controller := Starting(0)) else s
    case Stop => if s.controller.Running? || s.controller.Stopped? then s.(controller := Stopping(0)) else s
    case Advance =>
      (match s.controller
       case Starting(q) =>
         if q < s.Queues() then s.(stopping := s.stopping[q := false], controller := Starting(q + 1))
         else s.(controller := Running)
       case Stopping(q) =>
         if q < s.Queues() then s.(stopping := s.stopping[q := true], controller := Stopping(q + 1))
         else s.(controller := Polling(0))
       case Polling(q) =>
         if q >= s.Queues() then s.(controller := Stopped)
         else if s.counter[q] != 0 then s.(controller := Polling(0))
         else s.(controller := Polling(q + 1))
       case _ => s)
  }

  // ---------------------------------------------------------------- the invariant

  ghost function Present(s: System, q: nat): set<nat> {
    set p | p in s.pushers && s.pushers[p].At(q)
  }

  /** The counter of a queue is the number of pushes counted in at it. */
  ghost predicate Counted(s: System) {
    Shape(s) && forall q :: 0 <= q < s.Queues() ==> s.counter[q] == |Present(s, q)|
  }

  /** How many queues the controller has set the flag of since the stop. */
  function FlagsSet(s: System): nat {
    match s.controller
    case Running => 0
    case Starting(_) => 0
    case Stopping(q) => q
    case Polling(_) => s.Queues()
    case Stopped => s.Queues()
  }

  /** How many queues have been found empty since then. */
  function FoundEmpty(s: System): nat {
    match s.controller
    case Polling(q) => q
    case Stopped => s.Queues()
    case _ => 0
  }

  /** How many queues the controller has cleared the flag of since the start. */
  function FlagsClear(s: System): nat {
    match s.controller
    case Starting(q) => q
    case Running => s.Queues()
    case _ => 0
  }

  ghost predicate Inv(s: System) {
    && Shape(s) && Counted(s)
    && (forall q :: 0 <= q < s.Queues() && q < FlagsClear(s) ==> !s.stopping[q])
    && (forall q :: 0 <= q < s.Queues() && q < FlagsSet(s) ==> s.stopping[q])
    && (forall p :: p in s.pushers && s.pushers[p].Inside? ==> s.pushers[p].queue >= FoundEmpty(s))
  }

  /** One pusher moves: it joins or leaves the present of the queues it moves between. */
  lemma MoveCounts(s: System, p: nat, to: Pusher, q: nat)
    ensures |Present(s.Move(p, to), q)| ==
            |Present(s, q)| - (if s.PusherOf(p).At(q) then 1 else 0) + (if to.At(q) then 1 else 0)
  {
    var before, after := Present(s, q), Present(s.Move(p, to), q);
    assert before - {p} == after - {p};
    assert p in before <==> s.PusherOf(p).At(q);
    assert p in after <==> to.At(q);
    assert |before - {p}| == |before| - (if p in before then 1 else 0);
    assert |after - {p}| == |after| - (if p in after then 1 else 0);
  }

  lemma PusherStepKeepsInv(s: System, step: Step, p: nat)
    requires Inv(s) && (step == Check(p) || step == Finish(p) || step == Leave(p) || (step.Arrive? && step.pusher == p))
    ensures Inv(Apply(s, step))
  {
    hide Present;
    var t := Apply(s, step);
    var to := t.PusherOf(p);
    assert t.pushers == s.pushers || t.pushers == s.pushers[p := to];
    forall q | 0 <= q < s.Queues()
      ensures t.counter[q] == |Present(t, q)|
    {
      MoveCounts(s, p, to, q);
      PresentIsOfPushers(t, s.Move(p, to), q);
    }
  }

  lemma PresentIsOfPushers(s: System, t: System, q: nat)
    ensures s.pushers == t.pushers ==> Present(s, q) == Present(t, q)
  {}

  lemma EmptyQueue(s: System, q: nat)
    requires Inv(s) && q < s.Queues() && s.counter[q] == 0
    ensures forall p :: p in s.pushers ==> !s.pushers[p].At(q)
  {
    forall p | p in s.pushers
      ensures !s.pushers[p].At(q)
    {
      assert Present(s, q) == {};
      assert p !in Present(s, q);
    }
  }

  lemma ControllerStepKeepsInv(s: System, step: Step)
    requires Inv(s) && (step.Start? || step.Stop? || step.Advance?)
    ensures Inv(Apply(s, step))
  {
    hide Present;
    var t := Apply(s, step);
    forall q | 0 <= q < s.Queues()
      ensures |Present(t, q)| == |Present(s, q)|
    {
      PresentIsOfPushers(s, t, q);
    }
    if step.Advance? && s.controller.Polling? && s.controller.queue < s.Queues() && s.counter[s.controller.queue] == 0 {
      EmptyQueue(s, s.controller.queue);
    }
  }

  function Run(s: System, steps: seq<Step>): (t: System)
    requires Shape(s)
    ensures Shape(t) && t.Queues() == s.Queues()
    decreases |steps|
  {
    if steps == [] then s else Apply(Run(s, steps[..|steps| - 1]), steps[|steps| - 1])
  }

  lemma StepKeepsInv(s: System, step: Step)
    requires Inv(s)
    ensures Inv(Apply(s, step))
  {
    if step.Start? || step.Stop? || step.Advance? {
      ControllerStepKeepsInv(s, step);
    } else {
      PusherStepKeepsInv(s, step, step.pusher);
    }
  }

  lemma {:induction false} RunKeepsInv(s: System, steps: seq<Step>)
    requires Inv(s)
    ensures Inv(Run(s, steps)) && Run(s, steps).Queues() == s.Queues()
    decreases |steps|
  {
    hide Counted;
    if steps != [] {
      RunKeepsInv(s, steps[..|steps| - 1]);
      StepKeepsInv(Run(s, steps[..|steps| - 1]), steps[|steps| - 1]);
    }
  }

  function FromStart(queues: nat, steps: seq<Step>): (s: System)
    requires queues > 0
    ensures Shape(s)
  {
    Run(Initial(queues), steps)
  }

  // ---------------------------------------------------------------- main results

  /** In every interleaving, as long as a stop has completed and no start has followed, no inner
      push is in progress. */
  lemma NoPushAfterStop(queues: nat, steps: seq<Step>, p: nat)
    requires queues > 0
    ensures var s := FromStart(queues, steps);
            s.controller.Stopped? ==> !s.PusherOf(p).Inside?
  {
    RunKeepsInv(Initial(queues), steps);
  }

  /** The counters count: a queue's counter is zero exactly when no push is counted in there. */
  lemma CounterIsPresence(queues: nat, steps: seq<Step>, q: nat)
    requires q < queues
    ensures var s := FromStart(queues, steps);
            && |s.counter| == queues && s.counter[q] >= 0
            && (s.counter[q] == 0 <==> forall p :: !s.PusherOf(p).At(q))
  {
    var s := FromStart(queues, steps);
    RunKeepsInv(Initial(queues), steps);
    assert s.counter[q] == |Present(s, q)|;
    if s.counter[q] == 0 {
      EmptyQueue(s, q);
    } else {
      var p :| p in Present(s, q);
      assert s.PusherOf(p).At(q);
    }
  }

  /** The steps of a push on its own, the inner push not included. */
  function Pushing(s: System, p: nat, id: nat): System
    requires Shape(s)
  {
    Apply(Apply(s, Arrive(p, id)), Check(p))
  }

  /** While the trace is running every push gets through to its queue, and while a stop is in
      force it is turned away. */
  lemma RunningAdmits(queues: nat, steps: seq<Step>, p: nat, id: nat)
    requires queues > 0 && id != queues
    ensures var s, q := FromStart(queues, steps), if id < queues then id else id % queues;
            s.PusherOf(p).Out? ==>
              && (s.controller.Running? ==> Pushing(s, p, id).PusherOf(p) == Inside(q))
              && (s.controller.Stopped? || s.controller.Polling? ==> Pushing(s, p, id).PusherOf(p) == Leaving(q))
  {
    RunKeepsInv(Initial(queues), steps);
    hide Counted, Run, Pushing;
    if FromStart(queues, steps).PusherOf(p).Out? {
      FlagDecides(FromStart(queues, steps), p, id);
    }
  }

  lemma FlagDecides(s: System, p: nat, id: nat)
    requires Shape(s) && s.PusherOf(p).Out? && id != s.Queues()
    ensures var q := if id < s.Queues() then id else id % s.Queues();
            q < s.Queues() && Pushing(s, p, id).PusherOf(p) == if s.stopping[q] then Leaving(q) else Inside(q)
  {}

  /** A push that is over leaves nothing behind, in whatever state it is made. */
  lemma PushLeavesNothing(s: System, p: nat, id: nat)
    requires Shape(s) && s.PusherOf(p).Out? && id != s.Queues()
    ensures Apply(Apply(Pushing(s, p, id), Finish(p)), Leave(p)) == s.Move(p, Out)
  {
    hide Counted, QueueOf;
    QueueInRange(id, s.Queues());
    var q := QueueOf(id, s.Queues());
    assert s.counter[q := s.counter[q] + 1][q := s.counter[q]] == s.counter;
  }

  /** What holds from the end of a stop to the next start, through any further stops. */
  predicate Quiet(s: System) {
    && (forall q :: 0 <= q < s.Queues() ==> s.stopping[q])
    && (forall p :: p in s.pushers ==> !s.pushers[p].Inside?)
    && !s.controller.Starting? && !s.controller.Running?
  }

  lemma {:induction false} QuietUntilStart(s: System, steps: seq<Step>)
    requires Inv(s) && s.controller.Stopped?
    requires forall step :: step in steps ==> !step.Start?
    ensures Quiet(Run(s, steps))
    decreases |steps|
  {
    hide Counted, Quiet;
    QuietStep(s, Stop);
    if steps != [] {
      var front := steps[..|steps| - 1];
      RunKeepsInv(s, front);
      assert forall step :: step in front ==> step in steps;
      QuietUntilStart(s, front);
      assert steps[|steps| - 1] in steps;
      QuietStep(Run(s, front), steps[|steps| - 1]);
    }
  }

  lemma QuietStep(s: System, step: Step)
    requires Inv(s)
    ensures s.controller.Stopped? ==> Quiet(s)
    ensures Quiet(s) && !step.Start? ==> Quiet(Apply(s, step))
  {}

  /** Setting the flags ends: a start leads to a running trace and a stop to the polling, one
      step for each queue and one more. */
  lemma {:induction false} FlagsAreSet(s: System, k: nat)
    requires Shape(s) && (s.controller.Starting? || s.controller.Stopping?) && s.controller.queue + k <= s.Queues()
    ensures var q := s.controller.queue + k;
            && Run(s, Advances(k)).controller == (if s.controller.Starting? then Starting(q) else Stopping(q))
            && (q == s.Queues() ==> Run(s, Advances(k + 1)).controller == if s.controller.Starting? then Running else Polling(0))
  {
    hide Advances, Run;
    if k == 0 {
      NoAdvance(s);
    } else {
      FlagsAreSet(s, k - 1);
      OneMore(s, k - 1);
    }
    OneMore(s, k);
  }

  /** So a start, of a stopped or of a running trace, makes it run, and a stop leads to the polling. */
  lemma StartRuns(s: System)
    requires Shape(s) && (s.controller.Stopped? || s.controller.Running?)
    ensures Run(Apply(s, Start), Advances(s.Queues() + 1)).controller == Running
    ensures Run(Apply(s, Stop), Advances(s.Queues() + 1)).controller == Polling(0)
  {
    hide Run, Advances;
    FlagsAreSet(Apply(s, Start), s.Queues());
    FlagsAreSet(Apply(s, Stop), s.Queues());
  }

  function Advances(k: nat): seq<Step> { seq(k, i => Advance) }

  /** One look: at an empty queue, or at none when all have been passed. */
  lemma OneLook(s: System)
    requires Inv(s) && s.controller.Polling? && s.controller.queue <= s.Queues()
    requires forall p :: p in s.pushers ==> s.pushers[p].Out?
    ensures Apply(s, Advance) ==
            s.(controller := if s.controller.queue < s.Queues() then Polling(s.controller.queue + 1) else Stopped)
  {
    assert Present(s, s.controller.queue) == {};
  }

  lemma RunLast(s: System, steps: seq<Step>, step: Step)
    requires Shape(s)
    ensures Run(s, steps + [step]) == Apply(Run(s, steps), step)
  {
    hide Apply, Shape;
    var all := steps + [step];
    assert all[..|all| - 1] == steps;
  }

  lemma OneMore(s: System, k: nat)
    requires Shape(s)
    ensures Run(s, Advances(k + 1)) == Apply(Run(s, Advances(k)), Advance)
  {
    hide Apply, Run, Shape;
    RunLast(s, Advances(k), Advance);
    assert Advances(k + 1) == Advances(k) + [Advance];
  }

  /** The polling ends: once every push has left, the controller needs one look at each queue it
      has not passed. */
  lemma {:induction false} PollingEnds(s: System, k: nat)
    requires Inv(s) && s.controller.Polling? && s.controller.queue + k <= s.Queues()
    requires forall p :: p in s.pushers ==> s.pushers[p].Out?
    ensures Run(s, Advances(k)) == s.(controller := Polling(s.controller.queue + k))
    ensures s.controller.queue + k == s.Queues() ==> Run(s, Advances(k + 1)) == s.(controller := Stopped)
  {
    hide Counted, Advances, Run, Apply;
    RunKeepsInv(s, Advances(k));
    if k == 0 {
      NoAdvance(s);
    } else {
      PollingEnds(s, k - 1);
      RunKeepsInv(s, Advances(k - 1));
      OneMore(s, k - 1);
      OneLook(Run(s, Advances(k - 1)));
    }
    OneMore(s, k);
    OneLook(Run(s, Advances(k)));
  }

  lemma NoAdvance(s: System)
    requires Shape(s)
    ensures Run(s, Advances(0)) == s
  {}

}

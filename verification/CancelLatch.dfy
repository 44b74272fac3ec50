/**
 * The TypeScript client's consumer handles: the idempotent `cancel` that all callers share,
 * and the registry of live consumers per queue. Handles and callers are numbers; a caller is
 * one call of `cancel()`.
 */
module CancelLatch {
  import opened Options

  /** `cancelPromise`: null, pending for the callers that joined it, or fulfilled. */
  datatype Latch = Clear | InFlight | Succeeded

  datatype State = State(registry: map<string, set<nat>>, queueOf: map<nat, string>, latch: map<nat, Latch>)

  function Registered(registry: map<string, set<nat>>, queue: string, handle: nat): map<string, set<nat>> {
    registry[queue := (if queue in registry then registry[queue] else {}) + {handle}]
  }

  function Deregistered(registry: map<string, set<nat>>, queue: string, handle: nat): map<string, set<nat>> {
    if queue !in registry then registry
    else if registry[queue] - {handle} == {} then registry - {queue}
    else registry[queue := registry[queue] - {handle}]
  }

  predicate Holds(registry: map<string, set<nat>>, queue: string, handle: nat) {
    queue in registry && handle in registry[queue]
  }

  /** Registering adds one handle under its queue and keeps every other. */
  lemma RegisteredAddsOne(registry: map<string, set<nat>>, queue: string, handle: nat, q: string, g: nat)
    ensures Holds(Registered(registry, queue, handle), q, g) <==> Holds(registry, q, g) || (q == queue && g == handle)
  {
  }

  /** Deregistering removes that handle and keeps every other. */
  lemma DeregisteredRemovesOne(registry: map<string, set<nat>>, queue: string, handle: nat, q: string, g: nat)
    ensures Holds(Deregistered(registry, queue, handle), q, g) <==> Holds(registry, q, g) && !(q == queue && g == handle)
  {
    if Holds(registry, queue, g) && g != handle {
      assert g in registry[queue] - {handle};
    }
  }

  function Consumed(s: State, queue: string, handle: nat): State {
    State(Registered(s.registry, queue, handle), s.queueOf[handle := queue], s.latch[handle := Clear])
  }

  function CancelCalled(s: State, handle: nat): State
    requires handle in s.latch
  {
    if s.latch[handle].Clear? then s.(latch := s.latch[handle := InFlight]) else s
  }

  function RpcEnded(s: State, handle: nat, ok: bool): State
    requires handle in s.latch && handle in s.queueOf
  {
    if ok then s.(latch := s.latch[handle := Succeeded],
                  registry := Deregistered(s.registry, s.queueOf[handle], handle))
    else s.(latch := s.latch[handle := Clear])
  }

  /** The fields of the client and of the closures of its `consume` calls. */
  class ConsumerHandles {
    var activeConsumers: map<string, set<nat>>
    var queueOf: map<nat, string>
    var latch: map<nat, Latch>

    function Now(): State
      reads this
    {
      State(activeConsumers, queueOf, latch)
    }

    constructor ()
      ensures Now() == State(map[], map[], map[])
    {
      activeConsumers, queueOf, latch := map[], map[], map[];
    }

    method RegisterConsumer(queue: string, handle: nat)
      modifies `activeConsumers
      ensures activeConsumers == Registered(old(activeConsumers), queue, handle)
    {
      var handles := if queue in activeConsumers then activeConsumers[queue] else {};
      activeConsumers := activeConsumers[queue := handles + {handle}];
    }

    method DeregisterConsumer(queue: string, handle: nat)
      modifies `activeConsumers
      ensures activeConsumers == Deregistered(old(activeConsumers), queue, handle)
    {
      if queue !in activeConsumers {
        return;
      }
      var handles := activeConsumers[queue] - {handle};
      if handles == {} {
        activeConsumers := activeConsumers - {queue};
      } else {
        activeConsumers := activeConsumers[queue := handles];
      }
    }

    /** The tail of `consume`, once basic.consume has succeeded. */
    method AddHandle(queue: string, handle: nat)
      modifies this
      ensures Now() == Consumed(old(Now()), queue, handle)
    {
      latch := latch[handle := Clear];
      queueOf := queueOf[handle := queue];
      RegisterConsumer(queue, handle);
    }

    /** A call of `cancel()`: tells whether it has to issue the RPC. */
    method Cancel(handle: nat) returns (issues: bool)
      requires handle in latch
      modifies this
      ensures Now() == CancelCalled(old(Now()), handle)
      ensures issues <==> old(latch)[handle].Clear?
    {
      issues := latch[handle].Clear?;
      if issues {
        latch := latch[handle := InFlight];
      }
    }

    /** The cancel RPC resolved or rejected. */
    method CancelRpcEnded(handle: nat, ok: bool)
      requires handle in latch && handle in queueOf
      modifies this
      ensures Now() == RpcEnded(old(Now()), handle, ok)
    {
      if ok {
        DeregisterConsumer(queueOf[handle], handle);
        latch := latch[handle := Succeeded];
      } else {
        latch := latch[handle := Clear];
      }
    }
  }

  // ---- every interleaving

  /**
   * `rpcs` lists a handle's cancel RPCs by their results, None while one is in flight;
   * `joined` tells which handle's and which RPC's outcome a caller awaits; `dropped` holds the
   * handles whose registration was dropped with their queue or by `close`.
   */
  datatype Sys = Sys(
    s: State, rpcs: map<nat, seq<Option<bool>>>, joined: map<nat, (nat, nat)>, answers: map<nat, bool>, dropped: set<nat>)

  datatype Step =
    | Consume(queue: string, handle: nat)
    | Call(handle: nat, caller: nat)
    | RpcEnds(handle: nat, ok: bool)
    | DropQueue(queue: string)
    | CloseAll

  const INITIAL := Sys(State(map[], map[], map[]), map[], map[], map[], {})

  predicate Enabled(x: Sys, step: Step) {
    match step
    case Consume(_, h) => h !in x.s.queueOf
    case Call(h, caller) =>
      // A latch that is not clear was set by an RPC, so there is one to join.
      h in x.s.latch && h in x.rpcs && (x.s.latch[h].Clear? || x.rpcs[h] != []) && caller !in x.joined
    case RpcEnds(h, _) => h in x.s.latch && h in x.s.queueOf && x.s.latch[h].InFlight? && h in x.rpcs && x.rpcs[h] != []
    case DropQueue(_) => true
    case CloseAll => true
  }

  function Next(x: Sys, step: Step): Sys
    requires Enabled(x, step)
  {
    match step
    case Consume(queue, h) => x.(s := Consumed(x.s, queue, h), rpcs := x.rpcs[h := []])
    case Call(h, caller) =>
      var rpcs := if x.s.latch[h].Clear? then x.rpcs[h] + [None] else x.rpcs[h];
      x.(s := CancelCalled(x.s, h), rpcs := x.rpcs[h := rpcs], joined := x.joined[caller := (h, |rpcs| - 1)],
         answers := if x.s.latch[h].Succeeded? then x.answers[caller := true] else x.answers)
    case RpcEnds(h, ok) =>
      var last := |x.rpcs[h]| - 1;
      x.(s := RpcEnded(x.s, h, ok), rpcs := x.rpcs[h := x.rpcs[h][last := Some(ok)]],
         answers := map c | c in x.answers.Keys + x.joined.Keys && (c in x.answers || x.joined[c] == (h, last)) ::
                      if c in x.joined && x.joined[c] == (h, last) then ok else x.answers[c])
    case DropQueue(queue) =>
      x.(s := x.s.(registry := x.s.registry - {queue}),
         dropped := x.dropped + set h | h in x.s.queueOf && x.s.queueOf[h] == queue)
    case CloseAll => x.(s := x.s.(registry := map[]), dropped := x.s.queueOf.Keys)
  }

  ghost predicate Follows(x: Sys, y: Sys) {
    exists step :: Enabled(x, step) && y == Next(x, step)
  }

  ghost predicate IsRun(trace: seq<Sys>) {
    |trace| > 0 && trace[0] == INITIAL && forall i | 0 < i < |trace| :: Follows(trace[i - 1], trace[i])
  }

  ghost predicate Reachable(x: Sys) {
    exists trace :: IsRun(trace) && trace[|trace| - 1] == x
  }

  predicate RegistryClean(s: State) {
    forall q | q in s.registry ::
      && s.registry[q] != {}
      && forall h | h in s.registry[q] :: h in s.queueOf && s.queueOf[h] == q && h in s.latch && !s.latch[h].Succeeded?
  }

  /** Every RPC but the last failed; the latch tells how the last one stands. */
  predicate History(rpcs: seq<Option<bool>>, latch: Latch) {
    && (forall k | 0 <= k < |rpcs| - 1 :: rpcs[k] == Some(false))
    && match latch
       case Clear => rpcs != [] ==> rpcs[|rpcs| - 1] == Some(false)
       case InFlight => rpcs != [] && rpcs[|rpcs| - 1] == None
       case Succeeded => rpcs != [] && rpcs[|rpcs| - 1] == Some(true)
  }

  /** A caller is answered exactly when its RPC has ended, with that RPC's result. */
  predicate Answered(rpcs: map<nat, seq<Option<bool>>>, at: (nat, nat), answers: map<nat, bool>, c: nat) {
    && at.0 in rpcs && at.1 < |rpcs[at.0]|
    && rpcs[at.0][at.1] == if c in answers then Some(answers[c]) else None
  }

  ghost predicate AllAnswered(rpcs: map<nat, seq<Option<bool>>>, joined: map<nat, (nat, nat)>, answers: map<nat, bool>) {
    && answers.Keys <= joined.Keys
    && forall c | c in joined :: Answered(rpcs, joined[c], answers, c)
  }

  ghost predicate Histories(rpcs: map<nat, seq<Option<bool>>>, latch: map<nat, Latch>) {
    && latch.Keys == rpcs.Keys
    && forall h | h in rpcs :: History(rpcs[h], latch[h])
  }

  predicate IsRegistered(s: State, h: nat) {
    h in s.queueOf && Holds(s.registry, s.queueOf[h], h)
  }

  /** A consumed handle is registered exactly until its cancel succeeds or its registration is dropped. */
  ghost predicate RegistryComplete(s: State, dropped: set<nat>) {
    && dropped <= s.queueOf.Keys
    && forall h | h in s.queueOf && h in s.latch :: IsRegistered(s, h) <==> !s.latch[h].Succeeded? && h !in dropped
  }

  ghost predicate Inv(x: Sys) {
    && RegistryClean(x.s)
    && RegistryComplete(x.s, x.dropped)
    && x.s.latch.Keys == x.s.queueOf.Keys
    && Histories(x.rpcs, x.s.latch)
    && AllAnswered(x.rpcs, x.joined, x.answers)
  }

  lemma ConsumedKeepsClean(s: State, queue: string, h: nat)
    requires RegistryClean(s) && h !in s.queueOf && s.latch.Keys == s.queueOf.Keys
    ensures RegistryClean(Consumed(s, queue, h))
  {
    var t := Consumed(s, queue, h);
    forall q | q in t.registry
      ensures t.registry[q] != {}
      ensures forall g | g in t.registry[q] ::
                g in t.queueOf && t.queueOf[g] == q && g in t.latch && !t.latch[g].Succeeded?
    {
      if q == queue {
        assert h in t.registry[q];
      } else {
        assert t.registry[q] == s.registry[q];
      }
    }
  }

  lemma RpcEndedKeepsClean(s: State, h: nat, ok: bool)
    requires RegistryClean(s) && h in s.queueOf && s.latch.Keys == s.queueOf.Keys
    ensures RegistryClean(RpcEnded(s, h, ok))
  {
    var t := RpcEnded(s, h, ok);
    forall q | q in t.registry
      ensures t.registry[q] != {}
      ensures forall g | g in t.registry[q] ::
                g in t.queueOf && t.queueOf[g] == q && g in t.latch && !t.latch[g].Succeeded?
    {
      assert q in s.registry && t.registry[q] <= s.registry[q];
    }
  }

  lemma ConsumedKeepsComplete(s: State, dropped: set<nat>, queue: string, h: nat)
    requires RegistryComplete(s, dropped) && h !in s.queueOf && s.latch.Keys == s.queueOf.Keys
    ensures RegistryComplete(Consumed(s, queue, h), dropped)
  {
    var t := Consumed(s, queue, h);
    forall g | g in t.queueOf && g in t.latch
      ensures IsRegistered(t, g) <==> !t.latch[g].Succeeded? && g !in dropped
    {
      RegisteredAddsOne(s.registry, queue, h, t.queueOf[g], g);
      assert g != h ==> (IsRegistered(t, g) <==> IsRegistered(s, g));
    }
  }

  lemma CallKeepsComplete(s: State, dropped: set<nat>, h: nat)
    requires RegistryComplete(s, dropped) && h in s.latch
    ensures RegistryComplete(CancelCalled(s, h), dropped)
  {
    var t := CancelCalled(s, h);
    assert forall g :: IsRegistered(t, g) <==> IsRegistered(s, g);
  }

  lemma RpcEndedKeepsComplete(s: State, dropped: set<nat>, h: nat, ok: bool)
    requires RegistryComplete(s, dropped) && h in s.queueOf && h in s.latch && s.latch[h].InFlight?
    ensures RegistryComplete(RpcEnded(s, h, ok), dropped)
  {
    var t := RpcEnded(s, h, ok);
    forall g | g in t.queueOf && g in t.latch
      ensures IsRegistered(t, g) <==> !t.latch[g].Succeeded? && g !in dropped
    {
      if ok {
        DeregisteredRemovesOne(s.registry, s.queueOf[h], h, s.queueOf[g], g);
      }
      assert g != h ==> (IsRegistered(t, g) <==> IsRegistered(s, g));
    }
  }

  lemma DropKeepsComplete(x: Sys, step: Step)
    requires RegistryComplete(x.s, x.dropped) && (step.DropQueue? || step.CloseAll?)
    ensures RegistryComplete(Next(x, step).s, Next(x, step).dropped)
  {
    var y := Next(x, step);
    forall g | g in y.s.queueOf && g in y.s.latch
      ensures IsRegistered(y.s, g) <==> !y.s.latch[g].Succeeded? && g !in y.dropped
    {
      assert IsRegistered(y.s, g) ==> IsRegistered(x.s, g);
    }
  }

  lemma OneHistoryChanges(
    rpcs: map<nat, seq<Option<bool>>>, latch: map<nat, Latch>, h: nat, rpcsOfH: seq<Option<bool>>, latchOfH: Latch)
    requires Histories(rpcs, latch) && History(rpcsOfH, latchOfH)
    ensures Histories(rpcs[h := rpcsOfH], latch[h := latchOfH])
  {
  }

  /** An open latch has an RPC to join, so every call on a handle is possible. */
  lemma CallsAreAlwaysPossible(x: Sys, h: nat, caller: nat)
    requires Reachable(x) && h in x.s.latch && caller !in x.joined
    ensures Enabled(x, Call(h, caller))
  {
    ReachableInv(x);
    assert History(x.rpcs[h], x.s.latch[h]);
  }

  lemma ConsumeAnswers(x: Sys, queue: string, h: nat, y: Sys)
    requires AllAnswered(x.rpcs, x.joined, x.answers) && h !in x.rpcs
    requires y == x.(s := Consumed(x.s, queue, h), rpcs := x.rpcs[h := []])
    ensures AllAnswered(y.rpcs, y.joined, y.answers)
  {
    assert forall c | c in x.joined :: Answered(x.rpcs, x.joined[c], x.answers, c);
  }

  lemma ConsumeKeepsInv(x: Sys, queue: string, h: nat)
    requires Inv(x) && Enabled(x, Consume(queue, h))
    ensures Inv(Next(x, Consume(queue, h)))
  {
    var y := Next(x, Consume(queue, h));
    ConsumedKeepsClean(x.s, queue, h);
    ConsumedKeepsComplete(x.s, x.dropped, queue, h);
    OneHistoryChanges(x.rpcs, x.s.latch, h, [], Clear);
    ConsumeAnswers(x, queue, h, y);
  }

  /** The caller opens a new RPC when the latch is clear, and shares the last one otherwise. */
  lemma CallAnswers(x: Sys, h: nat, caller: nat, y: Sys)
    requires Histories(x.rpcs, x.s.latch) && AllAnswered(x.rpcs, x.joined, x.answers)
    requires Enabled(x, Call(h, caller)) && y == Next(x, Call(h, caller))
    ensures AllAnswered(y.rpcs, y.joined, y.answers)
  {
    assert History(x.rpcs[h], x.s.latch[h]);
    forall c | c in y.joined
      ensures Answered(y.rpcs, y.joined[c], y.answers, c)
    {
      assert c != caller ==> Answered(x.rpcs, x.joined[c], x.answers, c);
    }
  }

  lemma CallKeepsHistories(x: Sys, h: nat, caller: nat, y: Sys)
    requires Histories(x.rpcs, x.s.latch) && Enabled(x, Call(h, caller)) && y == Next(x, Call(h, caller))
    ensures Histories(y.rpcs, y.s.latch)
  {
    assert History(x.rpcs[h], x.s.latch[h]);
    OneHistoryChanges(x.rpcs, x.s.latch, h, y.rpcs[h], y.s.latch[h]);
    assert y.s.latch == x.s.latch[h := y.s.latch[h]];
  }

  lemma CallKeepsClean(s: State, h: nat)
    requires RegistryClean(s) && h in s.latch
    ensures RegistryClean(CancelCalled(s, h))
  {
  }

  lemma CallKeepsInv(x: Sys, h: nat, caller: nat)
    requires Inv(x) && Enabled(x, Call(h, caller))
    ensures Inv(Next(x, Call(h, caller)))
  {
    var y := Next(x, Call(h, caller));
    CallAnswers(x, h, caller, y);
    CallKeepsHistories(x, h, caller, y);
    CallKeepsClean(x.s, h);
    CallKeepsComplete(x.s, x.dropped, h);
  }

  lemma RpcEndAnswers(x: Sys, h: nat, ok: bool, y: Sys)
    requires Histories(x.rpcs, x.s.latch) && AllAnswered(x.rpcs, x.joined, x.answers)
    requires Enabled(x, RpcEnds(h, ok)) && y == Next(x, RpcEnds(h, ok))
    ensures AllAnswered(y.rpcs, y.joined, y.answers)
  {
    assert History(x.rpcs[h], x.s.latch[h]);
    forall c | c in y.joined
      ensures Answered(y.rpcs, y.joined[c], y.answers, c)
    {
      assert Answered(x.rpcs, x.joined[c], x.answers, c);
    }
  }

  lemma RpcEndsKeepsHistories(x: Sys, h: nat, ok: bool, y: Sys)
    requires Histories(x.rpcs, x.s.latch) && Enabled(x, RpcEnds(h, ok)) && y == Next(x, RpcEnds(h, ok))
    ensures Histories(y.rpcs, y.s.latch)
  {
    assert History(x.rpcs[h], x.s.latch[h]);
    OneHistoryChanges(x.rpcs, x.s.latch, h, y.rpcs[h], y.s.latch[h]);
  }

  lemma RpcEndsKeepsInv(x: Sys, h: nat, ok: bool)
    requires Inv(x) && Enabled(x, RpcEnds(h, ok))
    ensures Inv(Next(x, RpcEnds(h, ok)))
  {
    var y := Next(x, RpcEnds(h, ok));
    RpcEndedKeepsClean(x.s, h, ok);
    RpcEndedKeepsComplete(x.s, x.dropped, h, ok);
    RpcEndAnswers(x, h, ok, y);
    RpcEndsKeepsHistories(x, h, ok, y);
  }

  lemma StepKeepsInv(x: Sys, step: Step)
    requires Inv(x) && Enabled(x, step)
    ensures Inv(Next(x, step))
  {
    match step
    case Consume(queue, h) => ConsumeKeepsInv(x, queue, h);
    case Call(h, caller) => CallKeepsInv(x, h, caller);
    case RpcEnds(h, ok) => RpcEndsKeepsInv(x, h, ok);
    case _ => DropKeepsComplete(x, step);
  }

  lemma {:induction false} RunKeepsInv(trace: seq<Sys>, n: nat)
    requires IsRun(trace) && n < |trace|
    ensures Inv(trace[n])
  {
    if n > 0 {
      RunKeepsInv(trace, n - 1);
      assert Follows(trace[n - 1], trace[n]);
      var step :| Enabled(trace[n - 1], step) && trace[n] == Next(trace[n - 1], step);
      StepKeepsInv(trace[n - 1], step);
    }
  }

  lemma ReachableInv(x: Sys)
    requires Reachable(x)
    ensures Inv(x)
  {
    var trace :| IsRun(trace) && trace[|trace| - 1] == x;
    RunKeepsInv(trace, |trace| - 1);
  }

  function Failures(rpcs: seq<Option<bool>>): nat {
    if rpcs == [] then 0 else Failures(rpcs[..|rpcs| - 1]) + (if rpcs[|rpcs| - 1] == Some(false) then 1 else 0)
  }

  lemma {:induction false} AllFailed(rpcs: seq<Option<bool>>)
    requires forall k | 0 <= k < |rpcs| :: rpcs[k] == Some(false)
    ensures Failures(rpcs) == |rpcs|
  {
    if rpcs != [] {
      AllFailed(rpcs[..|rpcs| - 1]);
    }
  }

  /**
   * Over all interleavings: at most one cancel RPC of a handle is in flight and none follows a
   * success; each failure allows exactly one retry; every caller that joined an RPC gets
   * exactly that RPC's result, once it has one.
   */
  lemma CancelIsShared(x: Sys, h: nat)
    requires Reachable(x) && h in x.rpcs
    ensures forall k | 0 <= k < |x.rpcs[h]| - 1 :: x.rpcs[h][k] == Some(false)
    ensures Failures(x.rpcs[h]) <= |x.rpcs[h]| <= Failures(x.rpcs[h]) + 1
    ensures forall c | c in x.joined && x.joined[c].0 == h ::
              var k := x.joined[c].1;
              k < |x.rpcs[h]| && x.rpcs[h][k] == if c in x.answers then Some(x.answers[c]) else None
  {
    ReachableInv(x);
    assert History(x.rpcs[h], x.s.latch[h]);
    if x.rpcs[h] != [] {
      AllFailed(x.rpcs[h][..|x.rpcs[h]| - 1]);
    }
    assert forall c | c in x.joined :: Answered(x.rpcs, x.joined[c], x.answers, c);
  }

  /** The registry never holds an empty set, and never a handle whose cancel succeeded. */
  lemma RegistryHoldsOnlyLive(x: Sys, queue: string)
    requires Reachable(x) && queue in x.s.registry
    ensures x.s.registry[queue] != {}
    ensures forall h | h in x.s.registry[queue] ::
              h in x.rpcs && Some(true) !in x.rpcs[h] && h in x.s.queueOf && x.s.queueOf[h] == queue
  {
    ReachableInv(x);
    forall h | h in x.s.registry[queue]
      ensures h in x.rpcs && Some(true) !in x.rpcs[h]
    {
      assert History(x.rpcs[h], x.s.latch[h]);
    }
  }

  /**
   * `close` and `deleteQueue` find every live consumer: in every run a consumed handle is in
   * the registry under its queue exactly until a cancel of it succeeded or its registration was
   * dropped with the queue or by `close`.
   */
  lemma LiveHandlesAreRegistered(x: Sys, h: nat)
    requires Reachable(x) && h in x.s.queueOf
    ensures h in x.rpcs
    ensures IsRegistered(x.s, h) <==> Some(true) !in x.rpcs[h] && h !in x.dropped
  {
    ReachableInv(x);
    assert History(x.rpcs[h], x.s.latch[h]);
    if x.s.latch[h].Succeeded? {
      assert x.rpcs[h][|x.rpcs[h]| - 1] == Some(true);
    }
  }

  /** What one step does to any registration, said without the functions that compute it. */
  lemma StepMovesOneRegistration(x: Sys, step: Step, queue: string, h: nat)
    requires Enabled(x, step)
    ensures
      var before := Holds(x.s.registry, queue, h);
      var after := Holds(Next(x, step).s.registry, queue, h);
      match step
      case Consume(q, g) => after <==> before || (q == queue && g == h)
      case Call(_, _) => after <==> before
      case RpcEnds(g, ok) => after <==> before && !(ok && g == h && x.s.queueOf[g] == queue)
      case DropQueue(q) => after <==> before && q != queue
      case CloseAll => !after
  {
    if step.RpcEnds? {
      DeregisteredRemovesOne(x.s.registry, x.s.queueOf[step.handle], step.handle, queue, h);
    }
  }
}

/**
 * End to end: a message is handled, its event waits in the batcher, the batch is applied in a
 * transaction, and the handler's return or raise acks or requeues the message.
 *
 * The world couples every run of the batcher with the database. Beside its own applies, other
 * consumer instances commit batches and the API commits creates and updates, at any moment.
 * Each identity announces one state (`says`), as CloudEvents demand.
 */
module Delivery {
  import opened Options
  import opened StateStore
  import opened Batcher
  import R = BatcherRuns
  import Batching
  import Convergence

  /** What the consumer makes of a message body. */
  datatype Message = Malformed | UnknownType | BadPayload | Event(item: Item)

  /** A message without an answer yet, or whose task was cancelled, stays with the broker. */
  datatype Settlement = Ack | Requeue | Unsettled

  /**
   * The handler's decision: return acks, raise requeues. `outcome` is the item's future, or
   * None when the closed batcher refused it.
   */
  function Handle(m: Message, outcome: Option<Future>, permanent: nat -> bool): Settlement {
    if !m.Event? then Ack
    else match outcome
      case None => Requeue
      case Some(Resolved) => Ack
      case Some(Failed(ApplyError(code))) => if permanent(code) then Ack else Requeue
      case Some(Failed(BatcherClosed)) => Requeue
      case Some(_) => Unsettled
  }

  datatype World = World(x: R.Sys<Item>, store: Store)

  datatype Step =
    | Own(step: R.Step<Item>)
    | OtherInstance(items: seq<Item>)
    | Api(request: Convergence.Request)

  predicate Durable(end: ApplyEnd) {
    end.Committed? || end.durable
  }

  function Items(tickets: seq<Ticket<Item>>): seq<Item> {
    seq(|tickets|, k requires 0 <= k < |tickets| => tickets[k].item)
  }

  ghost predicate Says(says: Identity -> Data, items: seq<Item>) {
    forall k | 0 <= k < |items| :: items[k].data == says(items[k].identity)
  }

  ghost predicate Enabled(says: Identity -> Data, w: World, step: Step) {
    match step
    case Own(s) => R.Enabled(w.x, s) && (s.Submit? ==> s.item.data == says(s.item.identity))
    case OtherInstance(items) => Says(says, items)
    case Api(_) => true
  }

  function Next(spec: Spec, maxBatch: int, w: World, step: Step): World
    requires step.Own? ==> R.Enabled(w.x, step.step)
  {
    match step
    case Own(s) =>
      var y := R.Next(maxBatch, w.x, s);
      var applied :=
        if |y.log| > |w.x.log| && Durable(y.log[|w.x.log|].end)
        then ApplyBatch(spec, w.store, Items(y.log[|w.x.log|].tickets)) else w.store;
      World(y, applied)
    case OtherInstance(items) => w.(store := ApplyBatch(spec, w.store, items))
    case Api(request) => w.(store := Convergence.Respond(spec, w.store, request).after)
  }

  ghost predicate Follows(spec: Spec, says: Identity -> Data, maxBatch: int, w: World, v: World) {
    exists step :: Enabled(says, w, step) && v == Next(spec, maxBatch, w, step)
  }

  /** A process starts with a new batcher, on any database that earlier processes left. */
  ghost predicate IsRun(spec: Spec, says: Identity -> Data, maxBatch: int, trace: seq<World>) {
    && |trace| > 0 && trace[0].x == R.Init() && InboxCovered(trace[0].store, says)
    && forall i | 0 < i < |trace| :: Follows(spec, says, maxBatch, trace[i - 1], trace[i])
  }

  // ---- what transactions keep

  /** An event in the inbox is reflected in the table, in that version or a newer one. */
  predicate Stored(st: Store, says: Identity -> Data, e: Identity) {
    && e in st.inbox
    && says(e).id in st.table
    && st.table[says(e).id].version >= says(e).version
  }

  ghost predicate InboxCovered(st: Store, says: Identity -> Data) {
    forall e | e in st.inbox :: Stored(st, says, e)
  }

  ghost predicate Grows(a: Store, b: Store) {
    && a.inbox <= b.inbox
    && forall id | id in a.table :: id in b.table && b.table[id].version >= a.table[id].version
  }

  lemma ApplyGrows(spec: Spec, st: Store, items: seq<Item>)
    ensures Grows(st, ApplyBatch(spec, st, items))
    ensures forall k | 0 <= k < |items| :: items[k].identity in ApplyBatch(spec, st, items).inbox
  {
    forall k | 0 <= k < |items|
      ensures items[k].identity in ApplyBatch(spec, st, items).inbox
    {
      Batching.SeenInFresh(st.inbox, items, k);
    }
  }

  lemma ApplyCovers(spec: Spec, says: Identity -> Data, st: Store, items: seq<Item>)
    requires InboxCovered(st, says) && Says(says, items)
    ensures InboxCovered(ApplyBatch(spec, st, items), says)
  {
    var news := Fresh(st.inbox, items);
    var after := ApplyBatch(spec, st, items);
    ApplyGrows(spec, st, items);
    Batching.WinnerIsHighest(items, news);
    forall e | e in after.inbox
      ensures Stored(after, says, e)
    {
      if e in st.inbox {
        assert Stored(st, says, e);
      } else {
        var item :| item in items && item.identity == e;
        var k :| 0 <= k < |items| && items[k] == item;
        assert items[k].identity in news;
      }
    }
  }

  lemma ApiGrows(spec: Spec, st: Store, request: Convergence.Request)
    ensures Grows(st, Convergence.Respond(spec, st, request).after)
    ensures Convergence.Respond(spec, st, request).after.inbox == st.inbox
  {
  }

  lemma GrowthKeepsCovered(says: Identity -> Data, a: Store, b: Store)
    requires InboxCovered(a, says) && Grows(a, b) && a.inbox == b.inbox
    ensures InboxCovered(b, says)
  {
    forall e | e in b.inbox
      ensures Stored(b, says, e)
    {
      assert Stored(a, says, e);
    }
  }

  // ---- the invariant of the world

  ghost predicate LogApplied(w: World) {
    forall c, k | c in w.x.log && Durable(c.end) && 0 <= k < |c.tickets| ::
      c.tickets[k].item.identity in w.store.inbox
  }

  ghost predicate Inv(says: Identity -> Data, maxBatch: int, w: World) {
    && R.Inv(maxBatch, w.x)
    && InboxCovered(w.store, says)
    && LogApplied(w)
    && (forall i | 0 <= i < |w.x.submitted| :: w.x.submitted[i].data == says(w.x.submitted[i].identity))
  }

  lemma TicketsSay(says: Identity -> Data, maxBatch: int, x: R.Sys<Item>, c: R.ApplyCall<Item>)
    requires R.Inv(maxBatch, x) && c in x.log
    requires forall i | 0 <= i < |x.submitted| :: x.submitted[i].data == says(x.submitted[i].identity)
    ensures Says(says, Items(c.tickets))
  {
    R.LoggedTicketsAreIssued(maxBatch, x, c);
  }

  /** A batcher step logs at most one call, the last one, and keeps what was submitted. */
  lemma StepLogsOne(maxBatch: int, x: R.Sys<Item>, step: R.Step<Item>)
    requires R.Enabled(x, step)
    ensures
      var y := R.Next(maxBatch, x, step);
      && (y.log == x.log || (|y.log| == |x.log| + 1 && y.log[..|x.log|] == x.log))
      && y.submitted == if step.Submit? && !x.s.closed then x.submitted + [step.item] else x.submitted
  {
  }

  lemma CallKeepsLogApplied(spec: Spec, w: World, call: R.ApplyCall<Item>, v: World)
    requires LogApplied(w) && v.x.log == w.x.log + [call]
    requires v.store == if Durable(call.end) then ApplyBatch(spec, w.store, Items(call.tickets)) else w.store
    ensures LogApplied(v)
  {
    ApplyGrows(spec, w.store, Items(call.tickets));
    forall c, k | c in v.x.log && Durable(c.end) && 0 <= k < |c.tickets|
      ensures c.tickets[k].item.identity in v.store.inbox
    {
      if c == call {
        assert Items(call.tickets)[k] == call.tickets[k].item;
      }
    }
  }

  lemma OwnStepKeepsInv(spec: Spec, says: Identity -> Data, maxBatch: int, w: World, s: R.Step<Item>)
    requires Inv(says, maxBatch, w) && Enabled(says, w, Own(s))
    ensures Inv(says, maxBatch, Next(spec, maxBatch, w, Own(s)))
  {
    var v := Next(spec, maxBatch, w, Own(s));
    R.StepKeepsInv(maxBatch, w.x, s);
    StepLogsOne(maxBatch, w.x, s);
    if v.x.log != w.x.log {
      var call := v.x.log[|w.x.log|];
      assert v.x.log == w.x.log + [call];
      TicketsSay(says, maxBatch, v.x, call);
      CallKeepsLogApplied(spec, w, call, v);
      ApplyCovers(spec, says, w.store, Items(call.tickets));
    }
  }

  lemma StepKeepsInv(spec: Spec, says: Identity -> Data, maxBatch: int, w: World, step: Step)
    requires Inv(says, maxBatch, w) && Enabled(says, w, step)
    ensures Inv(says, maxBatch, Next(spec, maxBatch, w, step))
  {
    match step
    case Own(s) => OwnStepKeepsInv(spec, says, maxBatch, w, s);
    case OtherInstance(items) =>
      ApplyGrows(spec, w.store, items);
      ApplyCovers(spec, says, w.store, items);
    case Api(request) =>
      ApiGrows(spec, w.store, request);
      GrowthKeepsCovered(says, w.store, Convergence.Respond(spec, w.store, request).after);
  }

  lemma {:induction false} RunKeepsInv(
    spec: Spec, says: Identity -> Data, maxBatch: int, trace: seq<World>, n: nat)
    requires IsRun(spec, says, maxBatch, trace) && n < |trace|
    ensures Inv(says, maxBatch, trace[n])
  {
    if n > 0 {
      RunKeepsInv(spec, says, maxBatch, trace, n - 1);
      assert Follows(spec, says, maxBatch, trace[n - 1], trace[n]);
      var step :| Enabled(says, trace[n - 1], step) && trace[n] == Next(spec, maxBatch, trace[n - 1], step);
      StepKeepsInv(spec, says, maxBatch, trace[n - 1], step);
    }
  }

  // ---- the promise

  /**
   * Nothing acked is lost: at every moment of every run, an acked event is in the committed
   * inbox with the stored version at least its own, or an apply of that event alone failed
   * with an error that is permanent.
   */
  lemma AckedIsStoredOrRejectedAlone(
    spec: Spec, says: Identity -> Data, maxBatch: int, trace: seq<World>, n: nat, id: nat, permanent: nat -> bool)
    requires IsRun(spec, says, maxBatch, trace) && n < |trace|
    requires id < |trace[n].x.submitted| == |trace[n].x.s.futures|
    requires Handle(Event(trace[n].x.submitted[id]), Some(trace[n].x.s.futures[id]), permanent) == Ack
    ensures
      || Stored(trace[n].store, says, trace[n].x.submitted[id].identity)
      || (exists code :: permanent(code) && R.RaisedAlone(trace[n].x.log, Ticket(id, trace[n].x.submitted[id]), code))
  {
    RunKeepsInv(spec, says, maxBatch, trace, n);
    AckedHere(says, maxBatch, trace[n], id, permanent);
  }

  /** The message can never be applied: it is no event, or its event failed alone for good. */
  ghost predicate HopelessAlone(w: World, m: Message, id: nat, permanent: nat -> bool)
    requires id < |w.x.submitted|
  {
    !m.Event? || exists code :: permanent(code) && R.RaisedAlone(w.x.log, Ticket(id, w.x.submitted[id]), code)
  }

  /**
   * The decision on every message, at every moment of every run. Exactly these are acked: what
   * is no event, an event whose apply was committed, and one whose own error is permanent;
   * every other event with an outcome is requeued, and so is one whose submission was refused.
   * What is acked is stored or hopeless on its own account.
   */
  lemma EveryMessageIsDecided(
    spec: Spec, says: Identity -> Data, maxBatch: int, trace: seq<World>, n: nat, m: Message, id: nat,
    permanent: nat -> bool)
    requires IsRun(spec, says, maxBatch, trace) && n < |trace|
    requires id < |trace[n].x.submitted| == |trace[n].x.s.futures|
    requires m.Event? ==> m.item == trace[n].x.submitted[id]
    ensures
      var w, f := trace[n], trace[n].x.s.futures[id];
      var decision := Handle(m, Some(f), permanent);
      && (!m.Event? ==> decision == Ack && Handle(m, None, permanent) == Ack)
      && (m.Event? && f.Resolved? ==> decision == Ack)
      && (m.Event? ==> forall code | f == Failed(ApplyError(code)) ::
            decision == if permanent(code) then Ack else Requeue)
      && (m.Event? && f == Failed(BatcherClosed) ==> decision == Requeue)
      && (m.Event? && (f.Pending? || f.Dropped?) ==> decision == Unsettled)
      && (m.Event? ==> Handle(m, None, permanent) == Requeue)
      && (decision == Ack ==>
            HopelessAlone(w, m, id, permanent) || Stored(w.store, says, w.x.submitted[id].identity))
      && (decision == Requeue ==> !R.CommittedIn(w.x.log, id))
  {
    RunKeepsInv(spec, says, maxBatch, trace, n);
    if m.Event? && Handle(m, Some(trace[n].x.s.futures[id]), permanent) == Ack {
      AckedHere(says, maxBatch, trace[n], id, permanent);
    }
  }

  lemma AckedHere(says: Identity -> Data, maxBatch: int, w: World, id: nat, permanent: nat -> bool)
    requires Inv(says, maxBatch, w) && id < |w.x.submitted| == |w.x.s.futures|
    requires Handle(Event(w.x.submitted[id]), Some(w.x.s.futures[id]), permanent) == Ack
    ensures
      || Stored(w.store, says, w.x.submitted[id].identity)
      || (exists code :: permanent(code) && R.RaisedAlone(w.x.log, Ticket(id, w.x.submitted[id]), code))
  {
    if w.x.s.futures[id].Resolved? {
      assert R.CommittedIn(w.x.log, id);
      var c :| c in w.x.log && c.end.Committed? && Mentions(c.tickets, id);
      var k :| 0 <= k < |c.tickets| && c.tickets[k].id == id;
      R.LoggedTicketsAreIssued(maxBatch, w.x, c);
    }
  }

  /** Every apply that ended in a permanent error held an item that is bad in itself. */
  ghost predicate PermanentErrorsHaveCause(log: seq<R.ApplyCall<Item>>, permanent: nat -> bool, bad: Item -> bool) {
    forall c | c in log && c.end.Raised? && permanent(c.end.code) ::
      exists k :: 0 <= k < |c.tickets| && bad(c.tickets[k].item)
  }

  /**
   * A good event is never acked away for a batch-mate: when permanent errors come from bad
   * items only, the ack of an item that is not bad means it is stored, whatever bad items
   * shared its batches.
   */
  lemma GoodEventIsStoredWhenAcked(
    spec: Spec, says: Identity -> Data, maxBatch: int, trace: seq<World>, n: nat, id: nat,
    permanent: nat -> bool, bad: Item -> bool)
    requires IsRun(spec, says, maxBatch, trace) && n < |trace|
    requires PermanentErrorsHaveCause(trace[n].x.log, permanent, bad)
    requires id < |trace[n].x.submitted| == |trace[n].x.s.futures| && !bad(trace[n].x.submitted[id])
    requires Handle(Event(trace[n].x.submitted[id]), Some(trace[n].x.s.futures[id]), permanent) == Ack
    ensures Stored(trace[n].store, says, trace[n].x.submitted[id].identity)
  {
    AckedIsStoredOrRejectedAlone(spec, says, maxBatch, trace, n, id, permanent);
    NotRejectedAlone(trace[n].x.log, Ticket(id, trace[n].x.submitted[id]), permanent, bad);
  }

  lemma NotRejectedAlone(log: seq<R.ApplyCall<Item>>, ticket: Ticket<Item>, permanent: nat -> bool, bad: Item -> bool)
    requires PermanentErrorsHaveCause(log, permanent, bad) && !bad(ticket.item)
    ensures forall code | permanent(code) :: !R.RaisedAlone(log, ticket, code)
  {
    assert forall c | c in log && c.tickets == [ticket] :: forall k | 0 <= k < |c.tickets| :: !bad(c.tickets[k].item);
  }

  lemma StepGrows(spec: Spec, says: Identity -> Data, maxBatch: int, w: World, step: Step)
    requires Enabled(says, w, step)
    ensures Grows(w.store, Next(spec, maxBatch, w, step).store)
  {
    match step
    case Own(s) =>
      var y := R.Next(maxBatch, w.x, s);
      StepLogsOne(maxBatch, w.x, s);
      if |y.log| > |w.x.log| {
        ApplyGrows(spec, w.store, Items(y.log[|w.x.log|].tickets));
      }
    case OtherInstance(items) => ApplyGrows(spec, w.store, items);
    case Api(request) => ApiGrows(spec, w.store, request);
  }

  /** What is stored stays stored, and the database a process leaves is one the next may start on. */
  lemma {:induction false} StoredStaysStored(
    spec: Spec, says: Identity -> Data, maxBatch: int, trace: seq<World>, i: nat, j: nat, e: Identity)
    requires IsRun(spec, says, maxBatch, trace) && i <= j < |trace|
    ensures Stored(trace[i].store, says, e) ==> Stored(trace[j].store, says, e)
    ensures InboxCovered(trace[j].store, says)
    decreases j
  {
    RunKeepsInv(spec, says, maxBatch, trace, j);
    if i < j {
      StoredStaysStored(spec, says, maxBatch, trace, i, j - 1, e);
      assert Follows(spec, says, maxBatch, trace[j - 1], trace[j]);
      var step :| Enabled(says, trace[j - 1], step) && trace[j] == Next(spec, maxBatch, trace[j - 1], step);
      StepGrows(spec, says, maxBatch, trace[j - 1], step);
    }
  }

  /** A requeued message is harmless: redelivering a stored event changes nothing. */
  lemma RedeliveryIsNoOp(spec: Spec, says: Identity -> Data, st: Store, item: Item)
    requires Stored(st, says, item.identity)
    ensures ApplyBatch(spec, st, [item]) == st
  {
    Batching.ProcessedChangesNothing(spec, st, item);
  }
}

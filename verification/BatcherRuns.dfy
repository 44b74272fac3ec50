/**
 * Every interleaving of submitters, the runner, the awaited applies and `close`.
 *
 * A step is one method of `Batcher`, so the only choices are the order of steps and how each
 * awaited apply ends. The history beside the state records what was submitted, how tickets
 * left the queue, and every apply call with its end.
 */
module BatcherRuns {
  import opened Batcher

  /** Tickets leave the queue as a batch taken by the runner, or drained. */
  datatype Departure<T> = Departure(taken: bool, tickets: seq<Ticket<T>>)

  datatype ApplyCall<T> = ApplyCall(tickets: seq<Ticket<T>>, end: ApplyEnd)

  /** `swallowed` holds once an apply outlived the latest cancellation `close` sent to the runner. */
  datatype Sys<T> = Sys(
    s: State<T>, submitted: seq<T>, left: seq<Departure<T>>, log: seq<ApplyCall<T>>, swallowed: bool)

  datatype Step<T> =
    | Submit(item: T)
    | RunnerStarts
    | Take
    | ApplyEnds(end: ApplyEnd)
    | RetryEnds(end: ApplyEnd)
    | CancelReachesRunner
    | GiveUp(id: nat)
    | Close
    | CloseResumes

  function Init<T>(): Sys<T> {
    Sys(State([], [], NoRunner, false, false, 0, false), [], [], [], false)
  }

  predicate Enabled<T>(x: Sys<T>, step: Step<T>) {
    var s := x.s;
    match step
    case Submit(_) => true
    case RunnerStarts => s.runner.Created? && !s.cancelling
    case Take => s.runner.Waiting? && !s.cancelling && s.queue != []
    case ApplyEnds(_) => s.runner.Applying?
    case RetryEnds(_) => s.runner.Retrying? && s.runner.index < |s.runner.batch|
    case CancelReachesRunner => s.cancelling && (s.runner.Created? || s.runner.Waiting?)
    case GiveUp(id) => id < |s.futures| && s.futures[id].Pending?
    case Close => true
    case CloseResumes => s.closers > 0 && s.runner.Finished?
  }

  function Next<T>(maxBatch: int, x: Sys<T>, step: Step<T>): Sys<T>
    requires Enabled(x, step)
  {
    var s := x.s;
    match step
    case Submit(item) =>
      x.(s := Submitted(s, item), submitted := if s.closed then x.submitted else x.submitted + [item])
    case RunnerStarts => x.(s := s.(runner := Waiting))
    case Take =>
      var t := Taken(s, maxBatch);
      x.(s := t, left := x.left + [Departure(true, t.runner.batch)])
    case ApplyEnds(end) =>
      Departing(x.(s := ApplyEnded(s, end), log := x.log + [ApplyCall(s.runner.batch, end)],
                   swallowed := x.swallowed || (s.cancelling && !end.Unwound?)), s)
    case RetryEnds(end) =>
      Departing(x.(s := RetryEnded(s, end), log := x.log + [ApplyCall([s.runner.batch[s.runner.index]], end)],
                   swallowed := x.swallowed || (s.cancelling && !end.Unwound?)), s)
    case CancelReachesRunner => Departing(x.(s := CancelDelivered(s)), s)
    case GiveUp(id) => x.(s := GivenUp(s, id))
    case Close => Departing(x.(s := CloseBegun(s), swallowed := x.swallowed && !s.runner.Live()), s)
    case CloseResumes => Departing(x.(s := CloseResumed(s)), s)
  }

  /** Records a drain: the queue was emptied without the runner taking a batch. */
  function Departing<T>(x: Sys<T>, before: State<T>): Sys<T> {
    if |x.s.queue| == |before.queue| then x else x.(left := x.left + [Departure(false, before.queue)])
  }

  ghost predicate IsRun<T(!new)>(maxBatch: int, trace: seq<Sys<T>>) {
    && |trace| > 0 && trace[0] == Init()
    && forall i | 0 < i < |trace| :: Follows(maxBatch, trace[i - 1], trace[i])
  }

  ghost predicate Follows<T(!new)>(maxBatch: int, x: Sys<T>, y: Sys<T>) {
    exists step :: Enabled(x, step) && y == Next(maxBatch, x, step)
  }

  ghost predicate Reachable<T(!new)>(maxBatch: int, x: Sys<T>) {
    exists trace :: IsRun(maxBatch, trace) && trace[|trace| - 1] == x
  }

  // ---- the invariant

  /** `tickets` carries the items submitted as numbers `from`, `from + 1`, ... */
  predicate Consecutive<T(==)>(tickets: seq<Ticket<T>>, from: nat, submitted: seq<T>) {
    && from + |tickets| <= |submitted|
    && forall k | 0 <= k < |tickets| :: tickets[k] == Ticket(from + k, submitted[from + k])
  }

  function QueueStart<T>(x: Sys<T>): int {
    |x.submitted| - |x.s.queue|
  }

  function Batch<T>(r: Runner<T>): seq<Ticket<T>> {
    match r
    case Applying(batch) => batch
    case Retrying(batch, _) => batch
    case _ => []
  }

  predicate Queued<T(==)>(x: Sys<T>) {
    && |x.s.futures| == |x.submitted|
    && QueueStart(x) >= 0
    && Consecutive(x.s.queue, QueueStart(x), x.submitted)
  }

  predicate Busy<T(==)>(x: Sys<T>) {
    var b := Batch(x.s.runner);
    && (x.s.runner.Applying? || x.s.runner.Retrying? ==>
          |b| > 0 && b[0].id + |b| <= QueueStart(x) && Consecutive(b, b[0].id, x.submitted)
          && Departure(true, b) in x.left)
    && (x.s.runner.Retrying? ==> x.s.runner.index < |b|)
  }

  predicate Open(f: Future) {
    f.Pending? || f.Dropped?
  }

  /** The tickets in the runner's hands without an outcome are those numbered from here ... */
  function FlightFrom<T>(r: Runner<T>): int {
    match r
    case Applying(batch) => if |batch| > 0 then batch[0].id else 0
    case Retrying(batch, i) => if |batch| > 0 then batch[0].id + i else 0
    case _ => 0
  }

  /** ... to just before here. */
  function FlightTo<T>(r: Runner<T>): int {
    if |Batch(r)| > 0 then Batch(r)[0].id + |Batch(r)| else 0
  }

  predicate InHand<T>(x: Sys<T>, id: int) {
    id >= QueueStart(x) || FlightFrom(x.s.runner) <= id < FlightTo(x.s.runner)
  }

  /** A future is pending only while its ticket is queued or in the runner's hands. */
  predicate Unsettled<T>(x: Sys<T>) {
    && (forall i | 0 <= i < |x.s.futures| && InHand(x, i) :: Open(x.s.futures[i]))
    && (forall i | 0 <= i < |x.s.futures| && x.s.futures[i].Pending? :: InHand(x, i))
  }

  predicate Flags<T(==)>(x: Sys<T>) {
    var s := x.s;
    && (s.cancelling ==> s.closed && s.runner.Live())
    && (s.queue != [] && !s.closed ==> s.runner.Live())
    && (s.cancelling ==> s.closers > 0)
    && (s.closers > 0 ==> s.closed && !s.runner.NoRunner?)
    && (s.closers > 0 && s.runner.Live() ==> s.cancelling || x.swallowed)
    && (x.swallowed ==> s.closed && !s.cancelling && !s.runner.Created? && !s.runner.NoRunner?)
    && (s.closed && !s.runner.Live() && s.closers == 0 ==> s.queue == [])
    && (s.closeReturned ==> s.closed && !s.runner.Live() && s.queue == [])
  }

  function Gone<T>(left: seq<Departure<T>>): seq<Ticket<T>> {
    if left == [] then [] else Gone(left[..|left| - 1]) + left[|left| - 1].tickets
  }

  function Issued<T>(submitted: seq<T>): seq<Ticket<T>> {
    seq(|submitted|, i requires 0 <= i < |submitted| => Ticket(i, submitted[i]))
  }

  function Largest(maxBatch: int): int {
    if maxBatch > 1 then maxBatch else 1
  }

  predicate Ordered<T(==)>(maxBatch: int, x: Sys<T>) {
    LeftInOrder(maxBatch, x.left, x.s.queue, x.submitted)
  }

  predicate LeftInOrder<T(==)>(maxBatch: int, left: seq<Departure<T>>, queue: seq<Ticket<T>>, submitted: seq<T>) {
    && Gone(left) + queue == Issued(submitted)
    && forall d | d in left && d.taken :: 1 <= |d.tickets| <= Largest(maxBatch)
  }

  ghost predicate FromTakenRun<T(!new)>(left: seq<Departure<T>>, call: ApplyCall<T>) {
    exists d | d in left ::
      d.taken && (call.tickets == d.tickets || (|call.tickets| == 1 && call.tickets[0] in d.tickets))
  }

  ghost predicate CommittedIn<T(!new)>(log: seq<ApplyCall<T>>, id: nat) {
    exists c | c in log :: c.end.Committed? && Mentions(c.tickets, id)
  }

  ghost predicate RaisedAlone<T(!new)>(log: seq<ApplyCall<T>>, ticket: Ticket<T>, code: nat) {
    exists c | c in log :: c.tickets == [ticket] && c.end.Raised? && c.end.code == code
  }

  ghost predicate Explained<T(!new)>(x: Sys<T>) {
    && |x.s.futures| == |x.submitted|
    && (forall c | c in x.log :: FromTakenRun(x.left, c))
    && (forall i | 0 <= i < |x.s.futures| && x.s.futures[i].Resolved? :: CommittedIn(x.log, i))
    && (forall i | 0 <= i < |x.s.futures| && x.s.futures[i].Failed? && x.s.futures[i].error.ApplyError? ::
          RaisedAlone(x.log, Ticket(i, x.submitted[i]), x.s.futures[i].error.code))
    && (forall i: nat | CommittedIn(x.log, i) :: i < |x.s.futures| && x.s.futures[i] in {Resolved, Dropped})
  }

  ghost predicate Inv<T(!new)>(maxBatch: int, x: Sys<T>) {
    && Queued(x)
    && Busy(x)
    && Unsettled(x)
    && Flags(x)
    && Ordered(maxBatch, x)
    && Explained(x)
  }

  // ---- lemmas about runs of tickets

  lemma ConsecutiveMentions<T>(tickets: seq<Ticket<T>>, from: nat, submitted: seq<T>, id: nat)
    requires Consecutive(tickets, from, submitted)
    ensures Mentions(tickets, id) <==> from <= id < from + |tickets|
  {
    if from <= id < from + |tickets| {
      assert tickets[id - from].id == id;
    }
  }

  lemma AllMentions<T>(tickets: seq<Ticket<T>>, from: nat, submitted: seq<T>)
    requires Consecutive(tickets, from, submitted)
    ensures forall id: nat :: Mentions(tickets, id) <==> from <= id < from + |tickets|
  {
    forall id: nat
      ensures Mentions(tickets, id) <==> from <= id < from + |tickets|
    {
      ConsecutiveMentions(tickets, from, submitted, id);
    }
  }

  lemma IssuedExtends<T>(submitted: seq<T>, item: T)
    ensures Issued(submitted + [item]) == Issued(submitted) + [Ticket(|submitted|, item)]
  {
  }

  lemma DepartureKeepsOrder<T>(left: seq<Departure<T>>, d: Departure<T>, rest: seq<Ticket<T>>)
    ensures Gone(left + [d]) + rest == Gone(left) + (d.tickets + rest)
  {
    assert (left + [d])[..|left|] == left;
  }

  lemma LogGrows<T(!new)>(log: seq<ApplyCall<T>>, c: ApplyCall<T>)
    ensures forall i: nat :: CommittedIn(log + [c], i) <==> CommittedIn(log, i) || (c.end.Committed? && Mentions(c.tickets, i))
    ensures forall t, code: nat :: RaisedAlone(log, t, code) ==> RaisedAlone(log + [c], t, code)
    ensures c.end.Raised? && |c.tickets| == 1 ==> RaisedAlone(log + [c], c.tickets[0], c.end.code)
  {
    forall i: nat
      ensures CommittedIn(log + [c], i) <==> CommittedIn(log, i) || (c.end.Committed? && Mentions(c.tickets, i))
    {
      if c.end.Committed? && Mentions(c.tickets, i) {
        assert c in log + [c];
      }
      if CommittedIn(log, i) {
        var d :| d in log && d.end.Committed? && Mentions(d.tickets, i);
        assert d in log + [c];
      }
    }
    forall t, code: nat | RaisedAlone(log, t, code)
      ensures RaisedAlone(log + [c], t, code)
    {
      var d :| d in log && d.tickets == [t] && d.end.Raised? && d.end.code == code;
      assert d in log + [c];
    }
    assert c in log + [c];
    if |c.tickets| == 1 {
      assert c.tickets == [c.tickets[0]];
    }
  }

  lemma RunsStay<T(!new)>(left: seq<Departure<T>>, d: Departure<T>, log: seq<ApplyCall<T>>)
    requires forall c | c in log :: FromTakenRun(left, c)
    ensures forall c | c in log :: FromTakenRun(left + [d], c)
  {
    forall c | c in log
      ensures FromTakenRun(left + [d], c)
    {
      var e :| e in left && e.taken && (c.tickets == e.tickets || (|c.tickets| == 1 && c.tickets[0] in e.tickets));
      assert e in left + [d];
    }
  }

  // ---- every step keeps the invariant

  lemma SubmitShape<T(!new)>(maxBatch: int, x: Sys<T>, item: T, y: Sys<T>)
    requires Queued(x) && Busy(x) && Ordered(maxBatch, x) && Flags(x) && !x.s.closed
    requires y == Next(maxBatch, x, Submit(item))
    ensures Queued(y) && Busy(y) && Ordered(maxBatch, y) && Flags(y)
  {
    IssuedExtends(x.submitted, item);
    assert Gone(y.left) + y.s.queue == Gone(x.left) + x.s.queue + [Ticket(|x.submitted|, item)];
  }

  lemma OpenSubmitKeepsInv<T(!new)>(maxBatch: int, x: Sys<T>, item: T)
    requires Inv(maxBatch, x) && !x.s.closed
    ensures Inv(maxBatch, Next(maxBatch, x, Submit(item)))
  {
    var y := Next(maxBatch, x, Submit(item));
    SubmitShape(maxBatch, x, item, y);
    assert Unsettled(y);
    assert Explained(y);
  }

  /** A late submit changes nothing; in particular it cannot bring the runner back. */
  lemma LateSubmitDoesNothing<T>(maxBatch: int, x: Sys<T>, item: T)
    requires x.s.closed
    ensures Next(maxBatch, x, Submit(item)) == x
  {
  }

  lemma SubmitKeepsInv<T(!new)>(maxBatch: int, x: Sys<T>, item: T)
    requires Inv(maxBatch, x) && Enabled(x, Submit(item))
    ensures Inv(maxBatch, Next(maxBatch, x, Submit(item)))
  {
    if x.s.closed {
      LateSubmitDoesNothing(maxBatch, x, item);
    } else {
      OpenSubmitKeepsInv(maxBatch, x, item);
    }
  }

  lemma TakeQueued<T>(maxBatch: int, x: Sys<T>, y: Sys<T>)
    requires Queued(x) && Enabled(x, Take) && y == Next(maxBatch, x, Take)
    ensures Queued(y) && Consecutive(y.s.runner.batch, QueueStart(x), x.submitted)
    ensures 1 <= |y.s.runner.batch| <= Largest(maxBatch)
    ensures QueueStart(y) == QueueStart(x) + |y.s.runner.batch|
    ensures x.s.queue == y.s.runner.batch + y.s.queue
    ensures y.left == x.left + [Departure(true, y.s.runner.batch)]
  {
  }

  lemma TakeUnsettled<T>(x: Sys<T>, y: Sys<T>)
    requires Unsettled(x) && x.s.runner.Waiting? && y.s.runner.Applying?
    requires y.s.futures == x.s.futures
    requires FlightFrom(y.s.runner) == QueueStart(x) && FlightTo(y.s.runner) == QueueStart(y)
    requires QueueStart(y) >= QueueStart(x)
    ensures Unsettled(y)
  {
  }

  lemma TakeKeepsInv<T(!new)>(maxBatch: int, x: Sys<T>)
    requires Inv(maxBatch, x) && Enabled(x, Take)
    ensures Inv(maxBatch, Next(maxBatch, x, Take))
  {
    var y := Next(maxBatch, x, Take);
    var batch := y.s.runner.batch;
    TakeQueued(maxBatch, x, y);
    assert batch[0] == Ticket(QueueStart(x), x.submitted[QueueStart(x)]);
    TakeUnsettled(x, y);
    assert Ordered(maxBatch, y) by {
      DepartureKeepsOrder(x.left, Departure(true, batch), y.s.queue);
    }
    assert Explained(y) by {
      RunsStay(x.left, Departure(true, batch), x.log);
    }
    assert Departure(true, batch) in y.left;
    assert Busy(y);
    assert Flags(y);
  }

  // Settling a run of tickets, with the apply call that justifies it.

  lemma SettleUnsettled<T>(x: Sys<T>, y: Sys<T>, tickets: seq<Ticket<T>>, from: nat, f: Future)
    requires Unsettled(x) && Consecutive(tickets, from, x.submitted) && !f.Pending?
    requires y.s.futures == Settle(x.s.futures, tickets, f)
    requires forall i: nat :: InHand(y, i) <==> InHand(x, i) && !(from <= i < from + |tickets|)
    ensures Unsettled(y)
  {
    AllMentions(tickets, from, x.submitted);
  }

  /** `f` is the outcome that `call` gives to all of `tickets`; a closing batcher gives its own. */
  predicate Justifies<T(==)>(call: ApplyCall<T>, tickets: seq<Ticket<T>>, f: Future) {
    match call.end
    case Committed => call.tickets == tickets && f == Resolved
    case Raised(code, _) => (call.tickets == tickets && |tickets| == 1 && f == Failed(ApplyError(code)))
                            || (tickets == [] && f == Failed(BatcherClosed))
    case Unwound(_) => f == Failed(BatcherClosed)
  }

  lemma SettleExplained<T(!new)>(x: Sys<T>, y: Sys<T>, tickets: seq<Ticket<T>>, from: nat, f: Future, call: ApplyCall<T>)
    requires Queued(x) && Unsettled(x) && Explained(x)
    requires Consecutive(tickets, from, x.submitted)
    requires forall i | from <= i < from + |tickets| :: InHand(x, i)
    requires Justifies(call, tickets, f) && FromTakenRun(x.left, call)
    requires y.s.futures == Settle(x.s.futures, tickets, f)
    requires y.log == x.log + [call] && y.left == x.left && y.submitted == x.submitted
    ensures Explained(y)
  {
    AllMentions(tickets, from, x.submitted);
    LogGrows(x.log, call);
    forall i | 0 <= i < |y.s.futures| && y.s.futures[i].Failed? && y.s.futures[i].error.ApplyError?
      ensures RaisedAlone(y.log, Ticket(i, y.submitted[i]), y.s.futures[i].error.code)
    {
      if y.s.futures[i] != x.s.futures[i] {
        assert tickets[0] == Ticket(i, x.submitted[i]);
      }
    }
    forall i | 0 <= i < |y.s.futures| && y.s.futures[i].Resolved?
      ensures CommittedIn(y.log, i)
    {
    }
    forall i: nat | CommittedIn(y.log, i)
      ensures i < |y.s.futures| && y.s.futures[i] in {Resolved, Dropped}
    {
      if !CommittedIn(x.log, i) {
        assert InHand(x, i);
      }
    }
  }

  lemma DrainExplained<T(!new)>(x: Sys<T>, y: Sys<T>, d: Departure<T>)
    requires Queued(x) && Unsettled(x) && Explained(x)
    requires y.s.futures == Settle(x.s.futures, x.s.queue, Failed(BatcherClosed))
    requires y.log == x.log && y.submitted == x.submitted
    requires y.left == x.left || y.left == x.left + [d]
    ensures Explained(y)
  {
    AllMentions(x.s.queue, QueueStart(x), x.submitted);
    RunsStay(x.left, d, x.log);
  }

  /** A drain by any of the four callers, once no ticket is in the runner's hands. */
  lemma DrainKeepsParts<T(!new)>(maxBatch: int, x: Sys<T>, y: Sys<T>)
    requires Queued(x) && Unsettled(x) && Ordered(maxBatch, x) && Explained(x)
    requires Batch(x.s.runner) == [] && Batch(y.s.runner) == []
    requires !y.s.runner.Applying? && !y.s.runner.Retrying?
    requires y.s.queue == [] && y.s.futures == Settle(x.s.futures, x.s.queue, Failed(BatcherClosed))
    requires y.log == x.log && y.submitted == x.submitted
    requires y.left == if x.s.queue == [] then x.left else x.left + [Departure(false, x.s.queue)]
    ensures Queued(y) && Busy(y) && Unsettled(y) && Ordered(maxBatch, y) && Explained(y)
  {
    SettleUnsettled(x, y, x.s.queue, QueueStart(x), Failed(BatcherClosed));
    DrainExplained(x, y, Departure(false, x.s.queue));
    DepartureKeepsOrder(x.left, Departure(false, x.s.queue), []);
  }

  lemma BusyCallIsFromRun<T(!new)>(x: Sys<T>, call: ApplyCall<T>)
    requires Busy(x) && (x.s.runner.Applying? || x.s.runner.Retrying?)
    requires call.tickets == Batch(x.s.runner) || (|call.tickets| == 1 && call.tickets[0] in Batch(x.s.runner))
    ensures FromTakenRun(x.left, call)
  {
    assert Departure(true, Batch(x.s.runner)) in x.left;
  }

  /** A call ended and gave `tickets` the outcome `f`; the runner goes on as `next`. */
  function AfterCall<T>(x: Sys<T>, next: Runner<T>, tickets: seq<Ticket<T>>, f: Future, call: ApplyCall<T>): Sys<T> {
    x.(s := x.s.(futures := Settle(x.s.futures, tickets, f), runner := next, cancelling := false),
       log := x.log + [call],
       swallowed := x.swallowed || (x.s.cancelling && !call.end.Unwound?))
  }

  /** `next` keeps exactly the tickets of `now` from number `at` on. */
  predicate HandsOn<T>(now: Runner<T>, next: Runner<T>, at: int) {
    if FlightFrom(next) < FlightTo(next) then FlightFrom(next) == at && FlightTo(next) == FlightTo(now)
    else at == FlightTo(now)
  }

  lemma HandsMoveOn<T>(x: Sys<T>, y: Sys<T>, from: nat, n: nat)
    requires y.s.queue == x.s.queue && y.submitted == x.submitted
    requires from == FlightFrom(x.s.runner) && from + n <= FlightTo(x.s.runner) <= QueueStart(x)
    requires HandsOn(x.s.runner, y.s.runner, from + n)
    ensures forall i: nat :: InHand(y, i) <==> InHand(x, i) && !(from <= i < from + n)
  {
  }

  lemma SameQueue<T>(maxBatch: int, x: Sys<T>, y: Sys<T>)
    requires Queued(x) && Ordered(maxBatch, x)
    requires y.s.queue == x.s.queue && |y.s.futures| == |x.s.futures|
    requires y.left == x.left && y.submitted == x.submitted
    ensures Queued(y) && Ordered(maxBatch, y)
  {
  }

  lemma AfterCallUnsettled<T>(x: Sys<T>, y: Sys<T>, tickets: seq<Ticket<T>>, from: nat, f: Future)
    requires Unsettled(x) && Consecutive(tickets, from, x.submitted) && !f.Pending?
    requires y.s.queue == x.s.queue && y.submitted == x.submitted
    requires y.s.futures == Settle(x.s.futures, tickets, f)
    requires from == FlightFrom(x.s.runner) && from + |tickets| <= FlightTo(x.s.runner) <= QueueStart(x)
    requires HandsOn(x.s.runner, y.s.runner, from + |tickets|)
    ensures Unsettled(y)
  {
    HandsMoveOn(x, y, from, |tickets|);
    SettleUnsettled(x, y, tickets, from, f);
  }

  lemma AfterCallExplained<T(!new)>(
    x: Sys<T>, y: Sys<T>, tickets: seq<Ticket<T>>, from: nat, f: Future, call: ApplyCall<T>)
    requires Queued(x) && Busy(x) && Unsettled(x) && Explained(x) && (x.s.runner.Applying? || x.s.runner.Retrying?)
    requires call.tickets == Batch(x.s.runner) || (|call.tickets| == 1 && call.tickets[0] in Batch(x.s.runner))
    requires Consecutive(tickets, from, x.submitted) && Justifies(call, tickets, f)
    requires from == FlightFrom(x.s.runner) && from + |tickets| <= FlightTo(x.s.runner)
    requires y.s.futures == Settle(x.s.futures, tickets, f)
    requires y.log == x.log + [call] && y.left == x.left && y.submitted == x.submitted
    ensures Explained(y)
  {
    BusyCallIsFromRun(x, call);
    SettleExplained(x, y, tickets, from, f, call);
  }

  lemma AfterCallKeepsParts<T(!new)>(
    x: Sys<T>, next: Runner<T>, tickets: seq<Ticket<T>>, from: nat, f: Future, call: ApplyCall<T>)
    requires Queued(x) && Busy(x) && Unsettled(x) && Explained(x)
    requires x.s.runner.Applying? || x.s.runner.Retrying?
    requires call.tickets == Batch(x.s.runner) || (|call.tickets| == 1 && call.tickets[0] in Batch(x.s.runner))
    requires Consecutive(tickets, from, x.submitted) && Justifies(call, tickets, f)
    requires from == FlightFrom(x.s.runner) && from + |tickets| <= FlightTo(x.s.runner) <= QueueStart(x)
    requires HandsOn(x.s.runner, next, from + |tickets|)
    ensures
      var y := AfterCall(x, next, tickets, f, call);
      Unsettled(y) && Explained(y)
  {
    var y := AfterCall(x, next, tickets, f, call);
    AfterCallUnsettled(x, y, tickets, from, f);
    AfterCallExplained(x, y, tickets, from, f, call);
  }

  lemma FlightBounds<T>(x: Sys<T>)
    requires Busy(x) && (x.s.runner.Applying? || x.s.runner.Retrying?)
    ensures |Batch(x.s.runner)| > 0
    ensures Consecutive(Batch(x.s.runner), Batch(x.s.runner)[0].id, x.submitted)
    ensures Batch(x.s.runner)[0].id <= FlightFrom(x.s.runner) < FlightTo(x.s.runner) <= QueueStart(x)
    ensures FlightTo(x.s.runner) == Batch(x.s.runner)[0].id + |Batch(x.s.runner)|
    ensures x.s.runner.Applying? ==> FlightFrom(x.s.runner) == Batch(x.s.runner)[0].id
    ensures x.s.runner.Retrying? ==> FlightFrom(x.s.runner) == Batch(x.s.runner)[0].id + x.s.runner.index
  {
  }

  lemma WholeBatchEndKeepsInv<T(!new)>(maxBatch: int, x: Sys<T>, end: ApplyEnd)
    requires Inv(maxBatch, x) && x.s.runner.Applying? && !end.Unwound?
    requires end.Committed? || |x.s.runner.batch| == 1
    ensures Inv(maxBatch, Next(maxBatch, x, ApplyEnds(end)))
  {
    var batch, y := x.s.runner.batch, Next(maxBatch, x, ApplyEnds(end));
    var call := ApplyCall(batch, end);
    var f := if end.Committed? then Resolved else Failed(ApplyError(end.code));
    SameQueue(maxBatch, x, y);
    assert y == AfterCall(x, Waiting, batch, f, call);
    assert Unsettled(y) && Explained(y) by {
      FlightBounds(x);
      AfterCallKeepsParts(x, Waiting, batch, batch[0].id, f, call);
    }
  }

  lemma FailedBatchKeepsInv<T(!new)>(maxBatch: int, x: Sys<T>, end: ApplyEnd)
    requires Inv(maxBatch, x) && x.s.runner.Applying? && end.Raised? && |x.s.runner.batch| > 1
    ensures Inv(maxBatch, Next(maxBatch, x, ApplyEnds(end)))
  {
    var batch, y := x.s.runner.batch, Next(maxBatch, x, ApplyEnds(end));
    var call := ApplyCall(batch, end);
    SameQueue(maxBatch, x, y);
    assert y == AfterCall(x, Retrying(batch, 0), [], Failed(BatcherClosed), call) by {
      assert Settle<T>(x.s.futures, [], Failed(BatcherClosed)) == x.s.futures;
    }
    assert Unsettled(y) && Explained(y) by {
      FlightBounds(x);
      AfterCallKeepsParts(x, Retrying(batch, 0), [], batch[0].id, Failed(BatcherClosed), call);
    }
  }

  lemma RetryCallKeepsParts<T(!new)>(maxBatch: int, x: Sys<T>, next: Runner<T>, f: Future, call: ApplyCall<T>)
    requires Inv(maxBatch, x) && x.s.runner.Retrying?
    requires next == if x.s.runner.index + 1 < |x.s.runner.batch|
                     then Retrying(x.s.runner.batch, x.s.runner.index + 1) else Waiting
    requires call.tickets == [x.s.runner.batch[x.s.runner.index]] && Justifies(call, call.tickets, f)
    ensures
      var y := AfterCall(x, next, call.tickets, f, call);
      Unsettled(y) && Explained(y)
  {
    FlightBounds(x);
    var at := FlightFrom(x.s.runner);
    assert Consecutive(call.tickets, at, x.submitted);
    assert HandsOn(x.s.runner, next, at + 1);
    AfterCallKeepsParts(x, next, call.tickets, at, f, call);
  }

  lemma RetryEndKeepsInv<T(!new)>(maxBatch: int, x: Sys<T>, end: ApplyEnd)
    requires Inv(maxBatch, x) && x.s.runner.Retrying? && !end.Unwound?
    ensures Inv(maxBatch, Next(maxBatch, x, RetryEnds(end)))
  {
    var y := Next(maxBatch, x, RetryEnds(end));
    var call := ApplyCall([x.s.runner.batch[x.s.runner.index]], end);
    var f := if end.Committed? then Resolved else Failed(ApplyError(end.code));
    assert y == AfterCall(x, y.s.runner, call.tickets, f, call);
    SameQueue(maxBatch, x, y);
    assert Unsettled(y) && Explained(y) by {
      RetryCallKeepsParts(maxBatch, x, y.s.runner, f, call);
    }
  }

  /** The tickets of the runner's batch that have no outcome yet. */
  function Rest<T>(r: Runner<T>): seq<Ticket<T>> {
    match r
    case Retrying(batch, i) => if i <= |batch| then batch[i..] else []
    case _ => Batch(r)
  }

  lemma RestIsInFlight<T>(x: Sys<T>)
    requires Busy(x) && (x.s.runner.Applying? || x.s.runner.Retrying?)
    ensures Consecutive(Rest(x.s.runner), FlightFrom(x.s.runner), x.submitted)
    ensures FlightFrom(x.s.runner) >= 0 && FlightFrom(x.s.runner) + |Rest(x.s.runner)| == FlightTo(x.s.runner)
  {
  }

  /** Only the rest of the batch is still pending, so settling the batch settles the rest. */
  lemma SettlingBatchIsSettlingRest<T>(x: Sys<T>)
    requires Busy(x) && Unsettled(x) && (x.s.runner.Applying? || x.s.runner.Retrying?)
    ensures Settle(x.s.futures, Batch(x.s.runner), Failed(BatcherClosed))
         == Settle(x.s.futures, Rest(x.s.runner), Failed(BatcherClosed))
  {
    var batch, rest := Batch(x.s.runner), Rest(x.s.runner);
    RestIsInFlight(x);
    FlightBounds(x);
    forall i | 0 <= i < |x.s.futures| && x.s.futures[i].Pending?
      ensures Mentions(batch, i) <==> Mentions(rest, i)
    {
      ConsecutiveMentions(batch, batch[0].id, x.submitted, i);
      ConsecutiveMentions(rest, FlightFrom(x.s.runner), x.submitted, i);
      assert InHand(x, i);
    }
  }

  function Unwinding<T>(x: Sys<T>, call: ApplyCall<T>): Sys<T> {
    Departing(x.(s := Aborted(x.s, Batch(x.s.runner)), log := x.log + [call]), x.s)
  }

  /** The runner after it failed its batch and before it drains the queue. */
  function BatchFailed<T>(x: Sys<T>, call: ApplyCall<T>): Sys<T> {
    AfterCall(x, Finished, Rest(x.s.runner), Failed(BatcherClosed), call)
  }

  lemma BatchFailedKeepsParts<T(!new)>(maxBatch: int, x: Sys<T>, call: ApplyCall<T>)
    requires Inv(maxBatch, x) && (x.s.runner.Applying? || x.s.runner.Retrying?) && call.end.Unwound?
    requires call.tickets == Batch(x.s.runner) || (|call.tickets| == 1 && call.tickets[0] in Batch(x.s.runner))
    ensures
      var mid := BatchFailed(x, call);
      Unsettled(mid) && Explained(mid)
  {
    RestIsInFlight(x);
    FlightBounds(x);
    AfterCallKeepsParts(
      x, Finished, Rest(x.s.runner), FlightFrom(x.s.runner), Failed(BatcherClosed), call);
  }

  lemma UnwindingDrains<T>(x: Sys<T>, call: ApplyCall<T>)
    requires Busy(x) && Unsettled(x) && (x.s.runner.Applying? || x.s.runner.Retrying?) && call.end.Unwound?
    ensures
      var y, mid := Unwinding(x, call), BatchFailed(x, call);
      && y.s == Drained(mid.s) && y.log == mid.log && y.submitted == mid.submitted && y.swallowed == mid.swallowed
      && y.left == if mid.s.queue == [] then mid.left else mid.left + [Departure(false, mid.s.queue)]
  {
    SettlingBatchIsSettlingRest(x);
  }

  lemma UnwindingKeepsFlags<T>(x: Sys<T>, call: ApplyCall<T>)
    requires Flags(x) && (x.s.runner.Applying? || x.s.runner.Retrying?)
    ensures Flags(Unwinding(x, call))
  {
  }

  /** An apply unwound by a BaseException: the whole batch and the queue get BatcherClosed. */
  lemma UnwindingKeepsInv<T(!new)>(maxBatch: int, x: Sys<T>, call: ApplyCall<T>)
    requires Inv(maxBatch, x) && (x.s.runner.Applying? || x.s.runner.Retrying?) && call.end.Unwound?
    requires call.tickets == Batch(x.s.runner) || (|call.tickets| == 1 && call.tickets[0] in Batch(x.s.runner))
    ensures Inv(maxBatch, Unwinding(x, call))
  {
    var y, mid := Unwinding(x, call), BatchFailed(x, call);
    assert Queued(y) && Busy(y) && Unsettled(y) && Ordered(maxBatch, y) && Explained(y) by {
      SameQueue(maxBatch, x, mid);
      BatchFailedKeepsParts(maxBatch, x, call);
      UnwindingDrains(x, call);
      DrainKeepsParts(maxBatch, mid, y);
    }
    UnwindingKeepsFlags(x, call);
  }

  lemma UnwindKeepsInv<T(!new)>(maxBatch: int, x: Sys<T>, step: Step<T>)
    requires Inv(maxBatch, x) && Enabled(x, step)
    requires (step.ApplyEnds? || step.RetryEnds?) && step.end.Unwound?
    ensures Inv(maxBatch, Next(maxBatch, x, step))
  {
    var batch := Batch(x.s.runner);
    var call := ApplyCall(if step.ApplyEnds? then batch else [batch[x.s.runner.index]], step.end);
    UnwindingKeepsInv(maxBatch, x, call);
    assert Next(maxBatch, x, step) == Unwinding(x, call);
  }

  lemma CancelKeepsInv<T(!new)>(maxBatch: int, x: Sys<T>)
    requires Inv(maxBatch, x) && Enabled(x, CancelReachesRunner)
    ensures Inv(maxBatch, Next(maxBatch, x, CancelReachesRunner))
  {
    var y := Next(maxBatch, x, CancelReachesRunner);
    if x.s.runner.Waiting? {
      DrainKeepsParts(maxBatch, x, y);
    } else {
      assert Unsettled(y) && Explained(y);
    }
  }

  /** A step that moves no ticket and settles no future. */
  lemma StillKeepsParts<T(!new)>(maxBatch: int, x: Sys<T>, y: Sys<T>)
    requires Queued(x) && Busy(x) && Unsettled(x) && Ordered(maxBatch, x) && Explained(x)
    requires y.s.queue == x.s.queue && y.s.futures == x.s.futures
    requires y.s.runner == x.s.runner || (Batch(x.s.runner) == [] && y.s.runner == Waiting)
    requires y.left == x.left && y.log == x.log && y.submitted == x.submitted
    ensures Queued(y) && Busy(y) && Unsettled(y) && Ordered(maxBatch, y) && Explained(y)
  {
  }

  lemma CloseKeepsFlags<T>(maxBatch: int, x: Sys<T>, step: Step<T>)
    requires Flags(x) && (step.Close? || step.CloseResumes?) && Enabled(x, step)
    ensures Flags(Next(maxBatch, x, step))
  {
  }

  lemma CloseKeepsInv<T(!new)>(maxBatch: int, x: Sys<T>, step: Step<T>)
    requires Inv(maxBatch, x) && (step.Close? || step.CloseResumes?) && Enabled(x, step)
    ensures Inv(maxBatch, Next(maxBatch, x, step))
  {
    var y := Next(maxBatch, x, step);
    CloseKeepsFlags(maxBatch, x, step);
    if x.s.runner.Live() {
      StillKeepsParts(maxBatch, x, y);
    } else {
      DrainKeepsParts(maxBatch, x, y);
    }
  }

  lemma GiveUpExplained<T(!new)>(x: Sys<T>, y: Sys<T>, id: nat)
    requires Explained(x) && id < |x.s.futures| && x.s.futures[id].Pending?
    requires y == x.(s := x.s.(futures := x.s.futures[id := Dropped]))
    ensures Explained(y)
  {
    assert forall i | 0 <= i < |y.s.futures| && i != id :: y.s.futures[i] == x.s.futures[i];
  }

  lemma GiveUpUnsettled<T(!new)>(x: Sys<T>, y: Sys<T>, id: nat)
    requires Unsettled(x) && id < |x.s.futures|
    requires y == x.(s := x.s.(futures := x.s.futures[id := Dropped]))
    ensures Unsettled(y)
  {
    assert forall i | 0 <= i < |y.s.futures| && i != id :: y.s.futures[i] == x.s.futures[i];
  }

  lemma GiveUpKeepsRest<T(!new)>(maxBatch: int, x: Sys<T>, y: Sys<T>, id: nat)
    requires Queued(x) && Busy(x) && Flags(x) && Ordered(maxBatch, x) && id < |x.s.futures|
    requires y == x.(s := x.s.(futures := x.s.futures[id := Dropped]))
    ensures Queued(y) && Busy(y) && Flags(y) && Ordered(maxBatch, y)
  {
  }

  lemma GiveUpKeepsInv<T(!new)>(maxBatch: int, x: Sys<T>, id: nat)
    requires Inv(maxBatch, x) && Enabled(x, GiveUp(id))
    ensures Inv(maxBatch, Next(maxBatch, x, GiveUp(id)))
  {
    var y := Next(maxBatch, x, GiveUp(id));
    GiveUpKeepsRest(maxBatch, x, y, id);
    GiveUpExplained(x, y, id);
    GiveUpUnsettled(x, y, id);
  }

  lemma StepKeepsInv<T(!new)>(maxBatch: int, x: Sys<T>, step: Step<T>)
    requires Inv(maxBatch, x) && Enabled(x, step)
    ensures Inv(maxBatch, Next(maxBatch, x, step))
  {
    match step
    case Submit(item) => SubmitKeepsInv(maxBatch, x, item);
    case RunnerStarts => StillKeepsParts(maxBatch, x, Next(maxBatch, x, step));
    case Take => TakeKeepsInv(maxBatch, x);
    case ApplyEnds(end) =>
      if end.Unwound? {
        UnwindKeepsInv(maxBatch, x, step);
      } else if end.Raised? && |x.s.runner.batch| != 1 {
        FailedBatchKeepsInv(maxBatch, x, end);
      } else {
        WholeBatchEndKeepsInv(maxBatch, x, end);
      }
    case RetryEnds(end) =>
      if end.Unwound? {
        UnwindKeepsInv(maxBatch, x, step);
      } else {
        RetryEndKeepsInv(maxBatch, x, end);
      }
    case CancelReachesRunner => CancelKeepsInv(maxBatch, x);
    case GiveUp(id) => GiveUpKeepsInv(maxBatch, x, id);
    case Close => CloseKeepsInv(maxBatch, x, step);
    case CloseResumes => CloseKeepsInv(maxBatch, x, step);
  }

  lemma {:induction false} RunKeepsInv<T(!new)>(maxBatch: int, trace: seq<Sys<T>>, n: nat)
    requires IsRun(maxBatch, trace) && n < |trace|
    ensures Inv(maxBatch, trace[n])
  {
    if n > 0 {
      RunKeepsInv(maxBatch, trace, n - 1);
      assert Follows(maxBatch, trace[n - 1], trace[n]);
      var step :| Enabled(trace[n - 1], step) && trace[n] == Next(maxBatch, trace[n - 1], step);
      StepKeepsInv(maxBatch, trace[n - 1], step);
    }
  }

  lemma ReachableInv<T(!new)>(maxBatch: int, x: Sys<T>)
    requires Reachable(maxBatch, x)
    ensures Inv(maxBatch, x)
  {
    var trace :| IsRun(maxBatch, trace) && trace[|trace| - 1] == x;
    RunKeepsInv(maxBatch, trace, |trace| - 1);
  }

  // ---- what every run promises

  /**
   * No future is stranded: while the batcher is open a pending future has a live runner, and
   * once any `close` has returned every future ever enqueued has an outcome, also when the
   * runner was cancelled before its first step, mid-apply or mid-retry.
   */
  lemma NoFutureIsStranded<T(!new)>(maxBatch: int, x: Sys<T>)
    requires Reachable(maxBatch, x)
    ensures |x.s.futures| == |x.submitted|
    ensures !x.s.closed && (exists i | 0 <= i < |x.s.futures| :: x.s.futures[i].Pending?) ==> x.s.runner.Live()
    ensures x.s.closeReturned ==> forall i | 0 <= i < |x.s.futures| :: !x.s.futures[i].Pending?
  {
    ReachableInv(maxBatch, x);
    if exists i | 0 <= i < |x.s.futures| :: x.s.futures[i].Pending? {
      PendingIsHeld(maxBatch, x);
    }
  }

  lemma PendingIsHeld<T(!new)>(maxBatch: int, x: Sys<T>)
    requires Inv(maxBatch, x) && exists i | 0 <= i < |x.s.futures| :: x.s.futures[i].Pending?
    ensures x.s.queue != [] || x.s.runner.Live()
  {
    var i :| 0 <= i < |x.s.futures| && x.s.futures[i].Pending?;
    assert InHand(x, i);
  }

  /**
   * A `close` that finds a live runner cancels it and waits; one that finds none, and one whose
   * runner has ended, returns in that very step and leaves no future pending.
   */
  lemma CloseWaitsOnlyForARunner<T(!new)>(maxBatch: int, x: Sys<T>, step: Step<T>)
    requires Reachable(maxBatch, x) && Enabled(x, step) && (step.Close? || step.CloseResumes?)
    ensures
      var y := Next(maxBatch, x, step);
      && y.s.closed
      && (if step.Close? && x.s.runner.Live() then
            y.s.cancelling && y.s.runner == x.s.runner && y.s.closers == x.s.closers + 1 && !y.s.closeReturned
          else
            y.s.closeReturned && y.s.queue == [] && forall i | 0 <= i < |y.s.futures| :: !y.s.futures[i].Pending?)
  {
    ReachableInv(maxBatch, x);
    var y := Next(maxBatch, x, step);
    CloseKeepsInv(maxBatch, x, step);
    if !(step.Close? && x.s.runner.Live()) && exists i | 0 <= i < |y.s.futures| :: y.s.futures[i].Pending? {
      PendingIsHeld(maxBatch, y);
    }
  }

  /**
   * FIFO and conservation: batches and drains, in order, followed by what is still queued are
   * exactly the submitted items in submission order; every batch is a contiguous run of at
   * most max(1, `max_batch`) of them, and every apply call is one batch or one of its items.
   */
  lemma TicketsLeaveInOrder<T(!new)>(maxBatch: int, x: Sys<T>)
    requires Reachable(maxBatch, x)
    ensures Gone(x.left) + x.s.queue == Issued(x.submitted)
    ensures forall d | d in x.left && d.taken :: 1 <= |d.tickets| <= Largest(maxBatch)
    ensures forall c | c in x.log :: FromTakenRun(x.left, c)
  {
    ReachableInv(maxBatch, x);
  }

  /**
   * An awaiting submitter succeeds exactly when a committed apply held its item; the error of
   * an apply reaches a submitter only from an apply of its item alone.
   */
  lemma OutcomesAreEarned<T(!new)>(maxBatch: int, x: Sys<T>, id: nat)
    requires Reachable(maxBatch, x) && id < |x.submitted|
    ensures |x.s.futures| == |x.submitted|
    ensures !x.s.futures[id].Dropped? ==> (x.s.futures[id].Resolved? <==> CommittedIn(x.log, id))
    ensures forall code :: x.s.futures[id] == Failed(ApplyError(code)) ==>
              RaisedAlone(x.log, Ticket(id, x.submitted[id]), code)
  {
    ReachableInv(maxBatch, x);
  }

  /**
   * Poison isolation: when an apply raises exactly if it holds a bad item, a submitter fails
   * with an apply error only for a bad item and succeeds only for a good one.
   */
  lemma PoisonFailsAlone<T(!new)>(maxBatch: int, x: Sys<T>, bad: T -> bool, id: nat)
    requires Reachable(maxBatch, x) && id < |x.s.futures|
    requires forall c | c in x.log && !c.end.Unwound? ::
               c.end.Committed? <==> forall k | 0 <= k < |c.tickets| :: !bad(c.tickets[k].item)
    ensures id < |x.submitted|
    ensures x.s.futures[id].Failed? && x.s.futures[id].error.ApplyError? ==> bad(x.submitted[id])
    ensures x.s.futures[id].Resolved? ==> !bad(x.submitted[id])
  {
    ReachableInv(maxBatch, x);
    if x.s.futures[id].Resolved? {
      var c :| c in x.log && c.end.Committed? && Mentions(c.tickets, id);
      LoggedTicketsAreIssued(maxBatch, x, c);
    }
    if x.s.futures[id].Failed? && x.s.futures[id].error.ApplyError? {
      var code := x.s.futures[id].error.code;
      var t := Ticket(id, x.submitted[id]);
      assert RaisedAlone(x.log, t, code);
      var c :| c in x.log && c.tickets == [t] && c.end.Raised? && c.end.code == code;
      assert c.tickets[0].item == x.submitted[id];
    }
  }

  /** Some apply of the log was unwound by a BaseException. */
  ghost predicate Unwinds<T(!new)>(log: seq<ApplyCall<T>>) {
    exists c | c in log :: c.end.Unwound?
  }

  /** The closed error is given only by a closed batcher or after an unwound apply. */
  ghost predicate ClosedErrorHasCause<T(!new)>(x: Sys<T>) {
    (exists i | 0 <= i < |x.s.futures| :: x.s.futures[i] == Failed(BatcherClosed)) ==>
      x.s.closed || Unwinds(x.log)
  }

  lemma CausesStay<T(!new)>(maxBatch: int, x: Sys<T>, step: Step<T>)
    requires Enabled(x, step)
    ensures
      var y := Next(maxBatch, x, step);
      && (x.s.closed ==> y.s.closed) && (Unwinds(x.log) ==> Unwinds(y.log))
      && ((step.ApplyEnds? || step.RetryEnds?) && step.end.Unwound? ==> Unwinds(y.log))
  {
    var y := Next(maxBatch, x, step);
    assert forall c | c in x.log :: c in y.log;
    if (step.ApplyEnds? || step.RetryEnds?) && step.end.Unwound? {
      assert y.log[|x.log|].end.Unwound? && y.log[|x.log|] in y.log;
    }
  }

  /** No other step gives the closed error while the batcher stays open. */
  lemma OpenStepsGiveNoClosedError<T(!new)>(maxBatch: int, x: Sys<T>, step: Step<T>, i: nat)
    requires Flags(x) && Enabled(x, step) && !Next(maxBatch, x, step).s.closed
    requires (step.ApplyEnds? || step.RetryEnds?) ==> !step.end.Unwound?
    ensures
      var y := Next(maxBatch, x, step);
      i < |y.s.futures| && y.s.futures[i] == Failed(BatcherClosed) ==>
        i < |x.s.futures| && x.s.futures[i] == Failed(BatcherClosed)
  {
  }

  /** A step that settles a future with the closed error has its cause, and causes stay. */
  lemma StepKeepsClosedErrorCaused<T(!new)>(maxBatch: int, x: Sys<T>, step: Step<T>)
    requires Flags(x) && Enabled(x, step) && ClosedErrorHasCause(x)
    ensures ClosedErrorHasCause(Next(maxBatch, x, step))
  {
    var y := Next(maxBatch, x, step);
    CausesStay(maxBatch, x, step);
    if !y.s.closed && !Unwinds(y.log) {
      forall i: nat | i < |y.s.futures| && y.s.futures[i] == Failed(BatcherClosed)
        ensures i < |x.s.futures| && x.s.futures[i] == Failed(BatcherClosed)
      {
        OpenStepsGiveNoClosedError(maxBatch, x, step, i);
      }
    }
  }

  lemma {:induction false} ClosedErrorsHaveCauses<T(!new)>(maxBatch: int, trace: seq<Sys<T>>, n: nat)
    requires IsRun(maxBatch, trace) && n < |trace|
    ensures ClosedErrorHasCause(trace[n])
  {
    if n > 0 {
      ClosedErrorsHaveCauses(maxBatch, trace, n - 1);
      RunKeepsInv(maxBatch, trace, n - 1);
      assert Follows(maxBatch, trace[n - 1], trace[n]);
      var step :| Enabled(trace[n - 1], step) && trace[n] == Next(maxBatch, trace[n - 1], step);
      StepKeepsClosedErrorCaused(maxBatch, trace[n - 1], step);
    }
  }

  /** A submitter gets BatcherClosed only when the batcher was closed or an apply was unwound. */
  lemma BatcherClosedHasCause<T(!new)>(maxBatch: int, x: Sys<T>, id: nat)
    requires Reachable(maxBatch, x) && id < |x.s.futures| && x.s.futures[id] == Failed(BatcherClosed)
    ensures x.s.closed || Unwinds(x.log)
  {
    var trace :| IsRun(maxBatch, trace) && trace[|trace| - 1] == x;
    ClosedErrorsHaveCauses(maxBatch, trace, |trace| - 1);
  }

  /**
   * Poison blocks nobody: while the batcher is open, no apply was unwound and an apply raises
   * exactly if it holds a bad item, a settled submitter succeeded if and only if its item is
   * good, and failed with the error of an apply of its item alone otherwise.
   */
  lemma PoisonBlocksNobody<T(!new)>(maxBatch: int, x: Sys<T>, bad: T -> bool, id: nat)
    requires Reachable(maxBatch, x) && id < |x.s.futures| && !x.s.futures[id].Pending? && !x.s.futures[id].Dropped?
    requires !x.s.closed && !Unwinds(x.log)
    requires forall c | c in x.log :: c.end.Committed? <==> forall k | 0 <= k < |c.tickets| :: !bad(c.tickets[k].item)
    ensures id < |x.submitted|
    ensures x.s.futures[id].Resolved? <==> !bad(x.submitted[id])
    ensures bad(x.submitted[id]) ==>
              exists code :: x.s.futures[id] == Failed(ApplyError(code)) && RaisedAlone(x.log, Ticket(id, x.submitted[id]), code)
  {
    PoisonFailsAlone(maxBatch, x, bad, id);
    OutcomesAreEarned(maxBatch, x, id);
    if x.s.futures[id] == Failed(BatcherClosed) {
      BatcherClosedHasCause(maxBatch, x, id);
      assert false;
    }
    if x.s.futures[id].Failed? {
      assert x.s.futures[id] == Failed(ApplyError(x.s.futures[id].error.code));
    }
  }

  lemma {:induction false} GoneHolds<T>(left: seq<Departure<T>>, d: Departure<T>)
    requires d in left
    ensures forall t | t in d.tickets :: t in Gone(left)
    decreases |left|
  {
    var last := |left| - 1;
    if d != left[last] {
      assert d in left[..last];
      GoneHolds(left[..last], d);
    }
  }

  lemma LoggedTicketsAreIssued<T(!new)>(maxBatch: int, x: Sys<T>, c: ApplyCall<T>)
    requires Ordered(maxBatch, x) && Explained(x) && c in x.log
    ensures forall k | 0 <= k < |c.tickets| ::
              c.tickets[k].id < |x.submitted| && c.tickets[k].item == x.submitted[c.tickets[k].id]
  {
    assert FromTakenRun(x.left, c);
    var d :| d in x.left && d.taken && (c.tickets == d.tickets || (|c.tickets| == 1 && c.tickets[0] in d.tickets));
    GoneHolds(x.left, d);
    forall k | 0 <= k < |c.tickets|
      ensures c.tickets[k].id < |x.submitted| && c.tickets[k].item == x.submitted[c.tickets[k].id]
    {
      assert c.tickets[k] in Gone(x.left);
      var n :| 0 <= n < |Gone(x.left)| && Gone(x.left)[n] == c.tickets[k];
      assert (Gone(x.left) + x.s.queue)[n] == Issued(x.submitted)[n];
    }
  }

  // ---- whether close ends

  /** The steps in which the runner task moves, or is unwound. */
  predicate RunnerMoves<T>(x: Sys<T>, step: Step<T>) {
    Enabled(x, step) && !step.Submit? && !step.GiveUp? && !step.Close? && !step.CloseResumes?
  }

  predicate Outlives<T>(x: Sys<T>, step: Step<T>) {
    x.s.cancelling && (step.ApplyEnds? || step.RetryEnds?) && !step.end.Unwound?
  }

  lemma CancelledMoveFinishes<T>(maxBatch: int, x: Sys<T>, step: Step<T>)
    requires x.s.cancelling && RunnerMoves(x, step) && !Outlives(x, step)
    ensures Next(maxBatch, x, step).s.runner.Finished? && Next(maxBatch, x, step).s.closers == x.s.closers
  {
  }

  /**
   * While `close` waits and no apply has outlived a cancellation, the very next move of the
   * runner ends it, such a move is always possible, and then `close` can return.
   */
  lemma CloseEndsUnlessSwallowed<T(!new)>(maxBatch: int, x: Sys<T>)
    requires Reachable(maxBatch, x) && x.s.closers > 0 && !x.swallowed
    ensures !x.s.runner.Live() ==> Enabled(x, CloseResumes)
    ensures x.s.runner.Live() ==> exists step :: RunnerMoves(x, step) && !Outlives(x, step)
    ensures x.s.runner.Live() ==> forall step | RunnerMoves(x, step) && !Outlives(x, step) ::
              Enabled(Next(maxBatch, x, step), CloseResumes)
  {
    assert Busy(x) && Flags(x) by {
      ReachableInv(maxBatch, x);
    }
    if x.s.runner.Live() {
      var step := UnwindingMove(x);
      forall step | RunnerMoves(x, step) && !Outlives(x, step)
        ensures Enabled(Next(maxBatch, x, step), CloseResumes)
      {
        CancelledMoveFinishes(maxBatch, x, step);
      }
    }
  }

  lemma UnwindingMove<T(!new)>(x: Sys<T>) returns (step: Step<T>)
    requires Busy(x) && x.s.runner.Live() && x.s.cancelling
    ensures RunnerMoves(x, step) && !Outlives(x, step)
  {
    step := match x.s.runner
      case Applying(_) => ApplyEnds(Unwound(false))
      case Retrying(_, _) => RetryEnds(Unwound(false))
      case _ => CancelReachesRunner;
  }

  // What an apply that outlives the cancellation does to `close`, over all that may follow.

  /** `close` waits, and the runner goes on with no cancellation on its way. */
  predicate Doomed<T>(x: Sys<T>) {
    && x.s.closed && x.s.closers > 0 && !x.s.cancelling
    && (x.s.runner.Waiting? || x.s.runner.Applying? || x.s.runner.Retrying?)
  }

  /** Anything but a further `close`; an apply is unwound only by a cancellation that was sent. */
  predicate Ordinary<T>(x: Sys<T>, step: Step<T>) {
    && Enabled(x, step) && !step.Close?
    && ((step.ApplyEnds? || step.RetryEnds?) && step.end.Unwound? ==> x.s.cancelling)
  }

  ghost predicate OrdinarilyFollows<T(!new)>(maxBatch: int, x: Sys<T>, y: Sys<T>) {
    exists step :: Ordinary(x, step) && y == Next(maxBatch, x, step)
  }

  ghost predicate IsContinuation<T(!new)>(maxBatch: int, x: Sys<T>, trace: seq<Sys<T>>) {
    && |trace| > 0 && trace[0] == x
    && forall i | 0 < i < |trace| :: OrdinarilyFollows(maxBatch, trace[i - 1], trace[i])
  }

  /** Some continuation lets a waiting `close` return. */
  ghost predicate CanReturn<T(!new)>(maxBatch: int, x: Sys<T>) {
    exists trace :: IsContinuation(maxBatch, x, trace) && Enabled(trace[|trace| - 1], CloseResumes)
  }

  /** An apply that outlives the cancellation dooms the waiting `close` at once. */
  lemma OutlivingDooms<T(!new)>(maxBatch: int, x: Sys<T>, step: Step<T>)
    requires Reachable(maxBatch, x) && Enabled(x, step) && Outlives(x, step)
    ensures Doomed(Next(maxBatch, x, step)) && Next(maxBatch, x, step).swallowed
  {
    assert Flags(x) by {
      ReachableInv(maxBatch, x);
    }
  }

  lemma DoomedStays<T>(maxBatch: int, x: Sys<T>, step: Step<T>)
    requires Doomed(x) && Ordinary(x, step)
    ensures Doomed(Next(maxBatch, x, step))
  {
  }

  lemma {:induction false} DoomedForever<T(!new)>(maxBatch: int, x: Sys<T>, trace: seq<Sys<T>>, n: nat)
    requires Doomed(x) && IsContinuation(maxBatch, x, trace) && n < |trace|
    ensures Doomed(trace[n]) && !Enabled(trace[n], CloseResumes)
  {
    if n > 0 {
      DoomedForever(maxBatch, x, trace, n - 1);
      assert OrdinarilyFollows(maxBatch, trace[n - 1], trace[n]);
      var step :| Ordinary(trace[n - 1], step) && trace[n] == Next(maxBatch, trace[n - 1], step);
      DoomedStays(maxBatch, trace[n - 1], step);
    }
  }

  lemma ReturnsAfterUnwinding<T(!new)>(maxBatch: int, x: Sys<T>)
    requires Busy(x) && x.s.closers > 0 && x.s.runner.Live() && x.s.cancelling
    ensures CanReturn(maxBatch, x)
  {
    var step := UnwindingMove(x);
    var y := Next(maxBatch, x, step);
    assert Enabled(y, CloseResumes) && OrdinarilyFollows(maxBatch, x, y) by {
      CancelledMoveFinishes(maxBatch, x, step);
    }
    assert IsContinuation(maxBatch, x, [x, y]);
  }

  /**
   * Shutdown, exactly: a waiting `close` can never return, whatever follows short of a further
   * `close` or a stray unwind, if and only if an apply outlived the cancellation that `close`
   * sent and the runner is still alive.
   */
  lemma CloseNeverReturnsIffApplyOutlivedCancel<T(!new)>(maxBatch: int, x: Sys<T>)
    requires Reachable(maxBatch, x) && x.s.closers > 0
    ensures !CanReturn(maxBatch, x) <==> x.swallowed && x.s.runner.Live()
    ensures Doomed(x) <==> x.swallowed && x.s.runner.Live()
  {
    assert Busy(x) && Flags(x) by {
      ReachableInv(maxBatch, x);
    }
    if Doomed(x) {
      forall trace | IsContinuation(maxBatch, x, trace)
        ensures !Enabled(trace[|trace| - 1], CloseResumes)
      {
        DoomedForever(maxBatch, x, trace, |trace| - 1);
      }
    } else if x.s.runner.Live() {
      ReturnsAfterUnwinding(maxBatch, x);
    } else {
      assert IsContinuation(maxBatch, x, [x]);
      assert Enabled([x][|[x]| - 1], CloseResumes);
    }
  }

  /** No task of the batcher can move and the waiting `close` cannot return. */
  ghost predicate CloseHangs<T(!new)>(x: Sys<T>) {
    x.s.closers > 0 && !Enabled(x, CloseResumes) && forall step :: !RunnerMoves(x, step)
  }

  /**
   * A waiting `close` hangs exactly when the runner is idle again with no cancellation on its
   * way, which takes an apply that outlived one; even then every future has its outcome.
   */
  lemma CloseHangsIffRunnerIdleAgain<T(!new)>(maxBatch: int, x: Sys<T>)
    requires Reachable(maxBatch, x) && x.s.closers > 0
    ensures CloseHangs(x) <==> x.s.runner.Waiting? && x.s.queue == [] && !x.s.cancelling
    ensures CloseHangs(x) ==> x.swallowed && forall i | 0 <= i < |x.s.futures| :: !x.s.futures[i].Pending?
  {
    assert Queued(x) && Busy(x) && Flags(x) && Unsettled(x) by {
      ReachableInv(maxBatch, x);
    }
    if CloseHangs(x) {
      if x.s.cancelling {
        var step := UnwindingMove(x);
      }
      assert !RunnerMoves(x, RunnerStarts) && !RunnerMoves(x, Take);
      assert !RunnerMoves(x, ApplyEnds(Committed)) && !RunnerMoves(x, RetryEnds(Committed));
      assert forall i | 0 <= i < |x.s.futures| && x.s.futures[i].Pending? :: InHand(x, i);
    }
  }

  lemma Follow<T(!new)>(maxBatch: int, x: Sys<T>, step: Step<T>) returns (y: Sys<T>)
    requires Reachable(maxBatch, x) && Enabled(x, step)
    ensures y == Next(maxBatch, x, step) && Reachable(maxBatch, y)
  {
    y := Next(maxBatch, x, step);
    var trace :| IsRun(maxBatch, trace) && trace[|trace| - 1] == x;
    var longer := trace + [y];
    assert Follows(maxBatch, x, y);
    assert forall i | 0 < i < |longer| :: Follows(maxBatch, longer[i - 1], longer[i]);
    assert IsRun(maxBatch, longer);
  }

  /** A run whose applies let every cancellation through. */
  ghost predicate IsGentleRun<T(!new)>(maxBatch: int, trace: seq<Sys<T>>) {
    && |trace| > 0 && trace[0] == Init()
    && forall i | 0 < i < |trace| :: GentlyFollows(maxBatch, trace[i - 1], trace[i])
  }

  ghost predicate GentlyFollows<T(!new)>(maxBatch: int, x: Sys<T>, y: Sys<T>) {
    exists step :: Enabled(x, step) && !Outlives(x, step) && y == Next(maxBatch, x, step)
  }

  lemma {:induction false} NothingSwallowed<T(!new)>(maxBatch: int, trace: seq<Sys<T>>, n: nat)
    requires IsGentleRun(maxBatch, trace) && n < |trace|
    ensures Reachable(maxBatch, trace[n]) && !trace[n].swallowed
  {
    if n == 0 {
      assert IsRun(maxBatch, [trace[0]]);
    } else {
      NothingSwallowed(maxBatch, trace, n - 1);
      var x, y := trace[n - 1], trace[n];
      assert GentlyFollows(maxBatch, x, y);
      var step :| Enabled(x, step) && !Outlives(x, step) && y == Next(maxBatch, x, step);
      var z := Follow(maxBatch, x, step);
    }
  }

  /** When applies let every cancellation through, a waiting `close` can always return. */
  lemma CloseReturnsWhenCancelsGetThrough<T(!new)>(maxBatch: int, trace: seq<Sys<T>>, n: nat)
    requires IsGentleRun(maxBatch, trace) && n < |trace| && trace[n].s.closers > 0
    ensures CanReturn(maxBatch, trace[n])
  {
    NothingSwallowed(maxBatch, trace, n);
    CloseNeverReturnsIffApplyOutlivedCancel(maxBatch, trace[n]);
  }

  lemma ApplyingOne(item: nat) returns (x: Sys<nat>)
    ensures Reachable(10, x)
    ensures x.s == State([], [Pending], Applying([Ticket(0, item)]), false, false, 0, false)
  {
    x := Init();
    assert IsRun(10, [x]);
    x := Follow(10, x, Submit(item));
    assert x.s == State([Ticket(0, item)], [Pending], Created, false, false, 0, false);
    x := Follow(10, x, RunnerStarts);
    assert x.s.queue[..1] == [Ticket(0, item)] && x.s.queue[1..] == [];
    x := Follow(10, x, Take);
  }

  /** Such a run: the apply turns the cancellation into an ordinary exception. */
  lemma CloseCanHang(item: nat) returns (x: Sys<nat>)
    ensures Reachable(10, x) && x.s.closers > 0 && CloseHangs(x) && !CanReturn(10, x)
  {
    x := ApplyingOne(item);
    x := Follow(10, x, Close);
    x := Follow(10, x, ApplyEnds(Raised(7, false)));
    CloseNeverReturnsIffApplyOutlivedCancel(10, x);
  }
}

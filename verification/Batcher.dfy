/**
 * The greedy micro-batcher: `submit`, `close` and the runner task, one method per stretch of
 * code between suspension points. Each method is proved equal to a function on `State`;
 * `BatcherRuns` proves what those functions promise over every interleaving.
 *
 * A future is the index of its entry in `futures`; an item waits in the queue as a ticket
 * that names its future. Exceptions of `apply_batch` are known by a number.
 */
module Batcher {
  datatype Error = ApplyError(code: nat) | BatcherClosed

  /** `Dropped` is a future cancelled by the task that awaits it. */
  datatype Future = Pending | Resolved | Failed(error: Error) | Dropped

  datatype Ticket<T> = Ticket(id: nat, item: T)

  datatype Runner<T> =
    | NoRunner
    | Created
    | Waiting
    | Applying(batch: seq<Ticket<T>>)
    | Retrying(batch: seq<Ticket<T>>, index: nat)
    | Finished
  {
    predicate Live() {
      !NoRunner? && !Finished?
    }
  }

  /**
   * How an awaited `apply_batch` ended: it returned, raised an Exception, or was unwound by a
   * cancellation (any other BaseException). `durable` tells whether the transaction reached
   * the database all the same.
   */
  datatype ApplyEnd = Committed | Raised(code: nat, durable: bool) | Unwound(durable: bool)

  /** `closers` counts the `close` calls that wait for the runner. */
  datatype State<T> = State(
    queue: seq<Ticket<T>>, futures: seq<Future>, runner: Runner<T>,
    cancelling: bool, closed: bool, closers: nat, closeReturned: bool)

  predicate Mentions<T>(tickets: seq<Ticket<T>>, id: nat) {
    exists k | 0 <= k < |tickets| :: tickets[k].id == id
  }

  /** Gives every still pending future of `tickets` the outcome `f`. */
  function Settle<T>(futures: seq<Future>, tickets: seq<Ticket<T>>, f: Future): (r: seq<Future>)
    ensures |r| == |futures|
    ensures forall i | 0 <= i < |r| ::
              r[i] == if futures[i].Pending? && Mentions(tickets, i) then f else futures[i]
  {
    seq(|futures|, i requires 0 <= i < |futures| =>
      if futures[i].Pending? && Mentions(tickets, i) then f else futures[i])
  }

  function Drained<T>(s: State<T>): State<T> {
    s.(queue := [], futures := Settle(s.futures, s.queue, Failed(BatcherClosed)))
  }

  function Submitted<T>(s: State<T>, item: T): State<T> {
    if s.closed then s
    else s.(runner := if s.runner.Live() then s.runner else Created,
            futures := s.futures + [Pending],
            queue := s.queue + [Ticket(|s.futures|, item)])
  }

  /** How many tickets the greedy drain takes. */
  function BatchSize(maxBatch: int, queued: nat): nat {
    if maxBatch <= 1 then (if queued < 1 then 0 else 1)
    else if queued < maxBatch then queued else maxBatch
  }

  function Taken<T>(s: State<T>, maxBatch: int): State<T> {
    var n := BatchSize(maxBatch, |s.queue|);
    s.(runner := Applying(s.queue[..n]), queue := s.queue[n..])
  }

  /** The runner's code after a BaseException: fail the batch in hand, then the queue. */
  function Aborted<T>(s: State<T>, batch: seq<Ticket<T>>): State<T> {
    Drained(s.(futures := Settle(s.futures, batch, Failed(BatcherClosed)), runner := Finished, cancelling := false))
  }

  function ApplyEnded<T>(s: State<T>, end: ApplyEnd): State<T>
    requires s.runner.Applying?
  {
    var batch := s.runner.batch;
    var t := s.(cancelling := false);
    match end
    case Committed => t.(futures := Settle(s.futures, batch, Resolved), runner := Waiting)
    case Raised(code, _) =>
      if |batch| == 1 then t.(futures := Settle(s.futures, batch, Failed(ApplyError(code))), runner := Waiting)
      else t.(runner := Retrying(batch, 0))
    case Unwound(_) => Aborted(s, batch)
  }

  function RetryEnded<T>(s: State<T>, end: ApplyEnd): State<T>
    requires s.runner.Retrying? && s.runner.index < |s.runner.batch|
  {
    var batch, i := s.runner.batch, s.runner.index;
    var next := if i + 1 < |batch| then Retrying(batch, i + 1) else Waiting;
    var t := s.(cancelling := false, runner := next);
    match end
    case Committed => t.(futures := Settle(s.futures, [batch[i]], Resolved))
    case Raised(code, _) => t.(futures := Settle(s.futures, [batch[i]], Failed(ApplyError(code))))
    case Unwound(_) => Aborted(s, batch)
  }

  /** A cancelled runner that never started skips its body; one that waits drains on its way out. */
  function CancelDelivered<T>(s: State<T>): State<T> {
    var t := s.(runner := Finished, cancelling := false);
    if s.runner.Created? then t else Drained(t)
  }

  function CloseBegun<T>(s: State<T>): State<T> {
    var t := s.(closed := true);
    if s.runner.Live() then t.(cancelling := true, closers := s.closers + 1)
    else Drained(t).(closeReturned := true)
  }

  function CloseResumed<T>(s: State<T>): State<T>
    requires s.closers > 0
  {
    Drained(s).(closers := s.closers - 1, closeReturned := true)
  }

  function GivenUp<T>(s: State<T>, id: nat): State<T>
    requires id < |s.futures|
  {
    s.(futures := s.futures[id := Dropped])
  }

  class Batcher<T(==)> {
    const maxBatch: int
    var queue: seq<Ticket<T>>
    var futures: seq<Future>
    var runner: Runner<T>
    var cancelling: bool
    var closed: bool
    var closers: nat
    var closeReturned: bool

    function Now(): State<T>
      reads this
    {
      State(queue, futures, runner, cancelling, closed, closers, closeReturned)
    }

    constructor (maxBatch: int)
      ensures this.maxBatch == maxBatch
      ensures Now() == State([], [], NoRunner, false, false, 0, false)
    {
      this.maxBatch := maxBatch;
      queue, futures, runner := [], [], NoRunner;
      cancelling, closed, closers, closeReturned := false, false, 0, false;
    }

    /** Up to the await; a refusal stands for the raised BatcherClosedError. */
    method Submit(item: T) returns (accepted: bool, id: nat)
      modifies this
      ensures Now() == Submitted(old(Now()), item)
      ensures accepted <==> !old(closed)
      ensures accepted ==> id == |old(futures)|
    {
      id := |futures|;
      if closed {
        return false, id;
      }
      if runner == NoRunner || runner == Finished {
        runner := Created;
      }
      futures := futures + [Pending];
      queue := queue + [Ticket(id, item)];
      accepted := true;
    }

    method DrainQueue()
      modifies `queue, `futures
      ensures Now() == Drained(old(Now()))
    {
      ghost var before, all := futures, queue;
      ghost var done := 0;
      while queue != []
        invariant done <= |all| && queue == all[done..]
        invariant futures == Settle(before, all[..done], Failed(BatcherClosed))
        decreases |queue|
      {
        SettleOneMore(before, all, done, Failed(BatcherClosed));
        var ticket := queue[0];
        queue := queue[1..];
        if ticket.id < |futures| && futures[ticket.id].Pending? {
          futures := futures[ticket.id := Failed(BatcherClosed)];
        }
        done := done + 1;
      }
      assert all[..done] == all;
    }

    /** Resolves a batch's futures in place, skipping those already done. */
    method SettleBatch(batch: seq<Ticket<T>>, f: Future)
      requires !f.Pending?
      modifies `futures
      ensures futures == Settle(old(futures), batch, f)
    {
      ghost var before := futures;
      for i := 0 to |batch|
        invariant futures == Settle(before, batch[..i], f)
      {
        SettleOneMore(before, batch, i, f);
        var id := batch[i].id;
        if id < |futures| && futures[id].Pending? {
          futures := futures[id := f];
        }
      }
      assert batch[..|batch|] == batch;
    }

    /** The runner's `get` returned: take what is queued, wait for nothing. */
    method TakeBatch()
      requires queue != []
      modifies this
      ensures Now() == Taken(old(Now()), maxBatch)
      ensures runner.Applying? && old(queue) == runner.batch + queue
      ensures 1 <= |runner.batch| <= (if maxBatch > 1 then maxBatch else 1)
      ensures queue == [] || |runner.batch| >= maxBatch
    {
      ghost var all := queue;
      var batch := [queue[0]];
      queue := queue[1..];
      while |batch| < maxBatch && queue != []
        invariant 1 <= |batch| <= |all| && batch == all[..|batch|] && queue == all[|batch|..]
        invariant |batch| == 1 || |batch| <= maxBatch
        modifies `queue
        decreases |queue|
      {
        batch := batch + [queue[0]];
        queue := queue[1..];
      }
      assert queue == [] ==> |batch| == |all|;
      assert |batch| == BatchSize(maxBatch, |all|);
      runner := Applying(batch);
    }

    method Abort(batch: seq<Ticket<T>>)
      modifies this
      ensures Now() == Aborted(old(Now()), batch)
    {
      SettleBatch(batch, Failed(BatcherClosed));
      runner := Finished;
      cancelling := false;
      DrainQueue();
    }

    method FinishApply(end: ApplyEnd)
      requires runner.Applying?
      modifies this
      ensures Now() == ApplyEnded(old(Now()), end)
    {
      var batch := runner.batch;
      match end {
        case Raised(code, _) =>
          cancelling := false;
          if |batch| == 1 {
            SettleBatch(batch, Failed(ApplyError(code)));
            runner := Waiting;
          } else {
            runner := Retrying(batch, 0);
          }
        case Unwound(_) =>
          Abort(batch);
        case Committed =>
          cancelling := false;
          SettleBatch(batch, Resolved);
          runner := Waiting;
      }
    }

    method FinishRetry(end: ApplyEnd)
      requires runner.Retrying? && runner.index < |runner.batch|
      modifies this
      ensures Now() == RetryEnded(old(Now()), end)
    {
      var batch, i := runner.batch, runner.index;
      match end {
        case Unwound(_) =>
          Abort(batch);
        case Raised(code, _) =>
          cancelling := false;
          SettleBatch([batch[i]], Failed(ApplyError(code)));
          runner := if i + 1 < |batch| then Retrying(batch, i + 1) else Waiting;
        case Committed =>
          cancelling := false;
          SettleBatch([batch[i]], Resolved);
          runner := if i + 1 < |batch| then Retrying(batch, i + 1) else Waiting;
      }
    }

    method DeliverCancel()
      requires cancelling && (runner.Created? || runner.Waiting?)
      modifies this
      ensures Now() == CancelDelivered(old(Now()))
    {
      var started := !runner.Created?;
      runner := Finished;
      cancelling := false;
      if started {
        DrainQueue();
      }
    }

    /** `close` up to its await, or to its end when no runner is alive. */
    method BeginClose() returns (waits: bool)
      modifies this
      ensures Now() == CloseBegun(old(Now()))
      ensures waits <==> old(runner).Live()
    {
      closed := true;
      waits := runner.Live();
      if waits {
        cancelling := true;
        closers := closers + 1;
      } else {
        DrainQueue();
        closeReturned := true;
      }
    }

    method ResumeClose()
      requires closers > 0 && runner.Finished?
      modifies this
      ensures Now() == CloseResumed(old(Now()))
    {
      DrainQueue();
      closers := closers - 1;
      closeReturned := true;
    }
  }

  lemma SettleOneMore<T>(futures: seq<Future>, tickets: seq<Ticket<T>>, n: nat, f: Future)
    requires n < |tickets| && !f.Pending?
    ensures
      var part := Settle(futures, tickets[..n], f);
      Settle(futures, tickets[..n + 1], f)
      == if tickets[n].id < |part| && part[tickets[n].id].Pending? then part[tickets[n].id := f] else part
  {
    var part := Settle(futures, tickets[..n], f);
    var next := Settle(futures, tickets[..n + 1], f);
    forall i | 0 <= i < |futures|
      ensures next[i] == if i == tickets[n].id && part[i].Pending? then f else part[i]
    {
      assert Mentions(tickets[..n + 1], i) <==> Mentions(tickets[..n], i) || tickets[n].id == i by {
        if Mentions(tickets[..n], i) {
          var k :| 0 <= k < n && tickets[..n][k].id == i;
          assert tickets[..n + 1][k].id == i;
        }
        if tickets[n].id == i {
          assert tickets[..n + 1][n].id == i;
        }
        if Mentions(tickets[..n + 1], i) {
          var k :| 0 <= k < n + 1 && tickets[..n + 1][k].id == i;
          assert k < n ==> tickets[..n][k].id == i;
        }
      }
    }
  }
}

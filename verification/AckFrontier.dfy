/**
 * The local state of one `HybridClient._consume` run and the code that changes it.
 *
 * Every method below is one stretch of the source between two suspension points, so it is
 * atomic on the event loop. Each is proved equal to a function on `Local`, the value of the
 * run's variables; `AckProtocol` proves what those functions promise over whole runs.
 */
module AckFrontier {
  import opened Options

  /** What stays fixed during a run. `count` is None for a run that only cancellation ends. */
  datatype Config = Config(count: Option<nat>, ackBatch: nat, hasHandler: bool) {
    predicate Valid() {
      ackBatch >= 1 && (count.Some? ==> count.value >= 1)
    }

    predicate Full(n: nat) {
      count.Some? && n >= count.value
    }
  }

  /** A method frame the client sends on the consume channel. */
  datatype Frame = AckUpTo(tag: nat) | NackOne(tag: nat) | NackUpTo(tag: nat)

  /** The variables `advance_frontier` works on. */
  datatype Front = Front(firstTag: nat, frontier: nat, ackRef: nat, finishedOk: set<nat>, finishedNack: set<nat>)

  datatype Local = Local(
    reserved: nat, settled: nat, completed: nat, front: Front,
    acked: nat, extraTag: nat, closing: bool, done: bool, ackEvent: bool)

  const INITIAL := Local(0, 0, 0, Front(0, 0, 0, {}, {}), 0, 0, false, false, false)

  /** Half the prefetch window, at least one: the distance that wakes the acker. */
  function AckBatch(prefetch: nat): nat {
    if prefetch / 2 > 1 then prefetch / 2 else 1
  }

  /** The settings of a run, or None when the quota is not positive and nothing is consumed. */
  function Start(count: Option<int>, prefetch: nat, hasHandler: bool): (r: Option<Config>)
    ensures r.None? <==> count.Some? && count.value <= 0
    ensures r.Some? ==> r.value.Valid() && r.value.hasHandler == hasHandler
    ensures r.Some? ==> 2 * r.value.ackBatch <= prefetch <= 2 * r.value.ackBatch + 1 || (r.value.ackBatch == 1 && prefetch < 2)
    ensures r.Some? && count.Some? ==> r.value.count == Some(count.value as nat)
  {
    match count
    case None => Some(Config(None, AckBatch(prefetch), hasHandler))
    case Some(c) => if c <= 0 then None else Some(Config(Some(c), AckBatch(prefetch), hasHandler))
  }

  /** Moves the frontier over every finished tag that directly follows it. */
  function Advance(f: Front): Front
    decreases |f.finishedOk| + |f.finishedNack|
  {
    var nxt := if f.frontier == 0 then f.firstTag else f.frontier + 1;
    if nxt in f.finishedOk then
      Advance(f.(finishedOk := f.finishedOk - {nxt}, ackRef := nxt, frontier := nxt))
    else if nxt in f.finishedNack then
      Advance(f.(finishedNack := f.finishedNack - {nxt}, frontier := nxt))
    else
      f
  }

  function MarkFinished(f: Front, tag: nat, ok: bool): Front {
    if ok then f.(finishedOk := f.finishedOk + {tag}) else f.(finishedNack := f.finishedNack + {tag})
  }

  /** `settle` after the frontier moved: the counters, the acker's wake-up, the quota. */
  function Tallied(cfg: Config, l: Local, ok: bool): Local {
    l.(settled := l.settled + 1,
       completed := if ok then l.completed + 1 else l.completed,
       ackEvent := l.ackEvent || l.front.ackRef - l.acked >= cfg.ackBatch,
       done := l.done || cfg.Full(l.settled + 1))
  }

  function Settled(cfg: Config, l: Local, tag: nat, ok: bool): Local {
    Tallied(cfg, l.(front := Advance(MarkFinished(l.front, tag, ok))), ok)
  }

  function Seen(l: Local, tag: nat): Local {
    if l.front.firstTag == 0 then l.(front := l.front.(firstTag := tag)) else l
  }

  predicate Accepts(cfg: Config, l: Local) {
    !cfg.Full(l.reserved)
  }

  function Reserved(l: Local, tag: nat): Local {
    var s := Seen(l, tag);
    s.(reserved := s.reserved + 1)
  }

  function Refused(l: Local, tag: nat): Local {
    var s := Seen(l, tag);
    s.(extraTag := if tag > s.extraTag then tag else s.extraTag)
  }

  /** A delivery's callback up to its first suspension point, or to its end without a handler. */
  function Entered(cfg: Config, l: Local, tag: nat): Local {
    if !Accepts(cfg, l) then Refused(l, tag)
    else if cfg.hasHandler then Reserved(l, tag)
    else Settled(cfg, Reserved(l, tag), tag, true)
  }

  function RaisedFrame(l: Local, tag: nat): Option<Frame> {
    if l.closing then None else Some(NackOne(tag))
  }

  /** What acking everything ackable would send; both the acker and the exit block use it. */
  function DueAck(l: Local): Option<Frame> {
    if l.front.ackRef > l.acked then Some(AckUpTo(l.front.ackRef)) else None
  }

  function AfterDueAck(l: Local): Local {
    if l.front.ackRef > l.acked then l.(acked := l.front.ackRef) else l
  }

  function SweepFrame(l: Local): Option<Frame> {
    if l.extraTag > 0 then Some(NackUpTo(l.extraTag)) else None
  }

  /** The variables shared by the closures of one `_consume` call. */
  class ConsumeRun {
    const cfg: Config
    var reserved: nat
    var settled: nat
    var completed: nat
    var firstTag: nat
    var frontier: nat
    var ackRef: nat
    var acked: nat
    var extraTag: nat
    var finishedOk: set<nat>
    var finishedNack: set<nat>
    var closing: bool
    var done: bool
    var ackEvent: bool

    function State(): Local
      reads this
    {
      Local(reserved, settled, completed, FrontState(), acked, extraTag, closing, done, ackEvent)
    }

    function FrontState(): Front
      reads this
    {
      Front(firstTag, frontier, ackRef, finishedOk, finishedNack)
    }

    constructor (cfg: Config)
      ensures this.cfg == cfg && State() == INITIAL
    {
      this.cfg := cfg;
      reserved, settled, completed := 0, 0, 0;
      firstTag, frontier, ackRef, acked, extraTag := 0, 0, 0, 0, 0;
      finishedOk, finishedNack := {}, {};
      closing, done, ackEvent := false, false, false;
    }

    method AdvanceFrontier()
      requires 0 !in finishedOk && 0 !in finishedNack
      modifies `frontier, `ackRef, `finishedOk, `finishedNack
      ensures FrontState() == Advance(old(FrontState()))
    {
      var nxt := if frontier == 0 then firstTag else frontier + 1;
      while nxt in finishedOk || nxt in finishedNack
        invariant nxt == if frontier == 0 then firstTag else frontier + 1
        invariant 0 !in finishedOk && 0 !in finishedNack
        invariant Advance(FrontState()) == Advance(old(FrontState()))
        decreases |finishedOk| + |finishedNack|
      {
        if nxt in finishedOk {
          finishedOk := finishedOk - {nxt};
          ackRef := nxt;
        } else {
          finishedNack := finishedNack - {nxt};
        }
        frontier := nxt;
        nxt := nxt + 1;
      }
    }

    method Settle(tag: nat, ok: bool)
      requires tag > 0 && 0 !in finishedOk && 0 !in finishedNack
      modifies this
      ensures State() == Settled(cfg, old(State()), tag, ok)
    {
      if ok {
        finishedOk := finishedOk + {tag};
      } else {
        finishedNack := finishedNack + {tag};
      }
      AdvanceFrontier();
      Tally(ok);
    }

    /** The second half of `settle`. */
    method Tally(ok: bool)
      modifies this
      ensures State() == Tallied(cfg, old(State()), ok)
    {
      settled := settled + 1;
      if ok {
        completed := completed + 1;
      }
      if ackRef - acked >= cfg.ackBatch {
        ackEvent := true;
      }
      if cfg.count.Some? && settled >= cfg.count.value && !done {
        done := true;
      }
    }

    /** Returns whether a handler was started and must still report back. */
    method EnterCallback(tag: nat) returns (handling: bool)
      requires tag > 0 && 0 !in finishedOk && 0 !in finishedNack
      modifies this
      ensures State() == Entered(cfg, old(State()), tag)
      ensures handling <==> Accepts(cfg, old(State())) && cfg.hasHandler
    {
      if firstTag == 0 {
        firstTag := tag;
      }
      if cfg.count.Some? && reserved >= cfg.count.value {
        extraTag := if extraTag > tag then extraTag else tag;
        return false;
      }
      reserved := reserved + 1;
      if cfg.hasHandler {
        return true;
      }
      Settle(tag, true);
      return false;
    }

    /** A handler raised: the poison message is nacked first and settled once that is sent. */
    method HandlerRaised(tag: nat) returns (frame: Option<Frame>)
      ensures frame == RaisedFrame(State(), tag)
    {
      frame := if closing then None else Some(NackOne(tag));
    }

    /**
     * A callback from its handler's end to its next suspension point or its own end: a success
     * is settled at once, a failure changes nothing yet.
     */
    method HandlerFinished(tag: nat, raised: bool) returns (frame: Option<Frame>)
      requires tag > 0 && 0 !in finishedOk && 0 !in finishedNack
      modifies this
      ensures State() == if raised then old(State()) else Settled(cfg, old(State()), tag, true)
      ensures frame.Some? <==> raised && !old(closing)
      ensures frame.Some? ==> frame.value == NackOne(tag)
    {
      frame := None;
      if raised {
        frame := HandlerRaised(tag);
      } else {
        Settle(tag, true);
      }
    }

    /** One pass of the acker's loop, after its event fired or its wait timed out. */
    method AckerWake() returns (frame: Option<Frame>)
      modifies this
      ensures State() == AfterDueAck(old(State())).(ackEvent := false)
      ensures frame == DueAck(old(State()))
    {
      ackEvent := false;
      frame := None;
      if ackRef > acked {
        acked := ackRef;
        frame := Some(AckUpTo(ackRef));
      }
    }

    method BeginExit()
      modifies this
      ensures State() == old(State()).(closing := true)
    {
      closing := true;
    }

    method FinalAck() returns (frame: Option<Frame>)
      modifies this
      ensures State() == AfterDueAck(old(State()))
      ensures frame == DueAck(old(State()))
    {
      frame := None;
      if ackRef > acked {
        acked := ackRef;
        frame := Some(AckUpTo(ackRef));
      }
    }

    method FinalNack() returns (frame: Option<Frame>)
      ensures frame == SweepFrame(State())
    {
      frame := if extraTag != 0 then Some(NackUpTo(extraTag)) else None;
    }
  }
}

/**
 * The TypeScript client's reconnect epoch: which acks may be sent after a reconnect.
 *
 * One channel serves any number of consumers, each with its own prefetch window; all of them
 * share one epoch and the channel's delivery tags. The channel wrapper installs a new channel,
 * runs the setup functions in the same turn, then re-establishes every consumer it holds, then
 * emits 'connect'. A broker-side cancel takes one consumer away and the wrapper re-consumes it
 * on the same channel. `close()` followed by `connect()` replaces the wrapper. Delivery tags
 * belong to one incarnation of the channel. The protocol is written for three places the epoch
 * could be bumped: in a setup function, as the client does; on the 'connect' event; or in a
 * setup function and on every re-consume.
 */
module EpochGuard {
  import opened Options

  datatype BumpAt = InSetup | OnConnectEvent | AlsoOnReconsume

  datatype Stage = Down | Prepared | Consuming | Connected

  /** A consumer at the broker: the handle it serves and which basic.consume made it. */
  datatype Consumer = Consumer(handle: nat, generation: nat)

  datatype Delivery = Delivery(wrapper: nat, incarnation: nat, consumer: Consumer, tag: nat, epoch: nat)

  /**
   * `wanted` holds the handles the wrapper keeps alive with their prefetch, where 0 sets no
   * limit. `consumers` are the ones the broker knows on the channel, with their windows, and
   * `outstanding` the tags it awaits on the current incarnation, with the consumer they went to.
   */
  datatype State = State(
    epoch: nat, wrapper: nat, incarnation: nat, stage: Stage,
    wanted: map<nat, nat>, generation: nat, consumers: map<Consumer, nat>,
    nextTag: nat, outstanding: map<nat, Consumer>, running: set<Delivery>)

  datatype Step =
    | Drop
    | Replace
    | Open
    | StartConsumers
    | EmitConnect
    | Consume(handle: nat, window: nat)
    | Cancel(handle: nat)
    | BrokerCancels(c: Consumer)
    | Reconsume(handle: nat)
    | Deliver(c: Consumer)
    | HandlerSettles(d: Delivery)

  const INITIAL := State(0, 0, 0, Down, map[], 0, map[], 1, map[], {})

  predicate Flowing(s: State) {
    s.stage.Consuming? || s.stage.Connected?
  }

  /** The unacked tags the broker counts against one consumer's window. */
  function Unacked(s: State, c: Consumer): set<nat> {
    set t | t in s.outstanding && s.outstanding[t] == c
  }

  predicate HasRoom(s: State, c: Consumer) {
    c in s.consumers && (s.consumers[c] == 0 || |Unacked(s, c)| < s.consumers[c])
  }

  predicate Enabled(s: State, step: Step) {
    match step
    case Drop => true
    case Replace => true
    case Open => s.stage.Down?
    case StartConsumers => s.stage.Prepared?
    case EmitConnect => s.stage.Consuming?
    case Consume(h, _) => h !in s.wanted
    case Cancel(h) => h in s.wanted
    case BrokerCancels(c) => Flowing(s) && c in s.consumers
    case Reconsume(h) => Flowing(s) && h in s.wanted && forall c | c in s.consumers :: c.handle != h
    case Deliver(c) => Flowing(s) && HasRoom(s, c)
    case HandlerSettles(d) => d in s.running
  }

  /** `settleIfSameEpoch`, and the wrapper's own rule: no channel, no frame. */
  function Settles(s: State, d: Delivery): Option<nat> {
    if d.epoch == s.epoch && d.wrapper == s.wrapper && !s.stage.Down? then Some(d.tag) else None
  }

  /** basic.consume for one handle. */
  function Consumed(s: State, h: nat, window: nat): State {
    s.(consumers := s.consumers[Consumer(h, s.generation) := window], generation := s.generation + 1)
  }

  /** basic.consume for every handle the wrapper holds. */
  function Restored(wanted: map<nat, nat>, generation: nat): (r: map<Consumer, nat>)
    ensures forall c :: c in r <==> c.generation == generation && c.handle in wanted
    ensures forall c | c in r :: r[c] == wanted[c.handle]
  {
    map h | h in wanted :: Consumer(h, generation) := wanted[h]
  }

  function Next(bump: BumpAt, s: State, step: Step): State {
    match step
    case Drop => s.(stage := Down, outstanding := map[], consumers := map[])
    case Replace => s.(stage := Down, outstanding := map[], consumers := map[], wanted := map[], wrapper := s.wrapper + 1)
    case Open =>
      s.(stage := Prepared, incarnation := s.incarnation + 1, nextTag := 1, outstanding := map[], consumers := map[],
         epoch := if bump.OnConnectEvent? then s.epoch else s.epoch + 1)
    case StartConsumers =>
      s.(stage := Consuming, consumers := Restored(s.wanted, s.generation), generation := s.generation + 1)
    case EmitConnect => s.(stage := Connected, epoch := if bump.OnConnectEvent? then s.epoch + 1 else s.epoch)
    case Consume(h, window) =>
      var t := s.(wanted := s.wanted[h := window]);
      if Flowing(s) then Consumed(t, h, window) else t
    case Cancel(h) =>
      s.(wanted := s.wanted - {h}, consumers := map c | c in s.consumers && c.handle != h :: s.consumers[c])
    case BrokerCancels(c) => s.(consumers := s.consumers - {c})
    case Reconsume(h) =>
      Consumed(s.(epoch := if bump.AlsoOnReconsume? then s.epoch + 1 else s.epoch), h,
               if h in s.wanted then s.wanted[h] else 0)
    case Deliver(c) =>
      s.(nextTag := s.nextTag + 1, outstanding := s.outstanding[s.nextTag := c],
         running := s.running + {Delivery(s.wrapper, s.incarnation, c, s.nextTag, s.epoch)})
    case HandlerSettles(d) =>
      s.(running := s.running - {d},
         outstanding := if Settles(s, d).Some? then s.outstanding - {d.tag} else s.outstanding)
  }

  ghost predicate IsRun(bump: BumpAt, trace: seq<State>) {
    && |trace| > 0 && trace[0] == INITIAL
    && forall i | 0 < i < |trace| :: Follows(bump, trace[i - 1], trace[i])
  }

  ghost predicate Follows(bump: BumpAt, s: State, t: State) {
    exists step :: Enabled(s, step) && t == Next(bump, s, step)
  }

  ghost predicate Reachable(bump: BumpAt, s: State) {
    exists trace :: IsRun(bump, trace) && trace[|trace| - 1] == s
  }

  // ---- the invariant of the client's choice

  /** A running handler of the current incarnation, started for `c`, will settle the tag. */
  ghost predicate InHand(s: State, t: nat, c: Consumer) {
    exists d :: d in s.running && d.incarnation == s.incarnation && d.tag == t && d.consumer == c
  }

  ghost predicate Stamped(s: State) {
    && s.epoch == s.incarnation
    && (forall d | d in s.running :: d.epoch == d.incarnation <= s.incarnation && d.consumer.generation < s.generation)
    && (forall d | d in s.running && d.incarnation == s.incarnation :: d.tag < s.nextTag)
    && (forall d, e | d in s.running && e in s.running && d.incarnation == e.incarnation && d.tag == e.tag :: d == e)
  }

  /** Each consumer serves a handle the wrapper holds, alone and with that handle's window. */
  ghost predicate ServedBy(consumers: map<Consumer, nat>, wanted: map<nat, nat>, generation: nat) {
    && (forall c | c in consumers ::
          c.generation < generation && c.handle in wanted && consumers[c] == wanted[c.handle])
    && (forall c, e | c in consumers && e in consumers && c.handle == e.handle :: c == e)
  }

  ghost predicate Served(s: State) {
    ServedBy(s.consumers, s.wanted, s.generation) && (!Flowing(s) ==> s.consumers == map[])
  }

  ghost predicate Owed(s: State) {
    if s.stage.Down? then s.outstanding == map[]
    else
      && (forall d | d in s.running && d.incarnation == s.incarnation ::
            d.wrapper == s.wrapper && d.tag in s.outstanding && s.outstanding[d.tag] == d.consumer)
      && (forall t | t in s.outstanding :: InHand(s, t, s.outstanding[t]))
  }

  ghost predicate Inv(s: State) {
    Stamped(s) && Served(s) && Owed(s)
  }

  lemma DeliverKeepsStamped(s: State, c: Consumer)
    requires Stamped(s) && Served(s) && Enabled(s, Deliver(c))
    ensures Stamped(Next(InSetup, s, Deliver(c)))
  {
    var t := Next(InSetup, s, Deliver(c));
    var added := Delivery(s.wrapper, s.incarnation, c, s.nextTag, s.epoch);
    forall d, e | d in t.running && e in t.running && d.incarnation == e.incarnation && d.tag == e.tag
      ensures d == e
    {
      assert (d in s.running || d == added) && (e in s.running || e == added);
    }
  }

  lemma DeliverKeepsOwed(s: State, c: Consumer)
    requires Stamped(s) && Owed(s) && Enabled(s, Deliver(c))
    ensures Owed(Next(InSetup, s, Deliver(c)))
  {
    var t := Next(InSetup, s, Deliver(c));
    var added := Delivery(s.wrapper, s.incarnation, c, s.nextTag, s.epoch);
    assert added in t.running;
    forall x | x in t.outstanding
      ensures InHand(t, x, t.outstanding[x])
    {
      if x != s.nextTag {
        assert InHand(s, x, s.outstanding[x]);
        var d :| d in s.running && d.incarnation == s.incarnation && d.tag == x && d.consumer == s.outstanding[x];
        assert d in t.running;
      }
    }
  }

  lemma SettleKeepsInv(s: State, d: Delivery)
    requires Inv(s) && d in s.running
    ensures Inv(Next(InSetup, s, HandlerSettles(d)))
  {
    var t := Next(InSetup, s, HandlerSettles(d));
    if !s.stage.Down? {
      forall x | x in t.outstanding
        ensures InHand(t, x, t.outstanding[x])
      {
        assert InHand(s, x, s.outstanding[x]);
        var e :| e in s.running && e.incarnation == s.incarnation && e.tag == x && e.consumer == s.outstanding[x];
        assert e in t.running;
      }
    }
  }

  lemma OneMoreIsServed(consumers: map<Consumer, nat>, wanted: map<nat, nat>, generation: nat, h: nat)
    requires ServedBy(consumers, wanted, generation) && h in wanted && forall c | c in consumers :: c.handle != h
    ensures ServedBy(consumers[Consumer(h, generation) := wanted[h]], wanted, generation + 1)
  {
  }

  lemma FewerAreServed(consumers: map<Consumer, nat>, wanted: map<nat, nat>, generation: nat, h: nat)
    requires ServedBy(consumers, wanted, generation)
    ensures ServedBy(map c | c in consumers && c.handle != h :: consumers[c], wanted - {h}, generation)
  {
  }

  lemma NewHandleIsServed(consumers: map<Consumer, nat>, wanted: map<nat, nat>, generation: nat, h: nat, window: nat)
    requires ServedBy(consumers, wanted, generation) && h !in wanted
    ensures ServedBy(consumers, wanted[h := window], generation) && forall c | c in consumers :: c.handle != h
  {
  }

  lemma ChannelStepKeepsServed(s: State, step: Step)
    requires Served(s) && Enabled(s, step) && !step.Deliver? && !step.HandlerSettles?
    ensures Served(Next(InSetup, s, step))
  {
    match step
    case Consume(h, window) =>
      NewHandleIsServed(s.consumers, s.wanted, s.generation, h, window);
      if Flowing(s) {
        OneMoreIsServed(s.consumers, s.wanted[h := window], s.generation, h);
      }
    case Cancel(h) => FewerAreServed(s.consumers, s.wanted, s.generation, h);
    case Reconsume(h) => OneMoreIsServed(s.consumers, s.wanted, s.generation, h);
    case _ =>
  }

  lemma ChannelStepKeepsStamped(s: State, step: Step)
    requires Stamped(s) && Enabled(s, step) && !step.Deliver? && !step.HandlerSettles?
    ensures Stamped(Next(InSetup, s, step))
  {
    assert Next(InSetup, s, step).running == s.running;
  }

  /** On the same channel no other step touches a tag or a handler. */
  lemma SameTagsKeepOwed(s: State, t: State)
    requires Owed(s) && !s.stage.Down? && !t.stage.Down?
    requires t.running == s.running && t.outstanding == s.outstanding
    requires t.incarnation == s.incarnation && t.wrapper == s.wrapper
    ensures Owed(t)
  {
    assert forall x, c :: InHand(s, x, c) ==> InHand(t, x, c);
  }

  lemma ChannelStepKeepsOwed(s: State, step: Step)
    requires Stamped(s) && Owed(s) && Enabled(s, step) && !step.Deliver? && !step.HandlerSettles?
    ensures Owed(Next(InSetup, s, step))
  {
    var t := Next(InSetup, s, step);
    if !step.Open? && !t.stage.Down? {
      SameTagsKeepOwed(s, t);
    }
  }

  lemma StepKeepsInv(s: State, step: Step)
    requires Inv(s) && Enabled(s, step)
    ensures Inv(Next(InSetup, s, step))
  {
    match step
    case Deliver(c) =>
      DeliverKeepsStamped(s, c);
      DeliverKeepsOwed(s, c);
    case HandlerSettles(d) => SettleKeepsInv(s, d);
    case _ =>
      ChannelStepKeepsStamped(s, step);
      ChannelStepKeepsServed(s, step);
      ChannelStepKeepsOwed(s, step);
  }

  lemma {:induction false} RunKeepsInv(trace: seq<State>, n: nat)
    requires IsRun(InSetup, trace) && n < |trace|
    ensures Inv(trace[n])
  {
    if n > 0 {
      RunKeepsInv(trace, n - 1);
      assert Follows(InSetup, trace[n - 1], trace[n]);
      var step :| Enabled(trace[n - 1], step) && trace[n] == Next(InSetup, trace[n - 1], step);
      StepKeepsInv(trace[n - 1], step);
    }
  }

  lemma ReachableInv(s: State)
    requires Reachable(InSetup, s)
    ensures Inv(s)
  {
    var trace :| IsRun(InSetup, trace) && trace[|trace| - 1] == s;
    RunKeepsInv(trace, |trace| - 1);
  }

  // ---- the objects

  /** The wrapper around the consume channel: without a channel it sends nothing. */
  class ChannelWrapper {
    const number: nat
    var up: bool

    constructor (number: nat)
      ensures this.number == number && !up
    {
      this.number := number;
      up := false;
    }

    method Send(tag: nat) returns (frame: Option<nat>)
      ensures frame == if up then Some(tag) else None
    {
      frame := if up then Some(tag) else None;
    }
  }

  /** The part of the client that the guard consists of. */
  class RabbitClient {
    var conEpoch: nat

    constructor ()
      ensures conEpoch == INITIAL.epoch
    {
      conEpoch := 0;
    }

    /** The setup function registered on the consume channel. */
    method EpochSetup()
      modifies this
      ensures conEpoch == old(conEpoch) + 1
    {
      conEpoch := conEpoch + 1;
    }

    /**
     * Called when the handler of `d` settles, with the wrapper and the epoch captured at its
     * delivery. In a state the client can be in, a frame is sent exactly when the delivery's
     * own channel still lives, and it names a tag which that channel awaits.
     */
    method SettleIfSameEpoch(channel: ChannelWrapper, epoch: nat, d: Delivery, ghost s: State) returns (frame: Option<nat>)
      requires Inv(s) && d in s.running && s.epoch == conEpoch
      requires epoch == d.epoch && channel.number == d.wrapper
      requires channel.up <==> channel.number == s.wrapper && !s.stage.Down?
      ensures frame == Settles(s, d)
      ensures frame.Some? <==> !s.stage.Down? && d.incarnation == s.incarnation
      ensures frame.Some? ==> frame == Some(d.tag) && d.tag in s.outstanding
    {
      frame := None;
      if epoch == conEpoch {
        frame := channel.Send(d.tag);
      }
    }
  }

  // ---- what every run promises

  /**
   * Reconnect safety: a captured epoch is current exactly for deliveries of the current
   * incarnation, and a settle that is sent names a tag its own incarnation still awaits, of
   * the consumer it was delivered to.
   */
  lemma SettleReachesOwnChannel(s: State, d: Delivery)
    requires Reachable(InSetup, s) && d in s.running
    ensures d.epoch == s.epoch <==> d.incarnation == s.incarnation
    ensures Settles(s, d).Some? ==>
              && d.incarnation == s.incarnation && Settles(s, d) == Some(d.tag)
              && d.tag in s.outstanding && s.outstanding[d.tag] == d.consumer
    ensures !s.stage.Down? && d.incarnation == s.incarnation ==> Settles(s, d).Some?
  {
    ReachableInv(s);
  }

  /**
   * No wedge: each consumer's window holds exactly the tags of its own running handlers on
   * this channel, so a consumer without any can be served, whatever the other consumers do.
   */
  lemma WindowIsRunningHandlers(s: State, c: Consumer)
    requires Reachable(InSetup, s) && Flowing(s)
    ensures forall t: nat :: t in Unacked(s, c) <==> InHand(s, t, c)
    ensures c in s.consumers && (forall d | d in s.running :: d.incarnation != s.incarnation || d.consumer != c) ==>
              Enabled(s, Deliver(c))
  {
    ReachableInv(s);
    forall t: nat
      ensures t in Unacked(s, c) <==> InHand(s, t, c)
    {
      assert t in s.outstanding ==> InHand(s, t, s.outstanding[t]);
    }
    if forall d | d in s.running :: d.incarnation != s.incarnation || d.consumer != c {
      assert forall t: nat :: !InHand(s, t, c);
      assert Unacked(s, c) == {};
    }
  }

  /**
   * A broker cancel and a re-consume strand nothing: what the old consumer delivered is still
   * owed and its handlers still settle it, and the new consumer starts with an empty window.
   */
  lemma ReconsumeStrandsNothing(s: State, c: Consumer, d: Delivery)
    requires Reachable(InSetup, s) && Enabled(s, BrokerCancels(c))
    requires d in s.running && d.incarnation == s.incarnation && d.consumer == c
    ensures
      var t := Next(InSetup, Next(InSetup, s, BrokerCancels(c)), Reconsume(c.handle));
      && Enabled(Next(InSetup, s, BrokerCancels(c)), Reconsume(c.handle)) && Reachable(InSetup, t)
      && Settles(t, d) == Some(d.tag) && d.tag in t.outstanding
      && Enabled(t, Deliver(Consumer(c.handle, s.generation)))
  {
    ReachableInv(s);
    var u := Follow(InSetup, s, BrokerCancels(c));
    var t := Follow(InSetup, u, Reconsume(c.handle));
    var renewed := Consumer(c.handle, s.generation);
    assert forall e | e in t.running :: e.consumer != renewed;
    WindowIsRunningHandlers(t, renewed);
  }

  /** A handle stays with the wrapper until its cancel or the wrapper's end, whatever the channel does. */
  lemma HandlesOutliveChannels(bump: BumpAt, s: State, step: Step, h: nat)
    requires h in s.wanted && Enabled(s, step) && step != Cancel(h) && !step.Replace?
    ensures h in Next(bump, s, step).wanted && Next(bump, s, step).wanted[h] == s.wanted[h]
  {
  }

  /** After a reconnect every handle is consumed again, with its own window, and can be served. */
  lemma ReconnectRestoresConsumers(s: State, h: nat)
    requires Reachable(InSetup, s) && s.stage.Down? && h in s.wanted
    ensures
      var t := Next(InSetup, Next(InSetup, s, Open), StartConsumers);
      && Reachable(InSetup, t) && Consumer(h, s.generation) in t.consumers
      && t.consumers[Consumer(h, s.generation)] == s.wanted[h] && Enabled(t, Deliver(Consumer(h, s.generation)))
  {
    ReachableInv(s);
    var u := Follow(InSetup, s, Open);
    var t := Follow(InSetup, u, StartConsumers);
    WindowIsRunningHandlers(t, Consumer(h, s.generation));
  }

  // ---- the other places to bump wedge

  lemma Follow(bump: BumpAt, s: State, step: Step) returns (t: State)
    requires Reachable(bump, s) && Enabled(s, step)
    ensures t == Next(bump, s, step) && Reachable(bump, t)
  {
    t := Next(bump, s, step);
    var trace :| IsRun(bump, trace) && trace[|trace| - 1] == s;
    var longer := trace + [t];
    assert Follows(bump, s, t);
    assert forall i | 0 < i < |longer| :: Follows(bump, longer[i - 1], longer[i]);
    assert IsRun(bump, longer);
  }

  /** A connected consumer whose own full window no handler will ever empty. */
  predicate Wedged(s: State, c: Consumer) {
    s.stage.Connected? && c in s.consumers && !HasRoom(s, c) && forall d | d in s.running :: d.consumer != c
  }

  lemma Start(bump: BumpAt) returns (s: State)
    ensures Reachable(bump, s) && s == INITIAL
  {
    s := INITIAL;
    assert IsRun(bump, [s]);
  }

  /** For every window size the event-based bump has a run that wedges. */
  lemma EventBumpWedges(window: nat) returns (s: State, c: Consumer)
    requires window > 0
    ensures Reachable(OnConnectEvent, s) && Wedged(s, c) && s.consumers == map[c := window]
  {
    s := OneRestored(window);
    c := Consumer(0, 0);
    assert Unacked(s, c) == {};
    s := FillWindow(OnConnectEvent, s, c, window);
    s := Follow(OnConnectEvent, s, EmitConnect);
    s := DrainStale(OnConnectEvent, s);
  }

  lemma OneRestored(window: nat) returns (s: State)
    ensures Reachable(OnConnectEvent, s) && s.stage.Consuming? && s.running == {} && s.outstanding == map[]
    ensures s.consumers == map[Consumer(0, 0) := window]
  {
    s := Start(OnConnectEvent);
    s := Follow(OnConnectEvent, s, Consume(0, window));
    s := Follow(OnConnectEvent, s, Open);
    s := Follow(OnConnectEvent, s, StartConsumers);
    assert s.consumers == Restored(map[0 := window], 0);
  }

  /**
   * A bump on re-consume wedges a bystander: one consumer is cancelled by the broker and
   * re-consumed, and another's full window, whose tags are still valid, is never acked.
   */
  lemma ReconsumeBumpWedges(window: nat, other: nat) returns (s: State, c: Consumer)
    requires window > 0
    ensures Reachable(AlsoOnReconsume, s) && Wedged(s, c) && c.handle == 1
    ensures s.consumers == map[c := window, Consumer(0, 3) := other]
  {
    s := TwoConsumers(window, other);
    c := Consumer(1, 2);
    assert Unacked(s, c) == {};
    s := FillWindow(AlsoOnReconsume, s, c, window);
    s := Follow(AlsoOnReconsume, s, BrokerCancels(Consumer(0, 1)));
    s := Follow(AlsoOnReconsume, s, Reconsume(0));
    s := DrainStale(AlsoOnReconsume, s);
  }

  lemma ConnectedWithNone(bump: BumpAt) returns (s: State)
    ensures Reachable(bump, s) && s.stage.Connected? && s.running == {} && s.outstanding == map[]
    ensures s.wanted == map[] && s.consumers == map[] && s.generation == 1
  {
    s := Start(bump);
    s := Follow(bump, s, Open);
    s := Follow(bump, s, StartConsumers);
    s := Follow(bump, s, EmitConnect);
  }

  lemma OneMoreConsumer(bump: BumpAt, s: State, h: nat, window: nat) returns (t: State)
    requires Reachable(bump, s) && s.stage.Connected? && h !in s.wanted
    ensures Reachable(bump, t)
    ensures t == s.(wanted := s.wanted[h := window], generation := s.generation + 1,
                    consumers := s.consumers[Consumer(h, s.generation) := window])
  {
    t := Follow(bump, s, Consume(h, window));
  }

  lemma TwoConsumers(window: nat, other: nat) returns (s: State)
    ensures Reachable(AlsoOnReconsume, s) && s.stage.Connected? && s.running == {} && s.outstanding == map[]
    ensures s.wanted == map[0 := other, 1 := window] && s.generation == 3
    ensures s.consumers == map[Consumer(0, 1) := other, Consumer(1, 2) := window]
  {
    s := ConnectedWithNone(AlsoOnReconsume);
    s := OneMoreConsumer(AlsoOnReconsume, s, 0, other);
    s := OneMoreConsumer(AlsoOnReconsume, s, 1, window);
  }

  lemma FillWindow(bump: BumpAt, s: State, c: Consumer, n: nat) returns (t: State)
    requires Reachable(bump, s) && Flowing(s) && c in s.consumers && |Unacked(s, c)| + n <= s.consumers[c]
    requires forall x | x in s.outstanding :: x < s.nextTag
    requires forall d | d in s.running :: d.epoch == s.epoch
    ensures Reachable(bump, t) && t == s.(nextTag := t.nextTag, outstanding := t.outstanding, running := t.running)
    ensures |Unacked(t, c)| == |Unacked(s, c)| + n
    ensures forall d | d in t.running :: d.epoch == t.epoch
    decreases n
  {
    t := s;
    if n > 0 {
      var u := Follow(bump, s, Deliver(c));
      assert Unacked(u, c) == Unacked(s, c) + {s.nextTag};
      t := FillWindow(bump, u, c, n - 1);
    }
  }

  lemma DrainStale(bump: BumpAt, s: State) returns (t: State)
    requires Reachable(bump, s)
    requires forall d | d in s.running :: d.epoch != s.epoch
    ensures Reachable(bump, t) && t == s.(running := {})
    decreases |s.running|
  {
    t := s;
    if s.running != {} {
      var d :| d in s.running;
      var u := Follow(bump, s, HandlerSettles(d));
      t := DrainStale(bump, u);
    }
  }

  /** The client's bump never wedges any consumer. */
  lemma SetupBumpNeverWedges(s: State, c: Consumer)
    requires Reachable(InSetup, s)
    ensures !Wedged(s, c)
  {
    if s.stage.Connected? {
      WindowIsRunningHandlers(s, c);
    }
  }
}

/**
 * Every run of the frontier consumer against one AMQP channel.
 *
 * The channel keeps the tags it has delivered and not yet seen settled (basic.ack and
 * basic.nack with `multiple`, section 1.8.3.13 of AMQP 0-9-1). Tags are consecutive and at
 * least 1, callbacks enter in tag order, and the channel owes nothing when the run starts.
 * A step is one stretch of client code between suspension points, or a broker delivery; any
 * order of enabled steps is a run, so handlers finish in every order and timeouts fall
 * anywhere.
 */
module AckProtocol {
  import opened Options
  import opened AckFrontier

  datatype Phase = Consuming | Closing | FinalAcked | Swept | Returned

  datatype Reason = NotLeaving | Quota | Dry | Cancelled

  /** How the broker saw one delivery settled. */
  datatype Fate = Acked | Rejected | Requeued

  /** A tag that holds a quota slot: handler at work, nack being sent, or how it ended. */
  datatype Slot = Running | Nacking | Succeeded | Failed | Abandoned

  datatype Sys = Sys(
    l: Local, before: nat, phase: Phase, reason: Reason, result: Option<nat>,
    base: nat, delivered: nat, entered: nat,
    slots: map<nat, Slot>,
    outstanding: set<nat>, fate: map<nat, Fate>, acks: seq<nat>,
    sweptTo: nat, enteredAtSweep: nat)

  datatype Step =
    | Deliver
    | Enter
    | Return(tag: nat)
    | Raise(tag: nat)
    | Die(tag: nat)
    | NackSent(tag: nat)
    | AckerWakes
    | WindowRestarts
    | Leave(why: Reason)
    | SendFinalAck
    | SendFinalNack
    | ReturnResult

  function Init(base: nat): Sys {
    Sys(INITIAL, 0, Consuming, NotLeaving, None, base, base, base, map[], {}, map[], [], 0, 0)
  }

  // ---- the broker's side of a frame

  function Covered(outstanding: set<nat>, f: Frame): set<nat> {
    match f
    case AckUpTo(t) => set x | x in outstanding && x <= t
    case NackOne(t) => set x | x in outstanding && x == t
    case NackUpTo(t) => set x | x in outstanding && x <= t
  }

  function FateBy(f: Frame): Fate {
    match f
    case AckUpTo(_) => Acked
    case NackOne(_) => Rejected
    case NackUpTo(_) => Requeued
  }

  function Emit(s: Sys, frame: Option<Frame>): Sys {
    match frame
    case None => s
    case Some(f) =>
      var gone := Covered(s.outstanding, f);
      s.(outstanding := s.outstanding - gone,
         fate := s.fate + (map x | x in gone :: FateBy(f)),
         acks := if f.AckUpTo? then s.acks + [f.tag] else s.acks)
  }

  // ---- the step relation

  predicate Holds(s: Sys, tag: nat, slot: Slot) {
    tag in s.slots && s.slots[tag] == slot
  }

  predicate Enabled(cfg: Config, s: Sys, step: Step) {
    match step
    case Deliver => s.phase in {Consuming, Closing}
    case Enter => s.entered < s.delivered
    case Return(tag) => Holds(s, tag, Running)
    case Raise(tag) => Holds(s, tag, Running)
    case Die(tag) => Holds(s, tag, Running)
    case NackSent(tag) => Holds(s, tag, Nacking)
    case AckerWakes => s.phase == Consuming
    case WindowRestarts => s.phase == Consuming && cfg.count.Some? && s.l.settled != s.before
    case Leave(why) =>
      && s.phase == Consuming
      && match why {
           case NotLeaving => false
           case Quota => cfg.count.Some? && s.l.done
           case Dry => cfg.count.Some? && !s.l.done && s.l.settled == s.before
           case Cancelled => true
         }
    case SendFinalAck => s.phase == Closing
    case SendFinalNack => s.phase == FinalAcked
    case ReturnResult => s.phase == Swept
  }

  /** The frame a step sends. */
  function Sent(cfg: Config, s: Sys, step: Step): Option<Frame> {
    match step
    case Raise(tag) => RaisedFrame(s.l, tag)
    case AckerWakes => DueAck(s.l)
    case SendFinalAck => DueAck(s.l)
    case SendFinalNack => SweepFrame(s.l)
    case _ => None
  }

  function Conclude(cfg: Config, s: Sys, tag: nat, ok: bool): Sys {
    s.(l := Settled(cfg, s.l, tag, ok), slots := s.slots[tag := if ok then Succeeded else Failed])
  }

  function Admit(s: Sys): Sys {
    s.(l := Reserved(s.l, s.entered + 1), entered := s.entered + 1, slots := s.slots[s.entered + 1 := Running])
  }

  /** The next callback enters; without a handler it also ends at once. */
  function EnterNext(cfg: Config, s: Sys): Sys {
    var tag := s.entered + 1;
    s.(l := Entered(cfg, s.l, tag), entered := tag,
       slots := if !Accepts(cfg, s.l) then s.slots
                else s.slots[tag := if cfg.hasHandler then Running else Succeeded])
  }

  function Do(cfg: Config, s: Sys, step: Step): Sys {
    var t := Emit(s, Sent(cfg, s, step));
    match step
    case Deliver => t.(delivered := t.delivered + 1, outstanding := t.outstanding + {t.delivered + 1})
    case Enter => EnterNext(cfg, t)
    case Return(tag) => Conclude(cfg, t, tag, true)
    case Raise(tag) => t.(slots := t.slots[tag := if s.l.closing then Abandoned else Nacking])
    case Die(tag) => t.(slots := t.slots[tag := Abandoned])
    case NackSent(tag) => Conclude(cfg, t, tag, false)
    case AckerWakes => t.(l := AfterDueAck(t.l).(ackEvent := false))
    case WindowRestarts => t.(before := t.l.settled)
    case Leave(why) => t.(l := t.l.(closing := true), phase := Closing, reason := why)
    case SendFinalAck => t.(l := AfterDueAck(t.l), phase := FinalAcked)
    case SendFinalNack => t.(phase := Swept, sweptTo := t.l.extraTag, enteredAtSweep := t.entered)
    case ReturnResult => t.(phase := Returned, result := if t.reason == Cancelled then None else Some(t.l.completed))
  }

  ghost predicate IsRun(cfg: Config, base: nat, steps: seq<Step>)
    decreases |steps|
  {
    steps == [] ||
    (var last := |steps| - 1;
     IsRun(cfg, base, steps[..last]) && Enabled(cfg, After(cfg, base, steps[..last]), steps[last]))
  }

  ghost function After(cfg: Config, base: nat, steps: seq<Step>): Sys
    decreases |steps|
  {
    if steps == [] then Init(base)
    else var last := |steps| - 1; Do(cfg, After(cfg, base, steps[..last]), steps[last])
  }

  ghost predicate Reachable(cfg: Config, base: nat, s: Sys) {
    exists steps :: IsRun(cfg, base, steps) && s == After(cfg, base, steps)
  }

  // ---- the invariant

  predicate Between(lo: nat, t: nat, hi: nat) {
    lo < t <= hi
  }

  function Interval(lo: nat, hi: nat): set<nat> {
    set t: nat | t <= hi && Between(lo, t, hi)
  }

  /** The end of the settled run: the frontier, or the tag before the first one. */
  function Reach(f: Front, base: nat): nat {
    if f.frontier == 0 then base else f.frontier
  }

  predicate Good(slots: map<nat, Slot>, t: nat) {
    t in slots && slots[t] == Succeeded
  }

  predicate Bad(slots: map<nat, Slot>, t: nat) {
    t in slots && slots[t] == Failed
  }

  predicate Over(slots: map<nat, Slot>, t: nat) {
    Good(slots, t) || Bad(slots, t)
  }

  function Having(slots: map<nat, Slot>, slot: Slot): set<nat> {
    set t | t in slots && slots[t] == slot
  }

  function Ended(slots: map<nat, Slot>): set<nat> {
    set t | t in slots && Over(slots, t)
  }

  /** `f` ends the longest run of settled tags that starts right after `base`. */
  ghost predicate EndsSettledRun(slots: map<nat, Slot>, base: nat, f: nat) {
    base <= f && (forall t: nat | base < t <= f :: Over(slots, t)) && !Over(slots, f + 1)
  }

  /** `r` is the largest successful tag up to `f`, or 0 when there is none. */
  ghost predicate LargestGood(slots: map<nat, Slot>, f: nat, r: nat) {
    && (r == 0 || (Good(slots, r) && r <= f))
    && (forall t: nat | Good(slots, t) && t <= f :: t <= r)
  }

  ghost predicate Owns(cfg: Config, s: Sys) {
    && s.base + s.l.reserved <= s.entered <= s.delivered
    && (cfg.count.Some? ==> s.l.reserved <= cfg.count.value)
    && (s.entered > s.base + s.l.reserved ==> cfg.Full(s.l.reserved))
    && s.l.extraTag == (if s.entered > s.base + s.l.reserved then s.entered else 0)
    && s.l.front.firstTag == (if s.entered == s.base then 0 else s.base + 1)
    && (forall t: nat :: t in s.slots <==> s.base < t <= s.base + s.l.reserved)
  }

  ghost predicate Tallies(cfg: Config, s: Sys) {
    && s.l.settled == |Ended(s.slots)|
    && s.l.completed == |Having(s.slots, Succeeded)|
    && (s.l.done <==> cfg.Full(s.l.settled))
  }

  /** What `Advance` needs and keeps: the frontier is inside the settled run. */
  ghost predicate Fronted(f: Front, base: nat, slots: map<nat, Slot>) {
    && base <= Reach(f, base)
    && (forall t: nat | base < t <= Reach(f, base) :: Over(slots, t))
    && (forall t: nat :: t in f.finishedOk <==> Good(slots, t) && t > Reach(f, base))
    && (forall t: nat :: t in f.finishedNack <==> Bad(slots, t) && t > Reach(f, base))
    && LargestGood(slots, Reach(f, base), f.ackRef)
  }

  ghost predicate FrontierExact(s: Sys) {
    && Fronted(s.l.front, s.base, s.slots)
    && EndsSettledRun(s.slots, s.base, Reach(s.l.front, s.base))
  }

  predicate Nacked(slots: map<nat, Slot>, t: nat) {
    t in slots && slots[t] in {Nacking, Failed}
  }

  /** Exactly which delivered tags the broker still waits for, and what became of the others. */
  ghost predicate Ledger(s: Sys) {
    && (forall t: nat :: t in s.outstanding <==>
          s.base < t <= s.delivered && t > s.l.acked && t > s.sweptTo && !Nacked(s.slots, t))
    && (forall t: nat :: t in s.fate <==> s.base < t <= s.delivered && t !in s.outstanding)
    && (forall t | t in s.fate ::
          s.fate[t] == if Nacked(s.slots, t) then Rejected else if t <= s.l.acked then Acked else Requeued)
  }

  ghost predicate AcksIncrease(s: Sys) {
    && (s.l.acked == 0 || Good(s.slots, s.l.acked))
    && s.l.acked <= s.l.front.ackRef
    && (if s.acks == [] then s.l.acked == 0 else s.acks[|s.acks| - 1] == s.l.acked)
    && (forall i, j | 0 <= i < j < |s.acks| :: s.acks[i] < s.acks[j])
  }

  ghost predicate Woken(cfg: Config, s: Sys) {
    s.l.closing || (s.l.ackEvent <==> s.l.front.ackRef - s.l.acked >= cfg.ackBatch)
  }

  ghost predicate Phased(cfg: Config, s: Sys) {
    && (s.l.closing <==> s.phase != Consuming)
    && (s.reason == NotLeaving <==> s.phase == Consuming)
    && (s.phase in {Consuming, Closing, FinalAcked} ==> s.sweptTo == 0)
    && (s.reason == Quota ==> cfg.Full(s.l.settled))
    && (s.reason == Quota && s.phase in {FinalAcked, Swept, Returned} ==> s.l.acked == s.l.front.ackRef)
    && (s.phase in {Swept, Returned} ==>
          && s.sweptTo <= s.enteredAtSweep <= s.entered
          && (s.sweptTo == s.enteredAtSweep || s.enteredAtSweep <= s.base + s.l.reserved))
    && (s.phase == Returned && s.reason == Quota ==> s.result == Some(s.l.completed))
  }

  ghost predicate Inv(cfg: Config, s: Sys) {
    && Owns(cfg, s)
    && Tallies(cfg, s)
    && FrontierExact(s)
    && Ledger(s)
    && AcksIncrease(s)
    && Woken(cfg, s)
    && Phased(cfg, s)
  }

  // ---- the frontier loop meets its closed form

  lemma PassOneTag(f: Front, base: nat, slots: map<nat, Slot>, nxt: nat, g: Front)
    requires Fronted(f, base, slots) && nxt == Reach(f, base) + 1
    requires if nxt in f.finishedOk then g == f.(finishedOk := f.finishedOk - {nxt}, ackRef := nxt, frontier := nxt)
             else nxt in f.finishedNack && g == f.(finishedNack := f.finishedNack - {nxt}, frontier := nxt)
    ensures Fronted(g, base, slots) && g.ackRef >= f.ackRef
  {
    forall t: nat | base < t <= Reach(g, base)
      ensures Over(slots, t)
    {
      assert t <= Reach(f, base) ==> Over(slots, t);
    }
  }

  /** Whatever order tags finish in, the loop stops at the end of the settled run. */
  lemma {:induction false} AdvanceReachesRunEnd(f: Front, base: nat, slots: map<nat, Slot>)
    requires f.firstTag == base + 1 && Fronted(f, base, slots)
    ensures Fronted(Advance(f), base, slots)
    ensures EndsSettledRun(slots, base, Reach(Advance(f), base))
    ensures Advance(f).ackRef >= f.ackRef && Advance(f).firstTag == f.firstTag
    decreases |f.finishedOk| + |f.finishedNack|
  {
    var nxt := Reach(f, base) + 1;
    if nxt in f.finishedOk {
      var g := f.(finishedOk := f.finishedOk - {nxt}, ackRef := nxt, frontier := nxt);
      PassOneTag(f, base, slots, nxt, g);
      AdvanceReachesRunEnd(g, base, slots);
    } else if nxt in f.finishedNack {
      var g := f.(finishedNack := f.finishedNack - {nxt}, frontier := nxt);
      PassOneTag(f, base, slots, nxt, g);
      AdvanceReachesRunEnd(g, base, slots);
    }
  }

  /** The closed form names one frontier and one ack reference. */
  lemma RunEndIsUnique(slots: map<nat, Slot>, base: nat, f: nat, g: nat, q: nat, r: nat)
    requires EndsSettledRun(slots, base, f) && EndsSettledRun(slots, base, g)
    requires LargestGood(slots, f, q) && LargestGood(slots, g, r)
    ensures f == g && q == r
  {
  }

  // ---- counting

  lemma {:induction false} IntervalSize(lo: nat, hi: nat)
    requires lo <= hi
    ensures |Interval(lo, hi)| == hi - lo
    decreases hi
  {
    if lo < hi {
      IntervalSize(lo, hi - 1);
      assert Interval(lo, hi) == Interval(lo, hi - 1) + {hi};
    } else {
      assert Interval(lo, hi) == {};
    }
  }

  lemma SubsetSize(a: set<nat>, b: set<nat>)
    requires a <= b
    ensures |a| <= |b|
    ensures |a| == |b| ==> a == b
  {
    assert b == a + (b - a);
    assert |b| == |a| + |b - a|;
    assert |b - a| == 0 ==> b - a == {};
  }

  lemma SettledWithinReserved(cfg: Config, s: Sys)
    requires Owns(cfg, s) && Tallies(cfg, s)
    ensures s.l.completed <= s.l.settled <= s.l.reserved == |s.slots|
    ensures s.l.settled == s.l.reserved ==> s.slots.Keys == Ended(s.slots)
  {
    assert s.slots.Keys == Interval(s.base, s.base + s.l.reserved);
    assert |s.slots| == |s.slots.Keys|;
    IntervalSize(s.base, s.base + s.l.reserved);
    SubsetSize(Ended(s.slots), s.slots.Keys);
    SubsetSize(Having(s.slots, Succeeded), Ended(s.slots));
  }

  /** Once the quota has settled, every slot has: no handler and no nack is left. */
  lemma QuotaMeansAllSettled(cfg: Config, s: Sys)
    requires Owns(cfg, s) && Tallies(cfg, s)
    ensures cfg.Full(s.l.settled) ==>
              && s.l.settled == s.l.reserved == cfg.count.value
              && s.slots.Keys == Ended(s.slots)
  {
    SettledWithinReserved(cfg, s);
  }

  // ---- every step keeps the invariant

  lemma EndingCounts(slots: map<nat, Slot>, tag: nat, ok: bool)
    requires tag in slots && !Over(slots, tag)
    ensures |Ended(slots[tag := if ok then Succeeded else Failed])| == |Ended(slots)| + 1
    ensures |Having(slots[tag := if ok then Succeeded else Failed], Succeeded)|
         == |Having(slots, Succeeded)| + if ok then 1 else 0
  {
    var after := slots[tag := if ok then Succeeded else Failed];
    assert Ended(after) == Ended(slots) + {tag};
    if ok {
      assert Having(after, Succeeded) == Having(slots, Succeeded) + {tag};
    } else {
      assert Having(after, Succeeded) == Having(slots, Succeeded);
    }
  }

  lemma MarkKeepsFronted(f: Front, base: nat, slots: map<nat, Slot>, tag: nat, ok: bool)
    requires Fronted(f, base, slots) && tag > base
    requires tag in slots && !Over(slots, tag)
    ensures Fronted(MarkFinished(f, tag, ok), base, slots[tag := if ok then Succeeded else Failed])
  {
    var after := slots[tag := if ok then Succeeded else Failed];
    assert tag > Reach(f, base);
    assert forall t: nat | t != tag :: Good(after, t) <==> Good(slots, t);
    assert forall t: nat | t != tag :: Bad(after, t) <==> Bad(slots, t);
    var g := MarkFinished(f, tag, ok);
    forall t: nat | base < t <= Reach(f, base)
      ensures Over(after, t)
    {
      assert Over(slots, t);
    }
    assert forall t: nat :: t in g.finishedOk <==> Good(after, t) && t > Reach(f, base);
    assert forall t: nat :: t in g.finishedNack <==> Bad(after, t) && t > Reach(f, base);
    assert LargestGood(after, Reach(f, base), f.ackRef);
  }

  lemma ConcludeFrontier(cfg: Config, s: Sys, tag: nat, ok: bool)
    requires Owns(cfg, s) && FrontierExact(s)
    requires Holds(s, tag, if ok then Running else Nacking)
    ensures Owns(cfg, Conclude(cfg, s, tag, ok)) && FrontierExact(Conclude(cfg, s, tag, ok))
    ensures Conclude(cfg, s, tag, ok).l.front.ackRef >= s.l.front.ackRef
  {
    MarkKeepsFronted(s.l.front, s.base, s.slots, tag, ok);
    AdvanceReachesRunEnd(MarkFinished(s.l.front, tag, ok), s.base, Conclude(cfg, s, tag, ok).slots);
  }

  /** The parts of the invariant that only need the ack reference not to fall. */
  lemma ConcludeRest(cfg: Config, s: Sys, front: Front, tag: nat, ok: bool, t: Sys)
    requires cfg.Valid() && Inv(cfg, s)
    requires Holds(s, tag, if ok then Running else Nacking)
    requires front.ackRef >= s.l.front.ackRef
    requires t == s.(l := Tallied(cfg, s.l.(front := front), ok), slots := s.slots[tag := if ok then Succeeded else Failed])
    ensures Ledger(t) && AcksIncrease(t) && Woken(cfg, t) && Phased(cfg, t)
  {
    QuotaMeansAllSettled(cfg, s);
    assert forall x: nat :: Nacked(t.slots, x) <==> Nacked(s.slots, x);
  }

  lemma ConcludeKeepsInv(cfg: Config, s: Sys, tag: nat, ok: bool)
    requires cfg.Valid() && Inv(cfg, s)
    requires Holds(s, tag, if ok then Running else Nacking)
    ensures Inv(cfg, Conclude(cfg, s, tag, ok))
  {
    EndingCounts(s.slots, tag, ok);
    ConcludeFrontier(cfg, s, tag, ok);
    ConcludeRest(cfg, s, Conclude(cfg, s, tag, ok).l.front, tag, ok, Conclude(cfg, s, tag, ok));
  }

  lemma DeliverKeepsLedger(cfg: Config, s: Sys, t: Sys)
    requires Owns(cfg, s) && Ledger(s) && AcksIncrease(s) && s.sweptTo <= s.delivered
    requires t == s.(delivered := s.delivered + 1, outstanding := s.outstanding + {s.delivered + 1})
    ensures Ledger(t)
  {
    var tag := s.delivered + 1;
    assert tag !in s.slots;
    assert s.l.acked <= s.delivered;
  }

  lemma DeliverKeepsInv(cfg: Config, s: Sys)
    requires Inv(cfg, s) && Enabled(cfg, s, Deliver)
    ensures Inv(cfg, Do(cfg, s, Deliver))
  {
    DeliverKeepsLedger(cfg, s, Do(cfg, s, Deliver));
  }

  lemma SlotChangeKeepsFrontier(s: Sys, slots: map<nat, Slot>, tag: nat, slot: Slot)
    requires FrontierExact(s)
    requires !Over(s.slots, tag) && slot in {Running, Nacking, Abandoned}
    requires slots == s.slots[tag := slot]
    ensures Fronted(s.l.front, s.base, slots) && EndsSettledRun(slots, s.base, Reach(s.l.front, s.base))
    ensures Ended(slots) == Ended(s.slots) && Having(slots, Succeeded) == Having(s.slots, Succeeded)
    ensures forall t: nat :: Good(slots, t) <==> Good(s.slots, t)
  {
    assert forall t: nat :: Good(slots, t) <==> Good(s.slots, t);
    assert forall t: nat :: Bad(slots, t) <==> Bad(s.slots, t);
    forall t: nat | s.base < t <= Reach(s.l.front, s.base)
      ensures Over(slots, t)
    {
      assert Over(s.slots, t);
    }
  }

  lemma FirstTagKeepsFrontier(f: Front, base: nat, slots: map<nat, Slot>, first: nat)
    requires Fronted(f, base, slots)
    ensures Fronted(f.(firstTag := first), base, slots)
    ensures Reach(f.(firstTag := first), base) == Reach(f, base)
  {
    assert forall t: nat | base < t <= Reach(f, base) :: Over(slots, t);
  }

  lemma RefuseKeepsFrontier(s: Sys, t: Sys)
    requires FrontierExact(s) && AcksIncrease(s)
    requires t == s.(l := Refused(s.l, s.entered + 1), entered := s.entered + 1)
    ensures FrontierExact(t) && AcksIncrease(t)
  {
    FirstTagKeepsFrontier(s.l.front, s.base, s.slots, t.l.front.firstTag);
  }

  lemma RefuseKeepsInv(cfg: Config, s: Sys)
    requires cfg.Valid() && Inv(cfg, s) && Enabled(cfg, s, Enter) && !Accepts(cfg, s.l)
    ensures Inv(cfg, s.(l := Refused(s.l, s.entered + 1), entered := s.entered + 1))
  {
    RefuseKeepsFrontier(s, s.(l := Refused(s.l, s.entered + 1), entered := s.entered + 1));
  }

  lemma AdmitKeepsLedger(cfg: Config, s: Sys)
    requires Owns(cfg, s) && Ledger(s) && AcksIncrease(s) && Accepts(cfg, s.l)
    ensures Ledger(Admit(s)) && AcksIncrease(Admit(s))
    ensures s.entered + 1 !in s.slots
  {
    var t := Admit(s);
    assert s.entered + 1 !in s.slots;
    assert forall x: nat :: Nacked(t.slots, x) <==> Nacked(s.slots, x);
  }

  lemma AdmitKeepsFrontier(cfg: Config, s: Sys)
    requires Owns(cfg, s) && FrontierExact(s) && Accepts(cfg, s.l)
    ensures FrontierExact(Admit(s))
    ensures Ended(Admit(s).slots) == Ended(s.slots) && Having(Admit(s).slots, Succeeded) == Having(s.slots, Succeeded)
  {
    var t := Admit(s);
    assert s.entered + 1 !in s.slots;
    SlotChangeKeepsFrontier(s, t.slots, s.entered + 1, Running);
    FirstTagKeepsFrontier(s.l.front, s.base, t.slots, t.l.front.firstTag);
  }

  lemma AdmitKeepsInv(cfg: Config, s: Sys)
    requires cfg.Valid() && Inv(cfg, s) && Enabled(cfg, s, Enter) && Accepts(cfg, s.l)
    ensures Inv(cfg, Admit(s))
  {
    AdmitKeepsLedger(cfg, s);
    AdmitKeepsFrontier(cfg, s);
  }

  lemma EnterAtOnceKeepsInv(cfg: Config, s: Sys)
    requires cfg.Valid() && Inv(cfg, s) && Enabled(cfg, s, Enter) && Accepts(cfg, s.l)
    ensures Inv(cfg, Conclude(cfg, Admit(s), s.entered + 1, true))
  {
    AdmitKeepsInv(cfg, s);
    var t, tag := Admit(s), s.entered + 1;
    assert Holds(t, tag, Running);
    ConcludeKeepsInv(cfg, t, tag, true);
  }

  lemma EnterRefusedKeepsInv(cfg: Config, s: Sys)
    requires cfg.Valid() && Inv(cfg, s) && Enabled(cfg, s, Enter) && !Accepts(cfg, s.l)
    ensures Inv(cfg, Do(cfg, s, Enter))
  {
    RefuseKeepsInv(cfg, s);
    assert Do(cfg, s, Enter) == s.(l := Refused(s.l, s.entered + 1), entered := s.entered + 1);
  }

  lemma EnterHandledKeepsInv(cfg: Config, s: Sys)
    requires cfg.Valid() && Inv(cfg, s) && Enabled(cfg, s, Enter) && Accepts(cfg, s.l) && cfg.hasHandler
    ensures Inv(cfg, Do(cfg, s, Enter))
  {
    AdmitKeepsInv(cfg, s);
    assert Do(cfg, s, Enter) == Admit(s);
  }

  lemma UnhandledIsConcludedAtOnce(cfg: Config, s: Sys)
    requires Accepts(cfg, s.l) && !cfg.hasHandler
    ensures Do(cfg, s, Enter) == Conclude(cfg, Admit(s), s.entered + 1, true)
  {
    var tag := s.entered + 1;
    assert s.slots[tag := Running][tag := Succeeded] == s.slots[tag := Succeeded];
  }

  lemma EnterUnhandledKeepsInv(cfg: Config, s: Sys)
    requires cfg.Valid() && Inv(cfg, s) && Enabled(cfg, s, Enter) && Accepts(cfg, s.l) && !cfg.hasHandler
    ensures Inv(cfg, Do(cfg, s, Enter))
  {
    EnterAtOnceKeepsInv(cfg, s);
    UnhandledIsConcludedAtOnce(cfg, s);
  }

  lemma EnterKeepsInv(cfg: Config, s: Sys)
    requires cfg.Valid() && Inv(cfg, s) && Enabled(cfg, s, Enter)
    ensures Inv(cfg, Do(cfg, s, Enter))
  {
    if !Accepts(cfg, s.l) {
      EnterRefusedKeepsInv(cfg, s);
    } else if cfg.hasHandler {
      EnterHandledKeepsInv(cfg, s);
    } else {
      EnterUnhandledKeepsInv(cfg, s);
    }
  }

  /** A tag that holds a slot and is not over lies past the frontier, so no ack has covered it. */
  lemma UnsettledIsPastFrontier(cfg: Config, s: Sys, tag: nat)
    requires Owns(cfg, s) && FrontierExact(s) && AcksIncrease(s)
    requires tag in s.slots && !Over(s.slots, tag)
    ensures tag > Reach(s.l.front, s.base) && tag > s.l.front.ackRef && tag > s.l.acked
  {
  }

  lemma NackOneSettlesOne(s: Sys, tag: nat)
    requires tag in s.outstanding
    ensures Emit(s, Some(NackOne(tag))) == s.(outstanding := s.outstanding - {tag}, fate := s.fate[tag := Rejected])
  {
    assert Covered(s.outstanding, NackOne(tag)) == {tag};
  }

  function NackedAlone(s: Sys, tag: nat): Sys {
    s.(slots := s.slots[tag := Nacking], outstanding := s.outstanding - {tag}, fate := s.fate[tag := Rejected])
  }

  lemma NackKeepsLedger(s: Sys, tag: nat)
    requires Ledger(s) && tag in s.outstanding
    ensures Ledger(NackedAlone(s, tag))
  {
    var t := NackedAlone(s, tag);
    assert forall x: nat | x != tag :: Nacked(t.slots, x) <==> Nacked(s.slots, x);
  }

  lemma UnsettledIsOutstanding(cfg: Config, s: Sys, tag: nat)
    requires Owns(cfg, s) && FrontierExact(s) && AcksIncrease(s) && Ledger(s) && s.sweptTo == 0
    ensures tag in s.slots && !Over(s.slots, tag) && !Holds(s, tag, Nacking) ==> tag in s.outstanding
  {
  }

  lemma NackKeepsInv(cfg: Config, s: Sys, tag: nat)
    requires Inv(cfg, s) && Holds(s, tag, Running) && s.phase == Consuming
    ensures tag in s.outstanding && Inv(cfg, NackedAlone(s, tag))
  {
    UnsettledIsOutstanding(cfg, s, tag);
    UnsettledIsPastFrontier(cfg, s, tag);
    NackKeepsLedger(s, tag);
    SlotChangeKeepsFrontier(s, s.slots[tag := Nacking], tag, Nacking);
  }

  /** Before the run closes, a raising handler's nack takes its tag from the broker at once. */
  lemma RaiseKeepsInv(cfg: Config, s: Sys, tag: nat)
    requires cfg.Valid() && Inv(cfg, s) && Enabled(cfg, s, Raise(tag))
    ensures Inv(cfg, Do(cfg, s, Raise(tag)))
  {
    if s.l.closing {
      AbandonKeepsInv(cfg, s, tag);
    } else {
      NackKeepsInv(cfg, s, tag);
      NackOneSettlesOne(s, tag);
      assert Do(cfg, s, Raise(tag)) == NackedAlone(s, tag);
    }
  }

  lemma AbandonKeepsInv(cfg: Config, s: Sys, tag: nat)
    requires Inv(cfg, s) && Holds(s, tag, Running)
    ensures Inv(cfg, s.(slots := s.slots[tag := Abandoned]))
  {
    var slots := s.slots[tag := Abandoned];
    SlotChangeKeepsFrontier(s, slots, tag, Abandoned);
    assert forall x: nat :: Nacked(slots, x) <==> Nacked(s.slots, x);
  }

  /** Everything an ack of the reference covers has succeeded or was nacked before. */
  lemma DueAckCoversFinished(cfg: Config, s: Sys, t: nat)
    requires Owns(cfg, s) && FrontierExact(s)
    requires s.base < t <= s.l.front.ackRef
    ensures Over(s.slots, t)
  {
  }

  lemma AckUpToSettles(s: Sys, r: nat)
    ensures
      var t := Emit(s, Some(AckUpTo(r)));
      && (forall x: nat :: x in t.outstanding <==> x in s.outstanding && x > r)
      && (forall x: nat :: x in t.fate <==> x in s.fate || (x in s.outstanding && x <= r))
      && (forall x | x in t.fate :: t.fate[x] == if x in s.outstanding && x <= r then Acked else s.fate[x])
  {
  }

  lemma AckUpToKeepsLedger(s: Sys, r: nat)
    requires Ledger(s) && s.sweptTo == 0 && s.l.acked <= r
    requires forall x: nat | s.base < x <= r :: Over(s.slots, x)
    ensures Ledger(Emit(s, Some(AckUpTo(r))).(l := s.l.(acked := r)))
  {
    AckUpToSettles(s, r);
    forall x: nat | s.base < x <= r
      ensures Nacked(s.slots, x) <==> Bad(s.slots, x)
    {
      assert Over(s.slots, x);
    }
  }

  lemma AckKeepsLedger(cfg: Config, s: Sys)
    requires Inv(cfg, s) && s.sweptTo == 0
    ensures Ledger(Emit(s, DueAck(s.l)).(l := AfterDueAck(s.l)))
    ensures AcksIncrease(Emit(s, DueAck(s.l)).(l := AfterDueAck(s.l)))
  {
    if s.l.front.ackRef > s.l.acked {
      forall x: nat | s.base < x <= s.l.front.ackRef
        ensures Over(s.slots, x)
      {
        DueAckCoversFinished(cfg, s, x);
      }
      AckUpToKeepsLedger(s, s.l.front.ackRef);
      assert forall i | 0 <= i < |s.acks| :: s.acks[i] <= s.l.acked;
    }
  }

  /** After everything ackable was acked; the acker has cleared its event, the exit block leaves it. */
  function AllAcked(s: Sys): Sys {
    Emit(s, DueAck(s.l)).(l := AfterDueAck(s.l).(ackEvent := s.l.closing && s.l.ackEvent))
  }

  lemma AckKeepsInv(cfg: Config, s: Sys)
    requires cfg.Valid() && Inv(cfg, s) && s.sweptTo == 0
    ensures Inv(cfg, AllAcked(s))
    ensures AllAcked(s).l.acked == s.l.front.ackRef
  {
    AckKeepsLedger(cfg, s);
    var mid := Emit(s, DueAck(s.l)).(l := AfterDueAck(s.l));
    assert Ledger(AllAcked(s)) by {
      assert Ledger(mid);
    }
  }

  lemma AckerKeepsInv(cfg: Config, s: Sys)
    requires cfg.Valid() && Inv(cfg, s) && Enabled(cfg, s, AckerWakes)
    ensures Inv(cfg, Do(cfg, s, AckerWakes))
  {
    AckKeepsInv(cfg, s);
    assert Do(cfg, s, AckerWakes) == AllAcked(s);
  }

  lemma FinalPhaseKeepsInv(cfg: Config, s: Sys)
    requires Inv(cfg, s) && s.phase == Closing && s.l.acked == s.l.front.ackRef
    ensures Inv(cfg, s.(phase := FinalAcked))
  {
  }

  lemma FinalAckKeepsInv(cfg: Config, s: Sys)
    requires cfg.Valid() && Inv(cfg, s) && Enabled(cfg, s, SendFinalAck)
    ensures Inv(cfg, Do(cfg, s, SendFinalAck))
  {
    AckKeepsInv(cfg, s);
    FinalPhaseKeepsInv(cfg, AllAcked(s));
  }

  /** A step that touches neither tags nor the frontier, as far as those go. */
  lemma QuietKeepsTags(cfg: Config, s: Sys, t: Sys)
    requires Inv(cfg, s)
    requires t.l == s.l || t.l == s.l.(closing := true)
    requires t == s.(l := t.l, before := t.before, phase := t.phase, reason := t.reason, result := t.result)
    ensures Owns(cfg, t) && Tallies(cfg, t) && FrontierExact(t) && Ledger(t) && AcksIncrease(t) && Woken(cfg, t)
  {
  }

  lemma QuietStepsKeepPhased(cfg: Config, s: Sys, step: Step)
    requires cfg.Valid() && Tallies(cfg, s) && Owns(cfg, s) && Phased(cfg, s) && Enabled(cfg, s, step)
    requires step.WindowRestarts? || step.Leave? || step.ReturnResult?
    ensures Phased(cfg, Do(cfg, s, step))
  {
  }

  lemma QuietStepsKeepInv(cfg: Config, s: Sys, step: Step)
    requires cfg.Valid() && Inv(cfg, s) && Enabled(cfg, s, step)
    requires step.WindowRestarts? || step.Leave? || step.ReturnResult?
    ensures Inv(cfg, Do(cfg, s, step))
  {
    QuietKeepsTags(cfg, s, Do(cfg, s, step));
    QuietStepsKeepPhased(cfg, s, step);
  }

  lemma SweepSettles(s: Sys, r: nat)
    ensures
      var t := Emit(s, Some(NackUpTo(r)));
      && (forall x: nat :: x in t.outstanding <==> x in s.outstanding && x > r)
      && (forall x: nat :: x in t.fate <==> x in s.fate || (x in s.outstanding && x <= r))
      && (forall x | x in t.fate :: t.fate[x] == if x in s.outstanding && x <= r then Requeued else s.fate[x])
  {
  }

  lemma SweepKeepsLedger(s: Sys)
    requires Ledger(s) && s.sweptTo == 0
    ensures Ledger(Emit(s, SweepFrame(s.l)).(sweptTo := s.l.extraTag))
  {
    SweepSettles(s, s.l.extraTag);
  }

  lemma SweptKeepsInv(cfg: Config, s: Sys, t: Sys)
    requires Inv(cfg, s) && s.phase == FinalAcked && Ledger(t)
    requires t == s.(phase := Swept, sweptTo := s.l.extraTag, enteredAtSweep := s.entered,
                     outstanding := t.outstanding, fate := t.fate)
    ensures Inv(cfg, t)
  {
  }

  lemma SweepKeepsInv(cfg: Config, s: Sys)
    requires Inv(cfg, s) && Enabled(cfg, s, SendFinalNack)
    ensures Inv(cfg, Do(cfg, s, SendFinalNack))
  {
    var t := Do(cfg, s, SendFinalNack);
    assert Ledger(t) by {
      SweepKeepsLedger(s);
    }
    SweptKeepsInv(cfg, s, t);
  }

  lemma ReturnKeepsInv(cfg: Config, s: Sys, tag: nat)
    requires cfg.Valid() && Inv(cfg, s) && Enabled(cfg, s, Return(tag))
    ensures Inv(cfg, Do(cfg, s, Return(tag)))
  {
    ConcludeKeepsInv(cfg, s, tag, true);
  }

  lemma NackSentKeepsInv(cfg: Config, s: Sys, tag: nat)
    requires cfg.Valid() && Inv(cfg, s) && Enabled(cfg, s, NackSent(tag))
    ensures Inv(cfg, Do(cfg, s, NackSent(tag)))
  {
    ConcludeKeepsInv(cfg, s, tag, false);
  }

  lemma DieKeepsInv(cfg: Config, s: Sys, tag: nat)
    requires Inv(cfg, s) && Enabled(cfg, s, Die(tag))
    ensures Inv(cfg, Do(cfg, s, Die(tag)))
  {
    AbandonKeepsInv(cfg, s, tag);
  }

  lemma StepKeepsInv(cfg: Config, s: Sys, step: Step)
    requires cfg.Valid() && Inv(cfg, s) && Enabled(cfg, s, step)
    ensures Inv(cfg, Do(cfg, s, step))
  {
    match step
    case Deliver => DeliverKeepsInv(cfg, s);
    case Enter => EnterKeepsInv(cfg, s);
    case Return(tag) => ReturnKeepsInv(cfg, s, tag);
    case Raise(tag) => RaiseKeepsInv(cfg, s, tag);
    case Die(tag) => DieKeepsInv(cfg, s, tag);
    case NackSent(tag) => NackSentKeepsInv(cfg, s, tag);
    case AckerWakes => AckerKeepsInv(cfg, s);
    case SendFinalAck => FinalAckKeepsInv(cfg, s);
    case SendFinalNack => SweepKeepsInv(cfg, s);
    case _ => QuietStepsKeepInv(cfg, s, step);
  }

  lemma InitInv(cfg: Config, base: nat)
    requires cfg.Valid()
    ensures Inv(cfg, Init(base))
  {
  }

  lemma {:induction false} RunKeepsInv(cfg: Config, base: nat, steps: seq<Step>)
    requires cfg.Valid() && IsRun(cfg, base, steps)
    ensures Inv(cfg, After(cfg, base, steps)) && After(cfg, base, steps).base == base
    decreases |steps|
  {
    if steps == [] {
      InitInv(cfg, base);
    } else {
      var last := |steps| - 1;
      RunKeepsInv(cfg, base, steps[..last]);
      StepKeepsInv(cfg, After(cfg, base, steps[..last]), steps[last]);
    }
  }

  lemma ReachableInv(cfg: Config, base: nat, s: Sys)
    requires cfg.Valid() && Reachable(cfg, base, s)
    ensures Inv(cfg, s) && s.base == base
  {
    var steps :| IsRun(cfg, base, steps) && s == After(cfg, base, steps);
    RunKeepsInv(cfg, base, steps);
  }

  // ---- what every run promises

  lemma DueAckSettlesOnlyGood(cfg: Config, s: Sys)
    requires Owns(cfg, s) && FrontierExact(s) && Ledger(s) && AcksIncrease(s)
    requires s.sweptTo == 0 && s.l.front.ackRef > s.l.acked
    ensures s.l.front.ackRef in s.outstanding
    ensures forall t: nat | s.base < t <= s.l.front.ackRef ::
              if t in s.outstanding then Good(s.slots, t)
              else t in s.fate && Over(s.slots, t) && s.fate[t] == if Good(s.slots, t) then Acked else Rejected
    ensures forall t | t in s.outstanding :: t > s.base
    ensures forall i | 0 <= i < |s.acks| :: s.acks[i] <= s.l.acked
  {
    forall t: nat | s.base < t <= s.l.front.ackRef
      ensures if t in s.outstanding then Good(s.slots, t)
              else t in s.fate && Over(s.slots, t) && s.fate[t] == if Good(s.slots, t) then Acked else Rejected
    {
      DueAckCoversFinished(cfg, s, t);
      assert Bad(s.slots, t) ==> Nacked(s.slots, t);
    }
  }

  /**
   * Ack safety. A multiple-ack names a tag that succeeded and that the broker still waits for,
   * larger than every tag acked before; every delivery it settles has a successful handler,
   * and every other delivery up to it was nacked on its own earlier or acked already.
   */
  lemma AcksAreSafe(cfg: Config, base: nat, s: Sys, step: Step, tag: nat)
    requires cfg.Valid() && Reachable(cfg, base, s) && Enabled(cfg, s, step)
    requires Sent(cfg, s, step) == Some(AckUpTo(tag))
    ensures tag in s.outstanding && Good(s.slots, tag)
    ensures forall t | t in Covered(s.outstanding, AckUpTo(tag)) :: Good(s.slots, t)
    ensures forall t: nat | base < t <= tag && t !in s.outstanding ::
              t in s.fate && Over(s.slots, t) && s.fate[t] == if Good(s.slots, t) then Acked else Rejected
    ensures forall i | 0 <= i < |s.acks| :: s.acks[i] < tag
  {
    ReachableInv(cfg, base, s);
    assert step in {AckerWakes, SendFinalAck};
    assert tag == s.l.front.ackRef > s.l.acked && s.sweptTo == 0;
    DueAckSettlesOnlyGood(cfg, s);
  }

  /** The client never settles a tag the broker does not know: no channel error on any run. */
  lemma FramesNameOutstandingTags(cfg: Config, base: nat, s: Sys, step: Step)
    requires cfg.Valid() && Reachable(cfg, base, s) && Enabled(cfg, s, step)
    ensures Sent(cfg, s, step).Some? ==> Sent(cfg, s, step).value.tag in s.outstanding
  {
    ReachableInv(cfg, base, s);
    if step.Raise? {
      UnsettledIsPastFrontier(cfg, s, step.tag);
    } else if step.SendFinalNack? && s.l.extraTag > 0 {
      assert s.l.extraTag !in s.slots;
      assert s.l.acked < s.l.extraTag;
    }
  }

  /** The incremental frontier is the closed form, whatever order handlers finished in. */
  lemma FrontierIsSettledRun(cfg: Config, base: nat, s: Sys)
    requires cfg.Valid() && Reachable(cfg, base, s)
    ensures EndsSettledRun(s.slots, base, Reach(s.l.front, base))
    ensures LargestGood(s.slots, Reach(s.l.front, base), s.l.front.ackRef)
    ensures s.l.front.finishedOk !! s.l.front.finishedNack
    ensures forall t | t in s.l.front.finishedOk + s.l.front.finishedNack :: t > Reach(s.l.front, base)
  {
    ReachableInv(cfg, base, s);
  }

  /** At most `count` handlers ever start, and the four counters stay ordered. */
  lemma CountersStayOrdered(cfg: Config, base: nat, s: Sys)
    requires cfg.Valid() && Reachable(cfg, base, s)
    ensures s.l.completed <= s.l.settled <= s.l.reserved == |s.slots|
    ensures cfg.count.Some? ==> s.l.reserved <= cfg.count.value
  {
    assert Owns(cfg, s) && Tallies(cfg, s) by {
      ReachableInv(cfg, base, s);
    }
    SettledWithinReserved(cfg, s);
  }

  /** No lost and no idle wake-up: the acker's event is set exactly while enough tags are ackable. */
  lemma AckerIsWoken(cfg: Config, base: nat, s: Sys)
    requires cfg.Valid() && Reachable(cfg, base, s)
    ensures !s.l.closing ==> (s.l.ackEvent <==> s.l.front.ackRef - s.l.acked >= cfg.ackBatch)
  {
    ReachableInv(cfg, base, s);
  }

  lemma WindowIsBehindAckRef(cfg: Config, s: Sys)
    requires Inv(cfg, s) && s.phase == Consuming
    requires forall t | t in s.outstanding :: Good(s.slots, t)
    requires !Holds(s, Reach(s.l.front, s.base) + 1, Nacking)
    ensures forall t | t in s.outstanding :: t <= s.l.front.ackRef
  {
    var next := Reach(s.l.front, s.base) + 1;
    UnsettledIsOutstanding(cfg, s, next);
    assert next !in s.slots;
    assert forall t | t in s.outstanding :: t in s.slots && t < next;
  }

  /**
   * A prefetch window that is full of successes cannot stall the stream: the acker is already
   * awake, without the idle timer, unless the very tag that holds the frontier is being nacked.
   */
  lemma FullWindowHasAckPending(cfg: Config, count: Option<int>, prefetch: nat, base: nat, s: Sys)
    requires Start(count, prefetch, cfg.hasHandler) == Some(cfg) && Reachable(cfg, base, s)
    requires prefetch >= 1 && s.phase == Consuming && |s.outstanding| >= prefetch
    requires forall t | t in s.outstanding :: Good(s.slots, t)
    requires !Holds(s, Reach(s.l.front, s.base) + 1, Nacking)
    ensures s.l.ackEvent
  {
    ReachableInv(cfg, base, s);
    WindowIsBehindAckRef(cfg, s);
    var low := if s.l.acked < s.base then s.base else s.l.acked;
    assert s.l.front.ackRef > low by {
      assert s.outstanding != {};
      var t :| t in s.outstanding;
    }
    assert s.outstanding <= Interval(low, s.l.front.ackRef);
    IntervalSize(low, s.l.front.ackRef);
    SubsetSize(s.outstanding, Interval(low, s.l.front.ackRef));
  }

  lemma QuotaFrontierIsLast(s: Sys)
    requires FrontierExact(s) && (forall t: nat | t in s.slots :: Over(s.slots, t))
    requires forall t: nat :: t in s.slots <==> s.base < t <= s.base + s.l.reserved
    ensures Reach(s.l.front, s.base) == s.base + s.l.reserved
    ensures forall t: nat | Good(s.slots, t) :: t <= s.l.front.ackRef
  {
    var f := Reach(s.l.front, s.base);
    assert f + 1 !in s.slots;
    assert f > s.base ==> Over(s.slots, f);
  }

  lemma GoodAndBadMakeEnded(slots: map<nat, Slot>)
    ensures |Ended(slots)| == |Having(slots, Succeeded)| + |Having(slots, Failed)|
  {
    var good, bad := Having(slots, Succeeded), Having(slots, Failed);
    assert Ended(slots) == good + bad && good !! bad;
  }

  lemma QuotaSlotsAreOver(cfg: Config, s: Sys)
    requires Inv(cfg, s) && s.reason == Quota
    ensures cfg.count.Some? && s.l.reserved == cfg.count.value
    ensures s.l.completed == |Having(s.slots, Succeeded)|
    ensures forall t: nat :: t in s.slots <==> s.base < t <= s.base + cfg.count.value
    ensures forall t: nat | t in s.slots :: Over(s.slots, t)
    ensures |Having(s.slots, Succeeded)| == cfg.count.value - |Having(s.slots, Failed)|
  {
    assert cfg.Full(s.l.settled);
    assert s.l.settled == s.l.reserved == cfg.count.value && s.slots.Keys == Ended(s.slots) by {
      QuotaMeansAllSettled(cfg, s);
    }
    GoodAndBadMakeEnded(s.slots);
    forall t: nat | t in s.slots
      ensures Over(s.slots, t)
    {
      assert t in s.slots.Keys;
    }
  }

  /** How the broker saw a tag settled is how its handler ended; a refused tag is requeued. */
  predicate SettledByOutcome(s: Sys, t: nat) {
    && t !in s.outstanding && t in s.fate
    && s.fate[t] == if Good(s.slots, t) then Acked else if Bad(s.slots, t) then Rejected else Requeued
  }

  /**
   * Quota exit: once the run has returned, every delivery whose callback had entered by the
   * final nack was settled at the broker exactly once, by how its handler ended, and the
   * result is the quota minus the failures.
   */
  lemma QuotaExitSettlesEverything(cfg: Config, base: nat, s: Sys)
    requires cfg.Valid() && Reachable(cfg, base, s)
    requires s.reason == Quota && s.phase == Returned
    ensures cfg.count.Some?
    ensures forall t: nat | base < t <= s.enteredAtSweep :: SettledByOutcome(s, t)
    ensures forall t: nat | base < t <= base + cfg.count.value :: Over(s.slots, t)
    ensures s.result == Some(cfg.count.value - |Having(s.slots, Failed)|)
  {
    ReachableInv(cfg, base, s);
    QuotaExit(cfg, s);
  }

  lemma QuotaExit(cfg: Config, s: Sys)
    requires Inv(cfg, s) && s.reason == Quota && s.phase == Returned
    ensures cfg.count.Some?
    ensures forall t: nat | s.base < t <= s.enteredAtSweep :: SettledByOutcome(s, t)
    ensures forall t: nat | s.base < t <= s.base + cfg.count.value :: Over(s.slots, t)
    ensures s.result == Some(cfg.count.value - |Having(s.slots, Failed)|)
  {
    QuotaSlotsAreOver(cfg, s);
    QuotaFrontierIsLast(s);
    forall t: nat | s.base < t <= s.enteredAtSweep
      ensures SettledByOutcome(s, t)
    {
      QuotaLedger(cfg, s, t);
    }
  }

  lemma QuotaLedger(cfg: Config, s: Sys, t: nat)
    requires Owns(cfg, s) && Ledger(s) && Phased(cfg, s) && AcksIncrease(s)
    requires s.reason == Quota && s.phase == Returned
    requires t in s.slots ==> Over(s.slots, t)
    requires Good(s.slots, t) ==> t <= s.l.front.ackRef
    requires s.base < t <= s.enteredAtSweep
    ensures SettledByOutcome(s, t)
  {
    if t in s.slots {
      assert Bad(s.slots, t) <==> Nacked(s.slots, t);
    } else {
      assert t <= s.sweptTo && t > s.l.acked;
    }
  }

  function AckedTags(s: Sys): set<nat> {
    set t | t in s.fate && s.fate[t] == Acked
  }

  lemma AckedTagsAreGood(cfg: Config, s: Sys)
    requires Owns(cfg, s) && FrontierExact(s) && Ledger(s) && AcksIncrease(s)
    ensures forall t: nat :: t in AckedTags(s) <==> Good(s.slots, t) && t <= s.l.acked
  {
    forall t: nat | t in AckedTags(s)
      ensures Good(s.slots, t) && t <= s.l.acked
    {
      DueAckCoversFinished(cfg, s, t);
    }
    forall t: nat | Good(s.slots, t) && t <= s.l.acked
      ensures t in AckedTags(s)
    {
      assert t in s.fate;
    }
  }

  /**
   * The returned count may exceed what was acked: a success behind a handler that never
   * settled is counted but redelivered. In every reachable state the two agree exactly when no
   * finished tag waits behind the frontier and nothing became ackable after the last ack.
   */
  lemma CompletedIsAckedIffNothingWaits(cfg: Config, base: nat, s: Sys)
    requires cfg.Valid() && Reachable(cfg, base, s)
    ensures s.l.completed == |AckedTags(s)| <==> s.l.front.finishedOk == {} && s.l.front.ackRef == s.l.acked
  {
    assert Tallies(cfg, s) && FrontierExact(s) && AcksIncrease(s) by {
      ReachableInv(cfg, base, s);
    }
    assert forall t: nat :: t in AckedTags(s) <==> Good(s.slots, t) && t <= s.l.acked by {
      ReachableInv(cfg, base, s);
      AckedTagsAreGood(cfg, s);
    }
    var good := Having(s.slots, Succeeded);
    assert forall t: nat :: t in good <==> Good(s.slots, t);
    SubsetSize(AckedTags(s), good);
    if s.l.front.finishedOk != {} {
      var t :| t in s.l.front.finishedOk;
      assert t in good && t !in AckedTags(s);
    } else if s.l.front.ackRef != s.l.acked {
      assert s.l.front.ackRef in good && s.l.front.ackRef !in AckedTags(s);
    } else {
      forall t: nat | t in good
        ensures t in AckedTags(s)
      {
        assert Good(s.slots, t) && t !in s.l.front.finishedOk;
      }
      assert AckedTags(s) == good;
    }
  }

  lemma Follow(cfg: Config, base: nat, s: Sys, step: Step) returns (t: Sys)
    requires Reachable(cfg, base, s) && Enabled(cfg, s, step)
    ensures t == Do(cfg, s, step) && Reachable(cfg, base, t)
  {
    t := Do(cfg, s, step);
    var steps :| IsRun(cfg, base, steps) && s == After(cfg, base, steps);
    assert (steps + [step])[..|steps|] == steps;
    assert IsRun(cfg, base, steps + [step]);
  }

  lemma InitReachable(cfg: Config, base: nat)
    ensures Reachable(cfg, base, Init(base))
  {
    assert IsRun(cfg, base, []) && After(cfg, base, []) == Init(base);
  }

  lemma OneMoreDelivered(cfg: Config, s: Sys) returns (t: Sys)
    requires Reachable(cfg, 0, s) && s.phase == Consuming
    ensures Reachable(cfg, 0, t)
    ensures t == s.(delivered := s.delivered + 1, outstanding := s.outstanding + {s.delivered + 1})
  {
    t := Follow(cfg, 0, s, Deliver);
  }

  lemma TwoDelivered(cfg: Config) returns (s: Sys)
    ensures Reachable(cfg, 0, s) && s == Init(0).(delivered := 2, outstanding := {1, 2})
  {
    InitReachable(cfg, 0);
    s := OneMoreDelivered(cfg, Init(0));
    s := OneMoreDelivered(cfg, s);
  }

  lemma OneEntered(cfg: Config) returns (s: Sys)
    requires cfg == Config(Some(3), 1, true)
    ensures Reachable(cfg, 0, s)
    ensures s == Init(0).(l := INITIAL.(reserved := 1, front := Front(1, 0, 0, {}, {})),
                          delivered := 2, entered := 1, outstanding := {1, 2}, slots := map[1 := Running])
  {
    var t := TwoDelivered(cfg);
    s := EnterRunning(cfg, t);
  }

  lemma TwoEntered(cfg: Config) returns (s: Sys)
    requires cfg == Config(Some(3), 1, true)
    ensures Reachable(cfg, 0, s)
    ensures s == Init(0).(l := INITIAL.(reserved := 2, front := Front(1, 0, 0, {}, {})),
                          delivered := 2, entered := 2, outstanding := {1, 2},
                          slots := map[1 := Running, 2 := Running])
  {
    var t := OneEntered(cfg);
    s := EnterRunning(cfg, t);
  }

  lemma EnterRunning(cfg: Config, s: Sys) returns (t: Sys)
    requires Reachable(cfg, 0, s) && cfg.hasHandler && Accepts(cfg, s.l) && s.entered < s.delivered
    ensures Reachable(cfg, 0, t) && t == Admit(s)
  {
    t := Follow(cfg, 0, s, Enter);
  }

  lemma TwoOfThreeWithSlowFirst(cfg: Config) returns (s: Sys)
    requires cfg == Config(Some(3), 1, true)
    ensures Reachable(cfg, 0, s)
    ensures s == Init(0).(l := Local(2, 1, 1, Front(1, 0, 0, {2}, {}), 0, 0, false, false, false),
                          delivered := 2, entered := 2, outstanding := {1, 2},
                          slots := map[1 := Running, 2 := Succeeded])
  {
    s := TwoEntered(cfg);
    assert Advance(Front(1, 0, 0, {2}, {})) == Front(1, 0, 0, {2}, {});
    s := Follow(cfg, 0, s, Return(2));
  }

  /** Such a run has nothing to ack, so it leaves, sends nothing and returns. */
  lemma LeaveDry(cfg: Config, s: Sys) returns (t: Sys)
    requires Reachable(cfg, 0, s) && s.phase == Consuming && cfg.count.Some? && !s.l.done && s.l.settled == s.before
    ensures Reachable(cfg, 0, t) && t == s.(l := s.l.(closing := true), phase := Closing, reason := Dry)
  {
    t := Follow(cfg, 0, s, Leave(Dry));
  }

  lemma ExitWithoutFrames(cfg: Config, s: Sys) returns (t: Sys)
    requires Reachable(cfg, 0, s) && s.phase == Closing && s.reason == Dry
    requires s.l.front.ackRef == s.l.acked && s.l.extraTag == 0
    ensures Reachable(cfg, 0, t) && t.phase == Returned && t.reason == Dry
    ensures t.result == Some(s.l.completed) && t.fate == s.fate
  {
    var u := Follow(cfg, 0, s, SendFinalAck);
    assert u == s.(phase := FinalAcked);
    t := SweepAndReturn(cfg, u);
  }

  lemma SweepAndReturn(cfg: Config, s: Sys) returns (t: Sys)
    requires Reachable(cfg, 0, s) && s.phase == FinalAcked && s.reason == Dry && s.l.extraTag == 0
    ensures Reachable(cfg, 0, t) && t.phase == Returned && t.reason == Dry
    ensures t.result == Some(s.l.completed) && t.fate == s.fate
  {
    var u := Follow(cfg, 0, s, SendFinalNack);
    assert u == s.(phase := Swept, sweptTo := 0, enteredAtSweep := s.entered);
    t := Follow(cfg, 0, u, ReturnResult);
  }

  /** A dry exit that returns one message and acks none: the first handler is still at work. */
  lemma DryExitMayCountUnacked() returns (cfg: Config, s: Sys)
    ensures cfg.Valid() && Reachable(cfg, 0, s) && s.phase == Returned && s.reason == Dry
    ensures s.result == Some(1) && AckedTags(s) == {}
  {
    cfg := Config(Some(3), 1, true);
    s := TwoOfThreeWithSlowFirst(cfg);
    s := Follow(cfg, 0, s, WindowRestarts);
    s := LeaveDry(cfg, s);
    s := ExitWithoutFrames(cfg, s);
  }
}

/**
 * What the runs of the frontier consumer mean for its caller and for single messages: poison
 * messages, the final sweep, a window held up by a nack, and the number that is returned.
 */
module AckResults {
  import opened Options
  import opened AckFrontier
  import opened AckProtocol

  // ---- poison messages

  /** What becomes of a message whose handler raises, in one step. */
  predicate PoisonLeftAlone(cfg: Config, s: Sys, tag: nat, t: Sys) {
    if s.l.closing then
      Sent(cfg, s, Raise(tag)) == None && t.outstanding == s.outstanding && t.fate == s.fate
    else
      && Sent(cfg, s, Raise(tag)) == Some(NackOne(tag)) && tag in s.outstanding
      && t.outstanding == s.outstanding - {tag} && t.fate == s.fate[tag := Rejected]
      && tag > Reach(t.l.front, s.base)
  }

  /**
   * A raise before the exit block nacks exactly its own tag, which the broker still awaits,
   * while the frontier is still behind it; during the exit block it sends nothing and leaves
   * the tag to the final sweep.
   */
  lemma PoisonIsNackedBeforeFrontierPasses(cfg: Config, base: nat, s: Sys, tag: nat)
    requires cfg.Valid() && Reachable(cfg, base, s) && Enabled(cfg, s, Raise(tag))
    ensures PoisonLeftAlone(cfg, s, tag, Do(cfg, s, Raise(tag)))
  {
    ReachableInv(cfg, base, s);
    RaiseLeavesAlone(cfg, s, tag);
  }

  lemma RaiseLeavesAlone(cfg: Config, s: Sys, tag: nat)
    requires Inv(cfg, s) && Enabled(cfg, s, Raise(tag))
    ensures PoisonLeftAlone(cfg, s, tag, Do(cfg, s, Raise(tag)))
  {
    UnsettledIsPastFrontier(cfg, s, tag);
    if !s.l.closing {
      UnsettledIsOutstanding(cfg, s, tag);
    }
    RaiseStep(cfg, s, tag);
  }

  lemma RaiseStep(cfg: Config, s: Sys, tag: nat)
    requires s.l.closing || tag in s.outstanding
    ensures
      Do(cfg, s, Raise(tag)) ==
        if s.l.closing then s.(slots := s.slots[tag := Abandoned])
        else NackedAlone(s, tag)
  {
    if !s.l.closing {
      NackOneSettlesOne(s, tag);
    }
  }

  /** A message nacked for its handler's failure is never acked, at any later moment. */
  lemma NackedStaysRejected(cfg: Config, base: nat, s: Sys, tag: nat)
    requires cfg.Valid() && Reachable(cfg, base, s) && Nacked(s.slots, tag)
    ensures tag !in s.outstanding && tag in s.fate && s.fate[tag] == Rejected
    ensures Holds(s, tag, Nacking) ==> tag > Reach(s.l.front, base)
  {
    ReachableInv(cfg, base, s);
    if Holds(s, tag, Nacking) {
      UnsettledIsPastFrontier(cfg, s, tag);
    }
  }

  // ---- the final sweep

  /**
   * The last nack of the exit block. With an extra delivery beyond the quota it leaves nothing
   * owed up to the last entered callback: what was neither acked nor nacked is requeued. With
   * none it changes nothing. Later deliveries stay with the broker either way.
   */
  lemma SweepRequeuesTheRest(cfg: Config, base: nat, s: Sys)
    requires cfg.Valid() && Reachable(cfg, base, s) && Enabled(cfg, s, SendFinalNack)
    ensures
      var t := Do(cfg, s, SendFinalNack);
      && (s.l.extraTag > 0 <==> s.entered > base + s.l.reserved)
      && (s.l.extraTag == 0 ==> t.outstanding == s.outstanding && t.fate == s.fate)
      && (s.l.extraTag > 0 ==> forall u: nat | base < u <= s.entered ::
            && u !in t.outstanding && u in t.fate
            && t.fate[u] == if Nacked(s.slots, u) then Rejected else if u <= s.l.acked then Acked else Requeued)
      && (forall u: nat | u > s.entered :: u in t.outstanding <==> u in s.outstanding)
  {
    ReachableInv(cfg, base, s);
    SweepKeepsInv(cfg, s);
  }

  // ---- a full window whose frontier waits for a nack

  /** A nack ended: nothing was sent, and no other nack has begun. */
  predicate AfterNack(s: Sys, next: nat, t: Sys) {
    && t.phase == s.phase && t.outstanding == s.outstanding
    && (forall u | u in t.outstanding :: Good(t.slots, u))
    && (forall u | u in t.slots && t.slots[u] == Nacking :: Holds(s, u, Nacking) && u != next)
  }

  /** The acker is awake, or another nack holds the frontier; with a single nack it is awake. */
  predicate AwakeOrHeld(s: Sys, next: nat, t: Sys) {
    && (t.l.ackEvent || Holds(t, Reach(t.l.front, t.base) + 1, Nacking))
    && ((forall u | u in s.slots && s.slots[u] == Nacking :: u == next) ==> t.l.ackEvent)
  }

  lemma NackSentState(cfg: Config, s: Sys, next: nat)
    requires Ledger(s) && Holds(s, next, Nacking) && (forall u | u in s.outstanding :: Good(s.slots, u))
    ensures AfterNack(s, next, Do(cfg, s, NackSent(next)))
  {
    assert next !in s.outstanding;
  }

  lemma WindowAfterNack(cfg: Config, count: Option<int>, prefetch: nat, base: nat, s: Sys, next: nat, t: Sys)
    requires Start(count, prefetch, cfg.hasHandler) == Some(cfg) && Reachable(cfg, base, t)
    requires prefetch >= 1 && s.phase == Consuming && |s.outstanding| >= prefetch
    requires AfterNack(s, next, t)
    ensures AwakeOrHeld(s, next, t)
  {
    if !Holds(t, Reach(t.l.front, t.base) + 1, Nacking) {
      FullWindowHasAckPending(cfg, count, prefetch, base, t);
    }
  }

  /**
   * In that remaining case the end of the nack wakes the acker, or the frontier now waits for
   * another nack; with a single nack on its way the acker is awake.
   */
  lemma NackSentWakesAcker(cfg: Config, count: Option<int>, prefetch: nat, base: nat, s: Sys, next: nat)
    requires Start(count, prefetch, cfg.hasHandler) == Some(cfg) && Reachable(cfg, base, s)
    requires prefetch >= 1 && s.phase == Consuming && |s.outstanding| >= prefetch
    requires forall u | u in s.outstanding :: Good(s.slots, u)
    requires next == Reach(s.l.front, s.base) + 1 && Holds(s, next, Nacking)
    ensures AwakeOrHeld(s, next, Do(cfg, s, NackSent(next)))
  {
    assert Ledger(s) by {
      ReachableInv(cfg, base, s);
    }
    NackSentState(cfg, s, next);
    var t := Follow(cfg, base, s, NackSent(next));
    WindowAfterNack(cfg, count, prefetch, base, s, next, t);
  }

  lemma FourDelivered(cfg: Config) returns (s: Sys)
    ensures Reachable(cfg, 0, s) && s == Init(0).(delivered := 4, outstanding := {1, 2, 3, 4})
  {
    s := TwoDelivered(cfg);
    s := OneMoreDelivered(cfg, s);
    s := OneMoreDelivered(cfg, s);
  }

  lemma FourEntered(cfg: Config) returns (s: Sys)
    requires cfg == Config(None, 1, true)
    ensures Reachable(cfg, 0, s)
    ensures s == Init(0).(l := INITIAL.(reserved := 4, front := Front(1, 0, 0, {}, {})),
                          delivered := 4, entered := 4, outstanding := {1, 2, 3, 4},
                          slots := map[1 := Running, 2 := Running, 3 := Running, 4 := Running])
  {
    s := FourDelivered(cfg);
    s := EnterRunning(cfg, s);
    s := EnterRunning(cfg, s);
    s := EnterRunning(cfg, s);
    s := EnterRunning(cfg, s);
  }

  lemma RaiseRunning(cfg: Config, s: Sys, tag: nat) returns (t: Sys)
    requires Reachable(cfg, 0, s) && Holds(s, tag, Running) && !s.l.closing && tag in s.outstanding
    ensures Reachable(cfg, 0, t)
    ensures t == NackedAlone(s, tag)
  {
    RaiseStep(cfg, s, tag);
    t := Follow(cfg, 0, s, Raise(tag));
  }

  lemma ReturnBehind(cfg: Config, s: Sys, tag: nat) returns (t: Sys)
    requires Reachable(cfg, 0, s) && Holds(s, tag, Running) && cfg.count.None? && cfg.ackBatch == 1
    requires s.l.front.firstTag == 1 && s.l.front.frontier == 0 && s.l.front.ackRef == 0
    requires tag != 1 && 1 !in s.l.front.finishedOk && 1 !in s.l.front.finishedNack
    ensures Reachable(cfg, 0, t)
    ensures t.l == s.l.(settled := s.l.settled + 1, completed := s.l.completed + 1,
                        front := s.l.front.(finishedOk := s.l.front.finishedOk + {tag}))
    ensures t == s.(l := t.l, slots := s.slots[tag := Succeeded])
  {
    t := Follow(cfg, 0, s, Return(tag));
  }

  lemma NackingSome(s: Sys)
    requires s.outstanding == {1, 2, 3, 4}
    requires s.slots == map[1 := Running, 2 := Running, 3 := Running, 4 := Running]
    ensures NackedAlone(s, 1).outstanding == {2, 3, 4}
    ensures NackedAlone(s, 1).slots == map[1 := Nacking, 2 := Running, 3 := Running, 4 := Running]
  {
  }

  lemma OneNackInFlight(cfg: Config) returns (s: Sys)
    requires cfg == Config(None, 1, true)
    ensures Reachable(cfg, 0, s)
    ensures s.l == INITIAL.(reserved := 4, front := Front(1, 0, 0, {}, {})) && s.phase == Consuming && s.base == 0
    ensures s.outstanding == {2, 3, 4} && s.slots == map[1 := Nacking, 2 := Running, 3 := Running, 4 := Running]
  {
    var t := FourEntered(cfg);
    s := RaiseRunning(cfg, t, 1);
    NackingSome(t);
  }

  lemma TwoNacksInFlight(cfg: Config) returns (s: Sys)
    requires cfg == Config(None, 1, true)
    ensures Reachable(cfg, 0, s)
    ensures s.l == INITIAL.(reserved := 4, front := Front(1, 0, 0, {}, {})) && s.phase == Consuming && s.base == 0
    ensures s.outstanding == {3, 4} && s.slots == map[1 := Nacking, 2 := Nacking, 3 := Running, 4 := Running]
  {
    var t := OneNackInFlight(cfg);
    s := RaiseRunning(cfg, t, 2);
  }

  lemma OneSuccessBehind(cfg: Config) returns (s: Sys)
    requires cfg == Config(None, 1, true)
    ensures Reachable(cfg, 0, s)
    ensures s.l == INITIAL.(reserved := 4, settled := 1, completed := 1, front := Front(1, 0, 0, {3}, {}))
    ensures s.phase == Consuming && s.base == 0
    ensures s.outstanding == {3, 4} && s.slots == map[1 := Nacking, 2 := Nacking, 3 := Succeeded, 4 := Running]
  {
    var t := TwoNacksInFlight(cfg);
    s := ReturnBehind(cfg, t, 3);
    assert {} + {3} == {3};
  }

  lemma FirstNackEnds(cfg: Config, s: Sys)
    requires cfg == Config(None, 1, true)
    requires s.l == INITIAL.(reserved := 4, settled := 2, completed := 2, front := Front(1, 0, 0, {3, 4}, {}))
    ensures !Do(cfg, s, NackSent(1)).l.ackEvent
  {
    assert MarkFinished(s.l.front, 1, false) == Front(1, 0, 0, {3, 4}, {1}) by {
      assert {} + {1} == {1};
    }
    assert Advance(Front(1, 0, 0, {3, 4}, {1})) == Advance(Front(1, 1, 0, {3, 4}, {})) by {
      assert {1} - {1} == {};
    }
    assert Advance(Front(1, 1, 0, {3, 4}, {})) == Front(1, 1, 0, {3, 4}, {});
  }

  lemma TwoSuccessesBehind(cfg: Config) returns (s: Sys)
    requires cfg == Config(None, 1, true)
    ensures Reachable(cfg, 0, s)
    ensures s.l == INITIAL.(reserved := 4, settled := 2, completed := 2, front := Front(1, 0, 0, {3, 4}, {}))
    ensures s.phase == Consuming && s.base == 0
    ensures s.outstanding == {3, 4} && s.slots == map[1 := Nacking, 2 := Nacking, 3 := Succeeded, 4 := Succeeded]
  {
    var t := OneSuccessBehind(cfg);
    s := ReturnBehind(cfg, t, 4);
    assert {3} + {4} == {3, 4};
  }

  /** Two nacks in a row: the first to end hands the frontier to the second, and nobody is woken. */
  lemma NackMayHandOver() returns (cfg: Config, s: Sys)
    ensures Start(None, 2, true) == Some(cfg) && Reachable(cfg, 0, s)
    ensures s.phase == Consuming && |s.outstanding| >= 2 && Holds(s, 1, Nacking) && Reach(s.l.front, s.base) == 0
    ensures forall u | u in s.outstanding :: Good(s.slots, u)
    ensures !Do(cfg, s, NackSent(1)).l.ackEvent
  {
    cfg := Config(None, 1, true);
    s := TwoSuccessesBehind(cfg);
    FirstNackEnds(cfg, s);
    assert |{3, 4}| == 2;
  }

  // ---- the returned number

  /** The state in which the run last took `step`. */
  ghost function StateBefore(cfg: Config, base: nat, steps: seq<Step>, step: Step): Sys
    decreases |steps|
  {
    if steps == [] then Init(base)
    else
      var last := |steps| - 1;
      if steps[last] == step then After(cfg, base, steps[..last]) else StateBefore(cfg, base, steps[..last], step)
  }

  /** How a handler ended is never revised. */
  ghost predicate Outcomes(earlier: map<nat, Slot>, later: map<nat, Slot>) {
    forall t: nat :: (Good(earlier, t) ==> Good(later, t)) && (Bad(earlier, t) ==> Bad(later, t))
  }

  lemma SlotChangeKeepsOutcomes(slots: map<nat, Slot>, tag: nat, slot: Slot)
    requires !Over(slots, tag)
    ensures Outcomes(slots, slots[tag := slot])
  {
  }

  lemma StepKeepsOutcomes(cfg: Config, s: Sys, step: Step)
    requires Owns(cfg, s) && Enabled(cfg, s, step)
    ensures Outcomes(s.slots, Do(cfg, s, step).slots)
  {
    match step
    case Return(tag) => SlotChangeKeepsOutcomes(s.slots, tag, Succeeded);
    case Raise(tag) => SlotChangeKeepsOutcomes(s.slots, tag, if s.l.closing then Abandoned else Nacking);
    case Die(tag) => SlotChangeKeepsOutcomes(s.slots, tag, Abandoned);
    case NackSent(tag) => SlotChangeKeepsOutcomes(s.slots, tag, Failed);
    case Enter => EnterKeepsOutcomes(cfg, s);
    case _ =>
  }

  lemma EnterKeepsOutcomes(cfg: Config, s: Sys)
    requires Owns(cfg, s)
    ensures Outcomes(s.slots, EnterNext(cfg, s).slots)
  {
    if Accepts(cfg, s.l) {
      var tag := s.entered + 1;
      assert tag !in s.slots;
      SlotChangeKeepsOutcomes(s.slots, tag, Running);
      SlotChangeKeepsOutcomes(s.slots[tag := Running], tag, Succeeded);
    }
  }

  /** What the final ack fixed. */
  ghost predicate FixedBy(a: Sys, s: Sys) {
    && s.l.acked == a.l.front.ackRef && s.reason == a.reason && Outcomes(a.slots, s.slots)
  }

  predicate PastFinalAck(s: Sys) {
    s.phase in {FinalAcked, Swept, Returned}
  }

  /** Which step entered a phase; after the final ack nothing is acked and no reason changes. */
  lemma PhasesMoveOn(cfg: Config, s: Sys, step: Step)
    requires Enabled(cfg, s, step)
    ensures
      var t := Do(cfg, s, step);
      && (PastFinalAck(t) ==> step == SendFinalAck || PastFinalAck(s))
      && (t.phase == Returned ==> step == ReturnResult || (s.phase == Returned && t.result == s.result))
      && (PastFinalAck(s) ==> t.l.acked == s.l.acked && t.reason == s.reason)
      && (step == SendFinalAck ==> t.l.acked == AfterDueAck(s.l).acked && t.reason == s.reason && t.phase == FinalAcked)
      && (step == ReturnResult ==>
            t.result == (if s.reason == Cancelled then None else Some(s.l.completed)) && s.phase == Swept)
  {
  }

  lemma {:induction false} FinalAckFixes(cfg: Config, base: nat, steps: seq<Step>)
    requires cfg.Valid() && IsRun(cfg, base, steps) && PastFinalAck(After(cfg, base, steps))
    ensures
      var a := StateBefore(cfg, base, steps, SendFinalAck);
      Inv(cfg, a) && a.base == base && FixedBy(a, After(cfg, base, steps))
    decreases |steps|
  {
    var init, step := steps[..|steps| - 1], steps[|steps| - 1];
    var s := After(cfg, base, init);
    RunKeepsInv(cfg, base, init);
    StepKeepsOutcomes(cfg, s, step);
    PhasesMoveOn(cfg, s, step);
    if step != SendFinalAck {
      FinalAckFixes(cfg, base, init);
    }
  }

  /** What the return fixed: the state `r` it was taken in, seen from the final ack and from now. */
  ghost predicate ReturnedFrom(a: Sys, r: Sys, s: Sys) {
    && FixedBy(a, r) && Outcomes(r.slots, s.slots)
    && s.result == if r.reason == Cancelled then None else Some(r.l.completed)
  }

  lemma {:induction false} ReturnFixes(cfg: Config, base: nat, steps: seq<Step>)
    requires cfg.Valid() && IsRun(cfg, base, steps) && After(cfg, base, steps).phase == Returned
    ensures
      var r := StateBefore(cfg, base, steps, ReturnResult);
      Inv(cfg, r) && r.base == base && ReturnedFrom(StateBefore(cfg, base, steps, SendFinalAck), r, After(cfg, base, steps))
    decreases |steps|
  {
    var init, step := steps[..|steps| - 1], steps[|steps| - 1];
    var s := After(cfg, base, init);
    RunKeepsInv(cfg, base, init);
    StepKeepsOutcomes(cfg, s, step);
    PhasesMoveOn(cfg, s, step);
    if step == ReturnResult {
      FinalAckFixes(cfg, base, init);
    } else {
      ReturnFixes(cfg, base, init);
    }
  }

  /** By the state `a`, the tag had succeeded and every earlier handler had settled. */
  ghost predicate InSettledRun(a: Sys, t: nat) {
    Good(a.slots, t) && forall u: nat | a.base < u < t :: Over(a.slots, u)
  }

  lemma SettledRunIsAckable(cfg: Config, a: Sys, t: nat)
    requires Inv(cfg, a) && t in a.slots
    ensures InSettledRun(a, t) <==> Good(a.slots, t) && t <= a.l.front.ackRef
  {
    var f := Reach(a.l.front, a.base);
    assert !Over(a.slots, f + 1);
  }

  lemma AckedAreCountedOnes(cfg: Config, a: Sys, r: Sys, s: Sys, t: nat)
    requires Inv(cfg, a) && Inv(cfg, s) && FixedBy(a, r) && FixedBy(a, s) && Outcomes(r.slots, s.slots)
    requires a.base == s.base
    ensures t in AckedTags(s) <==> Good(r.slots, t) && t <= s.l.acked
    ensures Good(r.slots, t) ==> (t <= s.l.acked <==> InSettledRun(a, t))
  {
    AckedTagsAreGood(cfg, s);
    if a.base < t <= a.l.front.ackRef {
      DueAckCoversFinished(cfg, a, t);
    }
    if t in a.slots {
      SettledRunIsAckable(cfg, a, t);
    }
    if Good(r.slots, t) && t <= s.l.acked {
      assert Good(s.slots, t) && t > s.base;
    }
  }

  /**
   * The returned number is the number of acked messages exactly when every success it counts
   * had, by the final ack, no unsettled handler before it. A quota exit always meets that.
   */
  lemma ResultIsAckedIffNoneWaited(cfg: Config, base: nat, steps: seq<Step>)
    requires cfg.Valid() && IsRun(cfg, base, steps)
    requires After(cfg, base, steps).phase == Returned && After(cfg, base, steps).reason != Cancelled
    ensures
      var s, r := After(cfg, base, steps), StateBefore(cfg, base, steps, ReturnResult);
      var a := StateBefore(cfg, base, steps, SendFinalAck);
      && (s.result == Some(|AckedTags(s)|) <==> forall t: nat | Good(r.slots, t) :: InSettledRun(a, t))
      && (s.reason == Quota ==> s.result == Some(|AckedTags(s)|))
  {
    var s, r := After(cfg, base, steps), StateBefore(cfg, base, steps, ReturnResult);
    var a := StateBefore(cfg, base, steps, SendFinalAck);
    RunKeepsInv(cfg, base, steps);
    FinalAckFixes(cfg, base, steps);
    ReturnFixes(cfg, base, steps);
    CountedAgainstAcked(cfg, a, r, s);
    if s.reason == Quota {
      QuotaLeavesNoneWaiting(cfg, a, r);
    }
  }

  lemma CountedAgainstAcked(cfg: Config, a: Sys, r: Sys, s: Sys)
    requires Inv(cfg, a) && Inv(cfg, s) && FixedBy(a, r) && FixedBy(a, s) && Outcomes(r.slots, s.slots)
    requires a.base == s.base && r.l.completed == |Having(r.slots, Succeeded)|
    ensures r.l.completed == |AckedTags(s)| <==> forall t: nat | Good(r.slots, t) :: InSettledRun(a, t)
  {
    var acked, counted := AckedTags(s), Having(r.slots, Succeeded);
    assert forall t: nat ::
        (t in acked <==> Good(r.slots, t) && t <= s.l.acked) && (Good(r.slots, t) ==> (t <= s.l.acked <==> InSettledRun(a, t)))
    by {
      forall t: nat
        ensures t in acked <==> Good(r.slots, t) && t <= s.l.acked
        ensures Good(r.slots, t) ==> (t <= s.l.acked <==> InSettledRun(a, t))
      {
        AckedAreCountedOnes(cfg, a, r, s, t);
      }
    }
    SameSizeIffAll(acked, counted);
  }

  lemma SameSizeIffAll(some: set<nat>, all: set<nat>)
    requires some <= all
    ensures |some| == |all| <==> forall t | t in all :: t in some
  {
    SubsetSize(some, all);
    if forall t | t in all :: t in some {
      assert some == all;
    }
  }

  lemma QuotaLeavesNoneWaiting(cfg: Config, a: Sys, r: Sys)
    requires Inv(cfg, a) && Inv(cfg, r) && FixedBy(a, r) && a.base == r.base && r.reason == Quota
    ensures forall t: nat | Good(r.slots, t) :: InSettledRun(a, t)
  {
    QuotaSlotsAreOver(cfg, a);
    QuotaSlotsAreOver(cfg, r);
    forall t: nat | Good(r.slots, t)
      ensures InSettledRun(a, t)
    {
      assert t in a.slots && Over(a.slots, t);
    }
  }
}

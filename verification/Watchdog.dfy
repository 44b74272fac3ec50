/**
 * The Python client's consumer watchdog and the recovery loop around it.
 *
 * A poll sees the connection down, no channel under the consume channel, or a channel with
 * the consumer's tag present or absent. A silent broker cancel removes the tag from the same
 * channel object; a reconnect brings a new object whose consumers are still being restored.
 */
module Watchdog {
  import opened Options

  datatype Poll = Down | NoChannel | Seen(channel: nat, present: bool)

  /** The channel the watchdog has adopted after the polls in `trace`. */
  function Adopted(first: Option<nat>, trace: seq<Poll>): Option<nat> {
    if trace == [] then first
    else if trace[|trace| - 1].Seen? then Some(trace[|trace| - 1].channel)
    else Adopted(first, trace[..|trace| - 1])
  }

  /** The adopted channel is that of the last poll that saw one, else the one it started on. */
  lemma {:induction false} AdoptedIsLastSeen(first: Option<nat>, trace: seq<Poll>, k: nat)
    requires k <= |trace| && forall j | k <= j < |trace| :: !trace[j].Seen?
    ensures k > 0 && trace[k - 1].Seen? ==> Adopted(first, trace) == Some(trace[k - 1].channel)
    ensures k == 0 ==> Adopted(first, trace) == first
  {
    if k < |trace| {
      AdoptedIsLastSeen(first, trace[..|trace| - 1], k);
    }
  }

  /** Poll `k` sees the already adopted channel alive and without the tag. */
  predicate Missed(first: Option<nat>, trace: seq<Poll>, k: nat)
    requires k < |trace|
  {
    trace[k].Seen? && !trace[k].present && Adopted(first, trace[..k]) == Some(trace[k].channel)
  }

  /** Polls `i - 1` and `i` both miss. */
  predicate MissedTwice(first: Option<nat>, trace: seq<Poll>, i: nat)
    requires i < |trace|
  {
    i > 0 && Missed(first, trace, i - 1) && Missed(first, trace, i)
  }

  predicate FirstDoubleMiss(first: Option<nat>, trace: seq<Poll>, i: nat)
    requires i < |trace|
  {
    MissedTwice(first, trace, i) && forall j | 0 <= j < i :: !MissedTwice(first, trace, j)
  }

  /**
   * `_watch_consumer` over the polls of `trace`; `first` is the channel it starts on. It
   * raises, for a broker cancel, at exactly the first pair of consecutive polls that both see
   * the already adopted live channel without the tag.
   */
  method WatchConsumer(first: Option<nat>, trace: seq<Poll>) returns (raisedAt: Option<nat>)
    ensures raisedAt.Some? ==> raisedAt.value < |trace| && FirstDoubleMiss(first, trace, raisedAt.value)
    ensures raisedAt.None? ==> forall i: nat | i < |trace| :: !MissedTwice(first, trace, i)
  {
    var underlay := first;
    var misses := 0;
    for i := 0 to |trace|
      invariant underlay == Adopted(first, trace[..i])
      invariant misses == if i > 0 && Missed(first, trace, i - 1) then 1 else 0
      invariant forall j: nat | j < i :: !MissedTwice(first, trace, j)
    {
      assert trace[..i + 1][..i] == trace[..i];
      var poll := trace[i];
      if poll.Down? {
        misses := 0;
        continue;
      }
      if poll.NoChannel? {
        misses := 0;
        continue;
      }
      if underlay != Some(poll.channel) {
        underlay := Some(poll.channel);
        misses := 0;
        continue;
      }
      if poll.present {
        misses := 0;
        continue;
      }
      misses := misses + 1;
      if misses >= 2 {
        return Some(i);
      }
    }
    raisedAt := None;
  }

  /** A raise is never caused by a reconnect: the channel was adopted before both misses. */
  lemma RaiseIsOnOldChannel(first: Option<nat>, trace: seq<Poll>, i: nat)
    requires i < |trace| && FirstDoubleMiss(first, trace, i)
    ensures i >= 1 && trace[i - 1] == trace[i] == Seen(trace[i].channel, false)
    ensures Adopted(first, trace[..i - 1]) == Some(trace[i].channel)
  {
    assert trace[..i][..i - 1] == trace[..i - 1];
  }

  /**
   * A slow restore, in general: from poll `from` on the watchdog sees channel `u`, which it has
   * adopted before, and the tag is back from poll `r` on. It is mistaken for a broker cancel
   * exactly when the tag is absent at both of the first two polls.
   */
  lemma SlowRestoreMistakenIffTwoMisses(first: Option<nat>, trace: seq<Poll>, from: nat, r: nat, u: nat)
    requires from + 1 < |trace| && Adopted(first, trace[..from]) == Some(u)
    requires from > 0 ==> !Missed(first, trace, from - 1)
    requires forall k | from <= k < |trace| :: trace[k] == Seen(u, k >= r)
    requires forall j: nat | j < from :: !MissedTwice(first, trace, j)
    ensures r > from + 1 ==> FirstDoubleMiss(first, trace, from + 1)
    ensures r <= from + 1 ==> forall j: nat | j < |trace| :: !MissedTwice(first, trace, j)
  {
    forall k: nat | from <= k < |trace|
      ensures Adopted(first, trace[..k]) == Some(u)
    {
      if k > from {
        assert trace[..k][|trace[..k]| - 1] == trace[k - 1];
      }
    }
    if r <= from + 1 {
      forall j: nat | j < |trace|
        ensures !MissedTwice(first, trace, j)
      {
        if j > from {
          assert trace[j] == Seen(u, j >= r);
        }
      }
    }
  }

  /**
   * After a reconnect the watchdog adopts the new channel at poll `a`; suppose the tag is back
   * from poll `r` on. It is mistaken for a broker cancel exactly when the restore takes until
   * the third poll after the adoption, or longer.
   */
  lemma SlowRestoreMistakenIffPastTwoPolls(first: Option<nat>, trace: seq<Poll>, a: nat, r: nat, u: nat)
    requires a + 2 < |trace| && a < r
    requires trace[a].Seen? && trace[a].channel == u && Adopted(first, trace[..a]) != Some(u)
    requires forall k | a < k < |trace| :: trace[k] == Seen(u, k >= r)
    requires forall j: nat | j < a :: !MissedTwice(first, trace, j)
    ensures r > a + 2 ==> FirstDoubleMiss(first, trace, a + 2)
    ensures r <= a + 2 ==> forall j: nat | j < |trace| :: !MissedTwice(first, trace, j)
  {
    assert trace[..a + 1][|trace[..a + 1]| - 1] == trace[a];
    SlowRestoreMistakenIffTwoMisses(first, trace, a + 1, r, u);
  }

  /** A watch that starts on the new channel has adopted it before its first poll. */
  lemma SlowRestoreAtStartMistakenIffPastTwoPolls(trace: seq<Poll>, r: nat, u: nat)
    requires 2 <= |trace| && forall k | 0 <= k < |trace| :: trace[k] == Seen(u, k >= r)
    ensures r > 1 ==> FirstDoubleMiss(Some(u), trace, 1)
    ensures r <= 1 ==> forall j: nat | j < |trace| :: !MissedTwice(Some(u), trace, j)
  {
    SlowRestoreMistakenIffTwoMisses(Some(u), trace, 0, r, u);
  }

  // ---- one handle over any number of recoveries

  /** `Failed` is a task that ended because re-establishing the consumer raised. */
  datatype Phase = Watching(tag: nat) | BackingOff | Failed | Stopped

  /** `registered` holds the tags the robust machinery would restore for this handle. */
  datatype Handle = Handle(phase: Phase, registered: set<nat>, used: set<nat>)

  datatype Event =
    | BrokerCancelSeen(rpcOk: bool)
    | CancelRequested(rpcOk: bool)
    | Reestablished(tag: nat)
    | ReestablishFailed
    | Reconnected

  predicate Possible(h: Handle, e: Event) {
    match e
    case BrokerCancelSeen(_) => h.phase.Watching?
    case CancelRequested(_) => h.phase.Watching? || h.phase.BackingOff?
    case Reestablished(tag) => h.phase.BackingOff? && tag !in h.used
    case ReestablishFailed => h.phase.BackingOff?
    case Reconnected => true
  }

  /** `q.cancel(tag)`: the library forgets the tag only after a successful RPC. */
  function CancelRpc(registered: set<nat>, tag: nat, ok: bool): set<nat> {
    if ok then registered - {tag} else registered
  }

  /** The watchdog's `finally`: on a failed RPC the client forgets the tag itself. */
  function Teardown(registered: set<nat>, tag: nat, rpcOk: bool): set<nat> {
    var after := CancelRpc(registered, tag, rpcOk);
    if rpcOk then after else after - {tag}
  }

  /** What the event does to the handle; an event that is not possible does nothing. */
  function React(h: Handle, e: Event): Handle {
    if !Possible(h, e) then h
    else match e
    case BrokerCancelSeen(ok) => h.(phase := BackingOff, registered := Teardown(h.registered, h.phase.tag, ok))
    case CancelRequested(ok) =>
      if h.phase.Watching? then h.(phase := Stopped, registered := Teardown(h.registered, h.phase.tag, ok))
      else h.(phase := Stopped)
    case Reestablished(tag) => Handle(Watching(tag), h.registered + {tag}, h.used + {tag})
    case ReestablishFailed => h.(phase := Failed)
    case Reconnected => h
  }

  predicate IsLife(tag: nat, events: seq<Event>)
    decreases |events|
  {
    events == [] || (IsLife(tag, events[..|events| - 1])
                     && Possible(Life(tag, events[..|events| - 1]), events[|events| - 1]))
  }

  function Life(tag: nat, events: seq<Event>): Handle
    decreases |events|
  {
    if events == [] then Handle(Watching(tag), {tag}, {tag})
    else React(Life(tag, events[..|events| - 1]), events[|events| - 1])
  }

  /**
   * Across every sequence of broker cancels, failed cancel RPCs, reconnects and recoveries the
   * handle has at most one registered consumer, its current one. It ends on its own only by a
   * failed re-establishment; otherwise it runs until its `cancel`.
   */
  lemma {:induction false} AtMostOneRegisteredTag(tag: nat, events: seq<Event>)
    requires IsLife(tag, events)
    ensures
      var h := Life(tag, events);
      && h.registered == (if h.phase.Watching? then {h.phase.tag} else {})
      && (h.phase.Failed? <==> ReestablishFailed in events)
      && (h.phase.Stopped? <==> exists ok :: CancelRequested(ok) in events)
    decreases |events|
  {
    if events != [] {
      var init, last := events[..|events| - 1], events[|events| - 1];
      AtMostOneRegisteredTag(tag, init);
      assert events == init + [last];
    }
  }
}

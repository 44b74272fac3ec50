/**
 * One transaction: the session's view of the database, the events staged in it, and a commit
 * that publishes them afterwards. How the database and the publisher answer is an input.
 */
module UnitOfWork {
  import opened Sequences
  import opened StateStore

  datatype EventKind = CreatedEvent | UpdatedEvent

  datatype StateEvent = StateEvent(kind: EventKind, identity: Identity, data: Data)

  /** A failing commit may have reached the database: only its answer was lost. */
  datatype CommitOutcome = CommitOk | CommitFails(applied: bool)

  /** `Interrupted` is a cancellation that lands while the event is being published. */
  datatype PublishFate = Accepted | Refused | Interrupted

  datatype Report = Report(sent: seq<StateEvent>, failed: seq<StateEvent>, unsent: seq<StateEvent>)

  datatype CommitReply =
    | CommitRaised(atRisk: seq<StateEvent>)
    | Returned(report: Report)
    | PublishCancelled(report: Report)

  /** Publishes `events` from number `n` on, in order, until the end or an interruption. */
  function Publish(events: seq<StateEvent>, fate: nat -> PublishFate, n: nat): Report
    decreases |events| - n
  {
    if n >= |events| then Report([], [], [])
    else
      var rest := Publish(events, fate, n + 1);
      match fate(n)
      case Accepted => rest.(sent := [events[n]] + rest.sent)
      case Refused => rest.(failed := [events[n]] + rest.failed)
      case Interrupted => Report([], [], events[n..])
  }

  function Reply(events: seq<StateEvent>, fate: nat -> PublishFate): CommitReply {
    var report := Publish(events, fate, 0);
    if report.unsent == [] then Returned(report) else PublishCancelled(report)
  }

  /** What the database holds after a commit of `session` that ended like `outcome`. */
  function Landed(before: Store, session: Store, outcome: CommitOutcome): Store {
    if outcome == CommitFails(false) then before else session
  }

  class Database {
    var store: Store
    var published: seq<StateEvent>

    constructor ()
      ensures store == EMPTY && published == []
    {
      store := EMPTY;
      published := [];
    }
  }

  class UnitOfWork {
    const db: Database
    var session: Store
    var staged: seq<StateEvent>
    var committed: bool
    /** Where the events this unit of work ever staged are now. */
    ghost var ledger: Ledger

    ghost predicate Valid()
      reads this
    {
      staged == ledger.staged
    }

    constructor (db: Database)
      ensures this.db == db && session == db.store && staged == [] && !committed
      ensures Valid() && ledger == NOTHING_STAGED
    {
      this.db := db;
      session := db.store;
      staged := [];
      committed := false;
      ledger := NOTHING_STAGED;
    }

    method StageEvent(event: StateEvent)
      requires Valid()
      modifies `staged, `ledger
      ensures staged == old(staged) + [event]
      ensures Valid() && ledger == Advance(old(ledger), Stage(event))
    {
      staged := staged + [event];
      ledger := Advance(ledger, Stage(event));
    }

    /** The bulk inbox insert: returns the pairs that were not there. */
    method MarkEventsProcessed(pairs: seq<Identity>) returns (news: set<Identity>)
      modifies `session
      ensures news == (set p | p in pairs) - old(session.inbox)
      ensures session == old(session).(inbox := old(session.inbox) + news)
    {
      if pairs == [] {
        return {};
      }
      news := (set p | p in pairs) - session.inbox;
      session := session.(inbox := session.inbox + news);
    }

    method Commit(outcome: CommitOutcome, fate: nat -> PublishFate) returns (r: CommitReply)
      requires Valid()
      ensures r.CommitRaised? <==> outcome.CommitFails?
      ensures r.PublishCancelled? <==>
                outcome.CommitOk? && exists k: nat :: k < |old(staged)| && fate(k).Interrupted?
      modifies `staged, `committed, `ledger, db
      ensures Valid() && ledger == Advance(old(ledger), TryCommit(outcome, fate))
      ensures db.store == Landed(old(db.store), session, outcome)
      ensures outcome != CommitFails(false) ==> db.store == session
      ensures outcome == CommitFails(false) ==> db.store == old(db.store)
      ensures outcome.CommitFails? ==>
                && r == CommitRaised(old(staged)) && staged == old(staged)
                && committed == old(committed) && db.published == old(db.published)
      ensures outcome.CommitOk? ==>
                && r == Reply(old(staged), fate) && staged == [] && committed
                && db.published == old(db.published) + Publish(old(staged), fate, 0).sent
    {
      if outcome.CommitFails? {
        if outcome.applied {
          db.store := session;
        }
        return CommitRaised(staged);
      }
      CutShortIffInterrupted(staged, fate);
      db.store := session;
      committed := true;
      ledger := Advance(ledger, TryCommit(outcome, fate));
      var events := staged;
      staged := [];
      var sent, failed := [], [];
      for index := 0 to |events|
        invariant sent + Publish(events, fate, index).sent == Publish(events, fate, 0).sent
        invariant failed + Publish(events, fate, index).failed == Publish(events, fate, 0).failed
        invariant Publish(events, fate, index).unsent == Publish(events, fate, 0).unsent
        invariant db.store == session && committed && staged == [] && Valid()
        invariant ledger == Advance(old(ledger), TryCommit(outcome, fate))
        invariant db.published == old(db.published) + sent
      {
        ghost var rest := Publish(events, fate, index + 1);
        match fate(index) {
          case Accepted =>
            Associate(sent, [events[index]], rest.sent);
            db.published := db.published + [events[index]];
            sent := sent + [events[index]];
          case Refused =>
            Associate(failed, [events[index]], rest.failed);
            failed := failed + [events[index]];
          case Interrupted =>
            return PublishCancelled(Report(sent, failed, events[index..]));
        }
      }
      r := Returned(Report(sent, failed, []));
    }

    /** Leaving the block without a commit rolls the session back. */
    method Exit()
      modifies `session
      ensures session == if committed then old(session) else db.store
    {
      if !committed {
        session := db.store;
      }
    }
  }

  // ---- what the publishing loop promises

  /** The first interrupted event, or the number of events. */
  function Stop(events: seq<StateEvent>, fate: nat -> PublishFate, n: nat): nat
    decreases |events| - n
  {
    if n >= |events| then |events| else if fate(n).Interrupted? then n else Stop(events, fate, n + 1)
  }

  /** The events numbered below `n` that met `kind`, in staging order. */
  function Select(events: seq<StateEvent>, fate: nat -> PublishFate, kind: PublishFate, n: nat): seq<StateEvent>
    requires n <= |events|
  {
    if n == 0 then []
    else Select(events, fate, kind, n - 1) + (if fate(n - 1) == kind then [events[n - 1]] else [])
  }

  lemma {:induction false} StopIsFirst(events: seq<StateEvent>, fate: nat -> PublishFate, n: nat)
    requires n <= |events|
    ensures n <= Stop(events, fate, n) <= |events|
    ensures forall k | n <= k < Stop(events, fate, n) :: !fate(k).Interrupted?
    ensures Stop(events, fate, n) < |events| ==> fate(Stop(events, fate, n)).Interrupted?
    decreases |events| - n
  {
    if n < |events| && !fate(n).Interrupted? {
      StopIsFirst(events, fate, n + 1);
    }
  }

  lemma {:induction false} SentInOrder(events: seq<StateEvent>, fate: nat -> PublishFate, n: nat)
    requires n <= |events|
    ensures n <= Stop(events, fate, n) <= |events|
    ensures Select(events, fate, Accepted, n) + Publish(events, fate, n).sent
         == Select(events, fate, Accepted, Stop(events, fate, n))
    decreases |events| - n
  {
    if n < |events| && !fate(n).Interrupted? {
      SentInOrder(events, fate, n + 1);
      if fate(n) == Accepted {
        Associate(Select(events, fate, Accepted, n), [events[n]], Publish(events, fate, n + 1).sent);
      }
    }
  }

  lemma {:induction false} RefusedInOrder(events: seq<StateEvent>, fate: nat -> PublishFate, n: nat)
    requires n <= |events|
    ensures n <= Stop(events, fate, n) <= |events|
    ensures Select(events, fate, Refused, n) + Publish(events, fate, n).failed
         == Select(events, fate, Refused, Stop(events, fate, n))
    decreases |events| - n
  {
    if n < |events| && !fate(n).Interrupted? {
      RefusedInOrder(events, fate, n + 1);
      if fate(n) == Refused {
        Associate(Select(events, fate, Refused, n), [events[n]], Publish(events, fate, n + 1).failed);
      }
    }
  }

  lemma {:induction false} UnsentIsTheRest(events: seq<StateEvent>, fate: nat -> PublishFate, n: nat)
    requires n <= |events|
    ensures n <= Stop(events, fate, n) <= |events|
    ensures Publish(events, fate, n).unsent == events[Stop(events, fate, n)..]
    decreases |events| - n
  {
    if n < |events| && !fate(n).Interrupted? {
      UnsentIsTheRest(events, fate, n + 1);
    }
  }

  lemma PublishInOrder(events: seq<StateEvent>, fate: nat -> PublishFate, n: nat)
    requires n <= |events|
    ensures n <= Stop(events, fate, n) <= |events|
    ensures Publish(events, fate, n).unsent == events[Stop(events, fate, n)..]
    ensures Select(events, fate, Accepted, n) + Publish(events, fate, n).sent
         == Select(events, fate, Accepted, Stop(events, fate, n))
    ensures Select(events, fate, Refused, n) + Publish(events, fate, n).failed
         == Select(events, fate, Refused, Stop(events, fate, n))
  {
    SentInOrder(events, fate, n);
    RefusedInOrder(events, fate, n);
    UnsentIsTheRest(events, fate, n);
  }

  function Everything(report: Report): multiset<StateEvent> {
    multiset(report.sent) + multiset(report.failed) + multiset(report.unsent)
  }

  lemma {:induction false} PublishLosesNothing(events: seq<StateEvent>, fate: nat -> PublishFate, n: nat)
    requires n <= |events|
    ensures Everything(Publish(events, fate, n)) == multiset(events[n..])
    decreases |events| - n
  {
    if n < |events| && !fate(n).Interrupted? {
      PublishLosesNothing(events, fate, n + 1);
      var e, rest := events[n], Publish(events, fate, n + 1);
      assert events[n..] == [e] + events[n + 1..];
      assert multiset(events[n..]) == multiset{e} + Everything(rest);
      if fate(n) == Accepted {
        assert multiset([e] + rest.sent) == multiset{e} + multiset(rest.sent);
      } else {
        assert multiset([e] + rest.failed) == multiset{e} + multiset(rest.failed);
      }
    }
  }

  /**
   * After a commit the staged list splits exactly: up to the first interruption the accepted
   * events were published and the refused ones logged, each once and in staging order, and
   * the rest is the suffix reported as not published.
   */
  lemma StagedSplitsExactly(events: seq<StateEvent>, fate: nat -> PublishFate)
    ensures
      var stop := Stop(events, fate, 0);
      var report := Publish(events, fate, 0);
      && stop <= |events|
      && report.sent == Select(events, fate, Accepted, stop)
      && report.failed == Select(events, fate, Refused, stop)
      && report.unsent == events[stop..]
      && (report.unsent != [] <==> exists k: nat :: k < |events| && fate(k).Interrupted?)
      && Everything(report) == multiset(events)
  {
    StopIsFirst(events, fate, 0);
    PublishInOrder(events, fate, 0);
    PublishLosesNothing(events, fate, 0);
    assert events[0..] == events;
  }

  /** The caller sees a cancellation exactly when one landed on some event. */
  lemma CutShortIffInterrupted(events: seq<StateEvent>, fate: nat -> PublishFate)
    ensures Reply(events, fate).PublishCancelled? <==> exists k: nat :: k < |events| && fate(k).Interrupted?
    ensures Reply(events, fate).Returned? <==> !Reply(events, fate).PublishCancelled?
  {
    StagedSplitsExactly(events, fate);
  }

  // ---- every use of one unit of work

  datatype Step = Stage(event: StateEvent) | TryCommit(outcome: CommitOutcome, fate: nat -> PublishFate)

  /** The events ever staged, those a successful commit covered, and where they went. */
  datatype Ledger = Ledger(
    everStaged: seq<StateEvent>, covered: seq<StateEvent>, staged: seq<StateEvent>,
    published: seq<StateEvent>, refused: seq<StateEvent>, unsent: seq<StateEvent>)

  const NOTHING_STAGED := Ledger([], [], [], [], [], [])

  function Advance(l: Ledger, step: Step): Ledger {
    match step
    case Stage(event) => l.(everStaged := l.everStaged + [event], staged := l.staged + [event])
    case TryCommit(CommitFails(_), _) => l
    case TryCommit(CommitOk, fate) =>
      var report := Publish(l.staged, fate, 0);
      l.(covered := l.covered + l.staged, staged := [], published := l.published + report.sent,
         refused := l.refused + report.failed, unsent := l.unsent + report.unsent)
  }

  function Play(steps: seq<Step>): Ledger {
    if |steps| == 0 then NOTHING_STAGED else Advance(Play(steps[..|steps| - 1]), steps[|steps| - 1])
  }

  /** The way one covered event went. */
  datatype Way = WentOut | WasRefused | StayedBehind

  /** The events that went `way`, in their order. */
  function Pick(events: seq<StateEvent>, ways: seq<Way>, way: Way): seq<StateEvent>
    requires |ways| == |events|
  {
    if events == [] then []
    else (if ways[0] == way then [events[0]] else []) + Pick(events[1..], ways[1..], way)
  }

  lemma {:induction false} PickAppends(a: seq<StateEvent>, u: seq<Way>, b: seq<StateEvent>, v: seq<Way>, way: Way)
    requires |a| == |u| && |b| == |v|
    ensures Pick(a + b, u + v, way) == Pick(a, u, way) + Pick(b, v, way)
  {
    if a == [] {
      assert a + b == b && u + v == v;
    } else {
      var head := if u[0] == way then [a[0]] else [];
      PickAppends(a[1..], u[1..], b, v, way);
      assert (a + b)[1..] == a[1..] + b && (u + v)[1..] == u[1..] + v;
      Associate(head, Pick(a[1..], u[1..], way), Pick(b, v, way));
    }
  }

  lemma {:induction false} PickOne(events: seq<StateEvent>, ways: seq<Way>, one: Way, way: Way)
    requires |ways| == |events| && forall k | 0 <= k < |ways| :: ways[k] == one
    ensures Pick(events, ways, way) == if way == one then events else []
  {
    if events != [] {
      PickOne(events[1..], ways[1..], one, way);
      assert [events[0]] + events[1..] == events;
    }
  }

  function Ways(events: seq<StateEvent>, fate: nat -> PublishFate, n: nat): (ways: seq<Way>)
    requires n <= |events|
    ensures |ways| == |events| - n
    decreases |events| - n
  {
    if n == |events| then []
    else match fate(n)
      case Accepted => [WentOut] + Ways(events, fate, n + 1)
      case Refused => [WasRefused] + Ways(events, fate, n + 1)
      case Interrupted => seq(|events| - n, _ => StayedBehind)
  }

  /** One commit's report is the three-way split of the staged events, each part in staging order. */
  lemma {:induction false} ReportPicks(events: seq<StateEvent>, fate: nat -> PublishFate, n: nat)
    requires n <= |events|
    ensures
      var tail, ways, report := events[n..], Ways(events, fate, n), Publish(events, fate, n);
      && report.sent == Pick(tail, ways, WentOut)
      && report.failed == Pick(tail, ways, WasRefused)
      && report.unsent == Pick(tail, ways, StayedBehind)
    decreases |events| - n
  {
    var tail, ways := events[n..], Ways(events, fate, n);
    if n < |events| {
      if fate(n).Interrupted? {
        PickOne(tail, ways, StayedBehind, WentOut);
        PickOne(tail, ways, StayedBehind, WasRefused);
        PickOne(tail, ways, StayedBehind, StayedBehind);
      } else {
        ReportPicks(events, fate, n + 1);
        assert tail[0] == events[n] && tail[1..] == events[n + 1..];
        assert ways[1..] == Ways(events, fate, n + 1);
      }
    }
  }

  /** `ways` says of each covered event, in staging order, which single way it went. */
  ghost predicate Splits(l: Ledger, ways: seq<Way>) {
    && |ways| == |l.covered|
    && l.published == Pick(l.covered, ways, WentOut)
    && l.refused == Pick(l.covered, ways, WasRefused)
    && l.unsent == Pick(l.covered, ways, StayedBehind)
  }

  lemma CommitSplits(l: Ledger, ways: seq<Way>, fate: nat -> PublishFate)
    requires Splits(l, ways)
    ensures Splits(Advance(l, TryCommit(CommitOk, fate)), ways + Ways(l.staged, fate, 0))
  {
    var more := Ways(l.staged, fate, 0);
    ReportPicks(l.staged, fate, 0);
    assert l.staged[0..] == l.staged;
    PickAppends(l.covered, ways, l.staged, more, WentOut);
    PickAppends(l.covered, ways, l.staged, more, WasRefused);
    PickAppends(l.covered, ways, l.staged, more, StayedBehind);
  }

  /**
   * Over every sequence of stagings and commits: an event is published, refused or reported
   * only after a commit that covered it succeeded, each covered event goes exactly one of the
   * three ways, all three in staging order, and what no commit covered is still staged.
   */
  lemma {:induction false} PublishedOnlyAfterCommit(steps: seq<Step>)
    ensures
      var l := Play(steps);
      l.everStaged == l.covered + l.staged && exists ways :: Splits(l, ways)
  {
    if |steps| == 0 {
      assert Splits(NOTHING_STAGED, []);
    } else {
      PublishedOnlyAfterCommit(steps[..|steps| - 1]);
      var l, step := Play(steps[..|steps| - 1]), steps[|steps| - 1];
      var ways :| Splits(l, ways);
      match step
      case TryCommit(CommitOk, fate) => CommitSplits(l, ways, fate);
      case _ => assert Splits(Advance(l, step), ways);
    }
  }
}

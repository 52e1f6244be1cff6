/** The status state machine of `updateStatus`: which (current, requested) pairs
    are legal and how each legal pair rewrites the status-dependent fields. */
module Lifecycle {
  import opened Wrappers
  import opened IncidentTypes
  import opened AuditMessage

  /** The nine legal (current, requested) pairs. DISCARDED is the only status
      that no pair leaves. */
  const LegalTransitions: set<(Status, Status)> := {
    (Open, Investigating), (Open, Discarded),
    (Investigating, Identified), (Investigating, Discarded),
    (Identified, Mitigated),
    (Mitigated, Resolved),
    (Resolved, Closed), (Resolved, Investigating),
    (Closed, Investigating)
  }

  /** The error an illegal pair fails with: leaving DISCARDED has its own kind. */
  function TransitionError(from: Status, to: Status): Error {
    if from == Discarded then DiscardedIsFinal(to) else InvalidTransition(from, to)
  }

  /** The clocks of a freshly created incident whose SLA clock starts at `now`. */
  function InitialClocks(now: Timestamp): Clocks {
    Clocks(None, None, None, now)
  }

  /** Validates the pair and derives the new clocks; `now` is the time of the call. */
  function Transition(from: Status, to: Status, now: Timestamp, c: Clocks): (r: Result<Clocks, Error>)
    ensures r.Success? <==> (from, to) in LegalTransitions
    ensures r.Failure? ==> r.error == TransitionError(from, to)
    // acknowledging
    ensures r.Success? && from == Open && to == Investigating ==> r.value == c.(acknowledgedAt := Some(now))
    // resolving
    ensures r.Success? && from == Mitigated ==> r.value == c.(resolvedAt := Some(now))
    // closing
    ensures r.Success? && from == Resolved && to == Closed ==> r.value == c.(closedAt := Some(now))
    // reopening restarts the SLA clock and forgets the previous cycle
    ensures r.Success? && IsReopen(from, to) ==> r.value == InitialClocks(now)
    // the pairs without field effects
    ensures r.Success? && (to == Discarded || to == Identified || to == Mitigated) ==> r.value == c
  {
    match from
    case Open =>
      if to == Investigating then Success(c.(acknowledgedAt := Some(now)))
      else if to == Discarded then Success(c)
      else Failure(InvalidTransition(Open, to))
    case Investigating =>
      if to == Identified then Success(c)
      else if to == Discarded then Success(c)
      else Failure(InvalidTransition(Investigating, to))
    case Identified =>
      if to == Mitigated then Success(c)
      else Failure(InvalidTransition(Identified, to))
    case Mitigated =>
      if to == Resolved then Success(c.(resolvedAt := Some(now)))
      else Failure(InvalidTransition(Mitigated, to))
    case Resolved =>
      if to == Closed then Success(c.(closedAt := Some(now)))
      else if to == Investigating then Success(c.(currentSlaStartAt := now, acknowledgedAt := None, resolvedAt := None, closedAt := None))
      else Failure(InvalidTransition(Resolved, to))
    case Closed =>
      if to == Investigating then Success(c.(currentSlaStartAt := now, acknowledgedAt := None, resolvedAt := None, closedAt := None))
      else Failure(InvalidTransition(Closed, to))
    case Discarded =>
      Failure(DiscardedIsFinal(to))
  }

  /** DISCARDED accepts no target at all. */
  lemma DiscardedIsTerminal(to: Status, now: Timestamp, c: Clocks)
    ensures Transition(Discarded, to, now, c) == Failure(DiscardedIsFinal(to))
  {
  }

  /** A legal pair restarts the SLA clock exactly when it reopens the incident,
      which is exactly when its audit message says "reopened". */
  lemma ResetIffReopenMessage(from: Status, to: Status, now: Timestamp, c: Clocks)
    requires (from, to) in LegalTransitions
    requires now != c.currentSlaStartAt
    ensures Transition(from, to, now, c).value.currentSlaStartAt == now
        <==> Contains(BuildStatusMessage(from, to), "reopened")
  {
    ReopenedIff(from, to);
  }

  /** The shape of the clocks that the lifecycle allows in each status: nothing is
      acknowledged while OPEN, a resolution is on record exactly while RESOLVED or
      CLOSED, and a closing time exactly while CLOSED. */
  predicate Consistent(s: Status, c: Clocks) {
    && (s == Open ==> c.acknowledgedAt.None?)
    && (c.resolvedAt.Some? <==> (s == Resolved || s == Closed))
    && (c.closedAt.Some? <==> s == Closed)
  }

  /** Every recorded time lies in `[currentSlaStartAt, until]`, and acknowledging,
      resolving and closing happen in that order. */
  predicate Chronological(c: Clocks, until: Timestamp) {
    && c.currentSlaStartAt <= until
    && (c.acknowledgedAt.Some? ==> c.currentSlaStartAt <= c.acknowledgedAt.value <= until)
    && (c.resolvedAt.Some? ==> c.currentSlaStartAt <= c.resolvedAt.value <= until)
    && (c.closedAt.Some? ==> c.currentSlaStartAt <= c.closedAt.value <= until)
    && (c.acknowledgedAt.Some? && c.resolvedAt.Some? ==> c.acknowledgedAt.value <= c.resolvedAt.value)
    && (c.resolvedAt.Some? && c.closedAt.Some? ==> c.resolvedAt.value <= c.closedAt.value)
  }

  lemma InitialClocksConsistent(now: Timestamp)
    ensures Consistent(Open, InitialClocks(now)) && Chronological(InitialClocks(now), now)
  {
  }

  /** A legal transition keeps the clocks consistent with the status. */
  lemma TransitionKeepsConsistent(from: Status, to: Status, now: Timestamp, c: Clocks)
    requires Consistent(from, c)
    requires Transition(from, to, now, c).Success?
    ensures Consistent(to, Transition(from, to, now, c).value)
  {
  }

  /** From a consistent state, a legal transition keeps the clocks chronological
      when the call time is no earlier than every time already recorded. */
  lemma TransitionKeepsChronological(from: Status, to: Status, now: Timestamp, c: Clocks, last: Timestamp)
    requires Consistent(from, c) && Chronological(c, last) && last <= now
    requires Transition(from, to, now, c).Success?
    ensures Chronological(Transition(from, to, now, c).value, now)
  {
  }

  /** The premise `last <= now` is needed: a call time earlier than a recorded
      time, as when a request samples the clock before a concurrent commit lands,
      closes an incident before it was resolved. */
  lemma EarlierCallTimeBreaksChronology()
    ensures
      var c := Clocks(Some(900), Some(1001), None, 800);
      && Consistent(Resolved, c) && Chronological(c, 1001)
      && Transition(Resolved, Closed, 1000, c) == Success(c.(closedAt := Some(1000)))
      && !Chronological(Transition(Resolved, Closed, 1000, c).value, 1001)
  {
  }

  /** A requested status change applied at time `at`. */
  datatype Step = Step(to: Status, at: Timestamp)

  /** Applies `steps` in order, failing at the first illegal one. */
  function Replay(s: Status, c: Clocks, steps: seq<Step>): Result<(Status, Clocks), Error>
    decreases |steps|
  {
    if |steps| == 0 then Success((s, c))
    else match Transition(s, steps[0].to, steps[0].at, c)
      case Failure(e) => Failure(e)
      case Success(c') => Replay(steps[0].to, c', steps[1..])
  }

  /** The step times never go backwards and none is before `start`. */
  predicate TimesFrom(steps: seq<Step>, start: Timestamp) {
    forall i, j :: 0 <= i <= j < |steps| ==> start <= steps[i].at <= steps[j].at
  }

  /** The last step time, or `start` when there are no steps. */
  function LastTime(steps: seq<Step>, start: Timestamp): Timestamp {
    if |steps| == 0 then start else steps[|steps| - 1].at
  }

  /** Any sequence of legal transitions keeps the lifecycle invariant. */
  lemma {:induction false} ReplayKeepsInvariant(s: Status, c: Clocks, steps: seq<Step>, start: Timestamp)
    requires Consistent(s, c) && Chronological(c, start)
    requires TimesFrom(steps, start)
    requires Replay(s, c, steps).Success?
    ensures Consistent(Replay(s, c, steps).value.0, Replay(s, c, steps).value.1)
    ensures Chronological(Replay(s, c, steps).value.1, LastTime(steps, start))
    decreases |steps|
  {
    if |steps| > 0 {
      var step := steps[0];
      TransitionKeepsConsistent(s, step.to, step.at, c);
      TransitionKeepsChronological(s, step.to, step.at, c, start);
      var c' := Transition(s, step.to, step.at, c).value;
      var rest := steps[1..];
      assert TimesFrom(rest, step.at) by {
        forall i, j | 0 <= i <= j < |rest|
          ensures step.at <= rest[i].at <= rest[j].at
        {
          assert rest[i] == steps[i + 1] && rest[j] == steps[j + 1];
        }
      }
      ReplayKeepsInvariant(step.to, c', rest, step.at);
      assert LastTime(rest, step.at) == LastTime(steps, start);
    }
  }

  /** Every state reachable from creation satisfies the lifecycle invariant. */
  lemma ReachableStatesConsistent(created: Timestamp, steps: seq<Step>)
    requires TimesFrom(steps, created)
    requires Replay(Open, InitialClocks(created), steps).Success?
    ensures Consistent(Replay(Open, InitialClocks(created), steps).value.0, Replay(Open, InitialClocks(created), steps).value.1)
    ensures Chronological(Replay(Open, InitialClocks(created), steps).value.1, LastTime(steps, created))
  {
    InitialClocksConsistent(created);
    ReplayKeepsInvariant(Open, InitialClocks(created), steps, created);
  }

  /** Once DISCARDED, every non-empty sequence of steps fails. */
  lemma DiscardedAbsorbs(c: Clocks, steps: seq<Step>)
    requires |steps| > 0
    ensures Replay(Discarded, c, steps) == Failure(DiscardedIsFinal(steps[0].to))
  {
  }

  /** No transition leads back to OPEN, and only leaving OPEN records an
      acknowledgement; so once an incident has left OPEN without one (as after a
      reopen), no later sequence of transitions records one. */
  lemma {:induction false} NoAcknowledgementAfterOpen(s: Status, c: Clocks, steps: seq<Step>)
    requires s != Open && c.acknowledgedAt.None?
    requires Replay(s, c, steps).Success?
    ensures Replay(s, c, steps).value.1.acknowledgedAt.None?
    decreases |steps|
  {
    if |steps| > 0 {
      var c' := Transition(s, steps[0].to, steps[0].at, c).value;
      NoAcknowledgementAfterOpen(steps[0].to, c', steps[1..]);
    }
  }

  /** Replaying `p + q` is replaying `p` and then `q` from where `p` ended. */
  lemma {:induction false} ReplayAppend(s: Status, c: Clocks, p: seq<Step>, q: seq<Step>)
    ensures Replay(s, c, p + q) ==
      match Replay(s, c, p)
      case Failure(e) => Failure(e)
      case Success(sc) => Replay(sc.0, sc.1, q)
    decreases |p|
  {
    if |p| == 0 {
      assert p + q == q;
    } else {
      assert (p + q)[0] == p[0];
      assert (p + q)[1..] == p[1..] + q;
      match Transition(s, p[0].to, p[0].at, c)
      case Failure(e) =>
      case Success(c') => ReplayAppend(p[0].to, c', p[1..], q);
    }
  }

  /** Concatenating time-ordered step sequences keeps them time-ordered. */
  lemma TimesFromAppend(p: seq<Step>, q: seq<Step>, start: Timestamp)
    requires TimesFrom(p, start) && TimesFrom(q, LastTime(p, start))
    requires start <= LastTime(p, start)
    ensures TimesFrom(p + q, start)
  {
    var pq := p + q;
    forall i, j | 0 <= i <= j < |pq|
      ensures start <= pq[i].at <= pq[j].at
    {
      if j < |p| {
        assert pq[i] == p[i] && pq[j] == p[j];
      } else if i < |p| {
        assert pq[i] == p[i] && pq[j] == q[j - |p|];
        assert p[i].at <= p[|p| - 1].at;
      } else {
        assert pq[i] == q[i - |p|] && pq[j] == q[j - |p|];
      }
    }
  }

  /** From creation at `t`, one full cycle that ends reopened at `t`: the incident is
      back in INVESTIGATING with nothing acknowledged, resolved or closed. */
  function ReopenCycle(t: Timestamp): seq<Step> {
    [Step(Investigating, t), Step(Identified, t), Step(Mitigated, t), Step(Resolved, t), Step(Investigating, t)]
  }

  lemma ReopenCycleReplay(t: Timestamp)
    ensures Replay(Open, InitialClocks(t), ReopenCycle(t)) == Success((Investigating, InitialClocks(t)))
    ensures TimesFrom(ReopenCycle(t), t) && LastTime(ReopenCycle(t), t) == t
  {
    var p := ReopenCycle(t);
    var c1 := Clocks(Some(t), None, None, t);
    var c4 := Clocks(Some(t), Some(t), None, t);
    assert Replay(Open, InitialClocks(t), p) == Replay(Investigating, c1, p[1..]);
    assert Replay(Investigating, c1, p[1..]) == Replay(Identified, c1, p[2..]);
    assert Replay(Identified, c1, p[2..]) == Replay(Mitigated, c1, p[3..]);
    assert Replay(Mitigated, c1, p[3..]) == Replay(Resolved, c4, p[4..]);
    assert Replay(Resolved, c4, p[4..]) == Replay(Investigating, InitialClocks(t), p[5..]);
  }

  /** The steps that take an INVESTIGATING incident with clocks `(ack, -, -, start)`
      on to status `s` with clocks `c`; `base` is the time of the last step so far. */
  function Continuation(s: Status, c: Clocks, base: Timestamp): seq<Step> {
    match s
    case Open => []
    case Investigating => []
    case Identified => [Step(Identified, base)]
    case Mitigated => [Step(Identified, base), Step(Mitigated, base)]
    case Resolved => [Step(Identified, base), Step(Mitigated, base), Step(Resolved, c.resolvedAt.OrElse(base))]
    case Closed => [Step(Identified, base), Step(Mitigated, base), Step(Resolved, c.resolvedAt.OrElse(base)),
                    Step(Closed, c.closedAt.OrElse(base))]
    case Discarded => [Step(Discarded, base)]
  }

  lemma ContinuationReplay(s: Status, c: Clocks, until: Timestamp)
    requires s != Open
    requires Consistent(s, c) && Chronological(c, until)
    ensures
      var base := c.acknowledgedAt.OrElse(c.currentSlaStartAt);
      var from := Clocks(c.acknowledgedAt, None, None, c.currentSlaStartAt);
      && Replay(Investigating, from, Continuation(s, c, base)) == Success((s, c))
      && TimesFrom(Continuation(s, c, base), base)
  {
    var base := c.acknowledgedAt.OrElse(c.currentSlaStartAt);
    var from := Clocks(c.acknowledgedAt, None, None, c.currentSlaStartAt);
    var q := Continuation(s, c, base);
    if s == Resolved || s == Closed {
      var res := from.(resolvedAt := c.resolvedAt);
      assert Replay(Investigating, from, q) == Replay(Identified, from, q[1..]);
      assert Replay(Identified, from, q[1..]) == Replay(Mitigated, from, q[2..]);
      assert Replay(Mitigated, from, q[2..]) == Replay(Resolved, res, q[3..]);
      if s == Closed {
        assert Replay(Resolved, res, q[3..]) == Replay(Closed, c, q[4..]);
      }
    } else if s == Mitigated {
      assert Replay(Investigating, from, q) == Replay(Identified, from, q[1..]);
      assert Replay(Identified, from, q[1..]) == Replay(Mitigated, from, q[2..]);
    }
  }

  /** A route from creation, at the SLA start of `c`, to status `s` with clocks `c`. */
  function WitnessPath(s: Status, c: Clocks): seq<Step> {
    var t := c.currentSlaStartAt;
    if s == Open then []
    else
      var head := if c.acknowledgedAt.Some? then [Step(Investigating, c.acknowledgedAt.value)] else ReopenCycle(t);
      head + Continuation(s, c, c.acknowledgedAt.OrElse(t))
  }

  /** Conversely, every consistent and chronological combination of status and
      clocks is reached from creation by legal transitions at non-decreasing times. */
  lemma ConsistentStatesReachable(s: Status, c: Clocks, until: Timestamp)
    requires Consistent(s, c) && Chronological(c, until)
    ensures TimesFrom(WitnessPath(s, c), c.currentSlaStartAt)
    ensures Replay(Open, InitialClocks(c.currentSlaStartAt), WitnessPath(s, c)) == Success((s, c))
  {
    var t := c.currentSlaStartAt;
    if s != Open {
      var base := c.acknowledgedAt.OrElse(t);
      var from := Clocks(c.acknowledgedAt, None, None, t);
      var head := if c.acknowledgedAt.Some? then [Step(Investigating, c.acknowledgedAt.value)] else ReopenCycle(t);
      var tail := Continuation(s, c, base);
      if c.acknowledgedAt.Some? {
        assert Replay(Open, InitialClocks(t), head) == Replay(Investigating, from, head[1..]);
        assert LastTime(head, t) == base;
      } else {
        ReopenCycleReplay(t);
      }
      ContinuationReplay(s, c, until);
      ReplayAppend(Open, InitialClocks(t), head, tail);
      TimesFromAppend(head, tail, t);
    }
  }
}

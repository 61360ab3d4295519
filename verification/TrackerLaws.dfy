/** Laws of the tracker over sequences of operations: consistency is kept,
    paused time only grows and never exceeds the time since the start, and
    the editing time of every segment is a non-decreasing function of the
    wall clock that no operation makes jump. */
module TrackerLaws {
  import opened Wrappers
  import opened TimeTracker

  /** One call into the tracker, with the instant it happens at. */
  datatype Event =
    | Start(id: int, at: Time)
    | Pause(id: int, at: Time)
    | Resume(id: int, at: Time)

  function Apply(t: Tracker, e: Event): Result<Tracker, TrackerError>
  {
    match e
    case Start(id, now) => Success(StartSegment(t, id, now))
    case Pause(id, now) => Success(PauseSegment(t, id, now))
    case Resume(id, now) => ResumeSegment(t, id, now)
  }

  /** The events in order; the first failure stops the run. */
  function Run(t: Tracker, events: seq<Event>): Result<Tracker, TrackerError>
    decreases |events|
  {
    if events == [] then
      Success(t)
    else
      var t' :- Apply(t, events[0]);
      Run(t', events[1..])
  }

  /** Event instants never go back and none precedes `from`. */
  predicate Chronological(events: seq<Event>, from: Time)
  {
    && (forall i | 0 <= i < |events| :: from <= events[i].at)
    && (forall i, j | 0 <= i < j < |events| :: events[i].at <= events[j].at)
  }

  /** The instant of the last event, or `from` when there is none. */
  function LastInstant(events: seq<Event>, from: Time): Time
  {
    if events == [] then from else events[|events| - 1].at
  }

  /** What a session's history up to `clock` guarantees: it is consistent,
      its paused total is non-negative, and start plus paused total does
      not pass its pause instant (when paused) or `clock` (when running). */
  predicate SessionSound(s: Session, clock: Time)
  {
    && s.Consistent()
    && 0.0 <= s.totalPausedTime
    && (s.isPaused ==> s.pauseTime.value <= clock)
    && s.startTime + s.totalPausedTime <= (if s.isPaused then s.pauseTime.value else clock)
  }

  predicate Sound(t: Tracker, clock: Time)
  {
    forall id | id in t.sessions :: SessionSound(t.sessions[id], clock)
  }

  /** Every operation keeps every session consistent; in particular resuming
      a consistent tracker cannot fail. */
  lemma ApplyPreservesValid(t: Tracker, e: Event)
    requires Valid(t)
    ensures Apply(t, e).Success?
    ensures Valid(Apply(t, e).value)
  {
  }

  /** An operation at `e.at >= clock` keeps the tracker sound at `e.at`,
      never removes a session, never moves a start instant and never
      shrinks a paused total. */
  lemma ApplyPreservesSound(t: Tracker, e: Event, clock: Time)
    requires Sound(t, clock) && clock <= e.at
    ensures Apply(t, e).Success?
    ensures Sound(Apply(t, e).value, e.at)
    ensures t.sessions.Keys <= Apply(t, e).value.sessions.Keys
    ensures forall id | id in t.sessions ::
      && Apply(t, e).value.sessions[id].startTime == t.sessions[id].startTime
      && Apply(t, e).value.sessions[id].totalPausedTime >= t.sessions[id].totalPausedTime
  {
    var r := Apply(t, e).value;
    forall id | id in r.sessions
      ensures SessionSound(r.sessions[id], e.at)
    {
      if id in t.sessions {
        assert SessionSound(t.sessions[id], clock);
      }
    }
  }

  /** On a sound tracker the editing time is defined and never negative. */
  lemma EditingTimeNonNegative(t: Tracker, clock: Time, id: int, now: Time)
    requires Sound(t, clock) && clock <= now
    ensures EditingTime(t, id, now).Success?
    ensures EditingTime(t, id, now).value >= 0.0
  {
    if id in t.sessions {
      assert SessionSound(t.sessions[id], clock);
    }
  }

  /** While a session stays paused its editing time does not depend on the
      clock. */
  lemma PausedTimeFrozen(t: Tracker, id: int, now: Time, later: Time)
    requires Valid(t) && id in t.sessions && t.sessions[id].isPaused
    ensures EditingTime(t, id, now) == EditingTime(t, id, later)
  {
    assert t.sessions[id].Consistent();
  }

  /** Between operations, editing time never decreases as the clock moves. */
  lemma EditingTimeGrows(t: Tracker, id: int, now: Time, later: Time)
    requires Valid(t) && now <= later
    ensures EditingTime(t, id, now).Success? && EditingTime(t, id, later).Success?
    ensures EditingTime(t, id, now).value <= EditingTime(t, id, later).value
  {
    if id in t.sessions {
      assert t.sessions[id].Consistent();
    }
  }

  /** No operation makes any segment's editing time jump: measured at the
      instant of the operation, it is the same before and after. */
  lemma ApplyKeepsEditingTime(t: Tracker, e: Event, id: int)
    requires Valid(t)
    ensures Apply(t, e).Success?
    ensures EditingTime(Apply(t, e).value, id, e.at) == EditingTime(t, id, e.at)
  {
    if id in t.sessions {
      assert t.sessions[id].Consistent();
    }
  }

  /** A pause at `p` followed by a resume at `q` leaves the session as it
      was except that exactly `q - p` more seconds count as paused, so the
      editing time from then on is `q - p` less than without the pause. */
  lemma PauseResumeCycle(t: Tracker, id: int, p: Time, q: Time, now: Time)
    requires Valid(t) && id in t.sessions && !t.sessions[id].isPaused
    ensures ResumeSegment(PauseSegment(t, id, p), id, q).Success?
    ensures ResumeSegment(PauseSegment(t, id, p), id, q).value.sessions
      == t.sessions[id := t.sessions[id].(totalPausedTime := t.sessions[id].totalPausedTime + (q - p))]
    ensures EditingTime(ResumeSegment(PauseSegment(t, id, p), id, q).value, id, now).value
      == EditingTime(t, id, now).value - (q - p)
  {
    var s := t.sessions[id];
    assert s.Consistent();
    var after := ResumeSegment(PauseSegment(t, id, p), id, q).value;
    assert after.sessions[id] == s.(totalPausedTime := s.totalPausedTime + (q - p));
  }

  /** A run of chronological events keeps a sound tracker sound and fails
      nowhere. */
  lemma {:induction false} RunPreservesSound(t: Tracker, events: seq<Event>, clock: Time)
    requires Sound(t, clock) && Chronological(events, clock)
    ensures Run(t, events).Success?
    ensures Sound(Run(t, events).value, LastInstant(events, clock))
    ensures t.sessions.Keys <= Run(t, events).value.sessions.Keys
    decreases |events|
  {
    if events != [] {
      ApplyPreservesSound(t, events[0], clock);
      var t' := Apply(t, events[0]).value;
      assert Chronological(events[1..], events[0].at) by {
        forall i | 0 <= i < |events[1..]|
          ensures events[0].at <= events[1..][i].at
        {
          assert events[1..][i] == events[i + 1];
        }
      }
      RunPreservesSound(t', events[1..], events[0].at);
      if |events| > 1 {
        assert LastInstant(events[1..], events[0].at) == LastInstant(events, clock);
      }
    }
  }

  /** Along a chronological run, every segment's editing time is
      non-decreasing: its value after the run, read at the last event, is at
      least its value before, read at `from`. */
  lemma {:induction false} RunEditingTimeGrows(t: Tracker, events: seq<Event>, from: Time, id: int)
    requires Valid(t) && Chronological(events, from)
    ensures Run(t, events).Success?
    ensures EditingTime(t, id, from).Success?
    ensures EditingTime(Run(t, events).value, id, LastInstant(events, from)).Success?
    ensures EditingTime(t, id, from).value
         <= EditingTime(Run(t, events).value, id, LastInstant(events, from)).value
    decreases |events|
  {
    EditingTimeGrows(t, id, from, from);
    if events != [] {
      var e := events[0];
      ApplyPreservesValid(t, e);
      var t' := Apply(t, e).value;
      EditingTimeGrows(t, id, from, e.at);
      ApplyKeepsEditingTime(t, e, id);
      assert Chronological(events[1..], e.at) by {
        forall i | 0 <= i < |events[1..]|
          ensures e.at <= events[1..][i].at
        {
          assert events[1..][i] == events[i + 1];
        }
      }
      RunEditingTimeGrows(t', events[1..], e.at, id);
      if |events| > 1 {
        assert LastInstant(events[1..], e.at) == LastInstant(events, from);
      }
    }
  }
}

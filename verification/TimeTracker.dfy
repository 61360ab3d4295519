/** Per-segment editing-time tracker. Each segment that has ever been opened
    owns one editing session; a session is either running or paused, and
    its editing time is the wall-clock time since it started minus the time
    it spent paused. The wall clock is the explicit parameter `now`, in
    seconds. */
module TimeTracker {
  import opened Wrappers

  /** Instants and durations, in seconds. */
  type Time = real

  /** One segment's editing session (`EditingSession`). */
  datatype Session = Session(
    startTime: Time,
    pauseTime: Option<Time>,
    totalPausedTime: Time,
    isPaused: bool)
  {
    /** Paused exactly when a pause instant is recorded. Every session the
        tracker's own operations build keeps this; a reloaded one may not. */
    predicate Consistent()
    {
      isPaused <==> pauseTime.Some?
    }
  }

  /** The sessions of all segments opened so far, by segment id. */
  datatype Tracker = Tracker(sessions: map<int, Session>)

  /** Resuming or querying a session that claims to be paused but records
      no pause instant subtracts `None` from a time: a `TypeError`. */
  datatype TrackerError = PausedWithoutPauseTime(segmentId: int)

  const Empty: Tracker := Tracker(map[])

  /** A session as `start_segment` creates it: running, never paused. */
  function NewSession(now: Time): (s: Session)
    ensures s.Consistent() && !s.isPaused
  {
    Session(now, None, 0.0, false)
  }

  predicate Valid(t: Tracker)
  {
    forall id | id in t.sessions :: t.sessions[id].Consistent()
  }

  /** Every session other than `id`'s is still there, unchanged. */
  predicate OthersUnchanged(t: Tracker, r: Tracker, id: int)
  {
    forall other | other in t.sessions && other != id ::
      other in r.sessions && r.sessions[other] == t.sessions[other]
  }

  /** `start_segment`: opens a session for a segment seen for the first
      time; never resets an existing one. */
  function StartSegment(t: Tracker, id: int, now: Time): (r: Tracker)
    ensures r.sessions.Keys == t.sessions.Keys + {id}
    ensures id !in t.sessions ==> r.sessions[id] == Session(now, None, 0.0, false)
    ensures id in t.sessions ==> r == t
    ensures OthersUnchanged(t, r, id)
  {
    if id !in t.sessions then Tracker(t.sessions[id := NewSession(now)]) else t
  }

  /** `pause_segment`: records the pause instant of a running session;
      a missing or already paused session is left alone. */
  function PauseSegment(t: Tracker, id: int, now: Time): (r: Tracker)
    ensures r.sessions.Keys == t.sessions.Keys
    ensures id in t.sessions && !t.sessions[id].isPaused ==>
      && r.sessions[id].isPaused
      && r.sessions[id].pauseTime == Some(now)
      && r.sessions[id].startTime == t.sessions[id].startTime
      && r.sessions[id].totalPausedTime == t.sessions[id].totalPausedTime
    ensures id !in t.sessions || t.sessions[id].isPaused ==> r == t
    ensures OthersUnchanged(t, r, id)
  {
    if id in t.sessions && !t.sessions[id].isPaused then
      Tracker(t.sessions[id := t.sessions[id].(pauseTime := Some(now), isPaused := true)])
    else
      t
  }

  /** `resume_segment`: adds the length of the pause just ended to the
      session's paused total and sets it running; a missing or running
      session is left alone. */
  function ResumeSegment(t: Tracker, id: int, now: Time): (r: Result<Tracker, TrackerError>)
    ensures r.Failure? <==> id in t.sessions && t.sessions[id].isPaused && t.sessions[id].pauseTime.None?
    ensures r.Failure? ==> r.error == PausedWithoutPauseTime(id)
    ensures r.Success? ==> r.value.sessions.Keys == t.sessions.Keys && OthersUnchanged(t, r.value, id)
    ensures r.Success? && id in t.sessions && t.sessions[id].isPaused ==>
      && !r.value.sessions[id].isPaused
      && r.value.sessions[id].pauseTime.None?
      && r.value.sessions[id].startTime == t.sessions[id].startTime
      && r.value.sessions[id].totalPausedTime
         == t.sessions[id].totalPausedTime + (now - t.sessions[id].pauseTime.value)
    ensures id !in t.sessions || !t.sessions[id].isPaused ==> r == Success(t)
  {
    if id in t.sessions && t.sessions[id].isPaused then
      var s := t.sessions[id];
      match s.pauseTime
      case None => Failure(PausedWithoutPauseTime(id))
      case Some(p) =>
        var s' := s.(totalPausedTime := s.totalPausedTime + (now - p), isPaused := false, pauseTime := None);
        Success(Tracker(t.sessions[id := s']))
    else
      Success(t)
  }

  /** `get_editing_time`: zero for a segment never opened; otherwise the
      time from the session's start to its pause instant (when paused) or
      to `now` (when running), less the time spent paused. */
  function EditingTime(t: Tracker, id: int, now: Time): (r: Result<Time, TrackerError>)
    ensures id !in t.sessions ==> r == Success(0.0)
    ensures r.Failure? <==> id in t.sessions && t.sessions[id].isPaused && t.sessions[id].pauseTime.None?
    ensures r.Success? && id in t.sessions ==>
      r.value + t.sessions[id].totalPausedTime
      == (if t.sessions[id].isPaused then t.sessions[id].pauseTime.value else now) - t.sessions[id].startTime
  {
    if id !in t.sessions then
      Success(0.0)
    else
      var s := t.sessions[id];
      var totalTime := now - s.startTime;
      if s.isPaused then
        match s.pauseTime
        case None => Failure(PausedWithoutPauseTime(id))
        case Some(p) => Success((p - s.startTime) - s.totalPausedTime)
      else
        Success(totalTime - s.totalPausedTime)
  }
}

/** The editing page's state and the steps that drive the tracker: opening
    a segment (remembering its original text and switching the running
    session to it), noticing a first edit, saving the segment's metrics and
    leaving it with the Previous / Next / Finish buttons. Every tracker call
    reads the wall clock itself, so a step that makes several calls takes
    one instant per call, in call order; the word-diff counts are
    parameters. */
module Editor {
  import opened Wrappers
  import opened TimeTracker
  import opened Metrics
  import TrackerLaws

  /** The part of `st.session_state` these steps read and write. */
  datatype EditorState = EditorState(
    currentSegment: int,
    activeSegment: Option<int>,
    tracker: Tracker,
    editMetrics: seq<EditMetrics>,
    originalTexts: map<int, string>)

  /** `init_session_state`: first segment, nothing active, nothing recorded. */
  const Initial: EditorState := EditorState(0, None, Empty, [], map[])

  /** The text an edit is compared with: the remembered original of the
      current segment, else `original` (`original_texts.get(current, original)`). */
  function Baseline(st: EditorState, original: string): (r: string)
    ensures st.currentSegment in st.originalTexts ==> r == st.originalTexts[st.currentSegment]
    ensures st.currentSegment !in st.originalTexts ==> r == original
  {
    if st.currentSegment in st.originalTexts then st.originalTexts[st.currentSegment] else original
  }

  /** Remembers the text the segment opened with, unless one is already
      remembered; a remembered original is never replaced. */
  function RememberOriginal(st: EditorState, initial: string): (r: EditorState)
    ensures r.currentSegment in r.originalTexts
    ensures st.currentSegment in st.originalTexts ==> r == st
    ensures st.currentSegment !in st.originalTexts ==> r.originalTexts[r.currentSegment] == initial
    ensures r.originalTexts.Keys == st.originalTexts.Keys + {st.currentSegment}
    ensures forall id | id in st.originalTexts :: r.originalTexts[id] == st.originalTexts[id]
    ensures r.(originalTexts := st.originalTexts) == st
  {
    if st.currentSegment !in st.originalTexts then
      st.(originalTexts := st.originalTexts[st.currentSegment := initial])
    else
      st
  }

  /** Once the page has remembered the segment's opening text, the fallback
      `original` no longer decides the baseline: it is the remembered text,
      which is the opening text on a first visit. */
  lemma BaselineAfterRemember(st: EditorState, initial: string, original: string)
    ensures Baseline(RememberOriginal(st, initial), original)
         == if st.currentSegment in st.originalTexts then st.originalTexts[st.currentSegment] else initial
  {
  }

  /** Remembering twice keeps the first text. */
  lemma RememberOriginalOnce(st: EditorState, first: string, second: string)
    ensures RememberOriginal(RememberOriginal(st, first), second) == RememberOriginal(st, first)
  {
  }

  /** The tracker calls of a switch, in order, each at its own instant. */
  function SwitchEvents(st: EditorState, pauseAt: Time, startAt: Time, resumeAt: Time): seq<TrackerLaws.Event>
  {
    (if st.activeSegment.Some? then [TrackerLaws.Pause(st.activeSegment.value, pauseAt)] else [])
      + [TrackerLaws.Start(st.currentSegment, startAt), TrackerLaws.Resume(st.currentSegment, resumeAt)]
  }

  /** Opening a segment other than the active one: pause the active
      segment, start the current one if it is new, resume it if it was
      paused, and make it the active one. The three calls read the clock
      at `pauseAt`, `startAt` and `resumeAt`. Resuming fails on a session
      paused without a pause instant. */
  function SwitchSegment(st: EditorState, pauseAt: Time, startAt: Time, resumeAt: Time): (r: Result<EditorState, TrackerError>)
    ensures st.activeSegment == Some(st.currentSegment) ==> r == Success(st)
    ensures r.Failure? <==>
      && st.activeSegment != Some(st.currentSegment)
      && st.currentSegment in st.tracker.sessions
      && st.tracker.sessions[st.currentSegment].isPaused
      && st.tracker.sessions[st.currentSegment].pauseTime.None?
    ensures r.Success? ==>
      && r.value.activeSegment == Some(st.currentSegment)
      && r.value.currentSegment == st.currentSegment
      && r.value.editMetrics == st.editMetrics
      && r.value.originalTexts == st.originalTexts
    ensures r.Success? && st.activeSegment != Some(st.currentSegment) ==>
      && r.value.tracker.sessions.Keys == st.tracker.sessions.Keys + {st.currentSegment}
      && !r.value.tracker.sessions[st.currentSegment].isPaused
      && (forall id | id in st.tracker.sessions && id != st.currentSegment && Some(id) != st.activeSegment ::
            r.value.tracker.sessions[id] == st.tracker.sessions[id])
      && (st.activeSegment.Some? && st.activeSegment.value in st.tracker.sessions ==>
            r.value.tracker.sessions[st.activeSegment.value].isPaused)
      && (st.currentSegment !in st.tracker.sessions ==>
            r.value.tracker.sessions[st.currentSegment] == NewSession(startAt))
  {
    var cur := st.currentSegment;
    if st.activeSegment == Some(cur) then
      Success(st)
    else
      var paused := if st.activeSegment.Some? then PauseSegment(st.tracker, st.activeSegment.value, pauseAt) else st.tracker;
      var started := StartSegment(paused, cur, startAt);
      var resumed :- ResumeSegment(started, cur, resumeAt);
      Success(st.(tracker := resumed, activeSegment := Some(cur)))
  }

  /** A switch is the run of its tracker calls. */
  lemma SwitchIsRun(st: EditorState, pauseAt: Time, startAt: Time, resumeAt: Time)
    requires st.activeSegment != Some(st.currentSegment)
    ensures SwitchSegment(st, pauseAt, startAt, resumeAt).Success?
        <==> TrackerLaws.Run(st.tracker, SwitchEvents(st, pauseAt, startAt, resumeAt)).Success?
    ensures SwitchSegment(st, pauseAt, startAt, resumeAt).Success? ==>
      SwitchSegment(st, pauseAt, startAt, resumeAt).value.tracker
      == TrackerLaws.Run(st.tracker, SwitchEvents(st, pauseAt, startAt, resumeAt)).value
  {
    var cur := st.currentSegment;
    var tail := [TrackerLaws.Start(cur, startAt), TrackerLaws.Resume(cur, resumeAt)];
    var paused := if st.activeSegment.Some? then PauseSegment(st.tracker, st.activeSegment.value, pauseAt) else st.tracker;
    var es := SwitchEvents(st, pauseAt, startAt, resumeAt);
    if st.activeSegment.Some? {
      var e := TrackerLaws.Pause(st.activeSegment.value, pauseAt);
      assert es == [e] + tail;
      assert es[0] == e && es[1..] == tail;
      assert TrackerLaws.Apply(st.tracker, e) == Success(paused);
      assert TrackerLaws.Run(st.tracker, es) == TrackerLaws.Run(paused, tail);
    } else {
      assert es == tail;
    }
    var started := StartSegment(paused, cur, startAt);
    assert tail[1..] == [TrackerLaws.Resume(cur, resumeAt)];
    assert TrackerLaws.Run(paused, tail) == TrackerLaws.Run(started, tail[1..]);
    assert tail[1..][1..] == [];
    match ResumeSegment(started, cur, resumeAt)
    case Success(t) =>
      assert TrackerLaws.Run(started, tail[1..]) == Success(t);
    case Failure(err) =>
      assert TrackerLaws.Run(started, tail[1..]) == Failure(err);
  }

  /** A switch on a sound tracker, with clock readings that never go back,
      succeeds and leaves it sound. */
  lemma SwitchPreservesSound(st: EditorState, clock: Time, pauseAt: Time, startAt: Time, resumeAt: Time)
    requires TrackerLaws.Sound(st.tracker, clock)
    requires clock <= pauseAt <= startAt <= resumeAt
    ensures SwitchSegment(st, pauseAt, startAt, resumeAt).Success?
    ensures TrackerLaws.Sound(SwitchSegment(st, pauseAt, startAt, resumeAt).value.tracker, resumeAt)
  {
    if st.activeSegment != Some(st.currentSegment) {
      var es := SwitchEvents(st, pauseAt, startAt, resumeAt);
      assert TrackerLaws.Chronological(es, clock);
      TrackerLaws.RunPreservesSound(st.tracker, es, clock);
      SwitchIsRun(st, pauseAt, startAt, resumeAt);
      assert TrackerLaws.LastInstant(es, clock) == resumeAt;
    } else {
      assert SwitchSegment(st, pauseAt, startAt, resumeAt) == Success(st);
      forall id | id in st.tracker.sessions
        ensures TrackerLaws.SessionSound(st.tracker.sessions[id], resumeAt)
      {
        assert TrackerLaws.SessionSound(st.tracker.sessions[id], clock);
      }
    }
  }

  /** What a switch does to editing times. Segments it does not touch keep
      theirs. The previously active segment's time stops at the pause
      reading. The current segment's time, read when it is resumed, is what
      it was before, or, for a segment opened for the first time, the time
      from its start reading to its resume reading. So with one reading for
      all three calls no time jumps; with three readings the two segments
      move by the gaps between them. */
  lemma SwitchKeepsEditingTime(st: EditorState, pauseAt: Time, startAt: Time, resumeAt: Time, id: int, now: Time)
    requires Valid(st.tracker)
    ensures SwitchSegment(st, pauseAt, startAt, resumeAt).Success?
    ensures id != st.currentSegment && Some(id) != st.activeSegment ==>
      EditingTime(SwitchSegment(st, pauseAt, startAt, resumeAt).value.tracker, id, now)
      == EditingTime(st.tracker, id, now)
    ensures id != st.currentSegment && Some(id) == st.activeSegment ==>
      EditingTime(SwitchSegment(st, pauseAt, startAt, resumeAt).value.tracker, id, now)
      == EditingTime(st.tracker, id, pauseAt)
    ensures id == st.currentSegment && Some(id) != st.activeSegment ==>
      EditingTime(SwitchSegment(st, pauseAt, startAt, resumeAt).value.tracker, id, resumeAt).value
      == EditingTime(st.tracker, id, resumeAt).value
         + (if id in st.tracker.sessions then 0.0 else resumeAt - startAt)
  {
    var cur := st.currentSegment;
    if st.activeSegment != Some(cur) {
      var t0 := st.tracker;
      if id in t0.sessions {
        assert t0.sessions[id].Consistent();
      }
      if st.activeSegment.Some? && st.activeSegment.value != cur {
        var a := st.activeSegment.value;
        if a in t0.sessions {
          assert t0.sessions[a].Consistent();
        }
      }
    }
  }

  /** Noticing an edit: the first time the edit box differs from the
      remembered original, the segment's session is started if it has none.
      The page always remembers the current segment's original text before
      this step. */
  function NoteEdit(st: EditorState, edited: string, now: Time): (r: EditorState)
    requires st.currentSegment in st.originalTexts
    ensures r.(tracker := st.tracker) == st
    ensures edited != st.originalTexts[st.currentSegment] ==> st.currentSegment in r.tracker.sessions
    ensures st.currentSegment in st.tracker.sessions || edited == st.originalTexts[st.currentSegment] ==> r == st
    ensures st.currentSegment !in st.tracker.sessions && edited != st.originalTexts[st.currentSegment] ==>
      r.tracker.sessions == st.tracker.sessions[st.currentSegment := NewSession(now)]
  {
    if edited != st.originalTexts[st.currentSegment] && st.currentSegment !in st.tracker.sessions then
      st.(tracker := StartSegment(st.tracker, st.currentSegment, now))
    else
      st
  }

  /** Once a segment has been switched to, noticing an edit starts nothing:
      its session is already there. */
  lemma NoteEditAfterSwitch(st: EditorState, initial: string, edited: string,
                            pauseAt: Time, startAt: Time, resumeAt: Time, later: Time)
    requires st.activeSegment != Some(st.currentSegment)
    requires SwitchSegment(RememberOriginal(st, initial), pauseAt, startAt, resumeAt).Success?
    ensures NoteEdit(SwitchSegment(RememberOriginal(st, initial), pauseAt, startAt, resumeAt).value, edited, later)
      == SwitchSegment(RememberOriginal(st, initial), pauseAt, startAt, resumeAt).value
  {
  }

  /** `save_metrics`: nothing happens when the text equals its baseline;
      otherwise the segment's editing time is read and its record is
      replaced by a new one at the end of the list. */
  function SaveMetrics(st: EditorState, source: string, original: string, edited: string,
                       insertions: nat, deletions: nat, now: Time): (r: Result<EditorState, TrackerError>)
    ensures edited == Baseline(st, original) ==> r == Success(st)
    ensures r.Failure? <==>
      && edited != Baseline(st, original)
      && EditingTime(st.tracker, st.currentSegment, now).Failure?
    ensures r.Success? ==> r.value.(editMetrics := st.editMetrics) == st
    ensures r.Success? && edited != Baseline(st, original) ==>
      var m := EditMetrics(st.currentSegment, source, original, edited,
                           EditingTime(st.tracker, st.currentSegment, now).value, insertions, deletions);
      && LatestEdit(r.value.editMetrics, st.currentSegment) == Some(m)
      && OfSegment(r.value.editMetrics, st.currentSegment) == [m]
      && r.value.editMetrics[|r.value.editMetrics| - 1] == m
      && WithoutSegment(r.value.editMetrics, st.currentSegment)
         == WithoutSegment(st.editMetrics, st.currentSegment)
  {
    if edited == Baseline(st, original) then
      Success(st)
    else
      var editTime :- EditingTime(st.tracker, st.currentSegment, now);
      var m := EditMetrics(st.currentSegment, source, original, edited, editTime, insertions, deletions);
      var ms := Upsert(st.editMetrics, m);
      LatestEditIsLast(ms, st.currentSegment);
      Success(st.(editMetrics := ms))
  }

  /** Saving keeps every other segment's records as they were, and keeps at
      most one record per segment. */
  lemma SaveMetricsKeepsOthers(st: EditorState, source: string, original: string, edited: string,
                               insertions: nat, deletions: nat, now: Time, other: int)
    requires SaveMetrics(st, source, original, edited, insertions, deletions, now).Success?
    requires other != st.currentSegment
    ensures OfSegment(SaveMetrics(st, source, original, edited, insertions, deletions, now).value.editMetrics, other)
      == OfSegment(st.editMetrics, other)
  {
  }

  lemma SaveMetricsOnePerSegment(st: EditorState, source: string, original: string, edited: string,
                                 insertions: nat, deletions: nat, now: Time)
    requires AtMostOnePerSegment(st.editMetrics)
    requires SaveMetrics(st, source, original, edited, insertions, deletions, now).Success?
    ensures AtMostOnePerSegment(SaveMetrics(st, source, original, edited, insertions, deletions, now).value.editMetrics)
  {
    if edited != Baseline(st, original) {
      var m := EditMetrics(st.currentSegment, source, original, edited,
                           EditingTime(st.tracker, st.currentSegment, now).value, insertions, deletions);
      UpsertKeepsOnePerSegment(st.editMetrics, m);
    }
  }

  /** The navigation buttons: Previous (disabled on the first segment)
      moves back, Next and Finish move forward. */
  datatype Direction = Previous | Next

  /** Leaving the current segment: save its metrics (reading the editing
      time at `saveAt`), pause its session (at `pauseAt`) and move to the
      neighbouring segment. A failed save stops the step. */
  function Leave(st: EditorState, dir: Direction, source: string, original: string, edited: string,
                 insertions: nat, deletions: nat, saveAt: Time, pauseAt: Time): (r: Result<EditorState, TrackerError>)
    requires dir == Previous ==> st.currentSegment != 0
    ensures r.Failure? <==> SaveMetrics(st, source, original, edited, insertions, deletions, saveAt).Failure?
    ensures r.Success? ==>
      && r.value.currentSegment == st.currentSegment + (if dir == Previous then -1 else 1)
      && r.value.activeSegment == st.activeSegment
      && r.value.originalTexts == st.originalTexts
      && r.value.editMetrics == SaveMetrics(st, source, original, edited, insertions, deletions, saveAt).value.editMetrics
      && r.value.tracker == PauseSegment(st.tracker, st.currentSegment, pauseAt)
      && r.value.tracker.sessions.Keys == st.tracker.sessions.Keys
      && OthersUnchanged(st.tracker, r.value.tracker, st.currentSegment)
    ensures r.Success? && st.currentSegment in st.tracker.sessions ==>
      r.value.tracker.sessions[st.currentSegment].isPaused
  {
    var saved :- SaveMetrics(st, source, original, edited, insertions, deletions, saveAt);
    var cur := st.currentSegment;
    Success(saved.(tracker := PauseSegment(saved.tracker, cur, pauseAt),
                   currentSegment := if dir == Previous then cur - 1 else cur + 1))
  }

  /** Only the active segment's session may be running. */
  ghost predicate OnlyActiveRuns(st: EditorState)
  {
    forall id | id in st.tracker.sessions && !st.tracker.sessions[id].isPaused ::
      st.activeSegment == Some(id)
  }

  /** The initial state keeps the invariants, and the first segment opens
      with its machine translation, compared against the original given. */
  lemma InitialOnlyActiveRuns(original: string, translation: string)
    ensures OnlyActiveRuns(Initial) && Valid(Initial.tracker)
    ensures InitialText(Initial.editMetrics, Initial.currentSegment, translation) == translation
    ensures Baseline(Initial, original) == original
  {
  }

  /** Every step keeps at most the active segment's session running. */
  lemma SwitchOnlyActiveRuns(st: EditorState, pauseAt: Time, startAt: Time, resumeAt: Time)
    requires OnlyActiveRuns(st)
    requires SwitchSegment(st, pauseAt, startAt, resumeAt).Success?
    ensures OnlyActiveRuns(SwitchSegment(st, pauseAt, startAt, resumeAt).value)
  {
    var r := SwitchSegment(st, pauseAt, startAt, resumeAt).value;
    forall id | id in r.tracker.sessions && !r.tracker.sessions[id].isPaused
      ensures r.activeSegment == Some(id)
    {
    }
  }

  lemma NoteEditOnlyActiveRuns(st: EditorState, edited: string, now: Time)
    requires OnlyActiveRuns(st) && st.currentSegment in st.originalTexts
    requires st.activeSegment == Some(st.currentSegment)
    ensures OnlyActiveRuns(NoteEdit(st, edited, now))
  {
  }

  lemma LeaveOnlyActiveRuns(st: EditorState, dir: Direction, source: string, original: string, edited: string,
                            insertions: nat, deletions: nat, saveAt: Time, pauseAt: Time)
    requires dir == Previous ==> st.currentSegment != 0
    requires OnlyActiveRuns(st)
    requires Leave(st, dir, source, original, edited, insertions, deletions, saveAt, pauseAt).Success?
    ensures OnlyActiveRuns(Leave(st, dir, source, original, edited, insertions, deletions, saveAt, pauseAt).value)
  {
    var r := Leave(st, dir, source, original, edited, insertions, deletions, saveAt, pauseAt).value;
    forall id | id in r.tracker.sessions && !r.tracker.sessions[id].isPaused
      ensures r.activeSegment == Some(id)
    {
      assert id != st.currentSegment || st.currentSegment !in st.tracker.sessions;
      assert st.tracker.sessions[id] == r.tracker.sessions[id];
    }
  }

  /** Hence every segment but the active one has a frozen editing time: the
      clock only counts for the segment on screen. */
  lemma InactiveTimeFrozen(st: EditorState, id: int, now: Time, later: Time)
    requires OnlyActiveRuns(st) && Valid(st.tracker)
    requires st.activeSegment != Some(id)
    ensures EditingTime(st.tracker, id, now) == EditingTime(st.tracker, id, later)
  {
    if id in st.tracker.sessions {
      TrackerLaws.PausedTimeFrozen(st.tracker, id, now, later);
    }
  }
}

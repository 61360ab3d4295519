# Post-editing time tracker: a Dafny model

This project models the core of a machine-translation post-editing tool. A
translator opens segments (pairs of a source line and its machine
translation) one at a time, edits the translation, and moves on with
Previous / Next / Finish. The tool measures how long each segment is edited.
The model covers four parts:

- **The per-segment time tracker** (`time_tracker.py`). Each segment that has
  been opened owns an editing session: a start instant, an optional pause
  instant, the total time spent paused, and a paused flag. The operations
  are start, pause and resume, plus the editing-time query "time since start
  minus time paused". The tracker is saved as a document with a `sessions`
  dictionary keyed by the segment id written in decimal, and loaded back.
- **Loading segments** (`load_segments` in `app.py`). Two uploaded texts are
  split into lines, stripped and filtered of blank lines, then paired line
  by line. Unequal line counts are an error.
- **The list of saved edit records** (`save_metrics` in `app.py`). Saving a
  segment drops its earlier record and appends the new one. When a segment
  is reopened, the edit box starts from its latest record.
- **The page steps that drive the tracker** (`app.py`). Opening a segment
  remembers its original text and switches the running session to it (pause
  the previously active one, start and resume the new one). A first edit
  starts a session. Leaving a segment saves its record, pauses its session
  and moves to the neighbour.

The wall clock is an explicit parameter. Every tracker call in the source
reads `datetime.now()` itself, so a page step that makes several calls
takes one instant per call: a switch takes three, and leaving a segment
takes two. Instants and durations are exact `real` seconds. Python's `TypeError` on a session that claims to be
paused but has no pause instant is the error value `PausedWithoutPauseTime`.
The `ValueError` of `load_segments` is `LineCountMismatch`. A Python dict is
a list of `(key, value)` entries with distinct keys, in insertion order.

Modules, from the bottom up:

- `Wrappers`: `Option`, `Result`, mapping a partial function over a list, and `zip` with its inverse.
- `Text`: stripping whitespace, with `str.strip()`'s whitespace set and the
  smaller one `int()` skips, and `str.split`/`join` on one separator.
- `Decimal`: `str(n)` and `int(s)` for integers.
- `SetOrder`: the ids of a tracker listed in ascending order.
- `Documents`: stored documents.
- `TimeTracker`: sessions and the four tracker operations.
- `TrackerLaws`: runs of operations, with soundness and monotonicity.
- `TrackerStore`: `to_dict`/`from_dict` and their round trip.
- `Segments`: `load_segments`.
- `Metrics`: edit records and their upsert.
- `Editor`: page state and the switch / edit / save / leave steps.

## Model

| member | source | states |
|---|---|---|
| TimeTracker.NewSession | time_tracker.py:5-10 | A fresh session is running and consistent: paused exactly when it records a pause instant. |
| TimeTracker.StartSegment | time_tracker.py:35-38 | The key set grows by exactly `id`. A new id gets `Session(now, None, 0, false)`. An existing id leaves the tracker unchanged, so a session is never reset. Every other session is kept. |
| TimeTracker.PauseSegment | time_tracker.py:40-45 | A running session becomes paused with pause instant `now`, keeping its start and paused total. A missing or already-paused id is a no-op. Keys and the other sessions are unchanged. |
| TimeTracker.ResumeSegment | time_tracker.py:47-54 | A paused session becomes running, with no pause instant and `now - pause_time` added to its paused total. A missing or running id is a no-op. It fails exactly when the session is paused but has no pause instant. Keys and the other sessions are unchanged. |
| TimeTracker.EditingTime | time_tracker.py:56-70 | 0 for an unknown id. Otherwise the result plus the paused total equals the pause instant (paused) or `now` (running) minus the start. It fails exactly on a paused session without a pause instant. |
| TrackerLaws.ApplyPreservesValid | time_tracker.py:35-54 | Every operation on a tracker whose sessions are all consistent succeeds and keeps them all consistent. |
| TrackerLaws.ApplyPreservesSound | time_tracker.py:35-54 | At a non-decreasing clock, every operation keeps every session sound. It removes no session, never changes a start instant and never decreases a paused total. |
| TrackerLaws.RunPreservesSound | time_tracker.py:35-54 | A chronological run of operations on a sound tracker succeeds, leaves it sound at the last instant and removes no session. |
| TrackerLaws.EditingTimeNonNegative | time_tracker.py:56-70 | On a sound tracker, editing time is defined and never negative. |
| TrackerLaws.PausedTimeFrozen | time_tracker.py:64-67 | While a session is paused, its editing time does not depend on `now`. |
| TrackerLaws.EditingTimeGrows | time_tracker.py:56-70 | Between operations, editing time never decreases as the clock advances. |
| TrackerLaws.ApplyKeepsEditingTime | time_tracker.py:35-54 | No operation changes any segment's editing time read at the instant of the operation. |
| TrackerLaws.RunEditingTimeGrows | time_tracker.py:35-70 | Along a chronological run of operations, every segment's editing time never decreases. |
| TrackerLaws.PauseResumeCycle | time_tracker.py:40-54 | Pausing a running session at `p` and resuming it at `q` succeeds. The session is as before, except that `q - p` more seconds count as paused, so its editing time is `q - p` less. |
| TrackerStore.SessionToDict | time_tracker.py:12-19 | A stored session has exactly the four field names, in order, with distinct keys. |
| TrackerStore.SessionOfFields | time_tracker.py:24-29 | A session is built only from values of the right kind, and those values are exactly its fields. |
| TrackerStore.SessionFromDict | time_tracker.py:21-29 | A non-dictionary is rejected. A missing `start_time` is reported as missing. A loaded session's four fields are the stored values. |
| TrackerStore.Lookup | time_tracker.py:25-28 | `data[key]` fails with `KeyError` (`MissingKey(key)`) exactly when the key is absent, and otherwise gives the stored value. |
| TrackerStore.SessionRoundTrip | time_tracker.py:12-29 | Writing a session out and reading it back gives the same session, field for field. |
| TrackerStore.SessionsDict | time_tracker.py:74-78 | The `sessions` dictionary has one entry per session, with distinct keys. Each session is stored under `str(id)`. |
| TrackerStore.ToDict | time_tracker.py:72-78 | The tracker document is well formed, has `sessions` as its only key, and that key holds the `sessions` dictionary of every session under `str(id)`. |
| TrackerStore.DecodeEntry | time_tracker.py:86 | A key that `int()` rejects fails with `BadSegmentId`. A key `int()` reads with a value that loads as a session decodes to `(int(key), session)`. A readable key with a value that does not load fails with that session's error. |
| TrackerStore.LastPairWins | time_tracker.py:85-88 | When the dict comprehension meets the same id twice, the later pair decides that id's session. |
| TrackerStore.FromPairs | time_tracker.py:85-88 | The dict comprehension has a key for the id of every pair it is given. |
| TrackerStore.FromPairsOnly | time_tracker.py:85-88 | The dict comprehension contains no id that is absent from its pairs. |
| TrackerStore.DecodeSessions | time_tracker.py:85-88 | Loading `sessions` succeeds exactly when every entry decodes, and the result is the map the decoded pairs build. A failure carries the error of the first entry that does not decode. |
| TrackerStore.FromDict | time_tracker.py:80-89 | No document, an empty one, or one without `sessions` loads as the empty tracker. A `sessions` value that is not a dictionary fails with `SessionsNotADictionary`. A dictionary whose entries all decode loads as the tracker of the map they build. Otherwise loading fails with the first entry's error. |
| TrackerStore.EntryDecodes | time_tracker.py:76-86 | A stored entry decodes back to its own id and session. |
| TrackerStore.FromPairsRebuilds | time_tracker.py:85-88 | Inserting every session once under its own id rebuilds exactly the session map. |
| TrackerStore.SessionsRoundTrip | time_tracker.py:74-88 | Reading the written `sessions` dictionary back restores the session map. |
| TrackerStore.TrackerRoundTrip | time_tracker.py:72-89 | `from_dict(to_dict(t)) == t`: the same ids, and every session equal field for field. |
| Decimal.IntToString | time_tracker.py:76 | `str(n)` is non-empty and has no whitespace at either end. It is all digits for `n >= 0`, and a minus sign followed by digits otherwise. It has no leading zero, and `str(0)` is exactly `"0"`. |
| Decimal.ParseInt | time_tracker.py:86 | `int(s)` succeeds exactly when `s`, stripped of the whitespace `int()` skips (`str.isspace()` minus FS..US), is an optional sign followed by one or more ASCII digits. The value is minus the digits' value after `-`, and the digits' value otherwise. |
| Decimal.ParseIntIgnoresSpace | time_tracker.py:86 | Whitespace that `int()` skips, added around a key, does not change what `int()` reads. |
| Decimal.ParseIntRejectsSeparator | time_tracker.py:86 | A key preceded by U+001C fails to parse, although `str.isspace()` accepts U+001C. |
| Decimal.ParseIntToString | time_tracker.py:76-86 | `int(str(n)) == n` for every integer, negative ones included. |
| Decimal.IntToStringInjective | time_tracker.py:76 | Distinct ids are written under distinct keys. |
| Decimal.ParseIntNotInjective | time_tracker.py:86 | `int()` maps both `"0" + str(n)` and `str(n)` to `n`, so two different stored keys can name one segment. |
| Text.Strip | app.py:66-69 | `strip()` returns a stripped string obtained by removing a whitespace-only prefix and a whitespace-only suffix. The same holds for `int()`'s smaller whitespace set. |
| Text.TrimUnique | app.py:66-69 | Any stripped trim of a string is its `strip()`. |
| Text.StripStripped | app.py:66-69 | Stripping a stripped string changes nothing. |
| Text.StripPadded | app.py:66-69 | Extra whitespace around a string does not change its `strip()`. |
| Text.Split | app.py:66-69 | `split(sep)` yields at least one piece, no piece contains `sep`, and joining the pieces with `sep` gives back the input. |
| Text.SplitJoin | app.py:66-69 | Splitting a join of separator-free pieces gives back the pieces. |
| Segments.FilterMapSelects | app.py:66-69 | The list comprehension keeps, in increasing input order, exactly the elements the filter accepts, each transformed. |
| Segments.FilterMap | app.py:66-69 | The comprehension keeps at most as many elements as it is given. It keeps them all exactly when the filter accepts every element, and none exactly when it accepts none. |
| Segments.SelectsUnique | app.py:66-69 | Any increasing selection of exactly the accepted elements is the comprehension's result. |
| Segments.KeepLine | app.py:66-69 | A line is kept exactly when its strip is non-empty, and then as its strip. |
| Segments.NonBlank | app.py:66-69 | Every kept line is non-empty and stripped, and is the strip of some input line. |
| Segments.NonBlankSelects | app.py:66-69 | The kept lines are the strips of exactly the non-blank input lines, in input order. |
| Segments.NonBlankIdempotent | app.py:66-69 | Filtering a list of already-kept lines changes nothing. |
| Segments.NonBlankLines | app.py:66-69 | Every line taken from a text is non-empty, stripped and free of newlines. |
| Segments.NonBlankLinesRoundTrip | app.py:66-69 | Joining segment texts with newlines and taking the lines back gives the texts. |
| Segments.LoadSegments | app.py:58-76 | A missing file gives `[]`. Loading fails exactly when the kept line counts differ, reporting both counts. Otherwise pair `i` is the `i`-th kept source line with the `i`-th kept translation line, and both are non-empty and stripped. |
| Segments.LoadedSides | app.py:66-76 | The first and second components of a loaded list are exactly the kept lines of each file. |
| Segments.LoadKept | app.py:72-76 | Files with equally many kept lines load as those lines zipped. |
| Segments.LoadSegmentsRoundTrip | app.py:58-76 | Writing two equally long lists of segment texts out one per line and loading them gives the texts back, paired in order. |
| Wrappers.UnzipZip | app.py:76 | Zipping two equally long lists and unzipping gives back both lists. |
| Wrappers.Zip | app.py:76 | `zip` pairs the `i`-th elements of both lists, and has as many pairs as the shorter list has elements. |
| Metrics.WithoutSegment | app.py:502-503 | Filtering out a segment keeps only other segments' records. The kept records and the segment's own records together account for every record. |
| Metrics.WithoutSegmentKeepsOthers | app.py:502-503 | Filtering out a segment leaves every other segment's records unchanged, in order. |
| Metrics.WithoutSegmentRemoves | app.py:502-503 | After filtering out a segment, none of its records remain. |
| Metrics.Upsert | app.py:502-504 | After the upsert, the new record is the last element and the segment's only record. Every other segment's records and their order are unchanged. |
| Metrics.UpsertIdempotent | app.py:502-504 | Upserting the same record twice is the same as upserting it once. |
| Metrics.UpsertKeepsOnePerSegment | app.py:502-504 | If every segment has at most one record before an upsert, the same holds after it. |
| Metrics.FirstEdit | app.py:367-371 | The earliest record found is a record of the segment. |
| Metrics.LatestEdit | app.py:374-378 | The latest record found is a record of the segment. |
| Metrics.FirstEditIsFirst | app.py:367-371 | `next(...)` returns the first of the segment's records, or nothing if it has none. |
| Metrics.LatestEditIsLast | app.py:374-378 | The reversed scan returns the last of the segment's records, or nothing if it has none. |
| Metrics.FirstIsLatest | app.py:366-383 | With at most one record per segment, the earliest and latest records coincide. |
| Metrics.InitialText | app.py:366-383 | The edit box opens with the text of the segment's last record, or the machine translation when the segment has no record. The `next(...)` fallback therefore never decides the text. |
| Metrics.UpsertInitialText | app.py:366-383 | After a save, the segment reopens with the text just saved. Every other segment reopens with the same text as before. |
| Editor.RememberOriginal | app.py:385-387 | After this step the current segment has a remembered original. A first visit remembers the opening text. An existing original is never replaced, and nothing else changes. |
| Editor.InitialOnlyActiveRuns | app.py:79-102 | `init_session_state` starts at segment 0 with nothing active, an empty tracker and no records. That state keeps the invariants, and segment 0 opens with its machine translation and is compared against the original. |
| Editor.RememberOriginalOnce | app.py:385-387 | Remembering twice keeps the first text. |
| Editor.Baseline | app.py:485 | `original_texts.get(current, original)`: the remembered original when there is one, otherwise `original`. |
| Editor.BaselineAfterRemember | app.py:385-387 | Once the opening text has been remembered, the baseline is the remembered text (the opening text on a first visit) and `original` no longer matters. |
| Editor.SwitchSegment | app.py:389-399 | Re-opening the active segment is a no-op. A switch fails exactly when the new segment is paused without a pause instant. After a switch, the current segment is active, has a session and is running, and the previously active segment is paused. A segment opened for the first time starts at the start call's reading. Sessions of all other segments, the records and the originals are unchanged. |
| Editor.SwitchIsRun | app.py:389-399 | A switch is the tracker run "pause the active segment, start the current one, resume it", and succeeds exactly when that run does. |
| Editor.SwitchPreservesSound | app.py:389-399 | A switch on a sound tracker, whose three clock readings never go back, succeeds and leaves it sound at the resume reading. |
| Editor.SwitchKeepsEditingTime | app.py:389-399 | Segments the switch does not touch keep their editing time. The previously active segment's time stays at its value at the pause reading. The current segment's time at the resume reading is unchanged if it had a session. For a first visit it is the gap between the start and resume readings. |
| Editor.SwitchOnlyActiveRuns | app.py:389-399 | If only the active segment's session runs before a switch, the same holds after it. |
| Editor.InactiveTimeFrozen | app.py:389-399 | When only the active segment runs, every other segment's editing time does not depend on the clock. |
| Editor.NoteEdit | app.py:407-411 | A change from the remembered original starts a session for a segment that has none. Otherwise nothing changes, and only the tracker can change. |
| Editor.NoteEditAfterSwitch | app.py:385-411 | Once a segment has been switched to, noticing an edit changes nothing, because its session already exists. |
| Editor.NoteEditOnlyActiveRuns | app.py:407-411 | Noticing an edit on the active segment keeps only that segment running. |
| Editor.SaveMetrics | app.py:483-504 | A text equal to its baseline (the remembered original, else `original`) leaves everything unchanged. Otherwise saving fails exactly when the editing time does. On success the new record, with that editing time, is the segment's only record and the last one, and the other segments' records are unchanged. |
| Editor.SaveMetricsKeepsOthers | app.py:502-504 | Saving leaves every other segment's records as they were. |
| Editor.SaveMetricsOnePerSegment | app.py:502-504 | Saving keeps at most one record per segment. |
| Editor.Leave | app.py:416-443 | Leaving fails exactly when saving does. Otherwise the current segment moves by one in the chosen direction, the tracker is the old one with the left segment paused at the pause reading, and the records are those the save produced. |
| Editor.LeaveOnlyActiveRuns | app.py:416-443 | If only the active segment runs before leaving, the same holds after leaving. |

## Left out

- The Streamlit page: layout, widgets, markdown and `st.session_state` plumbing. The state the steps read and write is the explicit `EditorState`.
- MongoDB access, asyncio, auto-save, and the pandas/CSV/JSON export. These are I/O.
- `calculate_edit_distance` and `highlight_differences`. They wrap `difflib`, whose algorithm is not part of this model; the insertion and deletion counts are parameters of `SaveMetrics`.
- The statistics panel, which formats editing time as minutes and seconds, and the `pytz` timezone display. These are display only.
- Reading the wall clock. Each reading is a parameter. The laws over runs (`TrackerLaws.RunPreservesSound`, `TrackerLaws.EditingTimeNonNegative`, `TrackerLaws.RunEditingTimeGrows`) assume a clock that never goes back. The page reads naive local `datetime.now()`, which can step back when daylight saving ends or the system clock is corrected, and then editing time can shrink or become negative.
- UTF-8 decoding of the uploaded files. `load_segments` is modelled on already-decoded text.
- TimeTracker.EditingTime: Python's `total_seconds()` returns a rounded float; the model computes exactly in `real`.
- TimeTracker.ResumeSegment: Python adds the pause length to the paused total as a rounded float (`total_seconds()` and a float `+=`); the model adds it exactly in `real`.
- TrackerStore.SessionFromDict: Python's `from_dict` stores whatever values it finds; the model rejects a field of the wrong kind with `WrongType`, because a session holding a non-instant has no meaning here.
- TrackerStore.SessionsDict: Python writes the sessions in insertion order; the model writes them in ascending id order. Only the order of the entries differs, and loading does not depend on it.
- Decimal.ParseInt: `int()` also accepts digit-group underscores (`"1_0"`) and non-ASCII decimal digits (`"\u0661"`), which the model rejects. It also rejects strings of more than 4300 digits, which the model accepts. Keys are written by `str()`, so none of these arises from the tracker's own documents.
- Decimal.IntToString: CPython's `str()` refuses integers of more than 4300 digits; the model writes every integer.
- Idle-time accounting. `time_tracker.py` has none: editing time is wall-clock time minus explicit pauses, with no idle threshold.
- Editor.SwitchSegment: when resuming the current segment raises `TypeError` (a session paused without a pause instant), Python has already paused the previously active segment in place, and `st.session_state` keeps that partial change. The model's `Failure` carries no state, so the tracker after the error is not modelled.

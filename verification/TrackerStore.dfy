/** Saving and reloading a tracker: `to_dict` / `from_dict` of the session
    and of the tracker. A tracker is stored as one document with a single
    `sessions` key mapping each segment id, written as decimal text, to the
    session's four fields. */
module TrackerStore {
  import opened Wrappers
  import opened Documents
  import opened TimeTracker
  import Decimal
  import SetOrder

  /** Why a stored document cannot be turned back into a tracker. */
  datatype DecodeError =
    | NotADictionary             // a session stored as something other than a dict
    | MissingKey(key: string)    // `KeyError` for one of the four session fields
    | WrongType(key: string)     // a session field of the wrong kind
    | SessionsNotADictionary     // `data['sessions']` has no `.items()`
    | BadSegmentId(key: string)  // `int(k)` raises `ValueError`

  /** The four fields of a stored session, in the order they are read. */
  const SessionKeys: seq<string> := ["start_time", "pause_time", "total_paused_time", "is_paused"]

  /** The four field names differ pairwise. */
  lemma SessionKeysDistinct()
    ensures DistinctKeys(seq(4, i requires 0 <= i < 4 => (SessionKeys[i], Null)))
  {
    assert "start_time"[0] != "pause_time"[0];
    assert |"start_time"| != |"total_paused_time"| && |"total_paused_time"| != |"is_paused"|;
    assert |"pause_time"| != |"total_paused_time"|;
    assert |"pause_time"| != |"is_paused"| && |"start_time"| != |"is_paused"|;
  }

  function TimeValue(t: Option<Time>): Value
  {
    match t
    case None => Null
    case Some(x) => Timestamp(x)
  }

  /** `EditingSession.to_dict`. */
  function SessionToDict(s: Session): (d: Entries)
    ensures Firsts(d) == SessionKeys
    ensures DistinctKeys(d) && WellFormed(Object(d))
  {
    SessionKeysDistinct();
    [ ("start_time", Timestamp(s.startTime)),
      ("pause_time", TimeValue(s.pauseTime)),
      ("total_paused_time", Number(s.totalPausedTime)),
      ("is_paused", Bool(s.isPaused)) ]
  }

  /** `d[k]`, failing with `KeyError` when the key is absent. */
  function Lookup(d: Entries, k: string): (r: Result<Value, DecodeError>)
    ensures r.Failure? <==> !HasKey(d, k)
    ensures r.Failure? ==> r.error == MissingKey(k)
    ensures r.Success? ==> Get(d, k) == Some(r.value)
  {
    match Get(d, k)
    case None => Failure(MissingKey(k))
    case Some(v) => Success(v)
  }

  /** The constructor call of `from_dict` on the four values read: each must
      be of the kind its field holds. */
  function SessionOfFields(start: Value, pause: Value, total: Value, paused: Value): (r: Result<Session, DecodeError>)
    ensures r.Success? ==>
      && start == Timestamp(r.value.startTime)
      && pause == TimeValue(r.value.pauseTime)
      && total == Number(r.value.totalPausedTime)
      && paused == Bool(r.value.isPaused)
    ensures r.Failure? ==> r.error.WrongType?
  {
    if !start.Timestamp? then
      Failure(WrongType("start_time"))
    else if !(pause.Null? || pause.Timestamp?) then
      Failure(WrongType("pause_time"))
    else if !total.Number? then
      Failure(WrongType("total_paused_time"))
    else if !paused.Bool? then
      Failure(WrongType("is_paused"))
    else
      Success(Session(start.t, if pause.Null? then None else Some(pause.t), total.x, paused.b))
  }

  /** The four values a session is written as construct that session. */
  lemma SessionOfOwnFields(s: Session)
    ensures SessionOfFields(Timestamp(s.startTime), TimeValue(s.pauseTime),
                            Number(s.totalPausedTime), Bool(s.isPaused)) == Success(s)
  {
    match s.pauseTime
    case None =>
    case Some(p) =>
  }

  /** `EditingSession.from_dict`: the four fields are read in order, the
      first one missing is reported; any other keys are ignored. */
  function SessionFromDict(v: Value): (r: Result<Session, DecodeError>)
    ensures !v.Object? ==> r == Failure(NotADictionary)
    ensures v.Object? && !HasKey(v.entries, "start_time") ==> r == Failure(MissingKey("start_time"))
    ensures r.Success? ==>
      && v.Object?
      && Get(v.entries, "start_time") == Some(Timestamp(r.value.startTime))
      && Get(v.entries, "pause_time") == Some(TimeValue(r.value.pauseTime))
      && Get(v.entries, "total_paused_time") == Some(Number(r.value.totalPausedTime))
      && Get(v.entries, "is_paused") == Some(Bool(r.value.isPaused))
  {
    match v
    case Object(d) =>
      var start :- Lookup(d, "start_time");
      var pause :- Lookup(d, "pause_time");
      var total :- Lookup(d, "total_paused_time");
      var paused :- Lookup(d, "is_paused");
      SessionOfFields(start, pause, total, paused)
    case _ =>
      Failure(NotADictionary)
  }

  /** Each of the four fields is found in a written-out session. */
  lemma SessionDictFields(s: Session)
    ensures Get(SessionToDict(s), "start_time") == Some(Timestamp(s.startTime))
    ensures Get(SessionToDict(s), "pause_time") == Some(TimeValue(s.pauseTime))
    ensures Get(SessionToDict(s), "total_paused_time") == Some(Number(s.totalPausedTime))
    ensures Get(SessionToDict(s), "is_paused") == Some(Bool(s.isPaused))
  {
    var d := SessionToDict(s);
    GetEntry(d, 0);
    GetEntry(d, 1);
    GetEntry(d, 2);
    GetEntry(d, 3);
  }

  /** A key that is present is looked up to its value. */
  lemma LookupFound(d: Entries, k: string, v: Value)
    requires Get(d, k) == Some(v)
    ensures Lookup(d, k) == Success(v)
  {
  }

  /** A dictionary holding the four fields of `s` reads back as `s`. */
  lemma SessionFromFields(d: Entries, s: Session)
    requires Get(d, "start_time") == Some(Timestamp(s.startTime))
    requires Get(d, "pause_time") == Some(TimeValue(s.pauseTime))
    requires Get(d, "total_paused_time") == Some(Number(s.totalPausedTime))
    requires Get(d, "is_paused") == Some(Bool(s.isPaused))
    ensures SessionFromDict(Object(d)) == Success(s)
  {
    LookupFound(d, "start_time", Timestamp(s.startTime));
    LookupFound(d, "pause_time", TimeValue(s.pauseTime));
    LookupFound(d, "total_paused_time", Number(s.totalPausedTime));
    LookupFound(d, "is_paused", Bool(s.isPaused));
    SessionOfOwnFields(s);
  }

  /** Every session survives being written out and read back, field for field. */
  lemma SessionRoundTrip(s: Session)
    ensures SessionFromDict(Object(SessionToDict(s))) == Success(s)
  {
    SessionDictFields(s);
    SessionFromFields(SessionToDict(s), s);
  }

  /** The stored entry of one segment. */
  function SessionEntry(t: Tracker, id: int): (string, Value)
    requires id in t.sessions
  {
    (Decimal.IntToString(id), Object(SessionToDict(t.sessions[id])))
  }

  /** The stored entries of the given segments, in the given order. */
  function EntriesFor(t: Tracker, ids: seq<int>): (es: Entries)
    requires forall i | 0 <= i < |ids| :: ids[i] in t.sessions
    ensures |es| == |ids|
    ensures forall i | 0 <= i < |ids| :: es[i] == SessionEntry(t, ids[i])
  {
    if ids == [] then [] else [SessionEntry(t, ids[0])] + EntriesFor(t, ids[1..])
  }

  /** The given segments paired with their sessions. */
  function Pairs(t: Tracker, ids: seq<int>): (ps: seq<(int, Session)>)
    requires forall i | 0 <= i < |ids| :: ids[i] in t.sessions
    ensures |ps| == |ids|
    ensures forall i | 0 <= i < |ids| :: ps[i] == (ids[i], t.sessions[ids[i]])
  {
    if ids == [] then [] else [(ids[0], t.sessions[ids[0]])] + Pairs(t, ids[1..])
  }

  /** Entries of distinct segments have distinct keys. */
  lemma EntriesForDistinct(t: Tracker, ids: seq<int>)
    requires forall i | 0 <= i < |ids| :: ids[i] in t.sessions
    requires SetOrder.StrictlyIncreasing(ids)
    ensures DistinctKeys(EntriesFor(t, ids))
  {
    var es := EntriesFor(t, ids);
    forall i, j | 0 <= i < j < |es|
      ensures es[i].0 != es[j].0
    {
      if es[i].0 == es[j].0 {
        Decimal.IntToStringInjective(ids[i], ids[j]);
      }
    }
  }

  /** The `sessions` dictionary: one entry per session, each session under
      its id's decimal text, in ascending id order. */
  function SessionsDict(t: Tracker): (es: Entries)
    ensures |es| == |t.sessions|
    ensures DistinctKeys(es)
    ensures forall id | id in t.sessions ::
      Get(es, Decimal.IntToString(id)) == Some(Object(SessionToDict(t.sessions[id])))
  {
    var ids := SetOrder.Sorted(t.sessions.Keys);
    var es := EntriesFor(t, ids);
    EntriesForDistinct(t, ids);
    forall id | id in t.sessions
      ensures Get(es, Decimal.IntToString(id)) == Some(Object(SessionToDict(t.sessions[id])))
    {
      var i :| 0 <= i < |ids| && ids[i] == id;
      GetEntry(es, i);
    }
    es
  }

  /** `TimeTracker.to_dict`: a document whose only key is `sessions`. */
  function ToDict(t: Tracker): (d: Entries)
    ensures WellFormed(Object(d))
    ensures Firsts(d) == ["sessions"]
    ensures Get(d, "sessions") == Some(Object(SessionsDict(t)))
  {
    var es := SessionsDict(t);
    forall e | e in es
      ensures WellFormed(e.1)
    {
    }
    [("sessions", Object(es))]
  }

  /** One stored entry: its key read with `int()`, then its session. */
  function DecodeEntry(e: (string, Value)): (r: Result<(int, Session), DecodeError>)
    ensures Decimal.ParseInt(e.0).None? ==> r == Failure(BadSegmentId(e.0))
    ensures r.Success? ==>
      Decimal.ParseInt(e.0) == Some(r.value.0) && SessionFromDict(e.1) == Success(r.value.1)
    ensures Decimal.ParseInt(e.0).Some? && SessionFromDict(e.1).Success? ==>
      r == Success((Decimal.ParseInt(e.0).value, SessionFromDict(e.1).value))
    ensures Decimal.ParseInt(e.0).Some? && SessionFromDict(e.1).Failure? ==>
      r == Failure(SessionFromDict(e.1).error)
  {
    match Decimal.ParseInt(e.0)
    case None => Failure(BadSegmentId(e.0))
    case Some(id) =>
      match SessionFromDict(e.1)
      case Failure(err) => Failure(err)
      case Success(s) => Success((id, s))
  }

  /** Every entry decoded in order; the first entry that fails decides the
      error. */
  function DecodeAll(es: Entries): Result<seq<(int, Session)>, DecodeError>
  {
    MapAll(es, DecodeEntry)
  }

  /** The pairs inserted into a dict one after the other: a later pair for
      an id replaces an earlier one. */
  function FromPairs(ps: seq<(int, Session)>): (m: map<int, Session>)
    ensures forall i | 0 <= i < |ps| :: ps[i].0 in m
    decreases |ps|
  {
    if ps == [] then
      map[]
    else
      var n := |ps| - 1;
      var m := FromPairs(ps[..n]);
      assert forall i | 0 <= i < n :: ps[..n][i] == ps[i];
      m[ps[n].0 := ps[n].1]
  }

  /** Only ids that occur in some pair are in the map. */
  lemma {:induction false} FromPairsOnly(ps: seq<(int, Session)>, id: int) returns (i: nat)
    requires id in FromPairs(ps)
    ensures i < |ps| && ps[i].0 == id
    decreases |ps|
  {
    var n := |ps| - 1;
    if ps[n].0 == id {
      i := n;
    } else {
      i := FromPairsOnly(ps[..n], id);
      assert ps[..n][i] == ps[i];
    }
  }

  /** The last pair for an id decides that id's session. */
  lemma {:induction false} LastPairWins(ps: seq<(int, Session)>, i: nat)
    requires i < |ps|
    requires forall j | i < j < |ps| :: ps[j].0 != ps[i].0
    ensures FromPairs(ps)[ps[i].0] == ps[i].1
    decreases |ps|
  {
    var n := |ps| - 1;
    if i < n {
      assert ps[..n][i] == ps[i];
      assert forall j | i < j < n :: ps[..n][j] == ps[j];
      LastPairWins(ps[..n], i);
    }
  }

  /** The `sessions` dictionary read back (the `dict` comprehension of
      `TimeTracker.from_dict`): every key must be a valid `int()` and every
      value a valid session; an id whose key occurs in several spellings
      takes the session of its last entry. */
  function DecodeSessions(es: Entries): (r: Result<map<int, Session>, DecodeError>)
    ensures r.Success? <==> forall i | 0 <= i < |es| :: DecodeEntry(es[i]).Success?
    ensures r.Success? ==> r.value == FromPairs(DecodeAll(es).value)
    ensures r.Failure? ==> DecodeAll(es) == Failure(r.error)
  {
    var ps :- DecodeAll(es);
    Success(FromPairs(ps))
  }

  /** A stored entry decodes to its segment id and session. */
  lemma EntryDecodes(t: Tracker, id: int)
    requires id in t.sessions
    ensures DecodeEntry(SessionEntry(t, id)) == Success((id, t.sessions[id]))
  {
    Decimal.ParseIntToString(id);
    SessionRoundTrip(t.sessions[id]);
  }

  /** The stored entries of the given segments decode to those segments
      and their sessions. */
  lemma DecodeEntriesFor(t: Tracker, ids: seq<int>)
    requires forall i | 0 <= i < |ids| :: ids[i] in t.sessions
    ensures DecodeAll(EntriesFor(t, ids)) == Success(Pairs(t, ids))
  {
    var es := EntriesFor(t, ids);
    var ps := Pairs(t, ids);
    forall i | 0 <= i < |ids|
      ensures DecodeEntry(es[i]) == Success(ps[i])
    {
      EntryDecodes(t, ids[i]);
    }
    var r := DecodeAll(es);
    assert r.Success?;
    assert r.value == ps;
  }

  /** `TimeTracker.from_dict`: no document, an empty one or one without a
      `sessions` key gives an empty tracker; otherwise every stored entry
      is decoded and the first bad one is reported. */
  function FromDict(data: Option<Entries>): (r: Result<Tracker, DecodeError>)
    ensures data.None? ==> r == Success(Empty)
    ensures data.Some? && !HasKey(data.value, "sessions") ==> r == Success(Empty)
    ensures r.Success? && data.Some? && HasKey(data.value, "sessions") ==>
      && Get(data.value, "sessions").value.Object?
      && DecodeSessions(Get(data.value, "sessions").value.entries) == Success(r.value.sessions)
    ensures data.Some? && HasKey(data.value, "sessions") && Get(data.value, "sessions").value.Object?
            && DecodeSessions(Get(data.value, "sessions").value.entries).Success? ==>
      r == Success(Tracker(DecodeSessions(Get(data.value, "sessions").value.entries).value))
    ensures data.Some? && HasKey(data.value, "sessions") && !Get(data.value, "sessions").value.Object? ==>
      r == Failure(SessionsNotADictionary)
    ensures data.Some? && HasKey(data.value, "sessions") && Get(data.value, "sessions").value.Object?
            && DecodeSessions(Get(data.value, "sessions").value.entries).Failure? ==>
      r == Failure(DecodeSessions(Get(data.value, "sessions").value.entries).error)
  {
    match data
    case None => Success(Empty)
    case Some(d) =>
      if d == [] || !HasKey(d, "sessions") then
        Success(Empty)
      else
        match Get(d, "sessions").value
        case Object(es) =>
          var sessions :- DecodeSessions(es);
          Success(Tracker(sessions))
        case _ => Failure(SessionsNotADictionary)
  }

  /** Every session is found again under its own id. */
  lemma RebuildsSession(t: Tracker, ids: seq<int>, id: int)
    requires forall i | 0 <= i < |ids| :: ids[i] in t.sessions
    requires SetOrder.StrictlyIncreasing(ids)
    requires id in t.sessions && id in ids
    ensures id in FromPairs(Pairs(t, ids))
    ensures FromPairs(Pairs(t, ids))[id] == t.sessions[id]
  {
    var ps := Pairs(t, ids);
    var i :| 0 <= i < |ids| && ids[i] == id;
    assert forall j | i < j < |ps| :: ps[j].0 != ps[i].0;
    LastPairWins(ps, i);
  }

  /** No id appears that was not among the given segments. */
  lemma RebuildsOnly(t: Tracker, ids: seq<int>, id: int)
    requires forall i | 0 <= i < |ids| :: ids[i] in t.sessions
    requires id in FromPairs(Pairs(t, ids))
    ensures id in t.sessions
  {
    var i := FromPairsOnly(Pairs(t, ids), id);
  }

  /** Inserting every session once, under its own id, rebuilds the map. */
  lemma FromPairsRebuilds(t: Tracker, ids: seq<int>)
    requires forall i | 0 <= i < |ids| :: ids[i] in t.sessions
    requires forall id | id in t.sessions :: id in ids
    requires SetOrder.StrictlyIncreasing(ids)
    ensures FromPairs(Pairs(t, ids)) == t.sessions
  {
    var m := FromPairs(Pairs(t, ids));
    forall id | id in t.sessions
      ensures id in m && m[id] == t.sessions[id]
    {
      RebuildsSession(t, ids, id);
    }
    forall id | id in m
      ensures id in t.sessions
    {
      RebuildsOnly(t, ids, id);
    }
    assert m.Keys == t.sessions.Keys;
    assert forall id | id in m :: m[id] == t.sessions[id];
  }

  /** The decoded `sessions` dictionary is the map its decoded pairs build. */
  lemma DecodeSessionsOfPairs(es: Entries, ps: seq<(int, Session)>)
    requires DecodeAll(es) == Success(ps)
    ensures DecodeSessions(es) == Success(FromPairs(ps))
  {
  }

  /** Reading back the `sessions` dictionary restores every session. */
  lemma SessionsRoundTrip(t: Tracker)
    ensures DecodeSessions(SessionsDict(t)) == Success(t.sessions)
  {
    var ids := SetOrder.Sorted(t.sessions.Keys);
    var ps := Pairs(t, ids);
    assert DecodeAll(SessionsDict(t)) == Success(ps) by {
      assert SessionsDict(t) == EntriesFor(t, ids);
      DecodeEntriesFor(t, ids);
    }
    assert FromPairs(ps) == t.sessions by {
      FromPairsRebuilds(t, ids);
    }
    DecodeSessionsOfPairs(SessionsDict(t), ps);
  }

  /** A document holding only a `sessions` dictionary loads as the tracker
      of those sessions. */
  lemma FromSessionsDocument(es: Entries, sessions: map<int, Session>)
    requires DecodeSessions(es) == Success(sessions)
    ensures FromDict(Some([("sessions", Object(es))])) == Success(Tracker(sessions))
  {
    var d := [("sessions", Object(es))];
    assert Get(d, "sessions") == Some(Object(es));
  }

  /** Saving then reloading gives back the very same tracker: same segment
      ids, field-for-field equal sessions. */
  lemma TrackerRoundTrip(t: Tracker)
    ensures FromDict(Some(ToDict(t))) == Success(t)
  {
    var es := SessionsDict(t);
    assert ToDict(t) == [("sessions", Object(es))];
    SessionsRoundTrip(t);
    FromSessionsDocument(es, t.sessions);
  }
}

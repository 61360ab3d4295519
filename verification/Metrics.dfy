/** The list of saved edit records (`st.session_state.edit_metrics`): one
    record per saved edit, kept in the order the edits were saved. Saving a
    segment again replaces its record, which then moves to the end. */
module Metrics {
  import opened Wrappers
  import opened TimeTracker

  /** `EditMetrics`: what is recorded when an edit of a segment is saved.
      Insertion and deletion counts are word counts from a diff. */
  datatype EditMetrics = EditMetrics(
    segmentId: int,
    source: string,
    original: string,
    edited: string,
    editTime: Time,
    insertions: nat,
    deletions: nat)

  /** The records of one segment, in list order. */
  function OfSegment(ms: seq<EditMetrics>, id: int): (r: seq<EditMetrics>)
    ensures |r| <= |ms|
    ensures forall k | 0 <= k < |r| :: r[k].segmentId == id && r[k] in ms
    decreases |ms|
  {
    if ms == [] then
      []
    else
      (if ms[0].segmentId == id then [ms[0]] else []) + OfSegment(ms[1..], id)
  }

  /** `[m for m in ms if m.segment_id != id]`: every other segment's
      records, in list order. */
  function WithoutSegment(ms: seq<EditMetrics>, id: int): (r: seq<EditMetrics>)
    ensures forall k | 0 <= k < |r| :: r[k].segmentId != id && r[k] in ms
    ensures |r| + |OfSegment(ms, id)| == |ms|
    decreases |ms|
  {
    if ms == [] then
      []
    else
      (if ms[0].segmentId != id then [ms[0]] else []) + WithoutSegment(ms[1..], id)
  }

  /** Sequence concatenation is associative. A proof step for the solver,
      not a statement about the program. */
  lemma AppendAssoc<T>(x: seq<T>, y: seq<T>, z: seq<T>)
    ensures x + (y + z) == (x + y) + z
  {
  }

  lemma {:induction false} OfSegmentAppend(a: seq<EditMetrics>, b: seq<EditMetrics>, id: int)
    ensures OfSegment(a + b, id) == OfSegment(a, id) + OfSegment(b, id)
    decreases |a|
  {
    if a != [] {
      assert (a + b)[0] == a[0] && (a + b)[1..] == a[1..] + b;
      OfSegmentAppend(a[1..], b, id);
      var head := if a[0].segmentId == id then [a[0]] else [];
      assert OfSegment(a + b, id) == head + OfSegment(a[1..] + b, id);
      assert OfSegment(a, id) == head + OfSegment(a[1..], id);
      AppendAssoc(head, OfSegment(a[1..], id), OfSegment(b, id));
    } else {
      assert a + b == b;
    }
  }

  lemma {:induction false} WithoutSegmentAppend(a: seq<EditMetrics>, b: seq<EditMetrics>, id: int)
    ensures WithoutSegment(a + b, id) == WithoutSegment(a, id) + WithoutSegment(b, id)
    decreases |a|
  {
    if a != [] {
      assert (a + b)[0] == a[0] && (a + b)[1..] == a[1..] + b;
      WithoutSegmentAppend(a[1..], b, id);
      var head := if a[0].segmentId != id then [a[0]] else [];
      assert WithoutSegment(a + b, id) == head + WithoutSegment(a[1..] + b, id);
      assert WithoutSegment(a, id) == head + WithoutSegment(a[1..], id);
      AppendAssoc(head, WithoutSegment(a[1..], id), WithoutSegment(b, id));
    } else {
      assert a + b == b;
    }
  }

  /** Dropping one segment's records leaves every other segment's records
      exactly as they were, order included. */
  lemma {:induction false} WithoutSegmentKeepsOthers(ms: seq<EditMetrics>, id: int, other: int)
    requires other != id
    ensures OfSegment(WithoutSegment(ms, id), other) == OfSegment(ms, other)
    decreases |ms|
  {
    if ms != [] {
      WithoutSegmentKeepsOthers(ms[1..], id, other);
      var head := if ms[0].segmentId != id then [ms[0]] else [];
      OfSegmentAppend(head, WithoutSegment(ms[1..], id), other);
    }
  }

  /** Dropping a segment's records leaves none of them. */
  lemma {:induction false} WithoutSegmentRemoves(ms: seq<EditMetrics>, id: int)
    ensures OfSegment(WithoutSegment(ms, id), id) == []
    decreases |ms|
  {
    if ms != [] {
      WithoutSegmentRemoves(ms[1..], id);
      var head := if ms[0].segmentId != id then [ms[0]] else [];
      OfSegmentAppend(head, WithoutSegment(ms[1..], id), id);
    }
  }

  /** A list holding no record of a segment is left alone by dropping it. */
  lemma {:induction false} WithoutAbsentSegment(ms: seq<EditMetrics>, id: int)
    requires forall k | 0 <= k < |ms| :: ms[k].segmentId != id
    ensures WithoutSegment(ms, id) == ms
    decreases |ms|
  {
    if ms != [] {
      WithoutAbsentSegment(ms[1..], id);
      assert [ms[0]] + ms[1..] == ms;
    }
  }

  /** The upsert at the end of `save_metrics`: drop the segment's old
      record and append the new one. */
  function Upsert(ms: seq<EditMetrics>, m: EditMetrics): (r: seq<EditMetrics>)
    ensures |r| > 0 && r[|r| - 1] == m
    ensures OfSegment(r, m.segmentId) == [m]
    ensures forall other | other != m.segmentId :: OfSegment(r, other) == OfSegment(ms, other)
    ensures WithoutSegment(r, m.segmentId) == WithoutSegment(ms, m.segmentId)
  {
    var kept := WithoutSegment(ms, m.segmentId);
    var r := kept + [m];
    OfSegmentAppend(kept, [m], m.segmentId);
    WithoutSegmentRemoves(ms, m.segmentId);
    forall other | other != m.segmentId
      ensures OfSegment(r, other) == OfSegment(ms, other)
    {
      OfSegmentAppend(kept, [m], other);
      WithoutSegmentKeepsOthers(ms, m.segmentId, other);
    }
    WithoutSegmentAppend(kept, [m], m.segmentId);
    WithoutAbsentSegment(kept, m.segmentId);
    r
  }

  /** Saving the same record twice is the same as saving it once. */
  lemma UpsertIdempotent(ms: seq<EditMetrics>, m: EditMetrics)
    ensures Upsert(Upsert(ms, m), m) == Upsert(ms, m)
  {
    var once := Upsert(ms, m);
    var twice := Upsert(once, m);
    assert WithoutSegment(twice, m.segmentId) == WithoutSegment(ms, m.segmentId);
  }

  /** No segment has more than one record. */
  ghost predicate AtMostOnePerSegment(ms: seq<EditMetrics>)
  {
    forall id :: |OfSegment(ms, id)| <= 1
  }

  /** Upserting keeps at most one record per segment. */
  lemma UpsertKeepsOnePerSegment(ms: seq<EditMetrics>, m: EditMetrics)
    requires AtMostOnePerSegment(ms)
    ensures AtMostOnePerSegment(Upsert(ms, m))
  {
    var r := Upsert(ms, m);
    forall id
      ensures |OfSegment(r, id)| <= 1
    {
      if id != m.segmentId {
        assert OfSegment(r, id) == OfSegment(ms, id);
      }
    }
  }

  /** `next(m for m in ms if m.segment_id == id)`: the earliest record of
      a segment. */
  function FirstEdit(ms: seq<EditMetrics>, id: int): (r: Option<EditMetrics>)
    ensures r.Some? ==> r.value in ms && r.value.segmentId == id
    decreases |ms|
  {
    if ms == [] then None
    else if ms[0].segmentId == id then Some(ms[0])
    else FirstEdit(ms[1..], id)
  }

  /** The loop over `reversed(edit_metrics)` that stops at the first match:
      the latest record of a segment. */
  function LatestEdit(ms: seq<EditMetrics>, id: int): (r: Option<EditMetrics>)
    ensures r.Some? ==> r.value in ms && r.value.segmentId == id
    decreases |ms|
  {
    if ms == [] then None
    else if ms[|ms| - 1].segmentId == id then Some(ms[|ms| - 1])
    else LatestEdit(ms[..|ms| - 1], id)
  }

  /** The first element of a list, if any. */
  function FirstOf(es: seq<EditMetrics>): Option<EditMetrics>
  {
    if es == [] then None else Some(es[0])
  }

  /** The last element of a list, if any. */
  function LastOf(es: seq<EditMetrics>): Option<EditMetrics>
  {
    if es == [] then None else Some(es[|es| - 1])
  }

  /** The earliest record is the first of the segment's records. */
  lemma {:induction false} FirstEditIsFirst(ms: seq<EditMetrics>, id: int)
    ensures FirstEdit(ms, id) == FirstOf(OfSegment(ms, id))
    decreases |ms|
  {
    if ms != [] {
      FirstEditIsFirst(ms[1..], id);
    }
  }

  /** Appending one record extends the segment's records by it, if it is
      one of them. */
  lemma OfSegmentSnoc(ms: seq<EditMetrics>, x: EditMetrics, id: int)
    ensures OfSegment(ms + [x], id)
         == OfSegment(ms, id) + (if x.segmentId == id then [x] else [])
  {
    OfSegmentAppend(ms, [x], id);
    assert OfSegment([x], id) == (if x.segmentId == id then [x] else []) by {
      assert [x][1..] == [];
    }
  }

  /** The latest record is the last of the segment's records. */
  lemma {:induction false} LatestEditIsLast(ms: seq<EditMetrics>, id: int)
    ensures LatestEdit(ms, id) == LastOf(OfSegment(ms, id))
    decreases |ms|
  {
    if ms != [] {
      var n := |ms| - 1;
      var init := ms[..n];
      LatestEditIsLast(init, id);
      assert init + [ms[n]] == ms;
      OfSegmentSnoc(init, ms[n], id);
    }
  }

  /** With at most one record per segment, the earliest and the latest
      record of a segment are the same record. */
  lemma FirstIsLatest(ms: seq<EditMetrics>, id: int)
    requires AtMostOnePerSegment(ms)
    ensures FirstEdit(ms, id) == LatestEdit(ms, id)
  {
    var es := OfSegment(ms, id);
    assert |es| <= 1;
    FirstEditIsFirst(ms, id);
    LatestEditIsLast(ms, id);
    FirstIsLastOfShort(es);
  }

  lemma FirstIsLastOfShort(es: seq<EditMetrics>)
    requires |es| <= 1
    ensures FirstOf(es) == LastOf(es)
  {
  }

  /** The text the edit box opens with: the latest saved edit of the
      segment, else its earliest one, else the machine translation. */
  function InitialText(ms: seq<EditMetrics>, id: int, translation: string): (r: string)
    ensures OfSegment(ms, id) == [] ==> r == translation
    ensures OfSegment(ms, id) != [] ==> r == OfSegment(ms, id)[|OfSegment(ms, id)| - 1].edited
  {
    LatestEditIsLast(ms, id);
    FirstEditIsFirst(ms, id);
    match LatestEdit(ms, id)
    case Some(m) => m.edited
    case None =>
      match FirstEdit(ms, id)
      case Some(m) => m.edited
      case None => translation
  }

  /** After a save, the segment reopens with the text just saved, and no
      other segment's opening text changes. */
  lemma UpsertInitialText(ms: seq<EditMetrics>, m: EditMetrics, id: int, translation: string)
    ensures id == m.segmentId ==> InitialText(Upsert(ms, m), id, translation) == m.edited
    ensures id != m.segmentId ==>
      InitialText(Upsert(ms, m), id, translation) == InitialText(ms, id, translation)
  {
    var r := Upsert(ms, m);
    LatestEditIsLast(r, id);
    LatestEditIsLast(ms, id);
    FirstEditIsFirst(r, id);
    FirstEditIsFirst(ms, id);
  }
}

/** Loading the two uploaded files into translation segments
    (`load_segments`): each file is split into lines, every line is stripped
    of surrounding whitespace, blank lines are dropped, and the i-th source
    line is paired with the i-th translation line. File contents are taken
    as already decoded text. */
module Segments {
  import opened Wrappers
  import Text

  /** `[g(x) for x in xs if p(x)]` with `f` answering `Some(g(x))` exactly
      when `p(x)` holds. */
  function FilterMap<A, B(==)>(xs: seq<A>, f: A -> Option<B>): (r: seq<B>)
    ensures |r| <= |xs|
    ensures |r| == |xs| <==> forall j | 0 <= j < |xs| :: f(xs[j]).Some?
    ensures r == [] <==> forall j | 0 <= j < |xs| :: f(xs[j]).None?
    decreases |xs|
  {
    if xs == [] then
      []
    else
      (if f(xs[0]).Some? then [f(xs[0]).value] else []) + FilterMap(xs[1..], f)
  }

  /** Position `idx[k]` holds an element `f` accepts, turning it into `r[k]`. */
  predicate Picks<A, B(==)>(xs: seq<A>, f: A -> Option<B>, r: seq<B>, idx: seq<nat>)
  {
    && |idx| == |r|
    && forall k | 0 <= k < |idx| :: idx[k] < |xs| && f(xs[idx[k]]) == Some(r[k])
  }

  predicate Increasing(idx: seq<nat>)
  {
    forall k, l | 0 <= k < l < |idx| :: idx[k] < idx[l]
  }

  /** Every position `f` accepts is listed. */
  predicate Covers<A, B>(xs: seq<A>, f: A -> Option<B>, idx: seq<nat>)
  {
    forall j | 0 <= j < |xs| && f(xs[j]).Some? :: j in idx
  }

  /** `idx` lists, in increasing order, exactly the positions of the
      elements `f` keeps, and `r` holds what `f` makes of them: an
      independent description of what the comprehension produces. */
  predicate Selects<A, B(==)>(xs: seq<A>, f: A -> Option<B>, r: seq<B>, idx: seq<nat>)
  {
    Picks(xs, f, r, idx) && Increasing(idx) && Covers(xs, f, idx)
  }

  function Shift(idx: seq<nat>): (r: seq<nat>)
    ensures |r| == |idx|
    ensures forall k | 0 <= k < |idx| :: r[k] == idx[k] + 1
  {
    if idx == [] then [] else [idx[0] + 1] + Shift(idx[1..])
  }

  function Unshift(idx: seq<nat>): (r: seq<nat>)
    requires forall k | 0 <= k < |idx| :: idx[k] >= 1
    ensures |r| == |idx|
    ensures forall k | 0 <= k < |idx| :: r[k] == idx[k] - 1
  {
    if idx == [] then [] else [idx[0] - 1] + Unshift(idx[1..])
  }

  /** A rejected first element shifts every selected position by one. */
  lemma SelectsSkip<A, B>(xs: seq<A>, f: A -> Option<B>, r: seq<B>, idx: seq<nat>)
    requires xs != [] && f(xs[0]).None?
    requires Selects(xs[1..], f, r, idx)
    ensures Selects(xs, f, r, Shift(idx))
  {
    PicksShift(xs, f, r, idx);
    CoversSkip(xs, f, idx);
  }

  lemma PicksShift<A, B>(xs: seq<A>, f: A -> Option<B>, r: seq<B>, idx: seq<nat>)
    requires xs != []
    requires Picks(xs[1..], f, r, idx)
    ensures Picks(xs, f, r, Shift(idx))
  {
    var sh := Shift(idx);
    forall k | 0 <= k < |sh|
      ensures sh[k] < |xs| && f(xs[sh[k]]) == Some(r[k])
    {
      assert xs[1..][idx[k]] == xs[sh[k]];
    }
  }

  lemma CoversSkip<A, B>(xs: seq<A>, f: A -> Option<B>, idx: seq<nat>)
    requires xs != [] && f(xs[0]).None?
    requires Covers(xs[1..], f, idx)
    ensures Covers(xs, f, Shift(idx))
  {
    var sh := Shift(idx);
    forall j | 0 <= j < |xs| && f(xs[j]).Some?
      ensures j in sh
    {
      assert xs[1..][j - 1] == xs[j];
      var k :| 0 <= k < |idx| && idx[k] == j - 1;
      assert sh[k] == j;
    }
  }

  /** An accepted first element is selected at position 0, ahead of the
      shifted selection of the rest. */
  lemma SelectsKeep<A, B>(xs: seq<A>, f: A -> Option<B>, r: seq<B>, idx: seq<nat>)
    requires xs != [] && f(xs[0]).Some?
    requires Selects(xs[1..], f, r, idx)
    ensures Selects(xs, f, [f(xs[0]).value] + r, [0] + Shift(idx))
  {
    PicksShift(xs, f, r, idx);
    PicksKeep(xs, f, r, Shift(idx));
    IncreasingKeep(Shift(idx));
    CoversKeep(xs, f, idx);
  }

  lemma PicksKeep<A, B>(xs: seq<A>, f: A -> Option<B>, r: seq<B>, idx: seq<nat>)
    requires xs != [] && f(xs[0]).Some?
    requires Picks(xs, f, r, idx)
    ensures Picks(xs, f, [f(xs[0]).value] + r, [0] + idx)
  {
    var idx' := [0] + idx;
    var r' := [f(xs[0]).value] + r;
    forall k | 0 <= k < |idx'|
      ensures idx'[k] < |xs| && f(xs[idx'[k]]) == Some(r'[k])
    {
      if k > 0 {
        assert idx'[k] == idx[k - 1] && r'[k] == r[k - 1];
      }
    }
  }

  lemma IncreasingKeep(idx: seq<nat>)
    requires Increasing(idx)
    requires forall k | 0 <= k < |idx| :: idx[k] > 0
    ensures Increasing([0] + idx)
  {
    var idx' := [0] + idx;
    forall k, l | 0 <= k < l < |idx'|
      ensures idx'[k] < idx'[l]
    {
      assert idx'[l] == idx[l - 1];
      if k > 0 {
        assert idx'[k] == idx[k - 1];
      }
    }
  }

  lemma CoversKeep<A, B>(xs: seq<A>, f: A -> Option<B>, idx: seq<nat>)
    requires xs != []
    requires Covers(xs[1..], f, idx)
    ensures Covers(xs, f, [0] + Shift(idx))
  {
    var sh := Shift(idx);
    var idx' := [0] + sh;
    forall j | 0 <= j < |xs| && f(xs[j]).Some?
      ensures j in idx'
    {
      if j == 0 {
        assert idx'[0] == 0;
      } else {
        assert xs[1..][j - 1] == xs[j];
        var k :| 0 <= k < |idx| && idx[k] == j - 1;
        assert idx'[k + 1] == j;
      }
    }
  }

  /** The comprehension keeps exactly the elements `f` accepts, in order. */
  lemma {:induction false} FilterMapSelects<A, B>(xs: seq<A>, f: A -> Option<B>) returns (idx: seq<nat>)
    ensures Selects(xs, f, FilterMap(xs, f), idx)
    decreases |xs|
  {
    if xs == [] {
      idx := [];
    } else {
      var rest := FilterMapSelects(xs[1..], f);
      var rt := FilterMap(xs[1..], f);
      if f(xs[0]).Some? {
        assert FilterMap(xs, f) == [f(xs[0]).value] + rt;
        SelectsKeep(xs, f, rt, rest);
        idx := [0] + Shift(rest);
      } else {
        assert FilterMap(xs, f) == rt;
        SelectsSkip(xs, f, rt, rest);
        idx := Shift(rest);
      }
    }
  }

  /** Every element of the result comes from some element of the input. */
  lemma FilterMapFrom<A, B>(xs: seq<A>, f: A -> Option<B>, k: nat) returns (j: nat)
    requires k < |FilterMap(xs, f)|
    ensures j < |xs| && f(xs[j]) == Some(FilterMap(xs, f)[k])
  {
    var idx := FilterMapSelects(xs, f);
    j := idx[k];
  }

  /** A rejected first element is never selected. */
  lemma SkipNotPicked<A, B>(xs: seq<A>, f: A -> Option<B>, r: seq<B>, idx: seq<nat>)
    requires xs != [] && f(xs[0]).None?
    requires Picks(xs, f, r, idx)
    ensures forall k | 0 <= k < |idx| :: idx[k] >= 1
  {
    forall k | 0 <= k < |idx|
      ensures idx[k] >= 1
    {
      assert f(xs[idx[k]]).Some?;
    }
  }

  lemma PicksUnshift<A, B>(xs: seq<A>, f: A -> Option<B>, r: seq<B>, idx: seq<nat>)
    requires xs != []
    requires forall k | 0 <= k < |idx| :: idx[k] >= 1
    requires Picks(xs, f, r, idx)
    ensures Picks(xs[1..], f, r, Unshift(idx))
  {
    var tail := xs[1..];
    var down := Unshift(idx);
    forall k | 0 <= k < |down|
      ensures down[k] < |tail| && f(tail[down[k]]) == Some(r[k])
    {
      assert tail[down[k]] == xs[idx[k]];
    }
  }

  lemma IncreasingUnshift(idx: seq<nat>)
    requires forall k | 0 <= k < |idx| :: idx[k] >= 1
    requires Increasing(idx)
    ensures Increasing(Unshift(idx))
  {
    var down := Unshift(idx);
    forall k, l | 0 <= k < l < |down|
      ensures down[k] < down[l]
    {
      assert idx[k] < idx[l];
    }
  }

  /** Every accepted position past the first is listed in `idx`, so every
      accepted position of the rest is listed in `Unshift(idx)`. */
  lemma CoversUnshift<A, B>(xs: seq<A>, f: A -> Option<B>, idx: seq<nat>)
    requires xs != []
    requires forall k | 0 <= k < |idx| :: idx[k] >= 1
    requires forall j | 1 <= j < |xs| && f(xs[j]).Some? :: j in idx
    ensures Covers(xs[1..], f, Unshift(idx))
  {
    var tail := xs[1..];
    var down := Unshift(idx);
    forall j | 0 <= j < |tail| && f(tail[j]).Some?
      ensures j in down
    {
      assert tail[j] == xs[j + 1];
      var k :| 0 <= k < |idx| && idx[k] == j + 1;
      assert down[k] == j;
    }
  }

  /** A selection of a list whose first element is rejected is a shifted
      selection of the rest. */
  lemma SelectsDropSkip<A, B>(xs: seq<A>, f: A -> Option<B>, r: seq<B>, idx: seq<nat>)
    requires xs != [] && f(xs[0]).None?
    requires Selects(xs, f, r, idx)
    ensures forall k | 0 <= k < |idx| :: idx[k] >= 1
    ensures Selects(xs[1..], f, r, Unshift(idx))
  {
    SkipNotPicked(xs, f, r, idx);
    PicksUnshift(xs, f, r, idx);
    IncreasingUnshift(idx);
    CoversUnshift(xs, f, idx);
  }

  /** The first position of an increasing list is its least. */
  lemma IncreasingFirst(idx: seq<nat>, k: nat)
    requires Increasing(idx) && k < |idx|
    ensures idx[0] <= idx[k]
  {
    if k > 0 {
      assert idx[0] < idx[k];
    }
  }

  lemma PicksRest<A, B>(xs: seq<A>, f: A -> Option<B>, r: seq<B>, idx: seq<nat>)
    requires Picks(xs, f, r, idx) && |idx| > 0
    ensures Picks(xs, f, r[1..], idx[1..])
  {
    var rest := idx[1..];
    forall k | 0 <= k < |rest|
      ensures rest[k] < |xs| && f(xs[rest[k]]) == Some(r[1..][k])
    {
      assert rest[k] == idx[k + 1] && r[1..][k] == r[k + 1];
    }
  }

  lemma IncreasingRest(idx: seq<nat>)
    requires Increasing(idx) && |idx| > 0
    ensures Increasing(idx[1..])
    ensures forall k | 0 <= k < |idx[1..]| :: idx[1..][k] > idx[0]
  {
    var rest := idx[1..];
    forall k | 0 <= k < |rest|
      ensures rest[k] > idx[0]
    {
      assert rest[k] == idx[k + 1];
    }
    forall k, l | 0 <= k < l < |rest|
      ensures rest[k] < rest[l]
    {
      assert rest[k] == idx[k + 1] && rest[l] == idx[l + 1];
    }
  }

  lemma CoversRest<A, B>(xs: seq<A>, f: A -> Option<B>, idx: seq<nat>)
    requires Covers(xs, f, idx) && |idx| > 0 && idx[0] == 0
    ensures forall j | 1 <= j < |xs| && f(xs[j]).Some? :: j in idx[1..]
  {
    forall j | 1 <= j < |xs| && f(xs[j]).Some?
      ensures j in idx[1..]
    {
      var k :| 0 <= k < |idx| && idx[k] == j;
      assert idx[1..][k - 1] == j;
    }
  }

  /** A selection of a list whose first element is accepted starts with
      position 0, and the rest of it is a shifted selection of the rest. */
  lemma SelectsDropKeep<A, B>(xs: seq<A>, f: A -> Option<B>, r: seq<B>, idx: seq<nat>)
    requires xs != [] && f(xs[0]).Some?
    requires Selects(xs, f, r, idx)
    ensures |idx| > 0 && idx[0] == 0 && r[0] == f(xs[0]).value
    ensures forall k | 0 <= k < |idx[1..]| :: idx[1..][k] >= 1
    ensures Selects(xs[1..], f, r[1..], Unshift(idx[1..]))
  {
    assert 0 in idx;
    var k0 :| 0 <= k0 < |idx| && idx[k0] == 0;
    IncreasingFirst(idx, k0);
    var rest := idx[1..];
    IncreasingRest(idx);
    PicksRest(xs, f, r, idx);
    PicksUnshift(xs, f, r[1..], rest);
    IncreasingUnshift(rest);
    CoversRest(xs, f, idx);
    CoversUnshift(xs, f, rest);
  }

  /** Conversely, any increasing selection of the accepted elements is the
      comprehension's result. */
  lemma {:induction false} SelectsUnique<A, B>(xs: seq<A>, f: A -> Option<B>, r: seq<B>, idx: seq<nat>)
    requires Selects(xs, f, r, idx)
    ensures r == FilterMap(xs, f)
    decreases |xs|
  {
    if xs == [] {
      if |idx| > 0 {
        assert false;
      }
    } else if f(xs[0]).Some? {
      SelectsDropKeep(xs, f, r, idx);
      SelectsUnique(xs[1..], f, r[1..], Unshift(idx[1..]));
      assert r == [r[0]] + r[1..];
    } else {
      SelectsDropSkip(xs, f, r, idx);
      SelectsUnique(xs[1..], f, r, Unshift(idx));
    }
  }

  /** Elements `f` returns unchanged survive the comprehension unchanged. */
  lemma {:induction false} FilterMapFixed<A>(xs: seq<A>, f: A -> Option<A>)
    requires forall k | 0 <= k < |xs| :: f(xs[k]) == Some(xs[k])
    ensures FilterMap(xs, f) == xs
    decreases |xs|
  {
    if xs != [] {
      FilterMapFixed(xs[1..], f);
      assert [xs[0]] + xs[1..] == xs;
    }
  }

  /** A kept line: stripped and not empty. */
  predicate IsSegmentText(s: string)
  {
    s != [] && Text.IsStripped(Text.StrSpaces, s)
  }

  /** What the comprehension makes of one line: its stripped text, unless
      that is empty. */
  function KeepLine(line: string): (r: Option<string>)
    ensures r.Some? <==> Text.Strip(Text.StrSpaces, line) != []
    ensures r.Some? ==> r.value == Text.Strip(Text.StrSpaces, line) && IsSegmentText(r.value)
  {
    var s := Text.Strip(Text.StrSpaces, line);
    if s == [] then None else Some(s)
  }

  /** The list comprehension `[line.strip() for line in lines if line.strip()]`. */
  function NonBlank(lines: seq<string>): (r: seq<string>)
    ensures |r| <= |lines|
    ensures forall k | 0 <= k < |r| :: IsSegmentText(r[k])
    ensures forall k | 0 <= k < |r| :: exists j | 0 <= j < |lines| :: r[k] == Text.Strip(Text.StrSpaces, lines[j])
  {
    var r := FilterMap(lines, KeepLine);
    forall k | 0 <= k < |r|
      ensures IsSegmentText(r[k])
      ensures exists j | 0 <= j < |lines| :: r[k] == Text.Strip(Text.StrSpaces, lines[j])
    {
      var j := FilterMapFrom(lines, KeepLine, k);
      assert KeepLine(lines[j]) == Some(r[k]);
    }
    r
  }

  /** Lines kept by the comprehension are exactly the non-blank lines,
      stripped, in their original order. */
  lemma NonBlankSelects(lines: seq<string>) returns (idx: seq<nat>)
    ensures |idx| == |NonBlank(lines)|
    ensures forall k | 0 <= k < |idx| ::
      idx[k] < |lines| && Text.Strip(Text.StrSpaces, lines[idx[k]]) != [] && NonBlank(lines)[k] == Text.Strip(Text.StrSpaces, lines[idx[k]])
    ensures forall k, l | 0 <= k < l < |idx| :: idx[k] < idx[l]
    ensures forall j | 0 <= j < |lines| && Text.Strip(Text.StrSpaces, lines[j]) != [] :: j in idx
  {
    idx := FilterMapSelects(lines, KeepLine);
    var r := NonBlank(lines);
    forall k | 0 <= k < |idx|
      ensures Text.Strip(Text.StrSpaces, lines[idx[k]]) != [] && r[k] == Text.Strip(Text.StrSpaces, lines[idx[k]])
    {
      assert KeepLine(lines[idx[k]]) == Some(r[k]);
    }
    forall j | 0 <= j < |lines| && Text.Strip(Text.StrSpaces, lines[j]) != []
      ensures j in idx
    {
      assert KeepLine(lines[j]).Some?;
    }
  }

  /** Keeping the kept lines again changes nothing. */
  lemma NonBlankIdempotent(lines: seq<string>)
    requires forall k | 0 <= k < |lines| :: IsSegmentText(lines[k])
    ensures NonBlank(lines) == lines
  {
    forall k | 0 <= k < |lines|
      ensures KeepLine(lines[k]) == Some(lines[k])
    {
      Text.StripStripped(Text.StrSpaces, lines[k]);
    }
    FilterMapFixed(lines, KeepLine);
  }

  /** The kept lines of a file's text; none contains a line break. */
  function NonBlankLines(content: string): (r: seq<string>)
    ensures forall k | 0 <= k < |r| :: IsSegmentText(r[k]) && '\n' !in r[k]
  {
    var lines := Text.Split(content, '\n');
    var r := NonBlank(lines);
    forall k | 0 <= k < |r|
      ensures '\n' !in r[k]
    {
      var j :| 0 <= j < |lines| && r[k] == Text.Strip(Text.StrSpaces, lines[j]);
      assert lines[j] in lines;
      Text.StripKeepsOut(Text.StrSpaces, lines[j], '\n');
    }
    r
  }

  /** The text of a file holding the given lines, one per line. */
  function Lines(xs: seq<string>): string
  {
    if xs == [] then "" else Text.Join(xs, '\n')
  }

  /** Writing segment texts one per line and loading them back gives the
      same texts. */
  lemma NonBlankLinesRoundTrip(xs: seq<string>)
    requires forall k | 0 <= k < |xs| :: IsSegmentText(xs[k]) && '\n' !in xs[k]
    ensures NonBlankLines(Lines(xs)) == xs
  {
    if xs == [] {
      assert Text.Split("", '\n') == [""];
      assert Text.Strip(Text.StrSpaces, "") == [];
      assert NonBlank([""]) == [];
    } else {
      Text.SplitJoin(xs, '\n');
      NonBlankIdempotent(xs);
    }
  }

  /** The `ValueError` raised when the files keep different numbers of lines. */
  datatype LoadError = LineCountMismatch(sourceLines: nat, translationLines: nat)

  /** `load_segments`: no pairs when either file is missing; otherwise the
      kept lines of both files zipped, or an error when their counts differ. */
  function LoadSegments(source: Option<string>, translation: Option<string>)
    : (r: Result<seq<(string, string)>, LoadError>)
    ensures source.None? || translation.None? ==> r == Success([])
    ensures source.Some? && translation.Some? ==>
      (r.Failure? <==> |NonBlankLines(source.value)| != |NonBlankLines(translation.value)|)
    ensures r.Failure? ==>
      r.error == LineCountMismatch(|NonBlankLines(source.value)|, |NonBlankLines(translation.value)|)
    ensures r.Success? && source.Some? && translation.Some? ==>
      && |r.value| == |NonBlankLines(source.value)|
      && forall i | 0 <= i < |r.value| ::
           r.value[i] == (NonBlankLines(source.value)[i], NonBlankLines(translation.value)[i])
    ensures r.Success? ==> forall i | 0 <= i < |r.value| ::
      IsSegmentText(r.value[i].0) && IsSegmentText(r.value[i].1)
  {
    if source.None? || translation.None? then
      Success([])
    else
      var sourceLines := NonBlankLines(source.value);
      var translationLines := NonBlankLines(translation.value);
      if |sourceLines| != |translationLines| then
        Failure(LineCountMismatch(|sourceLines|, |translationLines|))
      else
        Success(Zip(sourceLines, translationLines))
  }

  /** A loaded pair list splits back into the kept lines of each file. */
  lemma LoadedSides(source: string, translation: string)
    requires LoadSegments(Some(source), Some(translation)).Success?
    ensures Firsts(LoadSegments(Some(source), Some(translation)).value) == NonBlankLines(source)
    ensures Seconds(LoadSegments(Some(source), Some(translation)).value) == NonBlankLines(translation)
  {
    UnzipZip(NonBlankLines(source), NonBlankLines(translation));
  }

  /** Two files with equally many kept lines load as those lines zipped. */
  lemma LoadKept(source: string, translation: string)
    requires |NonBlankLines(source)| == |NonBlankLines(translation)|
    ensures LoadSegments(Some(source), Some(translation))
      == Success(Zip(NonBlankLines(source), NonBlankLines(translation)))
  {
  }

  /** Writing two lists of segment texts out as files, one text per line,
      and loading them gives back the texts, paired in order. */
  lemma LoadSegmentsRoundTrip(sources: seq<string>, translations: seq<string>)
    requires |sources| == |translations|
    requires forall k | 0 <= k < |sources| :: IsSegmentText(sources[k]) && '\n' !in sources[k]
    requires forall k | 0 <= k < |translations| ::
      IsSegmentText(translations[k]) && '\n' !in translations[k]
    ensures LoadSegments(Some(Lines(sources)), Some(Lines(translations)))
      == Success(Zip(sources, translations))
  {
    NonBlankLinesRoundTrip(sources);
    NonBlankLinesRoundTrip(translations);
    LoadKept(Lines(sources), Lines(translations));
  }
}

/** The two Python string operations the segment loader and `int()` rely on:
    `str.strip()` with no arguments and `str.split(sep)` with a one-character
    separator. Strings are sequences of Unicode scalar values. */
module Text {

  /** Which characters count as whitespace. `str.strip()` removes every
      character `str.isspace()` accepts. CPython's `int()` leaves every
      character below U+007F as it is and skips only TAB..CR and SPACE among
      those, but first turns each non-ASCII whitespace character into a
      space; so it skips all of `str.isspace()` except the separators FS..US
      (U+001C..U+001F). */
  datatype Spaces = StrSpaces | IntSpaces

  /** Python's `str.isspace()` on a single character: the ASCII controls
      TAB..CR and FS..US, SPACE, NEL, NBSP and the Unicode space separators
      and line/paragraph separators. */
  predicate IsUnicodeSpace(c: char)
  {
    || c == ' '
    || ('\t' <= c <= '\r')
    || ('\U{1C}' <= c <= '\U{1F}')
    || c == '\U{85}'
    || c == '\U{A0}'
    || c == '\U{1680}'
    || ('\U{2000}' <= c <= '\U{200A}')
    || c == '\U{2028}'
    || c == '\U{2029}'
    || c == '\U{202F}'
    || c == '\U{205F}'
    || c == '\U{3000}'
  }

  /** Whitespace in the sense of `w`. */
  predicate IsSpace(w: Spaces, c: char)
  {
    IsUnicodeSpace(c) && (w == IntSpaces ==> !('\U{1C}' <= c <= '\U{1F}'))
  }

  /** A string with no whitespace at either end: what `strip()` produces. */
  predicate IsStripped(w: Spaces, s: string)
  {
    s == [] || (!IsSpace(w, s[0]) && !IsSpace(w, s[|s| - 1]))
  }

  /** `r` is `s` with some whitespace-only prefix and some whitespace-only
      suffix removed. */
  predicate IsTrimOf(w: Spaces, r: string, s: string)
  {
    exists i, j | 0 <= i <= j <= |s| ::
      && r == s[i..j]
      && (forall k | 0 <= k < i :: IsSpace(w, s[k]))
      && (forall k | j <= k < |s| :: IsSpace(w, s[k]))
  }

  /** Number of whitespace characters at the front of `s`. */
  function LeadingSpaces(w: Spaces, s: string): (n: nat)
    ensures n <= |s|
    ensures forall k | 0 <= k < n :: IsSpace(w, s[k])
    ensures n < |s| ==> !IsSpace(w, s[n])
  {
    if |s| > 0 && IsSpace(w, s[0]) then 1 + LeadingSpaces(w, s[1..]) else 0
  }

  /** Index where the trailing whitespace of `s` begins. */
  function TrailingStart(w: Spaces, s: string): (j: nat)
    ensures j <= |s|
    ensures forall k | j <= k < |s| :: IsSpace(w, s[k])
    ensures 0 < j ==> !IsSpace(w, s[j - 1])
  {
    if |s| > 0 && IsSpace(w, s[|s| - 1]) then TrailingStart(w, s[..|s| - 1]) else |s|
  }

  /** Python's `s.strip()` for `StrSpaces`; the stripping `int()` does for
      `IntSpaces`. */
  function Strip(w: Spaces, s: string): (r: string)
    ensures IsStripped(w, r)
    ensures IsTrimOf(w, r, s)
    ensures |r| <= |s|
  {
    var i := LeadingSpaces(w, s);
    var j := i + TrailingStart(w, s[i..]);
    forall k | j <= k < |s|
      ensures IsSpace(w, s[k])
    {
      assert s[k] == s[i..][k - i];
    }
    s[i..j]
  }

  /** Stripping is idempotent: a stripped string is its own strip. */
  lemma StripStripped(w: Spaces, s: string)
    requires IsStripped(w, s)
    ensures Strip(w, s) == s
  {
    if s != [] {
      assert LeadingSpaces(w, s) == 0;
      assert TrailingStart(w, s) == |s|;
    }
  }

  /** LeadingSpaces is pinned down by its contract. */
  lemma LeadingSpacesAt(w: Spaces, s: string, i: nat)
    requires i <= |s|
    requires forall k | 0 <= k < i :: IsSpace(w, s[k])
    requires i < |s| ==> !IsSpace(w, s[i])
    ensures LeadingSpaces(w, s) == i
  {
  }

  /** TrailingStart is pinned down by its contract. */
  lemma TrailingStartAt(w: Spaces, s: string, j: nat)
    requires j <= |s|
    requires forall k | j <= k < |s| :: IsSpace(w, s[k])
    requires 0 < j ==> !IsSpace(w, s[j - 1])
    ensures TrailingStart(w, s) == j
  {
  }

  /** The trim of a string is unique: `Strip` is the only stripped trim. */
  lemma TrimUnique(w: Spaces, r: string, s: string)
    requires IsTrimOf(w, r, s) && IsStripped(w, r)
    ensures r == Strip(w, s)
  {
    var i, j :| 0 <= i <= j <= |s| && r == s[i..j]
      && (forall k | 0 <= k < i :: IsSpace(w, s[k]))
      && (forall k | j <= k < |s| :: IsSpace(w, s[k]));
    StripAt(w, s, i, j);
  }

  /** Extra whitespace around a string does not change its strip. */
  lemma StripPadded(w: Spaces, s: string, pre: string, post: string)
    requires forall k | 0 <= k < |pre| :: IsSpace(w, pre[k])
    requires forall k | 0 <= k < |post| :: IsSpace(w, post[k])
    ensures Strip(w, pre + s + post) == Strip(w, s)
  {
    var i, j := StripBounds(w, s);
    PaddedTrim(w, Strip(w, s), s, pre, post, i, j);
    TrimUnique(w, Strip(w, s), pre + s + post);
  }

  /** Where the strip of `s` begins and ends in `s`. */
  lemma StripBounds(w: Spaces, s: string) returns (i: nat, j: nat)
    ensures i <= j <= |s| && Strip(w, s) == s[i..j]
    ensures forall k | 0 <= k < i :: IsSpace(w, s[k])
    ensures forall k | j <= k < |s| :: IsSpace(w, s[k])
  {
    var r := Strip(w, s);
    i, j :| 0 <= i <= j <= |s| && r == s[i..j]
      && (forall k | 0 <= k < i :: IsSpace(w, s[k]))
      && (forall k | j <= k < |s| :: IsSpace(w, s[k]));
  }

  /** A trim of `s` is also a trim of `s` with whitespace added around it. */
  lemma PaddedTrim(w: Spaces, r: string, s: string, pre: string, post: string, i: nat, j: nat)
    requires i <= j <= |s| && r == s[i..j]
    requires forall k | 0 <= k < i :: IsSpace(w, s[k])
    requires forall k | j <= k < |s| :: IsSpace(w, s[k])
    requires forall k | 0 <= k < |pre| :: IsSpace(w, pre[k])
    requires forall k | 0 <= k < |post| :: IsSpace(w, post[k])
    ensures IsTrimOf(w, r, pre + s + post)
  {
    var t := pre + s + post;
    var n := |pre|;
    forall k | 0 <= k < |s|
      ensures t[n + k] == s[k]
    {
    }
    assert t[n + i..n + j] == r by {
      forall k | 0 <= k < j - i
        ensures t[n + i..n + j][k] == r[k]
      {
        assert t[n + i + k] == s[i + k];
      }
    }
    forall k | 0 <= k < n + i
      ensures IsSpace(w, t[k])
    {
      if k < n {
        assert t[k] == pre[k];
      } else {
        assert t[n + (k - n)] == s[k - n];
      }
    }
    forall k | n + j <= k < |t|
      ensures IsSpace(w, t[k])
    {
      if k < n + |s| {
        assert t[n + (k - n)] == s[k - n];
      } else {
        assert t[k] == post[k - n - |s|];
      }
    }
  }

  /** Stripping only removes characters, so it cannot introduce one. */
  lemma StripKeepsOut(w: Spaces, s: string, c: char)
    requires c !in s
    ensures c !in Strip(w, s)
  {
    var r := Strip(w, s);
    var i, j :| 0 <= i <= j <= |s| && r == s[i..j];
  }

  /** Strip removes exactly the given whitespace prefix and suffix when what
      remains is stripped. */
  lemma StripAt(w: Spaces, s: string, i: nat, j: nat)
    requires i <= j <= |s|
    requires forall k | 0 <= k < i :: IsSpace(w, s[k])
    requires forall k | j <= k < |s| :: IsSpace(w, s[k])
    requires IsStripped(w, s[i..j])
    ensures Strip(w, s) == s[i..j]
  {
    if i == j {
      // every character of s is whitespace, so Strip removes them all
      assert forall k | 0 <= k < |s| :: IsSpace(w, s[k]);
      LeadingSpacesAt(w, s, |s|);
    } else {
      TrimBounds(w, s, i, j);
    }
  }

  /** The two scans of `Strip` stop at the ends of a non-empty stripped
      middle part. */
  lemma TrimBounds(w: Spaces, s: string, i: nat, j: nat)
    requires i < j <= |s|
    requires forall k | 0 <= k < i :: IsSpace(w, s[k])
    requires forall k | j <= k < |s| :: IsSpace(w, s[k])
    requires IsStripped(w, s[i..j])
    ensures LeadingSpaces(w, s) == i
    ensures TrailingStart(w, s[i..]) == j - i
  {
    assert s[i..j][0] == s[i];
    LeadingSpacesAt(w, s, i);
    var t := s[i..];
    forall k | j - i <= k < |t|
      ensures IsSpace(w, t[k])
    {
      assert t[k] == s[i + k];
    }
    assert t[j - i - 1] == s[j - 1] == s[i..j][j - i - 1];
    TrailingStartAt(w, t, j - i);
  }

  /** Python's `s.split(sep)`: the pieces between occurrences of `sep`,
      always at least one (`"".split("\n") == [""]`). */
  function Split(s: string, sep: char): (parts: seq<string>)
    ensures |parts| >= 1
    ensures forall p | p in parts :: sep !in p
    ensures Join(parts, sep) == s
    decreases |s|
  {
    if |s| == 0 then
      [""]
    else
      var rest := Split(s[1..], sep);
      if s[0] == sep then
        assert ([""] + rest)[1..] == rest;
        [""] + rest
      else
        var parts := [[s[0]] + rest[0]] + rest[1..];
        assert parts[1..] == rest[1..];
        JoinCons(rest, sep);
        assert Join(parts, sep) == [s[0]] + Join(rest, sep);
        assert [s[0]] + s[1..] == s;
        parts
  }

  /** `sep.join(parts)`. */
  function Join(parts: seq<string>, sep: char): string
    requires |parts| >= 1
  {
    if |parts| == 1 then parts[0] else parts[0] + [sep] + Join(parts[1..], sep)
  }

  /** Prepending a character to the first piece prepends it to the join. */
  lemma JoinCons(parts: seq<string>, sep: char)
    requires |parts| >= 1
    ensures forall c: char :: Join([[c] + parts[0]] + parts[1..], sep) == [c] + Join(parts, sep)
  {
    forall c: char
      ensures Join([[c] + parts[0]] + parts[1..], sep) == [c] + Join(parts, sep)
    {
      var q := [[c] + parts[0]] + parts[1..];
      assert q[1..] == parts[1..];
    }
  }

  /** A piece free of the separator splits to itself. */
  lemma {:induction false} SplitNoSeparator(x: string, sep: char)
    requires sep !in x
    ensures Split(x, sep) == [x]
    decreases |x|
  {
    if |x| > 0 {
      assert sep !in x[1..];
      SplitNoSeparator(x[1..], sep);
      assert [x[0]] + x[1..] == x;
    }
  }

  /** Splitting `x + sep + y` with `x` separator-free yields `x` followed by
      the pieces of `y`. */
  lemma {:induction false} SplitAtFirstSeparator(x: string, y: string, sep: char)
    requires sep !in x
    ensures Split(x + [sep] + y, sep) == [x] + Split(y, sep)
    decreases |x|
  {
    var s := x + [sep] + y;
    if |x| == 0 {
      assert s[1..] == y;
    } else {
      assert s[1..] == x[1..] + [sep] + y;
      assert sep !in x[1..];
      SplitAtFirstSeparator(x[1..], y, sep);
      assert [x[0]] + x[1..] == x;
    }
  }

  /** Split undoes Join on separator-free pieces, so Split and Join are
      mutually inverse. */
  lemma {:induction false} SplitJoin(parts: seq<string>, sep: char)
    requires |parts| >= 1
    requires forall p | p in parts :: sep !in p
    ensures Split(Join(parts, sep), sep) == parts
    decreases |parts|
  {
    if |parts| == 1 {
      SplitNoSeparator(parts[0], sep);
    } else {
      assert parts[0] in parts;
      assert forall p | p in parts[1..] :: p in parts;
      SplitJoin(parts[1..], sep);
      SplitAtFirstSeparator(parts[0], Join(parts[1..], sep), sep);
      assert [parts[0]] + parts[1..] == parts;
    }
  }
}

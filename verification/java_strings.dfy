/**
  The parts of `java.lang.String` the location text relies on: `contains`,
  `indexOf` and `split` with a literal separator (one without regular
  expression metacharacters, such as `" of "`), together with `join`, the
  inverse of splitting.
 */
module JavaStrings {
  import opened Wrappers

  /** `sep` occurs in `s` starting at index `i`. */
  predicate OccursAt(s: string, sep: string, i: int)
  {
    0 <= i && i + |sep| <= |s| && s[i..i + |sep|] == sep
  }

  /** `String.contains`: `sep` occurs somewhere in `s`. */
  predicate Contains(s: string, sep: string)
  {
    exists i | 0 <= i <= |s| :: OccursAt(s, sep, i)
  }

  /** `i` is the leftmost occurrence of `sep` in `s`. */
  predicate IsFirstOccurrence(s: string, sep: string, i: int)
  {
    OccursAt(s, sep, i) && forall j | 0 <= j < i :: !OccursAt(s, sep, j)
  }

  /** `p` is the first segment of `t`: the text before the first `sep`, or all of `t` when there is none. */
  predicate IsFirstSegment(p: string, t: string, sep: string)
  {
    p <= t && if Contains(t, sep) then IsFirstOccurrence(t, sep, |p|) else p == t
  }

  /** `t` is made of nothing but copies of `sep` (possibly none at all). */
  predicate IsSeparatorRun(t: string, sep: string)
    decreases |t|
  {
    t == [] || (0 < |sep| && sep <= t && IsSeparatorRun(t[|sep|..], sep))
  }

  /** `String.indexOf(sep, from)`, with `None` for Java's `-1`. */
  function IndexOfFrom(s: string, sep: string, from: nat): (r: Option<nat>)
    ensures r.Some? ==> from <= r.value && OccursAt(s, sep, r.value)
    ensures r.Some? ==> forall j | from <= j < r.value :: !OccursAt(s, sep, j)
    ensures r.None? ==> forall j | from <= j :: !OccursAt(s, sep, j)
    decreases |s| - from
  {
    if |s| < from + |sep| then None
    else if s[from..from + |sep|] == sep then Some(from)
    else IndexOfFrom(s, sep, from + 1)
  }

  /** `String.indexOf(sep)`: the leftmost occurrence, present exactly when `s` contains `sep`. */
  function IndexOf(s: string, sep: string): (r: Option<nat>)
    ensures r.Some? <==> Contains(s, sep)
    ensures r.Some? ==> IsFirstOccurrence(s, sep, r.value)
  {
    var r := IndexOfFrom(s, sep, 0);
    assert r.Some? ==> OccursAt(s, sep, r.value) && r.value <= |s|;
    r
  }

  /** `String.join(sep, parts)`: the parts with `sep` between consecutive ones. */
  function Join(parts: seq<string>, sep: string): string
  {
    if |parts| == 0 then ""
    else if |parts| == 1 then parts[0]
    else parts[0] + sep + Join(parts[1..], sep)
  }

  lemma FirstOccurrenceUnique(s: string, sep: string, i: int, j: int)
    requires IsFirstOccurrence(s, sep, i) && IsFirstOccurrence(s, sep, j)
    ensures i == j
  {
  }

  /** Cutting `s` around an occurrence of `sep` and gluing it back gives `s`. */
  lemma CutAround(s: string, sep: string, i: int)
    requires OccursAt(s, sep, i)
    ensures s[..i] + sep + s[i + |sep|..] == s
  {
    assert s == s[..i] + s[i..i + |sep|] + s[i + |sep|..];
  }

  /** The text before the first occurrence of `sep` does not contain `sep`. */
  lemma BeforeFirstHasNone(s: string, sep: string, i: int)
    requires |sep| > 0
    requires IsFirstOccurrence(s, sep, i)
    ensures !Contains(s[..i], sep)
  {
    forall j | 0 <= j <= i && OccursAt(s[..i], sep, j)
      ensures false
    {
      assert s[..i][j..j + |sep|] == s[j..j + |sep|];
      assert OccursAt(s, sep, j);
    }
  }

  /**
    The segments of `s` between the non-overlapping occurrences of `sep`,
    found left to right, empty segments included: what `split` produces
    before it removes trailing empty strings.
   */
  function Segments(s: string, sep: string): (parts: seq<string>)
    requires |sep| > 0
    ensures |parts| >= 1
    ensures |parts| == 1 <==> !Contains(s, sep)
    ensures IsFirstSegment(parts[0], s, sep)
    ensures forall k | 0 <= k < |parts| :: !Contains(parts[k], sep)
    ensures Join(parts, sep) == s
    decreases |s|
  {
    match IndexOf(s, sep)
    case None => [s]
    case Some(i) =>
      BeforeFirstHasNone(s, sep, i);
      CutAround(s, sep, i);
      var rest := Segments(s[i + |sep|..], sep);
      assert ([s[..i]] + rest)[1..] == rest;
      [s[..i]] + rest
  }

  /** `Segments` of a string with a known first occurrence: the text before it, then the segments of what follows. */
  lemma SegmentsAtFirst(s: string, sep: string, i: int)
    requires |sep| > 0
    requires IsFirstOccurrence(s, sep, i)
    ensures Segments(s, sep) == [s[..i]] + Segments(s[i + |sep|..], sep)
  {
    FirstOccurrenceUnique(s, sep, i, IndexOf(s, sep).value);
  }

  /** Removes the trailing empty strings of `parts`, keeping everything before them. */
  function DropTrailingEmpty(parts: seq<string>): (r: seq<string>)
    ensures r <= parts
    ensures forall k | |r| <= k < |parts| :: parts[k] == ""
    ensures r == [] || r[|r| - 1] != ""
  {
    if parts == [] || parts[|parts| - 1] != "" then parts
    else DropTrailingEmpty(parts[..|parts| - 1])
  }

  /**
    `String.split(sep)` for a literal, non-empty separator: with no match,
    the one-element array holding `s` itself (even when `s` is empty);
    otherwise the segments with trailing empty strings removed, which can
    leave fewer than two parts, or none.
   */
  function Split(s: string, sep: string): (parts: seq<string>)
    requires |sep| > 0
    ensures !Contains(s, sep) ==> parts == [s]
    ensures Contains(s, sep) ==> parts <= Segments(s, sep)
    ensures Contains(s, sep) ==> forall k | |parts| <= k < |Segments(s, sep)| :: Segments(s, sep)[k] == ""
    ensures Contains(s, sep) ==> parts == [] || parts[|parts| - 1] != ""
  {
    if !Contains(s, sep) then [s] else DropTrailingEmpty(Segments(s, sep))
  }

  /** Every string in `parts` is empty. */
  predicate AllEmpty(parts: seq<string>)
  {
    forall k | 0 <= k < |parts| :: parts[k] == ""
  }

  /** Every segment is empty exactly when the string is a run of separators. */
  lemma {:induction false} SegmentsEmptyIffSeparatorRun(t: string, sep: string)
    requires |sep| > 0
    ensures AllEmpty(Segments(t, sep)) <==> IsSeparatorRun(t, sep)
    decreases |t|
  {
    var parts := Segments(t, sep);
    match IndexOf(t, sep)
    case None =>
      if t != [] {
        assert parts[0] != "";
        assert !(sep <= t);
      }
    case Some(i) =>
      SegmentsAtFirst(t, sep, i);
      var tail := t[i + |sep|..];
      SegmentsEmptyIffSeparatorRun(tail, sep);
      assert parts[1..] == Segments(tail, sep);
      if i == 0 {
        assert sep <= t;
        assert t[|sep|..] == tail;
      } else {
        assert parts[0] != "";
        assert !(sep <= t);
      }
  }
}

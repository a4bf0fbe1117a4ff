/**
  The pure logic of `EarthquakeAdapter`, which binds one earthquake record to
  one row of the result list: the split of the USGS place text into a
  directional offset and a primary location, and the choice of background
  colour for the magnitude circle.
 */
module EarthquakeAdapter {
  import opened Wrappers
  import opened JavaStrings
  import opened JavaNumbers

  /**
    One earthquake as the list holds it; the record class itself
    (`Earthquake.java`) is not part of this model beyond its four getters.
   */
  datatype Earthquake = Earthquake(magnitude: Double, location: string, date: int, url: string)

  /** `LOCATION_SEPARATOR`. */
  const LocationSeparator: string := " of "

  /** The two texts shown for a place: e.g. "5km NW of " and "Foo, Bar". */
  datatype Location = Location(offset: string, primary: string)

  /** The exception `parts[i]` throws when `split` returned only `length` parts. */
  datatype IndexOutOfBounds = ArrayIndexOutOfBounds(index: nat, length: nat)

  /**
    The location texts of `getView` for the place `originalLocation`;
    `nearThe` is the `near_the` string resource, whose text is not part of
    this model.
   */
  function SplitLocation(originalLocation: string, nearThe: string): (r: Result<Location, IndexOutOfBounds>)
    ensures !Contains(originalLocation, LocationSeparator) ==> r == Success(Location(nearThe, originalLocation))
    ensures r.Failure? ==> r.error.index >= r.error.length
  {
    if Contains(originalLocation, LocationSeparator) then
      var parts := Split(originalLocation, LocationSeparator);
      if |parts| == 0 then Failure(ArrayIndexOutOfBounds(0, 0))
      else if |parts| == 1 then Failure(ArrayIndexOutOfBounds(1, 1))
      else Success(Location(parts[0] + LocationSeparator, parts[1]))
    else
      Success(Location(nearThe, originalLocation))
  }

  /** The text of `place` after its separator at `i`. */
  function After(place: string, i: nat): string
    requires i + |LocationSeparator| <= |place|
  {
    place[i + |LocationSeparator|..]
  }

  /**
    With the first separator at `i`, the split parts are those of the text
    before it and after it: `parts[0]` is the text before, and there is a
    `parts[1]` exactly when the text after is not a run of separators, in
    which case it is the first segment of that text.
   */
  lemma {:induction false} SplitAtFirst(place: string, i: nat)
    requires IsFirstOccurrence(place, LocationSeparator, i)
    ensures var parts := Split(place, LocationSeparator);
            && (|parts| >= 2 <==> !IsSeparatorRun(After(place, i), LocationSeparator))
            && (|parts| >= 2 ==> parts[0] == place[..i])
            && (|parts| >= 2 ==> IsFirstSegment(parts[1], After(place, i), LocationSeparator))
  {
    var sep := LocationSeparator;
    var tail := After(place, i);
    assert Contains(place, sep);
    var all := Segments(place, sep);
    SegmentsAtFirst(place, sep, i);
    var rest := Segments(tail, sep);
    assert all[1..] == rest;
    var parts := Split(place, sep);
    assert parts == DropTrailingEmpty(all);
    SegmentsEmptyIffSeparatorRun(tail, sep);
    if |parts| >= 2 {
      assert parts[1] == all[1] == rest[0];
      assert !AllEmpty(rest) by {
        assert parts[|parts| - 1] != "";
        assert rest[|parts| - 2] != "";
      }
    }
  }

  /** The split fails exactly when only separators, or nothing, follow the first separator. */
  lemma SplitLocationFailsIff(place: string, nearThe: string, i: nat)
    requires IsFirstOccurrence(place, LocationSeparator, i)
    ensures SplitLocation(place, nearThe).Failure? <==> IsSeparatorRun(After(place, i), LocationSeparator)
  {
    SplitAtFirst(place, i);
  }

  /** When the place contains a separator, the offset is the text before the first one, followed by the separator. */
  lemma SplitLocationOffset(place: string, nearThe: string, i: nat)
    requires IsFirstOccurrence(place, LocationSeparator, i)
    requires SplitLocation(place, nearThe).Success?
    ensures SplitLocation(place, nearThe).value.offset == place[..i] + LocationSeparator
  {
    SplitAtFirst(place, i);
  }

  /**
    When the place contains a separator, the primary location is the text
    between the first separator and the next one, or up to the end when
    there is no next one.
   */
  lemma SplitLocationPrimary(place: string, nearThe: string, i: nat)
    requires IsFirstOccurrence(place, LocationSeparator, i)
    requires SplitLocation(place, nearThe).Success?
    ensures IsFirstSegment(SplitLocation(place, nearThe).value.primary, After(place, i), LocationSeparator)
  {
    SplitAtFirst(place, i);
  }

  /**
    A second separator, at `k` within the text after the first, ends the
    primary location: that separator and everything after it are shown
    nowhere.
   */
  lemma SplitLocationDropsAfterSecond(place: string, nearThe: string, i: nat, k: nat)
    requires IsFirstOccurrence(place, LocationSeparator, i)
    requires IsFirstOccurrence(After(place, i), LocationSeparator, k)
    requires SplitLocation(place, nearThe).Success?
    ensures var loc := SplitLocation(place, nearThe).value;
            && loc.primary == place[i + |LocationSeparator|..i + |LocationSeparator| + k]
            && |loc.offset + loc.primary| + |LocationSeparator| <= |place|
  {
    var tail := After(place, i);
    var loc := SplitLocation(place, nearThe).value;
    SplitLocationOffset(place, nearThe, i);
    SplitLocationPrimary(place, nearThe, i);
    assert Contains(tail, LocationSeparator);
    FirstOccurrenceUnique(tail, LocationSeparator, k, |loc.primary|);
  }

  /**
    With exactly one separator and some text after it, the offset followed
    by the primary location gives back the original place.
   */
  lemma SplitLocationReconstructs(place: string, nearThe: string, i: nat)
    requires OccursAt(place, LocationSeparator, i)
    requires forall j | 0 <= j <= |place| :: OccursAt(place, LocationSeparator, j) ==> j == i
    requires i + |LocationSeparator| < |place|
    ensures SplitLocation(place, nearThe).Success?
    ensures SplitLocation(place, nearThe).value.offset + SplitLocation(place, nearThe).value.primary == place
  {
    var sep := LocationSeparator;
    var tail := After(place, i);
    assert IsFirstOccurrence(place, sep, i);
    assert !Contains(tail, sep) by {
      forall j | 0 <= j <= |tail| && OccursAt(tail, sep, j)
        ensures false
      {
        assert place[i + |sep| + j..i + |sep| + j + |sep|] == tail[j..j + |sep|];
        assert OccursAt(place, sep, i + |sep| + j);
      }
    }
    assert !IsSeparatorRun(tail, sep) by {
      if sep <= tail {
        assert OccursAt(tail, sep, 0);
      }
    }
    SplitAtFirst(place, i);
    CutAround(place, sep, i);
  }

  /** The background colours `magnitude1` to `magnitude9` and `magnitude10plus`. */
  datatype MagnitudeColor =
    | Magnitude1 | Magnitude2 | Magnitude3 | Magnitude4 | Magnitude5
    | Magnitude6 | Magnitude7 | Magnitude8 | Magnitude9 | Magnitude10Plus

  /** The number in the colour's resource name, 10 for `magnitude10plus`. */
  function Shade(c: MagnitudeColor): nat
  {
    match c
    case Magnitude1 => 1
    case Magnitude2 => 2
    case Magnitude3 => 3
    case Magnitude4 => 4
    case Magnitude5 => 5
    case Magnitude6 => 6
    case Magnitude7 => 7
    case Magnitude8 => 8
    case Magnitude9 => 9
    case Magnitude10Plus => 10
  }

  /** The `switch` of `getMagnitudeColor` on the truncated magnitude. */
  function BucketColor(bucket: int): (c: MagnitudeColor)
    ensures c == Magnitude1 <==> 0 <= bucket <= 1
    ensures c == Magnitude10Plus <==> bucket < 0 || 9 < bucket
    ensures 1 <= bucket <= 9 ==> Shade(c) == bucket
  {
    match bucket
    case 0 => Magnitude1
    case 1 => Magnitude1
    case 2 => Magnitude2
    case 3 => Magnitude3
    case 4 => Magnitude4
    case 5 => Magnitude5
    case 6 => Magnitude6
    case 7 => Magnitude7
    case 8 => Magnitude8
    case 9 => Magnitude9
    case _ => Magnitude10Plus
  }

  /** `getMagnitudeColor`: the colour resource chosen for a magnitude. */
  function MagnitudeColorOf(magnitude: Double): (c: MagnitudeColor)
    ensures var b := IntCast(magnitude);
            && (c == Magnitude1 <==> 0 <= b <= 1)
            && (c == Magnitude10Plus <==> b < 0 || 9 < b)
            && (1 <= b <= 9 ==> Shade(c) == b)
  {
    BucketColor(IntCast(magnitude))
  }

  /** The buckets 2 to 9 each have a colour of their own, shared with no other bucket. */
  lemma BucketColorOwnedFromTwoToNine(a: int, b: int)
    requires 2 <= a <= 9
    ensures BucketColor(a) == BucketColor(b) <==> a == b
  {
  }

  /** Among non-negative buckets, a larger one never gets a lighter colour. */
  lemma BucketColorMonotone(a: int, b: int)
    requires 0 <= a <= b
    ensures Shade(BucketColor(a)) <= Shade(BucketColor(b))
  {
  }

  /** Magnitudes strictly between -1 and 2 get `magnitude1`: the cast truncates (-1, 0) to 0. */
  lemma ColorOfSmallMagnitude(x: real)
    requires -1.0 < x < 2.0
    ensures MagnitudeColorOf(Finite(x)) == Magnitude1
  {
  }

  /** A magnitude of 2 up to (not including) 10 gets the colour numbered by its whole part. */
  lemma ColorOfMiddleMagnitude(x: real)
    requires 2.0 <= x < 10.0
    ensures Shade(MagnitudeColorOf(Finite(x))) == x.Floor
  {
  }

  /** Magnitudes of 10 or more, and of -1 or less, get `magnitude10plus`, as do both infinities. */
  lemma ColorOfOutsideMagnitude(d: Double)
    requires d.PositiveInfinity? || d.NegativeInfinity? || (d.Finite? && (d.value <= -1.0 || 10.0 <= d.value))
    ensures MagnitudeColorOf(d) == Magnitude10Plus
  {
  }

  /** A NaN magnitude casts to 0 and gets `magnitude1`. */
  lemma ColorOfNaN()
    ensures MagnitudeColorOf(NaN) == Magnitude1
  {
  }
}

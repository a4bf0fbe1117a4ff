# Quake report: verified model of the list-row logic and the result screen

This project models the pure core of an Android app that lists recent
earthquakes from the USGS GeoJSON feed.

- **Location text.** `EarthquakeAdapter.getView` splits a USGS place string
  such as `"5km NW of Foo, Bar"` into a directional offset (`"5km NW of "`)
  and a primary location (`"Foo, Bar"`). It does this with Java's
  `String.split(" of ")`, so any text after a second `" of "` is dropped. When
  nothing but separators follows the first `" of "`, the call throws
  `ArrayIndexOutOfBoundsException`. Without a separator, the offset is the
  "near the" string resource and the primary location is the whole place.
- **Magnitude colour.** `getMagnitudeColor` truncates the magnitude with a Java
  `(int)` cast and picks one of ten colour resources.
- **Result screen.** `EarthquakeActivity` does four things:
  - it checks connectivity once at creation;
  - it builds the loader's query from two preferences;
  - it replaces the list when a load finishes and empties it when the loader
    resets;
  - it opens an earthquake's detail page when a row is tapped.

The screen is a record of four fields: spinner visibility, empty-view text,
list contents and whether the loader started. The callbacks are pure
transition functions on that record.

Files:

- `wrappers.dfy`: `Option` (Java `null`) and `Result` (a thrown exception).
- `java_strings.dfy`: the `java.lang.String` operations used here. These are
  `contains`, `indexOf`, `split` with a literal separator, and `join`, the
  inverse of splitting.
- `java_numbers.dfy`: a Java `double` (finite, NaN, ±infinity) and the `(int)`
  narrowing cast. The cast rounds toward zero, saturates at the 32-bit bounds
  and maps NaN to 0.
- `earthquake_adapter.dfy`: location splitting and magnitude colours.
- `earthquake_activity.dfy`: query assembly, screen transitions, the four
  screen phases (Loading, Loaded, Empty, Offline) and runs of loader events.

Two consequences of the code are worth stating on their own:

- Because the `(int)` cast truncates toward zero, magnitudes in (-1, 0) get
  the `magnitude1` colour (`ColorOfSmallMagnitude`); only magnitudes of -1 or
  less fall through to `magnitude10plus` (`ColorOfOutsideMagnitude`).
- `split` keeps only the second part as the primary location, so text after
  a second `" of "` is lost (`SplitLocationDropsAfterSecond`), and reading
  `parts[1]` throws when only separators follow the first `" of "`
  (`SplitLocationFailsIff`). That exception is modelled as a `Failure`
  result, not as a precondition.

## Model

| member | source | states |
|---|---|---|
| JavaStrings.IndexOfFrom | app/src/main/java/com/chaudhry/najeeb/quakereport/EarthquakeAdapter.java:62 | a found index is an occurrence at or after `from` with none between `from` and it; none found means no occurrence at or after `from` |
| JavaStrings.IndexOf | app/src/main/java/com/chaudhry/najeeb/quakereport/EarthquakeAdapter.java:62 | an index is found exactly when the string contains the separator (`contains`), and it is the leftmost occurrence |
| JavaStrings.Segments | app/src/main/java/com/chaudhry/najeeb/quakereport/EarthquakeAdapter.java:63 | the segments between separators rejoin to the original string, no segment contains the separator, the first is the text before the first separator, and there is one segment exactly when there is no separator |
| JavaStrings.DropTrailingEmpty | app/src/main/java/com/chaudhry/najeeb/quakereport/EarthquakeAdapter.java:63 | the result is a prefix of the parts, everything removed is empty, and the result does not end in an empty string |
| JavaStrings.Split | app/src/main/java/com/chaudhry/najeeb/quakereport/EarthquakeAdapter.java:63 | with no match `split` returns the string itself as the only part; otherwise its parts are the segments with exactly the trailing empty strings removed: a prefix of the segments, everything dropped is empty, and the last part kept is not |
| JavaStrings.SegmentsEmptyIffSeparatorRun | app/src/main/java/com/chaudhry/najeeb/quakereport/EarthquakeAdapter.java:63 | all segments are empty exactly when the string is nothing but copies of the separator |
| EarthquakeAdapter.SplitLocation | app/src/main/java/com/chaudhry/najeeb/quakereport/EarthquakeAdapter.java:56-69 | without `" of "` the offset is the "near the" resource and the primary location is the place unchanged; a failure names an index at or past the array length |
| EarthquakeAdapter.SplitAtFirst | app/src/main/java/com/chaudhry/najeeb/quakereport/EarthquakeAdapter.java:62-65 | with the first separator at `i`, `split` returns a second part exactly when the text after it is not a run of separators; the parts are then the text before and the first segment after |
| EarthquakeAdapter.SplitLocationFailsIff | app/src/main/java/com/chaudhry/najeeb/quakereport/EarthquakeAdapter.java:62-65 | the split throws exactly when the text after the first `" of "` is empty or only separators |
| EarthquakeAdapter.SplitLocationOffset | app/src/main/java/com/chaudhry/najeeb/quakereport/EarthquakeAdapter.java:62-64 | the offset is the text before the first `" of "` followed by `" of "` |
| EarthquakeAdapter.SplitLocationPrimary | app/src/main/java/com/chaudhry/najeeb/quakereport/EarthquakeAdapter.java:63-65 | the primary location is the text after the first `" of "` up to the next one, or to the end when there is no next one |
| EarthquakeAdapter.SplitLocationDropsAfterSecond | app/src/main/java/com/chaudhry/najeeb/quakereport/EarthquakeAdapter.java:63-65 | with a second `" of "`, the primary location stops there, and that separator and everything after it are shown in neither text |
| EarthquakeAdapter.SplitLocationReconstructs | app/src/main/java/com/chaudhry/najeeb/quakereport/EarthquakeAdapter.java:62-65 | with exactly one `" of "` and text after it, the split succeeds and offset followed by primary location is the original place |
| JavaNumbers.TruncateTowardZero | app/src/main/java/com/chaudhry/najeeb/quakereport/EarthquakeAdapter.java:128 | the result is the integer nearest the value on the zero side, less than one away |
| JavaNumbers.IntCast | app/src/main/java/com/chaudhry/najeeb/quakereport/EarthquakeAdapter.java:128 | `(int)` gives a 32-bit value: 0 for NaN, the bounds for the infinities, and for a finite value the integer toward zero within one of it unless saturated |
| EarthquakeAdapter.BucketColor | app/src/main/java/com/chaudhry/najeeb/quakereport/EarthquakeAdapter.java:130-162 | `magnitude1` exactly for buckets 0 and 1, `magnitude10plus` exactly for buckets below 0 or above 9, and buckets 1 to 9 get the colour bearing their number |
| EarthquakeAdapter.MagnitudeColorOf | app/src/main/java/com/chaudhry/najeeb/quakereport/EarthquakeAdapter.java:127-166 | with `b` the `(int)` cast of the magnitude: `magnitude1` exactly when `b` is 0 or 1, `magnitude10plus` exactly when `b` is below 0 or above 9, and otherwise the colour numbered `b` |
| EarthquakeAdapter.BucketColorOwnedFromTwoToNine | app/src/main/java/com/chaudhry/najeeb/quakereport/EarthquakeAdapter.java:135-158 | each bucket from 2 to 9 shares its colour with no other bucket |
| EarthquakeAdapter.BucketColorMonotone | app/src/main/java/com/chaudhry/najeeb/quakereport/EarthquakeAdapter.java:130-162 | among non-negative buckets, a larger bucket never gets a lower-numbered colour |
| EarthquakeAdapter.ColorOfSmallMagnitude | app/src/main/java/com/chaudhry/najeeb/quakereport/EarthquakeAdapter.java:128-134 | magnitudes strictly between -1 and 2 get `magnitude1`, including the negative ones that truncate to 0 |
| EarthquakeAdapter.ColorOfMiddleMagnitude | app/src/main/java/com/chaudhry/najeeb/quakereport/EarthquakeAdapter.java:128-158 | a magnitude from 2 up to 10 gets the colour numbered by its whole part |
| EarthquakeAdapter.ColorOfOutsideMagnitude | app/src/main/java/com/chaudhry/najeeb/quakereport/EarthquakeAdapter.java:128-161 | magnitudes of 10 or more, of -1 or less, and both infinities get `magnitude10plus` |
| EarthquakeAdapter.ColorOfNaN | app/src/main/java/com/chaudhry/najeeb/quakereport/EarthquakeAdapter.java:128-134 | a NaN magnitude casts to 0 and gets `magnitude1` |
| EarthquakeActivity.OnCreateLoader | app/src/main/java/com/chaudhry/najeeb/quakereport/EarthquakeActivity.java:111-130 | the loader's address is built on the fixed USGS query endpoint |
| EarthquakeActivity.QueryParameters | app/src/main/java/com/chaudhry/najeeb/quakereport/EarthquakeActivity.java:121-129 | the query has exactly the keys `format`, `limit`, `minmag`, `orderby` in that order, none twice, with `format=geojson` and `limit=100` |
| EarthquakeActivity.QueryTakesPreferences | app/src/main/java/com/chaudhry/najeeb/quakereport/EarthquakeActivity.java:112-127 | `minmag` and `orderby` carry the stored preference values unchanged, or the defaults when none is stored |
| EarthquakeActivity.OnCreate | app/src/main/java/com/chaudhry/najeeb/quakereport/EarthquakeActivity.java:84-104 | the list starts empty; the loader starts exactly when connected, and then spinner and empty text are left as the layout has them; otherwise the spinner is hidden and the text is "no internet connection" |
| EarthquakeActivity.CreatePhase | app/src/main/java/com/chaudhry/najeeb/quakereport/EarthquakeActivity.java:84-104 | creation leads to the Loading phase when connected and to Offline otherwise |
| EarthquakeActivity.OnLoadFinished | app/src/main/java/com/chaudhry/najeeb/quakereport/EarthquakeActivity.java:136-155 | afterwards the spinner is hidden and the text is "no earthquakes found"; the list equals a non-empty delivery and is empty for a null or empty one, with nothing from before kept, although `addAll` appends |
| EarthquakeActivity.LoadFinishedPhase | app/src/main/java/com/chaudhry/najeeb/quakereport/EarthquakeActivity.java:139-154 | a finished load leads to Loaded for a non-empty delivery and to Empty otherwise |
| EarthquakeActivity.NullAndEmptyLookAlike | app/src/main/java/com/chaudhry/najeeb/quakereport/EarthquakeActivity.java:152-154 | a null delivery and an empty one leave the same screen |
| EarthquakeActivity.OnLoaderReset | app/src/main/java/com/chaudhry/najeeb/quakereport/EarthquakeActivity.java:161-164 | the list becomes empty and spinner, empty text and loader flag are unchanged |
| EarthquakeActivity.LoaderResetPhase | app/src/main/java/com/chaudhry/najeeb/quakereport/EarthquakeActivity.java:161-164 | a reset turns Loaded into Empty and keeps every other phase |
| EarthquakeActivity.OnItemClick | app/src/main/java/com/chaudhry/najeeb/quakereport/EarthquakeActivity.java:67-82 | tapping position `i` opens the URL of the earthquake at index `i` of the current list |
| EarthquakeActivity.ClickAfterLoad | app/src/main/java/com/chaudhry/najeeb/quakereport/EarthquakeActivity.java:71-80 | after a non-empty delivery, tapping position `i` opens the page of the delivered earthquake at `i`, whatever the list held before |
| EarthquakeActivity.RunHasPhase | app/src/main/java/com/chaudhry/najeeb/quakereport/EarthquakeActivity.java:84-164 | after creation and any loader events, the screen is always in one of Loading, Loaded, Empty or Offline, and in Offline exactly when there was no connection |
| EarthquakeActivity.RunItemsFromOneLoad | app/src/main/java/com/chaudhry/najeeb/quakereport/EarthquakeActivity.java:145-164 | the list is empty, or it is exactly the list of the last load, which was the last event: loads are never merged |

## Left out

- `formatMagnitude`, `formatDate` and `formatTime` are left out. They depend on `DecimalFormat` rounding of a `double` and on `SimpleDateFormat` with the device's locale and time zone.
- View inflation and recycling are left out, and so are `GradientDrawable` and `ContextCompat.getColor`. Colours stay abstract resource names.
- `Uri.Builder` percent-encoding, `Uri.toString` and `Uri.parse` are library code. The query is kept as its ordered key/value pairs, and a tapped earthquake's URL is carried unchanged.
- `LoaderManager` scheduling, threading and reuse of a loader across reconfiguration are left out. A run is creation followed by loader callbacks in delivery order, and callbacks reach the screen only after the loader started.
- The network fetch and JSON parsing are left out. `EarthquakeLoader`, `QueryUtils` and `Earthquake` are not part of this model, apart from the four getters of `Earthquake` that the adapter and the click handler use.
- `SettingsActivity` is left out. It is a thin wrapper over the platform preference screens, and the model takes the stored preferences as a map.
- Menu inflation and the settings intent are left out. They are navigation only.
- The layout files are not part of this model. The screen is taken to start with the spinner shown and the layout's own empty text (`LayoutText`). The texts of string resources (`near_the`, preference keys and defaults) are parameters.
- JavaNumbers.Double: finite doubles are exact reals. Rounding to 53 bits when the feed is parsed is not modelled.
- JavaStrings.Split: covers only a non-empty separator without regular-expression metacharacters, the only kind the source uses. Java's rules for empty and zero-width patterns are not modelled.
- EarthquakeActivity.OnItemClick: requires a position inside the list. The list view reports only positions of rows it shows, so the `IndexOutOfBoundsException` of `getItem` is not modelled.

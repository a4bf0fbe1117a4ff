/**
  `EarthquakeActivity` as a small transition system over the state of its
  result screen: whether the progress spinner shows, which text the empty
  view holds, what the list adapter holds, and whether the loader was
  started. The query sent to the USGS feed is kept as its ordered list of
  parameters.
 */
module EarthquakeActivity {
  import opened Wrappers
  import opened EarthquakeAdapter

  /** `USGS_REQUEST_URL`. */
  const UsgsRequestUrl: string := "http://earthquake.usgs.gov/fdsnws/event/1/query"

  // ---------------------------------------------------------------------
  // Query assembly (onCreateLoader)
  // ---------------------------------------------------------------------

  /** The default shared preferences: string values by key. */
  type Preferences = map<string, string>

  /**
    The string resources `onCreateLoader` reads: the two preference keys and
    their defaults. Their texts live in resource files that are not part of
    this model.
   */
  datatype SettingsResources = SettingsResources(
    minMagnitudeKey: string,
    minMagnitudeDefault: string,
    orderByKey: string,
    orderByDefault: string)

  /** A URI as `Uri.Builder` assembles it: the base and the query parameters in the order appended. */
  datatype Uri = Uri(base: string, query: seq<(string, string)>)

  /** `SharedPreferences.getString(key, default)`. */
  function GetString(prefs: Preferences, key: string, default: string): string
  {
    if key in prefs then prefs[key] else default
  }

  /** `Uri.Builder.appendQueryParameter`: adds one parameter after those already there. */
  function AppendQueryParameter(u: Uri, key: string, value: string): Uri
  {
    u.(query := u.query + [(key, value)])
  }

  /** The keys of a query, in order. */
  function Keys(query: seq<(string, string)>): (keys: seq<string>)
    ensures |keys| == |query|
    ensures forall k | 0 <= k < |query| :: keys[k] == query[k].0
  {
    if query == [] then [] else [query[0].0] + Keys(query[1..])
  }

  /** The value of the first parameter called `key`, if any. */
  function Lookup(query: seq<(string, string)>, key: string): (v: Option<string>)
    ensures v.None? <==> key !in Keys(query)
    ensures v.Some? ==> exists k | 0 <= k < |query| :: query[k] == (key, v.value) && forall j | 0 <= j < k :: query[j].0 != key
  {
    if query == [] then None
    else if query[0].0 == key then Some(query[0].1)
    else
      var r := Lookup(query[1..], key);
      assert r.Some? ==> exists k | 0 <= k < |query| :: query[k] == (key, r.value) && forall j | 0 <= j < k :: query[j].0 != key by {
        if r.Some? {
          var k :| 0 <= k < |query[1..]| && query[1..][k] == (key, r.value) && forall j | 0 <= j < k :: query[1..][j].0 != key;
          assert query[k + 1] == (key, r.value);
          assert forall j | 0 <= j < k + 1 :: query[j].0 != key by {
            forall j | 0 <= j < k + 1
              ensures query[j].0 != key
            {
              if j > 0 {
                assert query[j] == query[1..][j - 1];
              }
            }
          }
        }
      }
      r
  }

  /** The URI of the earthquake loader, built from the stored preferences. */
  function OnCreateLoader(prefs: Preferences, res: SettingsResources): (uri: Uri)
    ensures uri.base == UsgsRequestUrl
  {
    var minMagnitude := GetString(prefs, res.minMagnitudeKey, res.minMagnitudeDefault);
    var orderBy := GetString(prefs, res.orderByKey, res.orderByDefault);
    var u := Uri(UsgsRequestUrl, []);
    var u := AppendQueryParameter(u, "format", "geojson");
    var u := AppendQueryParameter(u, "limit", "100");
    var u := AppendQueryParameter(u, "minmag", minMagnitude);
    AppendQueryParameter(u, "orderby", orderBy)
  }

  /**
    The loader's query carries exactly four parameters, in the order
    `format`, `limit`, `minmag`, `orderby`, no key twice, with the fixed
    values `geojson` and `100` for the first two.
   */
  lemma QueryParameters(prefs: Preferences, res: SettingsResources)
    ensures var q := OnCreateLoader(prefs, res).query;
            && Keys(q) == ["format", "limit", "minmag", "orderby"]
            && (forall a, b | 0 <= a < b < |q| :: q[a].0 != q[b].0)
            && Lookup(q, "format") == Some("geojson")
            && Lookup(q, "limit") == Some("100")
  {
    var q := OnCreateLoader(prefs, res).query;
    assert q[1..][1..][1..][1..] == [];
  }

  /**
    `minmag` and `orderby` are the stored preference values, passed through
    unchanged whatever they hold, or the defaults when nothing is stored.
   */
  lemma QueryTakesPreferences(prefs: Preferences, res: SettingsResources)
    ensures var q := OnCreateLoader(prefs, res).query;
            && (res.minMagnitudeKey in prefs ==> Lookup(q, "minmag") == Some(prefs[res.minMagnitudeKey]))
            && (res.minMagnitudeKey !in prefs ==> Lookup(q, "minmag") == Some(res.minMagnitudeDefault))
            && (res.orderByKey in prefs ==> Lookup(q, "orderby") == Some(prefs[res.orderByKey]))
            && (res.orderByKey !in prefs ==> Lookup(q, "orderby") == Some(res.orderByDefault))
  {
    var q := OnCreateLoader(prefs, res).query;
    var m := GetString(prefs, res.minMagnitudeKey, res.minMagnitudeDefault);
    var o := GetString(prefs, res.orderByKey, res.orderByDefault);
    assert q == [("format", "geojson"), ("limit", "100"), ("minmag", m), ("orderby", o)];
    assert Lookup(q, "minmag") == Lookup(q[1..][1..], "minmag") == Some(m);
    assert Lookup(q[1..][1..], "orderby") == Lookup(q[1..][1..][1..], "orderby") == Some(o);
  }

  // ---------------------------------------------------------------------
  // The result screen
  // ---------------------------------------------------------------------

  /** The connectivity found at creation: no active network, or one that is or is not connected. */
  datatype Network = NoActiveNetwork | ActiveNetwork(isConnected: bool)

  predicate IsConnected(network: Network)
  {
    network.ActiveNetwork? && network.isConnected
  }

  /** The text of the empty view: the one in the layout, or one of the two messages set in code. */
  datatype EmptyText = LayoutText | NoInternetConnection | NoEarthquakesFound

  datatype ViewState = ViewState(
    spinnerVisible: bool,
    emptyText: EmptyText,
    items: seq<Earthquake>,
    loaderStarted: bool)

  /**
    The screen just after the layout is set and the adapter is created on
    an empty list; the layout is taken to show the spinner.
   */
  const Inflated: ViewState := ViewState(true, LayoutText, [], false)

  /** `onCreate`: start the loader when connected, otherwise hide the spinner and show the offline message. */
  function OnCreate(network: Network): (s: ViewState)
    ensures s.items == []
    ensures s.loaderStarted <==> IsConnected(network)
    ensures IsConnected(network) ==> s.spinnerVisible == Inflated.spinnerVisible && s.emptyText == Inflated.emptyText
    ensures !IsConnected(network) ==> !s.spinnerVisible && s.emptyText == NoInternetConnection
  {
    if IsConnected(network) then Inflated.(loaderStarted := true)
    else Inflated.(spinnerVisible := false, emptyText := NoInternetConnection)
  }

  /** `ArrayAdapter.clear`. */
  function Clear(s: ViewState): ViewState
  {
    s.(items := [])
  }

  /** `ArrayAdapter.addAll`: appends after what the adapter already holds. */
  function AddAll(s: ViewState, more: seq<Earthquake>): ViewState
  {
    s.(items := s.items + more)
  }

  /**
    `onLoadFinished` with the list the loader delivered (`None` for
    `null`): the spinner goes, the list is emptied, the empty text becomes
    "no earthquakes found", and a non-empty delivery is added.
   */
  function OnLoadFinished(s: ViewState, delivered: Option<seq<Earthquake>>): (r: ViewState)
    ensures !r.spinnerVisible && r.emptyText == NoEarthquakesFound
    ensures r.loaderStarted == s.loaderStarted
    ensures delivered.Some? && delivered.value != [] ==> r.items == delivered.value
    ensures delivered.None? || delivered.value == [] ==> r.items == []
  {
    var s := s.(spinnerVisible := false);
    var s := Clear(s);
    var s := s.(emptyText := NoEarthquakesFound);
    if delivered.Some? && delivered.value != [] then AddAll(s, delivered.value) else s
  }

  /** `onLoaderReset`: the list is emptied and nothing else changes. */
  function OnLoaderReset(s: ViewState): (r: ViewState)
    ensures r.items == []
    ensures r.spinnerVisible == s.spinnerVisible
    ensures r.emptyText == s.emptyText
    ensures r.loaderStarted == s.loaderStarted
  {
    Clear(s)
  }

  /** `Intent.ACTION_VIEW` on the given address. */
  datatype Intent = ViewIntent(uri: string)

  /**
    The item-click listener: the intent that opens the detail page of the
    earthquake at `position`. The list view reports only positions of rows
    it shows, so `position` is in range.
   */
  function OnItemClick(s: ViewState, position: int): (intent: Intent)
    requires 0 <= position < |s.items|
    ensures intent.uri == s.items[position].url
  {
    ViewIntent(s.items[position].url)
  }

  /** Tapping a row after a non-empty delivery opens that delivered earthquake's page, whatever the list held before. */
  lemma ClickAfterLoad(s: ViewState, delivered: seq<Earthquake>, position: int)
    requires 0 <= position < |delivered|
    ensures var r := OnLoadFinished(s, Some(delivered));
            0 <= position < |r.items| && OnItemClick(r, position) == ViewIntent(delivered[position].url)
  {
  }

  // ---------------------------------------------------------------------
  // The screen's phases and its runs
  // ---------------------------------------------------------------------

  /** The four states of the result screen. */
  datatype Phase = Loading | Loaded | Empty | Offline

  /** The phase a screen state is in, or `None` for a combination no phase allows. */
  function PhaseOf(s: ViewState): Option<Phase>
  {
    if s.spinnerVisible then
      if s.items == [] && s.emptyText == LayoutText && s.loaderStarted then Some(Loading) else None
    else if s.items != [] then
      if s.emptyText == NoEarthquakesFound && s.loaderStarted then Some(Loaded) else None
    else if s.emptyText == NoEarthquakesFound && s.loaderStarted then Some(Empty)
    else if s.emptyText == NoInternetConnection && !s.loaderStarted then Some(Offline)
    else None
  }

  /** Creation leads to Loading when connected and to Offline otherwise. */
  lemma CreatePhase(network: Network)
    ensures PhaseOf(OnCreate(network)) == Some(if IsConnected(network) then Loading else Offline)
  {
  }

  /** A finished load leads to Loaded when the delivery is non-empty and to Empty otherwise, from any phase with a started loader. */
  lemma LoadFinishedPhase(s: ViewState, delivered: Option<seq<Earthquake>>)
    requires s.loaderStarted
    ensures PhaseOf(OnLoadFinished(s, delivered)) == Some(if delivered.Some? && delivered.value != [] then Loaded else Empty)
  {
  }

  /** A reset empties a Loaded screen into Empty and leaves every other phase as it was. */
  lemma LoaderResetPhase(s: ViewState)
    requires PhaseOf(s).Some?
    ensures PhaseOf(OnLoaderReset(s)) == Some(if PhaseOf(s) == Some(Loaded) then Empty else PhaseOf(s).value)
  {
  }

  /** A null delivery and an empty one leave the screen in the same state. */
  lemma NullAndEmptyLookAlike(s: ViewState)
    ensures OnLoadFinished(s, None) == OnLoadFinished(s, Some([]))
  {
  }

  /** What the loader manager delivers to a started loader. */
  datatype LoaderEvent = LoadFinished(delivered: Option<seq<Earthquake>>) | LoaderReset

  function Step(s: ViewState, e: LoaderEvent): ViewState
  {
    match e
    case LoadFinished(delivered) => OnLoadFinished(s, delivered)
    case LoaderReset => OnLoaderReset(s)
  }

  /** The screen after creation with `network` and then the loader events `events`, in order. */
  function Run(network: Network, events: seq<LoaderEvent>): ViewState
  {
    if events == [] then OnCreate(network)
    else Step(Run(network, events[..|events| - 1]), events[|events| - 1])
  }

  /** Loader events reach the screen only when the loader was started, that is, when connected at creation. */
  predicate Delivers(network: Network, events: seq<LoaderEvent>)
  {
    events != [] ==> IsConnected(network)
  }

  /** Every run of the screen is in one of the four phases at every point. */
  lemma {:induction false} RunHasPhase(network: Network, events: seq<LoaderEvent>)
    requires Delivers(network, events)
    ensures PhaseOf(Run(network, events)).Some?
    ensures PhaseOf(Run(network, events)) == Some(Offline) <==> !IsConnected(network)
    decreases |events|
  {
    if events != [] {
      var prefix := events[..|events| - 1];
      RunHasPhase(network, prefix);
    }
  }

  /**
    The list is empty or holds exactly the list of the last delivery,
    which is then the last event: nothing from an earlier load is merged in.
   */
  lemma RunItemsFromOneLoad(network: Network, events: seq<LoaderEvent>)
    ensures var items := Run(network, events).items;
            items == [] || (events != [] && events[|events| - 1] == LoadFinished(Some(items)))
  {
  }
}

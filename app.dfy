/** The application state of src/App.jsx and the handlers that change it: the
    theme toggle, a click on a city, loading the visited cities and the PDF
    export. The backend, the off-screen snapshot and jsPDF's image reader
    are parameters: a query result, a snapshot data URL and a photo-height
    reader, each of which may fail. */
module App {
  import opened Js
  import opened JsObject
  import opened Visits
  import opened Pdf
  import opened Export

  /** `toggleTheme`'s update. */
  function Toggled(theme: string): (r: string)
    ensures r == "light" || r == "dark"
    ensures r != theme || theme !in {"light", "dark"}
  {
    if theme == "light" then "dark" else "light"
  }

  /** Two toggles from either theme restore it; any other stored value becomes
      'light' after one toggle and stays in the two themes from then on. */
  lemma ToggleTwice(theme: string)
    ensures theme == "light" || theme == "dark" ==> Toggled(Toggled(theme)) == theme
    ensures theme != "light" && theme != "dark" ==> Toggled(theme) == "light" && Toggled(Toggled(theme)) == "dark"
  {
  }

  /** `currentCityData`: `{ name, isVisited, ...visitedData }`. */
  datatype CityView = CityView(name: string, isVisited: bool, record: Option<Visit>)

  /** The sidebar part of the state. */
  datatype Sidebar = Sidebar(open: bool, current: Option<CityView>)

  /** `handleCityClick(name)`. */
  function Clicked(s: Sidebar, visited: Entries<Visit>, name: string): (r: Sidebar)
    ensures s.open && s.current.Some? && s.current.value.name == name ==> r == s.(open := false)
    ensures !(s.open && s.current.Some? && s.current.value.name == name) ==>
      r.open && r.current.Some? && r.current.value.name == name
      && r.current.value.record == Get(visited, name)
  {
    if s.open && s.current.Some? && s.current.value.name == name then s.(open := false)
    else
      var data := Get(visited, name);
      Sidebar(true, Some(CityView(name, data.Some?, data)))
  }

  /** A click on the city the open sidebar shows closes it; any other click
      opens the sidebar on that city, marked visited exactly when its name is
      a key of the visited map; and clicking one city twice from any state
      where the sidebar is not showing it opens and then closes it. */
  lemma ClickedSpec(s: Sidebar, visited: Entries<Visit>, name: string)
    ensures var r := Clicked(s, visited, name);
            r.open ==> r.current.Some? && r.current.value.name == name
                       && (r.current.value.isVisited <==> name in Keys(visited))
    ensures !(s.open && s.current.Some? && s.current.value.name == name) ==>
      var r := Clicked(Clicked(s, visited, name), visited, name);
      !r.open && r.current == Clicked(s, visited, name).current
  {
    GetDefinedIff(visited, name);
  }

  /** The pairs `[city.city_name, city]` the visited map is built from. */
  function RowPairs(rows: seq<Visit>): seq<(string, Visit)> {
    seq(|rows|, i requires 0 <= i < |rows| => (rows[i].cityName, rows[i]))
  }

  function RowNames(rows: seq<Visit>): seq<string> {
    seq(|rows|, i requires 0 <= i < |rows| => rows[i].cityName)
  }

  /** The last row named `k`, if any. */
  function LastRow(rows: seq<Visit>, k: string): Option<Visit> {
    if rows == [] then None
    else if rows[|rows| - 1].cityName == k then Some(rows[|rows| - 1])
    else LastRow(rows[..|rows| - 1], k)
  }

  lemma {:induction false} LastRowIsLastValue(rows: seq<Visit>, k: string)
    ensures LastValue(RowPairs(rows), k) == LastRow(rows, k)
  {
    if rows != [] {
      LastRowIsLastValue(rows[..|rows| - 1], k);
      assert RowPairs(rows)[..|rows| - 1] == RowPairs(rows[..|rows| - 1]);
    }
  }

  /** `new Map(data.map(city => [city.city_name, city]))` has one entry per
      city name, in order of first appearance, holding the last row with
      that name. */
  lemma VisitedMapSpec(rows: seq<Visit>, k: string)
    ensures DistinctKeys(FromPairs(RowPairs(rows)))
    ensures Keys(FromPairs(RowPairs(rows))) == FirstOccurrences(RowNames(rows))
    ensures Get(FromPairs(RowPairs(rows)), k) == LastRow(rows, k)
  {
    FromPairsKeys(RowPairs(rows));
    assert Keys(RowPairs(rows)) == RowNames(rows);
    FromPairsGet(RowPairs(rows), k);
    LastRowIsLastValue(rows, k);
  }

  /** How an export ends. */
  datatype ExportOutcome =
    | NoMapData
    | SnapshotFailed
    | NothingToExport
    | RenderFailed
    | Saved(fileName: string, pages: seq<seq<Item>>)

  class App {
    var theme: string
    var user: Option<string>
    var hasMapData: bool
    var visited: Entries<Visit>
    var sidebar: Sidebar
    var isExporting: bool

    /** A session of a logged-in user before anything is loaded. */
    constructor (theme: string, user: Option<string>)
      ensures this.theme == theme && this.user == user
      ensures !hasMapData && visited == [] && sidebar == Sidebar(false, None) && !isExporting
    {
      this.theme := theme;
      this.user := user;
      hasMapData := false;
      visited := [];
      sidebar := Sidebar(false, None);
      isExporting := false;
    }

    method ToggleTheme()
      modifies this
      ensures theme == Toggled(old(theme))
      ensures user == old(user) && hasMapData == old(hasMapData) && visited == old(visited)
      ensures sidebar == old(sidebar) && isExporting == old(isExporting)
    {
      theme := if theme == "light" then "dark" else "light";
    }

    method HandleCityClick(name: string)
      modifies this
      ensures sidebar == Clicked(old(sidebar), visited, name)
      ensures theme == old(theme) && user == old(user) && hasMapData == old(hasMapData)
      ensures visited == old(visited) && isExporting == old(isExporting)
    {
      var visitedData := Get(visited, name);
      if sidebar.open && sidebar.current.Some? && sidebar.current.value.name == name {
        sidebar := sidebar.(open := false);
      } else {
        sidebar := Sidebar(true, Some(CityView(name, visitedData.Some?, visitedData)));
      }
    }

    /** A mousedown or touch on the page: one outside the right column closes
        the sidebar and keeps the city it showed. */
    method MouseDown(inside: bool)
      modifies this
      ensures sidebar == if inside then old(sidebar) else old(sidebar).(open := false)
      ensures theme == old(theme) && user == old(user) && hasMapData == old(hasMapData)
      ensures visited == old(visited) && isExporting == old(isExporting)
    {
      if !inside {
        sidebar := sidebar.(open := false);
      }
    }

    /** `handleLogout`: no user and a closed sidebar. */
    method HandleLogout()
      modifies this
      ensures user == None && sidebar == old(sidebar).(open := false)
      ensures theme == old(theme) && hasMapData == old(hasMapData)
      ensures visited == old(visited) && isExporting == old(isExporting)
    {
      user := None;
      sidebar := sidebar.(open := false);
    }

    /** `fetchVisitedCities`, with the query's rows as `response` (None when
        the query fails, which only logs). Nothing happens without a user. */
    method FetchVisitedCities(response: Option<seq<Visit>>)
      modifies this
      ensures visited == (if user.Some? && response.Some? then FromPairs(RowPairs(response.value)) else old(visited))
      ensures theme == old(theme) && user == old(user) && hasMapData == old(hasMapData)
      ensures sidebar == old(sidebar) && isExporting == old(isExporting)
    {
      if user.None? {
        return;
      }
      if response.Some? {
        visited := FromPairs(RowPairs(response.value));
      }
    }

    /** `handleExportPDF`. `snapshot` is the data URL of the off-screen map
        (None when the snapshot throws), `mapHeight` its height on the cover,
        `parse` the date parser of the sort, `imageHeight` the height jsPDF
        finds for a photo (None when it throws) and `today` the locale date. */
    method HandleExportPdf(snapshot: Option<string>, mapHeight: real, parse: string -> int,
                           imageHeight: string -> Option<real>, today: string, size: PageSize)
        returns (outcome: ExportOutcome)
      requires user.Some?
      modifies this
      ensures theme == old(theme) && user == old(user) && hasMapData == old(hasMapData)
      ensures visited == old(visited) && sidebar == old(sidebar)
      ensures !hasMapData ==> outcome == NoMapData && isExporting == old(isExporting)
      ensures hasMapData ==> !isExporting
      ensures hasMapData && !Truthy(snapshot) ==> outcome == SnapshotFailed
      ensures hasMapData && Truthy(snapshot) ==>
        var content := ExportList(visited, parse);
        if content == [] then outcome == NothingToExport
        else if Heights(content, imageHeight).None? then outcome == RenderFailed
        else outcome == Saved(FileName(user.value, today),
                              ExportPages(user.value, snapshot.value, mapHeight, content,
                                          Heights(content, imageHeight).value, size))
    {
      if !hasMapData {
        return NoMapData;
      }
      isExporting := true;
      if !(snapshot.Some? && snapshot.value != "") {
        isExporting := false;
        return SnapshotFailed;
      }
      var mapImage := snapshot.value;
      var sortedCities := ExportList(visited, parse);
      if |sortedCities| == 0 {
        isExporting := false;
        return NothingToExport;
      }
      var username := user.value;
      var pages := RenderDocument(username, mapImage, mapHeight, sortedCities, imageHeight, size);
      if pages.None? {
        isExporting := false;
        return RenderFailed;
      }
      outcome := Saved(username + "_城市足迹_" + ReplaceAll(today, '/', '-') + ".pdf", pages.value);
      isExporting := false;
    }
  }
}

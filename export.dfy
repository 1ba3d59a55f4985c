/** The pure parts of the PDF export (src/App.jsx, `handleExportPDF`): the
    colour and style of the cover map, the cover page, the whole document
    the export saves, and its file name. */
module Export {
  import opened Js
  import opened JsObject
  import opened Visits
  import opened Pdf
  import CityColour
  import MapView

  /** The export's own copy of the colour hash (`getColor`), up to the colour scale. */
  method GetColor(name: string) returns (index: nat)
    ensures index == CityColour.ColorIndex(name)
  {
    var units := Utf16(name);
    var hash := 0;
    var i := 0;
    while i < |units|
      invariant 0 <= i <= |units|
      invariant hash == CityColour.HashUnits(units[..i])
    {
      hash := units[i] + (ShiftLeft(hash, 5) - hash);
      hash := ToInt32(hash);
      assert units[..i + 1][..i] == units[..i];
      i := i + 1;
    }
    assert units[..i] == units;
    index := Abs(hash) % 1000;
  }

  /** The live map and the cover map give every city the same colour index,
      and it is on the scale. */
  method ColoursAgree(name: string) returns (live: nat, cover: nat)
    ensures live == cover
    ensures live < 1000
  {
    live := MapView.GetColorfulColor(name);
    cover := GetColor(name);
    CityColour.ColorIndexRange(name);
  }

  /** The outline colour of the cover map for a theme. */
  function LineRgb(theme: string): string {
    if theme == "dark" then "90, 90, 90" else "163, 168, 175"
  }

  /** The names `new Set(visitedCities.keys())` holds. */
  function VisitedNames(visited: Entries<Visit>): set<string> {
    set k | k in Keys(visited)
  }

  /** The `style` callback of the cover map. */
  function CoverStyle(name: string, visited: Entries<Visit>, theme: string): MapView.Style {
    MapView.Style("rgb(" + LineRgb(theme) + ")", 0.6,
                  if name in VisitedNames(visited) then 0.6 else 0.0,
                  MapView.Hue(CityColour.ColorIndex(name)))
  }

  /** On the cover a city is filled exactly when it is a key of the visited
      map, and it always takes its hash colour, the same colour the live map
      uses in colourful mode; there is no single-colour branch. */
  lemma CoverStyleSpec(name: string, visited: Entries<Visit>, theme: string, selected: set<string>, lineRgb: string)
    ensures CoverStyle(name, visited, theme).fillOpacity == 0.6 <==> name in Keys(visited)
    ensures CoverStyle(name, visited, theme).fillOpacity == 0.6 || CoverStyle(name, visited, theme).fillOpacity == 0.0
    ensures CoverStyle(name, visited, theme).fillColor == MapView.Hue(CityColour.ColorIndex(name))
    ensures CoverStyle(name, visited, theme).fillColor == MapView.BaseStyle(name, selected, "colorful", lineRgb).fillColor
  {
  }

  /** The cover page: the title, the user's name and the map snapshot, `mapHeight` high. */
  function CoverItems(username: string, snapshot: string, mapHeight: real, size: PageSize): seq<Item> {
    [ Text("我的城市足迹", size.width / 2.0, 80.0, Center),
      Text("- " + username + " -", size.width / 2.0, 95.0, Center),
      Image(snapshot, Margin, 120.0, size.width - Margin * 2.0, mapHeight) ]
  }

  /** Where the layout starts: the cover, then an empty content page with `y` at the margin. */
  function ContentStart(username: string, snapshot: string, mapHeight: real, size: PageSize): Cursor {
    Cursor([CoverItems(username, snapshot, mapHeight, size), []], Margin)
  }

  /** The pages of the saved document, for content records whose photos are `hs` high. */
  function ExportPages(username: string, snapshot: string, mapHeight: real, content: seq<Visit>,
                       hs: seq<real>, size: PageSize): seq<seq<Item>>
    requires |hs| == |content|
  {
    Stamped(Layout(ContentStart(username, snapshot, mapHeight, size), content, hs, size).pages, username, size)
  }

  /** The saved document has the cover, one content page and one page per
      break; the cover keeps its three items, and every page i of N ends in
      the title and the label "i of N". */
  lemma ExportPagesSpec(username: string, snapshot: string, mapHeight: real, content: seq<Visit>,
                        hs: seq<real>, size: PageSize, i: nat)
    requires |hs| == |content|
    ensures var pages := ExportPages(username, snapshot, mapHeight, content, hs, size);
            var start := ContentStart(username, snapshot, mapHeight, size);
            && |pages| == 2 + BreakCount(start, content, hs, size)
            && pages[0] == CoverItems(username, snapshot, mapHeight, size)
                           + [Title(username), PageLabel(1, |pages|, size)]
            && (i < |pages| ==> pages[i][|pages[i]| - 1] == PageLabel(i + 1, |pages|, size)
                                && pages[i][|pages[i]| - 2] == Title(username))
  {
    var start := ContentStart(username, snapshot, mapHeight, size);
    LayoutPages(start, content, hs, size);
  }

  /** The document part of the export: the cover, the content pages and the
      header and footer pass. None when a photo's size cannot be read, which
      makes jsPDF throw. */
  method RenderDocument(username: string, mapImage: string, mapHeight: real, content: seq<Visit>,
                        imageHeight: string -> Option<real>, size: PageSize)
      returns (pages: Option<seq<seq<Item>>>)
    ensures pages.None? <==> Heights(content, imageHeight).None?
    ensures pages.Some? ==>
      pages.value == ExportPages(username, mapImage, mapHeight, content, Heights(content, imageHeight).value, size)
  {
    var doc := new Document();
    ghost var cover := CoverItems(username, mapImage, mapHeight, size);
    assert doc.pages == [[]] && doc.current == 0;
    doc.Draw(Text("我的城市足迹", size.width / 2.0, 80.0, Center));
    assert doc.pages[0] == [cover[0]];
    doc.Draw(Text("- " + username + " -", size.width / 2.0, 95.0, Center));
    assert doc.pages[0] == [cover[0]] + [cover[1]] == [cover[0], cover[1]];
    doc.Draw(Image(mapImage, Margin, 120.0, size.width - Margin * 2.0, mapHeight));
    assert doc.pages[0] == [cover[0], cover[1]] + [cover[2]] == cover;
    assert doc.pages == [cover];
    doc.AddPage();
    assert doc.pages == ContentStart(username, mapImage, mapHeight, size).pages;
    var ok := LayoutContent(doc, content, imageHeight, Margin, size);
    if !ok {
      return None;
    }
    AddHeaderAndFooter(doc, username, size);
    return Some(doc.pages);
  }

  /** `${username}_城市足迹_${date}.pdf`, the locale date with every '/' made '-'. */
  function FileName(username: string, today: string): (r: string)
    ensures forall i :: |username| + 6 <= i < |r| - 4 ==> r[i] != '/'
  {
    username + "_城市足迹_" + ReplaceAll(today, '/', '-') + ".pdf"
  }
}

/** The PDF document of the export (src/App.jsx, `handleExportPDF`): a
    sequence of pages, each the sequence of items drawn on it, and the layout
    of the content pages with a running vertical offset. Lengths are
    millimetres; the page size and each photo's height are inputs (jsPDF
    computes them from the A4 format and from the image's aspect ratio). Font
    size and colour settings are not items. */
module Pdf {
  import opened Js
  import opened Visits

  datatype Align = Left | Center | Right

  datatype Item =
    | Text(text: string, x: real, y: real, align: Align)
    | Line(x1: real, y1: real, x2: real, y2: real)
    | Image(source: string, x: real, y: real, width: real, height: real)

  datatype PageSize = PageSize(width: real, height: real)

  const Margin: real := 20.0

  /** A jsPDF document: its pages and the current page, which a draw call
      appends to. jsPDF numbers pages from 1; `current` counts from 0. */
  class Document {
    var pages: seq<seq<Item>>
    var current: nat

    predicate Valid()
      reads this
    {
      current < |pages|
    }

    /** `new jsPDF(...)`: one empty page, which is current. */
    constructor ()
      ensures pages == [[]] && current == 0
    {
      pages := [[]];
      current := 0;
    }

    /** `doc.addPage()`: a new empty page at the end, which becomes current. */
    method AddPage()
      modifies this
      ensures pages == old(pages) + [[]] && current == |old(pages)|
    {
      pages := pages + [[]];
      current := |pages| - 1;
    }

    /** `doc.setPage(n)` for a page that exists. */
    method SetPage(n: nat)
      requires 1 <= n <= |pages|
      modifies this
      ensures pages == old(pages) && current == n - 1
    {
      current := n - 1;
    }

    /** A draw call (`text`, `line`, `addImage`) on the current page. */
    method Draw(item: Item)
      requires Valid()
      modifies this
      ensures pages == old(pages)[old(current) := old(pages)[old(current)] + [item]]
      ensures current == old(current)
    {
      pages := pages[current := pages[current] + [item]];
    }
  }

  // ---------------------------------------------------------------------
  // Content layout

  /** The layout state between two cities: the pages so far (the last one is
      current) and the offset `y`. */
  datatype Cursor = Cursor(pages: seq<seq<Item>>, y: real)

  /** The fit test: a city needs 15 mm of heading plus its photo. */
  predicate Breaks(y: real, h: real, size: PageSize) {
    y + (15.0 + h) > size.height - Margin
  }

  /** What one city draws with its heading at `top`: name, date, a rule and the photo. */
  function CityItems(v: Visit, top: real, h: real, size: PageSize): seq<Item> {
    [ Text(v.cityName, Margin, top, Left),
      Text(DateText(v), size.width - Margin, top, Right),
      Line(Margin, top + 10.0 - 2.0, size.width - Margin, top + 10.0 - 2.0),
      Image(PhotoText(v), Margin, top + 10.0, size.width - Margin * 2.0, h) ]
  }

  function Last<T>(s: seq<T>): T
    requires s != []
  {
    s[|s| - 1]
  }

  /** Lay out one city whose photo is `h` high. */
  function Place(c: Cursor, v: Visit, h: real, size: PageSize): Cursor
    requires c.pages != []
  {
    var broke := Breaks(c.y, h, size);
    var ps := if broke then c.pages + [[]] else c.pages;
    var top := if broke then Margin else c.y;
    Cursor(ps[..|ps| - 1] + [Last(ps) + CityItems(v, top, h, size)], top + 10.0 + h + 15.0)
  }

  /** Lay out the cities in order, the i-th with photo height `hs[i]`. */
  function Layout(c: Cursor, vs: seq<Visit>, hs: seq<real>, size: PageSize): (r: Cursor)
    requires c.pages != [] && |hs| == |vs|
    ensures r.pages != []
    decreases |vs|
  {
    if vs == [] then c else Layout(Place(c, vs[0], hs[0], size), vs[1..], hs[1..], size)
  }

  /** How many of the cities start a new page. */
  function BreakCount(c: Cursor, vs: seq<Visit>, hs: seq<real>, size: PageSize): nat
    requires c.pages != [] && |hs| == |vs|
    decreases |vs|
  {
    if vs == [] then 0
    else (if Breaks(c.y, hs[0], size) then 1 else 0) + BreakCount(Place(c, vs[0], hs[0], size), vs[1..], hs[1..], size)
  }

  /** The break rule for one city: a page is added, and the heading starts at
      the margin, exactly when the fit test fails; otherwise the heading is
      drawn at `y` on the current page. Either way `y` then moves down by the
      photo's height plus 25, the city's four items go at the end of the
      current page and no earlier page changes. */
  lemma PlaceSpec(c: Cursor, v: Visit, h: real, size: PageSize)
    requires c.pages != []
    ensures var r := Place(c, v, h, size);
            var top := if Breaks(c.y, h, size) then Margin else c.y;
            && |r.pages| == |c.pages| + (if Breaks(c.y, h, size) then 1 else 0)
            && r.y == top + h + 25.0
            && Last(r.pages) == (if Breaks(c.y, h, size) then [] else Last(c.pages)) + CityItems(v, top, h, size)
            && (forall i :: 0 <= i < |c.pages| - 1 ==> r.pages[i] == c.pages[i])
            && (Breaks(c.y, h, size) ==> r.pages[|c.pages| - 1] == Last(c.pages))
  {
  }

  /** A photo that fits on an empty page is never cut by the bottom margin:
      its lower edge is at most `height - margin`. A taller photo is drawn all
      the same, on a fresh page, since the test is made only once. */
  lemma PhotoFits(c: Cursor, v: Visit, h: real, size: PageSize)
    requires c.pages != []
    ensures 15.0 + h <= size.height - 2.0 * Margin ==>
      var top := if Breaks(c.y, h, size) then Margin else c.y;
      top + 10.0 + h <= size.height - Margin
    ensures !Breaks(c.y, h, size) ==> c.y + 10.0 + h <= size.height - Margin
    ensures Breaks(c.y, h, size) ==>
      |Place(c, v, h, size).pages| == |c.pages| + 1
      && Last(Place(c, v, h, size).pages) == CityItems(v, Margin, h, size)
  {
  }

  /** Layout adds one page per break and leaves every page before the current one alone. */
  lemma {:induction false} LayoutPages(c: Cursor, vs: seq<Visit>, hs: seq<real>, size: PageSize)
    requires c.pages != [] && |hs| == |vs|
    ensures |Layout(c, vs, hs, size).pages| == |c.pages| + BreakCount(c, vs, hs, size)
    ensures forall i :: 0 <= i < |c.pages| - 1 ==> Layout(c, vs, hs, size).pages[i] == c.pages[i]
    decreases |vs|
  {
    if vs != [] {
      var next := Place(c, vs[0], hs[0], size);
      PlaceSpec(c, vs[0], hs[0], size);
      LayoutPages(next, vs[1..], hs[1..], size);
    }
  }

  /** A first photo taller than an empty page allows leaves the first content
      page blank: the fit test fails although nothing is on the page yet, and
      nothing is drawn there later. */
  lemma BlankFirstPage(before: seq<seq<Item>>, vs: seq<Visit>, hs: seq<real>, size: PageSize)
    requires |hs| == |vs| && vs != []
    requires 15.0 + hs[0] > size.height - 2.0 * Margin
    ensures var r := Layout(Cursor(before + [[]], Margin), vs, hs, size);
            |r.pages| > |before| + 1 && r.pages[|before|] == []
  {
    var c := Cursor(before + [[]], Margin);
    var next := Place(c, vs[0], hs[0], size);
    PlaceSpec(c, vs[0], hs[0], size);
    assert |next.pages| == |before| + 2;
    assert next.pages[|before|] == [];
    LayoutPages(next, vs[1..], hs[1..], size);
  }

  /** The photo heights, or None when one of them cannot be found out (jsPDF
      throws when it cannot read an image). */
  function Heights(vs: seq<Visit>, imageHeight: string -> Option<real>): (r: Option<seq<real>>)
    ensures r.Some? ==> |r.value| == |vs|
    ensures r.Some? ==> forall i :: 0 <= i < |vs| ==> imageHeight(PhotoText(vs[i])) == Some(r.value[i])
    ensures r.None? ==> exists i :: 0 <= i < |vs| && imageHeight(PhotoText(vs[i])).None?
  {
    if vs == [] then Some([])
    else match imageHeight(PhotoText(vs[0]))
      case None => None
      case Some(h) =>
        match Heights(vs[1..], imageHeight)
        case None =>
          ghost var i :| 0 <= i < |vs[1..]| && imageHeight(PhotoText(vs[1..][i])).None?;
          assert imageHeight(PhotoText(vs[i + 1])).None?;
          None
        case Some(rest) => Some([h] + rest)
  }

  /** The body of the layout loop for one city: break if the fit test fails,
      then draw the heading, the rule and the photo, and return the new `y`. */
  method DrawCity(doc: Document, v: Visit, h: real, y0: real, size: PageSize) returns (y: real)
    requires doc.Valid() && doc.current == |doc.pages| - 1
    modifies doc
    ensures doc.Valid() && doc.current == |doc.pages| - 1
    ensures Cursor(doc.pages, y) == Place(Cursor(old(doc.pages), y0), v, h, size)
  {
    y := y0;
    if y + (15.0 + h) > size.height - Margin {
      doc.AddPage();
      y := Margin;
    }
    ghost var ps := doc.pages;
    ghost var items := CityItems(v, y, h, size);
    doc.Draw(Text(v.cityName, Margin, y, Left));
    doc.Draw(Text(DateText(v), size.width - Margin, y, Right));
    y := y + 10.0;
    doc.Draw(Line(Margin, y - 2.0, size.width - Margin, y - 2.0));
    doc.Draw(Image(PhotoText(v), Margin, y, size.width - Margin * 2.0, h));
    y := y + h + 15.0;
    assert doc.pages == ps[|ps| - 1 := Last(ps) + [items[0]] + [items[1]] + [items[2]] + [items[3]]];
    assert Last(ps) + [items[0]] + [items[1]] + [items[2]] + [items[3]] == Last(ps) + items;
    assert ps[|ps| - 1 := Last(ps) + items] == ps[..|ps| - 1] + [Last(ps) + items];
  }

  /** The layout loop, drawing into `doc`. It stops with `ok` false at the
      first photo whose size cannot be read. */
  method LayoutContent(doc: Document, vs: seq<Visit>, imageHeight: string -> Option<real>, y0: real, size: PageSize)
      returns (ok: bool)
    requires doc.Valid() && doc.current == |doc.pages| - 1
    modifies doc
    ensures ok <==> Heights(vs, imageHeight).Some?
    ensures ok ==> doc.pages == Layout(Cursor(old(doc.pages), y0), vs, Heights(vs, imageHeight).value, size).pages
    ensures ok ==> doc.Valid() && doc.current == |doc.pages| - 1
  {
    ghost var start := Cursor(doc.pages, y0);
    ghost var hs: seq<real> := [];
    var y := y0;
    var i := 0;
    while i < |vs|
      invariant 0 <= i <= |vs|
      invariant doc.Valid() && doc.current == |doc.pages| - 1
      invariant |hs| == i
      invariant Heights(vs[..i], imageHeight) == Some(hs)
      invariant Layout(start, vs[..i], hs, size) == Cursor(doc.pages, y)
    {
      var v := vs[i];
      var found := imageHeight(PhotoText(v));
      if found.None? {
        HeightsMissing(vs, i, imageHeight);
        return false;
      }
      var h := found.value;
      y := DrawCity(doc, v, h, y, size);
      LayoutPrefixStep(start, vs, i, hs, imageHeight, size);
      hs := hs + [h];
      i := i + 1;
    }
    assert vs[..i] == vs;
    return true;
  }

  /** A photo whose height cannot be found out fails the whole list. */
  lemma HeightsMissing(vs: seq<Visit>, i: nat, imageHeight: string -> Option<real>)
    requires i < |vs| && imageHeight(PhotoText(vs[i])).None?
    ensures Heights(vs, imageHeight).None?
  {
  }

  /** One more turn of the layout loop over a prefix of `vs`. */
  lemma LayoutPrefixStep(start: Cursor, vs: seq<Visit>, i: nat, hs: seq<real>,
                         imageHeight: string -> Option<real>, size: PageSize)
    requires start.pages != [] && i < |vs| && |hs| == i
    requires Heights(vs[..i], imageHeight) == Some(hs)
    requires imageHeight(PhotoText(vs[i])).Some?
    ensures var h := imageHeight(PhotoText(vs[i])).value;
            && Heights(vs[..i + 1], imageHeight) == Some(hs + [h])
            && Layout(start, vs[..i + 1], hs + [h], size) == Place(Layout(start, vs[..i], hs, size), vs[i], h, size)
  {
    assert vs[..i + 1] == vs[..i] + [vs[i]];
    LayoutSnoc(start, vs[..i], hs, vs[i], imageHeight(PhotoText(vs[i])).value, size);
    HeightsSnoc(vs[..i], vs[i], imageHeight);
  }

  /** Laying out one more city is one more `Place`. */
  lemma {:induction false} LayoutSnoc(c: Cursor, vs: seq<Visit>, hs: seq<real>, v: Visit, h: real, size: PageSize)
    requires c.pages != [] && |hs| == |vs|
    ensures Layout(c, vs + [v], hs + [h], size) == Place(Layout(c, vs, hs, size), v, h, size)
    decreases |vs|
  {
    if vs == [] {
      assert (vs + [v])[1..] == [] && (hs + [h])[1..] == [];
    } else {
      assert (vs + [v])[1..] == vs[1..] + [v];
      assert (hs + [h])[1..] == hs[1..] + [h];
      LayoutSnoc(Place(c, vs[0], hs[0], size), vs[1..], hs[1..], v, h, size);
    }
  }

  lemma {:induction false} HeightsSnoc(vs: seq<Visit>, v: Visit, imageHeight: string -> Option<real>)
    requires Heights(vs, imageHeight).Some? && imageHeight(PhotoText(v)).Some?
    ensures Heights(vs + [v], imageHeight) == Some(Heights(vs, imageHeight).value + [imageHeight(PhotoText(v)).value])
    decreases |vs|
  {
    if vs == [] {
      assert vs + [v] == [v] && [v][1..] == [] && [v][0] == v;
      var x := imageHeight(PhotoText(v)).value;
      assert Heights([v], imageHeight) == Some([x] + []);
      assert [x] + [] == [] + [x];
    } else {
      var h0 := imageHeight(PhotoText(vs[0])).value;
      assert Heights(vs, imageHeight) == Some([h0] + Heights(vs[1..], imageHeight).value);
      assert (vs + [v])[0] == vs[0];
      assert (vs + [v])[1..] == vs[1..] + [v];
      HeightsSnoc(vs[1..], v, imageHeight);
      assert Heights(vs + [v], imageHeight) == Some([h0] + Heights(vs[1..] + [v], imageHeight).value);
      var rest := Heights(vs[1..], imageHeight).value;
      var x := imageHeight(PhotoText(v)).value;
      assert [h0] + (rest + [x]) == ([h0] + rest) + [x];
    }
  }

  // ---------------------------------------------------------------------
  // Header and footer

  /** The title line `${username}的城市足迹`. */
  function Title(username: string): Item {
    Text(username + "的城市足迹", Margin, 10.0, Left)
  }

  /** The footer text `第 i 页 / 共 n 页`. */
  function PageLabelText(i: nat, n: nat): string {
    "第 " + (NatToString(i) + (" 页 / 共 " + NatToString(n) + " 页"))
  }

  /** The footer, right-aligned at the bottom. */
  function PageLabel(i: nat, n: nat, size: PageSize): Item {
    Text(PageLabelText(i, n), size.width - Margin, size.height - 10.0, Right)
  }

  /** Every page with the title and its label added at the end. */
  function Stamped(pages: seq<seq<Item>>, username: string, size: PageSize): (r: seq<seq<Item>>)
    ensures |r| == |pages|
    ensures forall i :: 0 <= i < |pages| ==>
      r[i] == pages[i] + [Title(username), PageLabel(i + 1, |pages|, size)]
  {
    seq(|pages|, i requires 0 <= i < |pages| => pages[i] + [Title(username), PageLabel(i + 1, |pages|, size)])
  }

  /** `addHeaderAndFooter`: visit pages 1..N and stamp each one. */
  method AddHeaderAndFooter(doc: Document, username: string, size: PageSize)
    modifies doc
    ensures doc.pages == Stamped(old(doc.pages), username, size)
    ensures |doc.pages| == 0 || doc.current == |doc.pages| - 1
  {
    var pageCount := |doc.pages|;
    ghost var original := doc.pages;
    for i := 1 to pageCount + 1
      invariant |doc.pages| == pageCount
      invariant forall j :: 0 <= j < i - 1 ==>
        doc.pages[j] == original[j] + [Title(username), PageLabel(j + 1, pageCount, size)]
      invariant forall j :: i - 1 <= j < pageCount ==> doc.pages[j] == original[j]
      invariant i > 1 ==> doc.current == i - 2
    {
      doc.SetPage(i);
      doc.Draw(Title(username));
      doc.Draw(PageLabel(i, pageCount, size));
    }
  }

  /** Two different page numbers have different labels. */
  lemma {:induction false} NatToStringInjective(a: nat, b: nat)
    requires NatToString(a) == NatToString(b)
    ensures a == b
    decreases a
  {
    var sa := NatToString(a);
    var sb := NatToString(b);
    DigitInjective(a % 10, b % 10);
    if a >= 10 && b >= 10 {
      assert sa[..|sa| - 1] == NatToString(a / 10);
      assert sb[..|sb| - 1] == NatToString(b / 10);
      NatToStringInjective(a / 10, b / 10);
    }
  }

  lemma DigitInjective(a: int, b: int)
    requires 0 <= a < 10 && 0 <= b < 10 && Digit(a) == Digit(b)
    ensures a == b
  {
  }

  /** Every page carries the title and its own label "i of N", N being the
      final page count; labels of different pages differ. */
  lemma StampedLabels(pages: seq<seq<Item>>, username: string, size: PageSize, i: nat, j: nat)
    requires i < |pages| && j < |pages| && i != j
    ensures var r := Stamped(pages, username, size);
            && r[i][|r[i]| - 1] == PageLabel(i + 1, |pages|, size)
            && r[i][|r[i]| - 2] == Title(username)
            && r[i][..|pages[i]|] == pages[i]
            && r[i][|r[i]| - 1] != r[j][|r[j]| - 1]
  {
    if PageLabelText(i + 1, |pages|) == PageLabelText(j + 1, |pages|) {
      LabelNumber(i + 1, j + 1, |pages|);
    }
  }

  lemma CancelAround(p: string, x: string, y: string, t: string)
    requires p + (x + t) == p + (y + t)
    ensures x == y
  {
    assert |x| == |y|;
    assert x == (p + (x + t))[|p|..|p| + |x|];
    assert y == (p + (y + t))[|p|..|p| + |y|];
  }

  lemma LabelNumber(a: nat, b: nat, n: nat)
    requires PageLabelText(a, n) == PageLabelText(b, n)
    ensures a == b
  {
    CancelAround("第 ", NatToString(a), NatToString(b), " 页 / 共 " + NatToString(n) + " 页");
    NatToStringInjective(a, b);
  }
}

/** A row of the `visited_cities` table as the application reads it, and the
    selection of rows the PDF export lays out (src/App.jsx, `handleExportPDF`). */
module Visits {
  import opened Js
  import opened JsObject
  import opened Sorting

  /** `city_name`, `visit_date`, `photo_url`, `rating` and `comment`; a column
      that is null is None. */
  datatype Visit = Visit(cityName: string, visitDate: Option<string>, photoUrl: Option<string>,
                         rating: Option<int>, comment: Option<string>)

  function DateText(v: Visit): string {
    if v.visitDate.Some? then v.visitDate.value else ""
  }

  function PhotoText(v: Visit): string {
    if v.photoUrl.Some? then v.photoUrl.value else ""
  }

  /** The filter `city.visit_date && city.photo_url`. */
  predicate Exportable(v: Visit) {
    Truthy(v.visitDate) && Truthy(v.photoUrl)
  }

  function KeepExportable(vs: seq<Visit>): (r: seq<Visit>)
    ensures forall i :: 0 <= i < |r| ==> Exportable(r[i])
    ensures |r| <= |vs|
  {
    if vs == [] then []
    else KeepExportable(vs[..|vs| - 1]) + (if Exportable(vs[|vs| - 1]) then [vs[|vs| - 1]] else [])
  }

  /** The comparator `new Date(a.visit_date) - new Date(b.visit_date)`, with the
      date parser given as `parse` (time in milliseconds). */
  function ByDate(parse: string -> int): Visit -> int {
    v => parse(DateText(v))
  }

  /** The records the export lays out, in page order. */
  function ExportList(visited: Entries<Visit>, parse: string -> int): seq<Visit> {
    SortBy(KeepExportable(Values(visited)), ByDate(parse))
  }

  /** The filter keeps exactly the records with a date and a photo, each as
      often as it occurs. */
  lemma {:induction false} KeepExportableCounts(vs: seq<Visit>, v: Visit)
    ensures multiset(KeepExportable(vs))[v] == if Exportable(v) then multiset(vs)[v] else 0
  {
    if vs != [] {
      var init := vs[..|vs| - 1];
      KeepExportableCounts(init, v);
      assert vs == init + [vs[|vs| - 1]];
    }
  }

  /** The export list is ordered by date, and holds each record of the visited
      map that has a date and a photo exactly as often as the map does, and no
      other record. */
  lemma ExportListSpec(visited: Entries<Visit>, parse: string -> int, v: Visit)
    ensures Sorted(ExportList(visited, parse), ByDate(parse))
    ensures multiset(ExportList(visited, parse))[v] == if Exportable(v) then multiset(Values(visited))[v] else 0
    ensures v in ExportList(visited, parse) <==> v in Values(visited) && Exportable(v)
  {
    var kept := KeepExportable(Values(visited));
    SortBySorted(kept, ByDate(parse));
    SortByPermutes(kept, ByDate(parse));
    KeepExportableCounts(Values(visited), v);
  }

  /** Records with the same date keep the order they have in the visited map. */
  lemma ExportListStable(visited: Entries<Visit>, parse: string -> int, t: int)
    ensures WithKey(ExportList(visited, parse), ByDate(parse), t)
         == WithKey(KeepExportable(Values(visited)), ByDate(parse), t)
  {
    SortByStable(KeepExportable(Values(visited)), ByDate(parse), t);
  }

  /** The list is empty exactly when no visited record has both a date and a photo. */
  lemma ExportListEmpty(visited: Entries<Visit>, parse: string -> int)
    ensures ExportList(visited, parse) == [] <==> forall i :: 0 <= i < |visited| ==> !Exportable(visited[i].1)
  {
    var vs := Values(visited);
    var kept := KeepExportable(vs);
    SortByPermutes(kept, ByDate(parse));
    if ExportList(visited, parse) == [] {
      forall i | 0 <= i < |visited| ensures !Exportable(visited[i].1) {
        KeepExportableCounts(vs, visited[i].1);
        assert vs[i] == visited[i].1;
        assert vs[i] in multiset(vs);
      }
    } else {
      var v := ExportList(visited, parse)[0];
      assert v in multiset(kept);
      KeepExportableCounts(vs, v);
      assert v in multiset(vs);
      var i :| 0 <= i < |vs| && vs[i] == v;
      assert visited[i].1 == v;
    }
  }
}

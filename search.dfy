/** The city search box (src/components/Search.jsx): the names of the map's
    layers that contain the trimmed input, the click on a result, and the
    click outside the box that hides the results. */
module Search {
  import opened Js
  import opened JsObject

  /** `names.filter(name => name.includes(p))`. */
  function Matching(names: seq<string>, p: string): (r: seq<string>)
    ensures |r| <= |names|
    ensures forall x :: x in r <==> x in names && Includes(x, p)
  {
    if names == [] then []
    else if Includes(names[0], p) then [names[0]] + Matching(names[1..], p)
    else Matching(names[1..], p)
  }

  /** `a` is `b` with some elements left out, the rest in their order. */
  predicate Subsequence(a: seq<string>, b: seq<string>)
    decreases |b|
  {
    if a == [] then true
    else if b == [] then false
    else (a[0] == b[0] && Subsequence(a[1..], b[1..])) || Subsequence(a, b[1..])
  }

  predicate Distinct(s: seq<string>) {
    forall i, j :: 0 <= i < j < |s| ==> s[i] != s[j]
  }

  /** The filter keeps the names in their order, and keeps them distinct when they were. */
  lemma {:induction false} MatchingOrder(names: seq<string>, p: string)
    ensures Subsequence(Matching(names, p), names)
    ensures Distinct(names) ==> Distinct(Matching(names, p))
  {
    if names != [] {
      MatchingOrder(names[1..], p);
      var rest := Matching(names[1..], p);
      if Includes(names[0], p) {
        assert ([names[0]] + rest)[1..] == rest;
        if Distinct(names) {
          assert names[0] !in names[1..];
          assert names[0] !in rest;
        }
      } else if Distinct(names) {
        assert Distinct(names[1..]);
      }
    }
  }

  /** The results for an input. */
  function Results(names: seq<string>, value: string): seq<string> {
    if Trim(value) != "" then Matching(names, Trim(value)) else []
  }

  /** An input of white space only, or none, finds nothing. Any other input
      finds exactly the names that contain it once trimmed, in the order of
      the names, each once when the names are distinct, as the keys of the
      layer map are. */
  lemma ResultsSpec<V>(layers: Entries<V>, value: string)
    ensures (forall i :: 0 <= i < |value| ==> IsSpace(value[i])) ==> Results(Keys(layers), value) == []
    ensures (exists i :: 0 <= i < |value| && !IsSpace(value[i])) ==>
      && (forall x :: x in Results(Keys(layers), value) <==> x in Keys(layers) && Includes(x, Trim(value)))
      && Subsequence(Results(Keys(layers), value), Keys(layers))
    ensures DistinctKeys(layers) ==> Distinct(Results(Keys(layers), value))
  {
    TrimEmptyIff(value);
    MatchingOrder(Keys(layers), Trim(value));
    if DistinctKeys(layers) {
      assert forall i :: 0 <= i < |layers| ==> Keys(layers)[i] == layers[i].0;
    }
  }

  class SearchBox {
    var query: string
    var results: seq<string>
    /** The names given to `onCitySelect`, oldest first. */
    var selected: seq<string>

    constructor ()
      ensures query == "" && results == [] && selected == []
    {
      query := "";
      results := [];
      selected := [];
    }

    /** `handleInputChange`: the raw input is kept, the results use it trimmed. */
    method HandleInputChange(value: string, names: seq<string>)
      modifies this
      ensures query == value
      ensures results == Results(names, value)
      ensures selected == old(selected)
    {
      query := value;
      var trimmed := Trim(value);
      if trimmed != "" {
        results := Matching(names, trimmed);
      } else {
        results := [];
      }
    }

    /** `handleItemClick`. */
    method HandleItemClick(name: string)
      modifies this
      ensures selected == old(selected) + [name]
      ensures query == "" && results == []
    {
      selected := selected + [name];
      query := "";
      results := [];
    }

    /** A mousedown anywhere on the page; only one outside the box hides the results. */
    method MouseDown(inside: bool)
      modifies this
      ensures results == if inside then old(results) else []
      ensures query == old(query) && selected == old(selected)
    {
      if !inside {
        results := [];
      }
    }
  }
}

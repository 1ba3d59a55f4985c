/** The interactive map (src/components/Map.jsx): the colour of each city,
    the style of its polygon, the hover transitions of a layer and the
    name-to-layer table handed to the search box. The map library itself
    (drawing, tooltips, events) is outside the model; a layer is an object
    with a name, a current style and a tooltip flag. */
module MapView {
  import opened Js
  import opened JsObject
  import CityColour

  /** A fill colour: a position on the cyclic colour scale (0..999, before the
      division by 1000) or a fixed hex colour. */
  datatype Fill = Hue(index: nat) | Hex(code: string)

  datatype Style = Style(color: string, weight: real, fillOpacity: real, fillColor: Fill)

  const SingleColour: string := "#48cae4"
  const SingleHoverColour: string := "#00b4d8"

  /** `getColorfulColor`, up to the colour scale: the rolling hash loop and the
      reduction `Math.abs(hash) % 1000`. */
  method GetColorfulColor(name: string) returns (index: nat)
    ensures index == CityColour.ColorIndex(name)
  {
    var units := Utf16(name);
    var hash := 0;
    for i := 0 to |units|
      invariant hash == CityColour.HashUnits(units[..i])
    {
      hash := units[i] + (ShiftLeft(hash, 5) - hash);
      hash := ToInt32(hash);
      assert units[..i + 1][..i] == units[..i];
    }
    assert units[..|units|] == units;
    index := Abs(hash) % 1000;
  }

  /** The `style` callback of the GeoJSON layer. */
  function BaseStyle(name: string, selected: set<string>, colorMode: string, lineRgb: string): Style {
    Style("rgb(" + lineRgb + ")", 0.5,
          if name in selected then 0.6 else 0.0,
          if colorMode == "single" then Hex(SingleColour) else Hue(CityColour.ColorIndex(name)))
  }

  /** Opacity says whether a city is marked; the fill colour depends on the
      colour mode and the name only, never on whether the city is marked. */
  lemma BaseStyleSpec(name: string, selected: set<string>, other: set<string>, colorMode: string, lineRgb: string)
    ensures BaseStyle(name, selected, colorMode, lineRgb).fillOpacity == 0.6 <==> name in selected
    ensures name !in selected ==> BaseStyle(name, selected, colorMode, lineRgb).fillOpacity == 0.0
    ensures colorMode == "single" ==> BaseStyle(name, selected, colorMode, lineRgb).fillColor == Hex(SingleColour)
    ensures colorMode != "single" ==>
      BaseStyle(name, selected, colorMode, lineRgb).fillColor == Hue(CityColour.ColorIndex(name))
    ensures BaseStyle(name, selected, colorMode, lineRgb).fillColor == BaseStyle(name, other, colorMode, lineRgb).fillColor
  {
  }

  /** The style change `mouseover` asks for (`setStyle` merges it into the current style). */
  function Hovered(s: Style, isSelected: bool, colorMode: string): Style {
    if colorMode == "single" && isSelected then s.(fillColor := Hex(SingleHoverColour))
    else if !isSelected then s.(fillOpacity := 0.3)
    else s
  }

  /** The style change `mouseout` asks for. */
  function Unhovered(s: Style, isSelected: bool, colorMode: string): Style {
    if colorMode == "single" && isSelected then s.(fillColor := Hex(SingleColour))
    else if !isSelected then s.(fillOpacity := 0.0)
    else s
  }

  /** What hovering does to a polygon drawn with its base style: a marked city
      darkens in single-colour mode, an unmarked one shows a 0.3 preview in
      either mode, and a marked city in colourful mode does not change. */
  lemma HoverEffect(name: string, selected: set<string>, colorMode: string, lineRgb: string)
    ensures var b := BaseStyle(name, selected, colorMode, lineRgb);
            var h := Hovered(b, name in selected, colorMode);
            && (colorMode == "single" && name in selected ==>
                  h == b.(fillColor := Hex(SingleHoverColour)) && h.fillOpacity == 0.6)
            && (name !in selected ==> h == b.(fillOpacity := 0.3))
            && (colorMode != "single" && name in selected ==> h == b)
  {
  }

  /** Moving the pointer over a polygon and out again restores its base style,
      in either colour mode and whether or not the city is marked. */
  lemma HoverThenOutRestores(name: string, selected: set<string>, colorMode: string, lineRgb: string)
    ensures var b := BaseStyle(name, selected, colorMode, lineRgb);
            Unhovered(Hovered(b, name in selected, colorMode), name in selected, colorMode) == b
  {
  }

  /** One polygon of the GeoJSON layer. */
  class Layer {
    const name: string
    var style: Style
    var tooltipOpen: bool

    constructor (name: string, style: Style)
      ensures this.name == name && this.style == style && !tooltipOpen
    {
      this.name := name;
      this.style := style;
      tooltipOpen := false;
    }

    method MouseOver(selected: set<string>, colorMode: string)
      modifies this
      ensures style == Hovered(old(style), name in selected, colorMode)
      ensures tooltipOpen
    {
      var isSelected := name in selected;
      if colorMode == "single" && isSelected {
        style := style.(fillColor := Hex(SingleHoverColour));
      } else if !isSelected {
        style := style.(fillOpacity := 0.3);
      }
      tooltipOpen := true;
    }

    method MouseOut(selected: set<string>, colorMode: string)
      modifies this
      ensures style == Unhovered(old(style), name in selected, colorMode)
      ensures !tooltipOpen
    {
      var isSelected := name in selected;
      if colorMode == "single" && isSelected {
        style := style.(fillColor := Hex(SingleColour));
      } else if !isSelected {
        style := style.(fillOpacity := 0.0);
      }
      tooltipOpen := false;
    }

    /** A click closes the tooltip and reports the city's name to `onCityClick`. */
    method Click() returns (clicked: string)
      modifies this
      ensures clicked == name && !tooltipOpen && style == old(style)
    {
      tooltipOpen := false;
      clicked := name;
    }
  }

  function LayerPairs(layers: seq<Layer>): seq<(string, Layer)> {
    seq(|layers|, i requires 0 <= i < |layers| => (layers[i].name, layers[i]))
  }

  function Names(layers: seq<Layer>): seq<string> {
    seq(|layers|, i requires 0 <= i < |layers| => layers[i].name)
  }

  /** The last layer in `layers` named `k`, if any. */
  function LastNamed(layers: seq<Layer>, k: string): Option<Layer> {
    if layers == [] then None
    else if layers[|layers| - 1].name == k then Some(layers[|layers| - 1])
    else LastNamed(layers[..|layers| - 1], k)
  }

  /** The `layersMap` effect: `eachLayer` visits the layers in order and assigns
      `layersMap[name] = layer`. */
  method BuildLayersMap(layers: seq<Layer>) returns (m: Entries<Layer>)
    ensures m == FromPairs(LayerPairs(layers))
  {
    ghost var pairs := LayerPairs(layers);
    m := [];
    for i := 0 to |layers|
      invariant m == FromPairs(pairs[..i])
    {
      var layer := layers[i];
      m := Set(m, layer.name, layer);
      assert pairs[..i + 1][..i] == pairs[..i];
    }
    assert pairs[..|layers|] == pairs;
  }

  /** The table holds one entry per distinct feature name, in order of first
      appearance, and a later layer with the same name overwrites an earlier one. */
  lemma {:induction false} LayersMapSpec(layers: seq<Layer>, k: string)
    ensures DistinctKeys(FromPairs(LayerPairs(layers)))
    ensures Keys(FromPairs(LayerPairs(layers))) == FirstOccurrences(Names(layers))
    ensures Get(FromPairs(LayerPairs(layers)), k) == LastNamed(layers, k)
  {
    FromPairsKeys(LayerPairs(layers));
    assert Keys(LayerPairs(layers)) == Names(layers);
    FromPairsGet(LayerPairs(layers), k);
    LastNamedIsLastValue(layers, k);
  }

  lemma {:induction false} LastNamedIsLastValue(layers: seq<Layer>, k: string)
    ensures LastValue(LayerPairs(layers), k) == LastNamed(layers, k)
  {
    if layers != [] {
      LastNamedIsLastValue(layers[..|layers| - 1], k);
      assert LayerPairs(layers)[..|layers| - 1] == LayerPairs(layers[..|layers| - 1]);
    }
  }
}

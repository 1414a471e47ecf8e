/** The per-layer rule of `updatePropSymbols` (js/main.js): a map layer is
    redrawn for an attribute only when it carries a feature whose value for
    that attribute is truthy; it then gets the radius `calcPropRadius(value)`
    and a fresh popup. Every other layer is left exactly as it was. */
module Symbols {
  import opened Props
  import YearToken

  /** Scale factor of `calcPropRadius`: a symbol's area is value * 20. */
  const ScaleFactor: int := 20

  /** A circle marker radius. `CircleOfArea(a)` stands for sqrt(a / pi),
      which is strictly increasing in `a` (see `AreaMonotone` for the area
      step); `CircleOfText(s)` for the radius
      computed after JavaScript coerces the string `s` to a number. */
  datatype Radius = CircleOfArea(area: int) | CircleOfText(text: string)

  /** Popup content: state name, year token and the attribute's value. The
      surrounding HTML markup is not modelled. */
  datatype Popup = Popup(state: Option<Value>, year: Option<string>, count: Value)

  /** A layer on the map. Tile layers and layer groups carry no feature;
      circle markers carry the point feature they were created from. */
  datatype Layer = Layer(feature: Option<Feature>, radius: Radius, popup: Option<Popup>)

  /** The area step of `calcPropRadius`: `attValue * scaleFactor`. */
  function ScaledArea(value: int): (area: int)
    ensures area == 0 <==> value == 0
    ensures value > 0 ==> area > 0
  {
    value * ScaleFactor
  }

  /** Larger counts give larger symbol areas. */
  lemma AreaMonotone(a: int, b: int)
    requires a < b
    ensures ScaledArea(a) < ScaledArea(b)
  {
  }

  /** `calcPropRadius(value)`: a number gives the circle whose area is the
      scaled value, so a count of 0 gives the degenerate circle. */
  function CalcPropRadius(value: Value): (r: Radius)
    ensures r.CircleOfArea? <==> value.Num?
    ensures value.Num? ==> r.area == ScaledArea(value.n)
    ensures value == Num(0) <==> r == CircleOfArea(0)
  {
    match value
    case Num(n) => CircleOfArea(ScaledArea(n))
    case Text(s) => CircleOfText(s)
  }

  /** The popup `updatePropSymbols` binds for `attribute`. */
  function PopupFor(props: Properties, attribute: string, value: Value): (r: Popup)
    ensures r.count == value
    ensures r.state.Some? <==> HasKey(props, "STATE_NAME")
    ensures r.year.Some? <==> YearToken.Separator in attribute
  {
    Popup(Lookup(props, "STATE_NAME"), YearToken.Token(attribute), value)
  }

  /** The guard `layer.feature && layer.feature.properties[attribute]`. */
  predicate Selected(layer: Layer, attribute: string)
    ensures Selected(layer, attribute) <==>
              HasValue(layer, attribute) &&
              Lookup(layer.feature.value.props, attribute).value != Num(0) &&
              Lookup(layer.feature.value.props, attribute).value != Text("")
  {
    layer.feature.Some? && Truthy(Lookup(layer.feature.value.props, attribute))
  }

  /** One layer after `updatePropSymbols(map, attribute)`, as written. */
  function UpdateLayer(layer: Layer, attribute: string): (r: Layer)
    ensures r.feature == layer.feature
    ensures !Selected(layer, attribute) ==> r == layer
    ensures Selected(layer, attribute) ==>
              var props := layer.feature.value.props;
              var value := Lookup(props, attribute).value;
              r.radius == CalcPropRadius(value) && r.popup == Some(PopupFor(props, attribute, value))
  {
    if Selected(layer, attribute) then
      var props := layer.feature.value.props;
      var value := Lookup(props, attribute).value;
      layer.(radius := CalcPropRadius(value)).(popup := Some(PopupFor(props, attribute, value)))
    else
      layer
  }

  /** Every layer of the map after one `updatePropSymbols` pass. */
  function UpdatedLayers(layers: seq<Layer>, attribute: string): (r: seq<Layer>)
    ensures |r| == |layers|
  {
    seq(|layers|, k requires 0 <= k < |layers| => UpdateLayer(layers[k], attribute))
  }

  /** Redrawing twice for the same attribute is the same as redrawing once. */
  lemma UpdatedLayersIdempotent(layers: seq<Layer>, attribute: string)
    ensures UpdatedLayers(UpdatedLayers(layers, attribute), attribute) == UpdatedLayers(layers, attribute)
  {
  }

  /** A selected layer ends up the same whatever was drawn on it before:
      only its feature matters. */
  lemma SelectedIgnoresHistory(layer: Layer, earlier: Layer, attribute: string)
    requires Selected(layer, attribute) && earlier.feature == layer.feature
    ensures UpdateLayer(earlier, attribute) == UpdateLayer(layer, attribute)
  {
  }

  /** One layer after `updatePropSymbols` has run for each attribute of
      `attributes` in turn (a run of slider moves or button clicks). */
  function RenderAll(layer: Layer, attributes: seq<string>): (r: Layer)
    ensures r.feature == layer.feature
    decreases |attributes|
  {
    if attributes == [] then layer else RenderAll(UpdateLayer(layer, attributes[0]), attributes[1..])
  }

  /** After any run of redraws, a layer selected by the last attribute shows
      exactly what a single redraw for that attribute shows. */
  lemma {:induction false} RenderAllSelectedLast(layer: Layer, attributes: seq<string>)
    requires |attributes| >= 1 && Selected(layer, attributes[|attributes| - 1])
    ensures RenderAll(layer, attributes) == UpdateLayer(layer, attributes[|attributes| - 1])
    decreases |attributes|
  {
    var next := UpdateLayer(layer, attributes[0]);
    if |attributes| == 1 {
      assert RenderAll(next, []) == next;
    } else {
      var rest := attributes[1..];
      assert rest[|rest| - 1] == attributes[|attributes| - 1];
      RenderAllSelectedLast(next, rest);
      SelectedIgnoresHistory(layer, next, rest[|rest| - 1]);
    }
  }

  /** A marker for a state whose count is 0 in the "YR13" field and 5 in
      the "YR19" field, as created for the first year. */
  function ZeroYearMarker(): Layer
  {
    var props := [Entry("STATE_NAME", Text("Kansas")), Entry("MAY_YR13", Num(0)), Entry("MAY_YR19", Num(5))];
    Layer(Some(Feature(props)), CalcPropRadius(Num(0)), None)
  }

  /** As written, stepping to the last year and back to the first leaves the
      marker with the last year's radius: the truthiness guard skips the
      value 0, so its earlier symbol stays. */
  lemma ZeroCountKeepsStaleRadius()
    ensures RenderAll(ZeroYearMarker(), ["MAY_YR19", "MAY_YR13"]).radius == CircleOfArea(100)
    ensures RenderAll(ZeroYearMarker(), ["MAY_YR19", "MAY_YR13"]).radius != CalcPropRadius(Num(0))
  {
    var m := ZeroYearMarker();
    var props := m.feature.value.props;
    assert Lookup(props, "MAY_YR19") == Some(Num(5));
    assert Lookup(props, "MAY_YR13") == Some(Num(0));
    var once := UpdateLayer(m, "MAY_YR19");
    assert once.radius == CircleOfArea(100);
    assert RenderAll(m, ["MAY_YR19", "MAY_YR13"]) == RenderAll(once, ["MAY_YR13"]);
    assert ["MAY_YR19", "MAY_YR13"][1..] == ["MAY_YR13"];
    assert RenderAll(once, ["MAY_YR13"]) == RenderAll(UpdateLayer(once, "MAY_YR13"), []);
  }

  /** The evidently intended guard: redraw every marker whose feature has a
      value for the attribute, zero included. */
  predicate HasValue(layer: Layer, attribute: string)
  {
    layer.feature.Some? && Lookup(layer.feature.value.props, attribute).Some?
  }

  /** One layer after the intended redraw. */
  function UpdateLayerIntended(layer: Layer, attribute: string): (r: Layer)
    ensures r.feature == layer.feature
    ensures !HasValue(layer, attribute) ==> r == layer
    ensures HasValue(layer, attribute) ==>
              var props := layer.feature.value.props;
              var value := Lookup(props, attribute).value;
              r.radius == CalcPropRadius(value) && r.popup == Some(PopupFor(props, attribute, value))
  {
    if HasValue(layer, attribute) then
      var props := layer.feature.value.props;
      var value := Lookup(props, attribute).value;
      layer.(radius := CalcPropRadius(value)).(popup := Some(PopupFor(props, attribute, value)))
    else
      layer
  }

  /** One layer after the intended redraw for each attribute in turn. */
  function RenderAllIntended(layer: Layer, attributes: seq<string>): (r: Layer)
    ensures r.feature == layer.feature
    decreases |attributes|
  {
    if attributes == [] then layer
    else RenderAllIntended(UpdateLayerIntended(layer, attributes[0]), attributes[1..])
  }

  /** With the intended guard, a layer that has a value ends up the same
      whatever was drawn on it before. */
  lemma IntendedIgnoresHistory(layer: Layer, earlier: Layer, attribute: string)
    requires HasValue(layer, attribute) && earlier.feature == layer.feature
    ensures UpdateLayerIntended(earlier, attribute) == UpdateLayerIntended(layer, attribute)
  {
  }

  /** With the intended guard, after any run of redraws a marker whose
      feature has a value for the last attribute shows exactly what a single
      redraw for that attribute shows, zero included: that value's radius
      and popup, whatever the earlier attributes were. */
  lemma {:induction false} RenderAllIntendedLast(layer: Layer, attributes: seq<string>)
    requires |attributes| >= 1 && HasValue(layer, attributes[|attributes| - 1])
    ensures RenderAllIntended(layer, attributes) == UpdateLayerIntended(layer, attributes[|attributes| - 1])
    ensures RenderAllIntended(layer, attributes).radius ==
            CalcPropRadius(Lookup(layer.feature.value.props, attributes[|attributes| - 1]).value)
    decreases |attributes|
  {
    var next := UpdateLayerIntended(layer, attributes[0]);
    if |attributes| == 1 {
      assert RenderAllIntended(next, []) == next;
    } else {
      var rest := attributes[1..];
      assert rest[|rest| - 1] == attributes[|attributes| - 1];
      RenderAllIntendedLast(next, rest);
      IntendedIgnoresHistory(layer, next, rest[|rest| - 1]);
    }
  }

  /** With the intended guard the marker of `ZeroYearMarker` is back to its
      first-year radius, and its popup shows the count 0, after stepping to
      the last year and back. */
  lemma ZeroCountRestoredIntended()
    ensures RenderAllIntended(ZeroYearMarker(), ["MAY_YR19", "MAY_YR13"]).radius == CalcPropRadius(Num(0))
    ensures RenderAllIntended(ZeroYearMarker(), ["MAY_YR19", "MAY_YR13"]).popup.value.count == Num(0)
  {
    var m := ZeroYearMarker();
    assert Lookup(m.feature.value.props, "MAY_YR13") == Some(Num(0));
    RenderAllIntendedLast(m, ["MAY_YR19", "MAY_YR13"]);
  }
}

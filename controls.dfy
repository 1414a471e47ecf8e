/** The sequence controls of `createSequenceControls` (js/main.js) and the
    page state their handlers change: the range slider's value, the text of
    the `#year` label and the layers on the map, which `updatePropSymbols`
    redraws in place. */
module Controls {
  import opened Props
  import Sequence
  import YearLabel
  import Symbols

  /** Range slider attributes set by `createSequenceControls`. */
  const SliderMin: int := 0
  const SliderMax: int := 6
  const SliderStep: int := 1

  class MapPage {
    /** The year attributes found by `processData`, one per slider position. */
    const attributes: seq<string>
    /** The map's layers, in the order `map.eachLayer` visits them. */
    const layers: array<Symbols.Layer>
    /** Value of the range slider, which is the selected index. */
    var slider: int
    /** Text of the `#year` label. */
    var yearLabel: string

    /** The handlers' standing assumptions: the script hard-codes seven
        positions, and the slider holds a value its bounds and step allow. */
    ghost predicate Valid()
      reads this
    {
      |attributes| == SliderMax + 1 &&
      SliderMin <= slider <= SliderMax && (slider - SliderMin) % SliderStep == 0
    }

    /** `createSequenceControls`: the slider starts at position 0. Markers
        come from the map as it stands and the label keeps its text. */
    constructor (attributes: seq<string>, layers: array<Symbols.Layer>, yearLabel: string)
      requires |attributes| == SliderMax + 1
      ensures Valid()
      ensures this.attributes == attributes && this.layers == layers
      ensures slider == 0 && this.yearLabel == yearLabel
    {
      this.attributes := attributes;
      this.layers := layers;
      this.slider := 0;
      this.yearLabel := yearLabel;
    }

    /** `updatePropSymbols(map, attribute)`: visits every layer, redraws the
        selected ones in place, and leaves the label as it was (the inner
        `updateYear()` call passes no index). */
    method UpdatePropSymbols(attribute: string)
      modifies this`yearLabel, layers
      ensures layers[..] == Symbols.UpdatedLayers(old(layers[..]), attribute)
      ensures yearLabel == old(yearLabel)
    {
      for i := 0 to layers.Length
        invariant forall k :: 0 <= k < i ==> layers[k] == Symbols.UpdateLayer(old(layers[k]), attribute)
        invariant forall k :: i <= k < layers.Length ==> layers[k] == old(layers[k])
        invariant yearLabel == old(yearLabel)
      {
        var layer := layers[i];
        if layer.feature.Some? && Truthy(Lookup(layer.feature.value.props, attribute)) {
          var props := layer.feature.value.props;
          var value := Lookup(props, attribute).value;
          var radius := Symbols.CalcPropRadius(value);
          layers[i] := layers[i].(radius := radius);
          var popup := Symbols.PopupFor(props, attribute, value);
          layers[i] := layers[i].(popup := Some(popup));
          yearLabel := YearLabel.UpdateYear(yearLabel, None);
        }
      }
    }

    /** Click handler of the `.skip` buttons: read the slider, step in the
        button's direction with wrap-around, write the slider back, redraw
        for the new year and show its label. */
    method Skip(id: string)
      requires Valid()
      modifies this, layers
      ensures Valid()
      ensures slider == Sequence.NextIndex(id, old(slider))
      ensures layers[..] == Symbols.UpdatedLayers(old(layers[..]), attributes[slider])
      ensures Some(yearLabel) == YearLabel.YearText(slider)
    {
      var index := Sequence.NextIndex(id, slider);
      slider := index;
      UpdatePropSymbols(attributes[index]);
      yearLabel := YearLabel.UpdateYear(yearLabel, Some(index));
    }

    /** Input handler of the range slider after the user moves it to
        `value`; the control itself keeps `value` within its bounds. */
    method Slide(value: int)
      requires Valid()
      requires SliderMin <= value <= SliderMax
      modifies this, layers
      ensures Valid()
      ensures slider == value
      ensures layers[..] == Symbols.UpdatedLayers(old(layers[..]), attributes[value])
      ensures Some(yearLabel) == YearLabel.YearText(value)
    {
      slider := value;
      UpdatePropSymbols(attributes[value]);
      yearLabel := YearLabel.UpdateYear(yearLabel, Some(value));
    }
  }
}

# Tornado map: a verified model of the sequence and symbol logic

The map script `js/main.js` draws proportional circle symbols for May
tornado counts per US state, 2013 to 2019, and lets the user step through
the years with a range slider and forward/reverse buttons. Most of the
script hands work to the mapping and DOM libraries. This project models the
part that holds logic of its own:

- `processData`: the year attributes are the property names of the first
  point feature that contain `"YR"`, in the order the property bag lists
  them (module `Attributes`, with `indexOf` as `IndexOf`);
- the `.skip` button handler and the slider bounds of
  `createSequenceControls`: a seven-position index that wraps 6 → 0 going
  forward and 0 → 6 going back (module `Sequence`, class
  `Controls.MapPage`);
- `updateYear`: the lookup table from positions 0..6 to the years
  "2013".."2019", which ignores any other argument, including the
  argument-less call inside the redraw loop (module `YearLabel`);
- `attribute.split("_")[1]`: the year token shown in popups (module
  `YearToken`);
- `updatePropSymbols`: a pass over the map's layers that redraws, in place,
  only the layers whose feature has a truthy value for the selected
  attribute (module `Symbols` for the per-layer rule,
  `Controls.MapPage.UpdatePropSymbols` for the loop over an array).

Property bags are lists of named values (`Props.Properties`) in iteration
order; a missing name reads as `None`, JavaScript's `undefined`. Like every
JavaScript object, a feature's bag never repeats a name (`Props.DistinctKeys`),
and `Attributes.ProcessData` takes that as given of its input. The page
state the handlers change is one object, `Controls.MapPage`: the slider's
value, the `#year` label's text and the array of map layers.

The script hard-codes the bound 6 in the step handler and the slider. The
model keeps the literal and takes seven attributes as the standing
assumption of `Controls.MapPage` (`Valid`), without deriving the bound from
the attribute count.

## Model

| member | source | states |
|---|---|---|
| `Props.Truthy` | js/main.js:197 | a looked-up value is truthy exactly when it is present and is neither the number 0 nor the empty string |
| `Props.Lookup` | js/main.js:197-202 | `props[key]` is `undefined` exactly when no entry has that name; otherwise it is the value of the first entry with that name |
| `Attributes.IndexOf` | js/main.js:186 | `indexOf` gives -1 exactly when the pattern is not a substring, and otherwise the first position where it occurs |
| `Attributes.ProcessData` | js/main.js:181-192 | the result depends on the first feature only and equals the in-order list of its property names containing "YR", with no name twice; with no features the script fails (`None`) |
| `Attributes.YearAttributesMembers` | js/main.js:184-188 | a name is extracted if and only if it contains "YR" and is a property name of the bag |
| `Attributes.YearAttributesAppend` | js/main.js:185-188 | extraction distributes over concatenation of bags, so the result keeps the bag's order |
| `Attributes.YearAttributesSingle` | js/main.js:186-187 | one entry contributes its name exactly when the name contains "YR" |
| `Attributes.YearAttributesEmpty` | js/main.js:182-191 | the result is empty if and only if no property name contains "YR" |
| `Attributes.YearAttributesDistinct` | js/main.js:185-188 | a bag without repeated names yields each year attribute at most once |
| `Attributes.YearAttributesLength` | js/main.js:185-188 | the result has at most as many names as the bag has entries |
| `Sequence.StepForward` | js/main.js:250-252 | forward from a position in 0..6 lands in 0..6 and equals (index + 1) mod 7 |
| `Sequence.StepReverse` | js/main.js:253-256 | reverse from a position in 0..6 lands in 0..6 and equals (index - 1) mod 7 |
| `Sequence.NextIndex` | js/main.js:248-257 | a click on any `.skip` button keeps the index within 0..6 |
| `Sequence.ForwardThenReverse` | js/main.js:250-256 | forward then reverse returns to the starting position |
| `Sequence.ReverseThenForward` | js/main.js:250-256 | reverse then forward returns to the starting position |
| `Sequence.StepForwardModulo` | js/main.js:250-252 | a forward step taken from x mod 7 lands on (x + 1) mod 7, for every integer x |
| `Sequence.StepReverseModulo` | js/main.js:253-256 | a reverse step taken from x mod 7 lands on (x - 1) mod 7, for every integer x |
| `Sequence.ForwardStepsModulo` | js/main.js:250-252 | n forward clicks move the index to (index + n) mod 7 |
| `Sequence.ReverseStepsModulo` | js/main.js:253-256 | n reverse clicks move the index to (index - n) mod 7 |
| `Sequence.FullCycle` | js/main.js:248-262 | seven forward clicks, or seven reverse clicks, return to the starting position |
| `YearLabel.YearText` | js/main.js:266-281 | the table has an entry exactly for positions 0..6, each a four-character year starting "201" (`YearTextIsYear` gives the exact year) |
| `YearLabel.UpdateYear` | js/main.js:266-282 | positions 0..6 set the label to their table entry; any other argument, and the argument-less call at js/main.js:217, leaves the label unchanged |
| `YearLabel.YearTextIsYear` | js/main.js:266-281 | the table is defined exactly on 0..6 and position i shows the decimal year 2013 + i |
| `YearLabel.YearTextInjective` | js/main.js:266-281 | different positions show different years |
| `YearToken.Split` | js/main.js:209 | `split` returns at least one piece, no piece contains the separator, and there is exactly one piece when the string has no separator |
| `YearToken.Token` | js/main.js:209 | `split("_")[1]` is defined exactly when the name contains `_`, and holds no `_`; `YearTokenOfName` and `NoSeparatorNoToken` pin down its value for every name |
| `YearToken.JoinSplit` | js/main.js:209 | joining the pieces of a split with the separator restores the string |
| `YearToken.SplitWithoutSeparator` | js/main.js:209 | a string without the separator splits into itself alone |
| `YearToken.SplitAtFirst` | js/main.js:209 | splitting peels off the piece before the first separator |
| `YearToken.SplitJoin` | js/main.js:209 | splitting a join of separator-free pieces gives back the pieces |
| `YearToken.YearTokenOfName` | js/main.js:149 | for a name `prefix_token` (possibly followed by `_more`) the popup year is `token` |
| `YearToken.NoSeparatorNoToken` | js/main.js:209 | a name without `_` has no second field (`undefined`) |
| `Symbols.ScaledArea` | js/main.js:113-115 | the area step `value * 20` is zero exactly for value 0 and positive for positive values |
| `Symbols.AreaMonotone` | js/main.js:113-115 | a larger count gives a strictly larger symbol area |
| `Symbols.CalcPropRadius` | js/main.js:111-119 | a number gives the circle of area value * 20, and the degenerate circle exactly for 0; a string gives a coerced radius |
| `Symbols.PopupFor` | js/main.js:205-210 | the popup shows the selected value, a state name exactly when the feature has `STATE_NAME`, and a year exactly when the attribute name contains `_` |
| `Symbols.Selected` | js/main.js:197 | a layer is redrawn exactly when it has a feature with a value for the attribute and that value is neither 0 nor the empty string |
| `Symbols.UpdateLayer` | js/main.js:197-215 | a layer without a feature, or whose value for the attribute is missing or falsy, is left exactly as it was; otherwise only its radius and popup change, to `calcPropRadius(value)` and the popup for state, year token and value |
| `Symbols.UpdatedLayers` | js/main.js:196-219 | a redraw pass keeps the number of layers |
| `Symbols.UpdatedLayersIdempotent` | js/main.js:196-219 | redrawing twice for the same attribute equals redrawing once |
| `Symbols.SelectedIgnoresHistory` | js/main.js:197-215 | a redrawn layer's new state depends only on its feature, not on what it showed before |
| `Symbols.RenderAll` | js/main.js:243-244 | a run of redraws never changes a layer's feature |
| `Symbols.RenderAllSelectedLast` | js/main.js:259-260 | after any run of redraws, a layer selected by the last attribute shows what a single redraw for it shows |
| `Symbols.ZeroCountKeepsStaleRadius` | js/main.js:197 | as written, a marker whose first-year count is 0 keeps the last year's radius after stepping to the last year and back |
| `Symbols.UpdateLayerIntended` | js/main.js:137-140 | the intended redraw changes nothing on a layer without a value for the attribute and never changes the feature; a layer with a value, zero included, gets `calcPropRadius(value)` and the popup for state, year token and value |
| `Symbols.IntendedIgnoresHistory` | js/main.js:197-215 | with the intended guard, a layer with a value ends up the same whatever it showed before |
| `Symbols.RenderAllIntended` | js/main.js:243-244 | a run of intended redraws never changes a layer's feature |
| `Symbols.RenderAllIntendedLast` | js/main.js:197-203 | with the intended guard, after any run of redraws a marker with a value for the last attribute equals a single redraw for it: that value's radius and popup, zero included |
| `Symbols.ZeroCountRestoredIntended` | js/main.js:197-203 | with the intended guard, the zero-count marker is back to its first-year radius, and its popup shows 0, after stepping to the last year and back |
| `Controls.MapPage.constructor` | js/main.js:232-237 | the slider starts at 0, a value its bounds 0..6 and step 1 allow, and seven attributes are held |
| `Controls.MapPage.UpdatePropSymbols` | js/main.js:195-220 | the layer array afterwards is the per-layer redraw of the array before, and the year label is unchanged |
| `Controls.MapPage.Skip` | js/main.js:248-262 | the slider becomes the stepped index and stays in 0..6, the layers are redrawn for `attributes[index]`, the label shows that index's year |
| `Controls.MapPage.Slide` | js/main.js:240-245 | the layers are redrawn for the slider's attribute and the label shows its year |

## Findings

| source | as written | input that shows it | evidently intended | confidence | as-written member | corrected member |
|---|---|---|---|---|---|---|
| js/main.js:197 | the guard `layer.feature.properties[attribute]` tests truthiness, so a count of 0 skips the layer and it keeps the previous year's radius and popup | a state with 0 tornadoes in the first year and 5 in the last: step to the last year, then forward to the first; the marker keeps radius sqrt(100/pi) instead of 0 | redraw every marker whose feature has a value for the attribute, as the create path at js/main.js:137-140 does for the first year | high (not executed) | `Symbols.ZeroCountKeepsStaleRadius` | `Symbols.RenderAllIntendedLast` |

`Controls.MapPage` follows the guard as written, so that its handlers
describe the page as it behaves; `Symbols.UpdateLayerIntended` is the
corrected rule, and `Symbols.RenderAllIntendedLast` proves that with it a
marker's radius and popup depend only on the last selected year.

## Left out

- Map construction, the tile layer, bounds and zoom, the zoom-home control, the layer toggle and the search control (js/main.js:4-41, 56-95): calls into the mapping library and its plugins, not part of this model.
- The asynchronous fetch of the point data and its success callback (js/main.js:44-54): network I/O; `Attributes.ProcessData` takes the list of features as a parameter.
- Creating the slider and buttons and binding their events with jQuery (js/main.js:225-245, 248): DOM work; the handlers are the methods `Skip` and `Slide`, and the slider value and label text are fields.
- The `<h4>` markup written into `#year` and all popup HTML (js/main.js:146-150, 206-210, 268-280): the label is its year text and a popup is the record of state, year token and value.
- `calcPropRadius`'s square root and division by pi (js/main.js:117): floating point; a radius is kept as the area `value * 20` it is computed from.
- Symbols.CalcPropRadius: a string value is kept as `CircleOfText(s)` instead of being coerced to a number; numbers are integers, so fractional values and NaN are not modelled.
- The create path `pointToLayer` / `createPropSymbols` (js/main.js:122-178) and the hover popups: the markers on the map are the array given to the `Controls.MapPage` constructor.
- `pointsOnEachFeature` (js/main.js:99-109), which nothing calls, and the commented-out `addPolygonData` (js/main.js:286-306).
- JavaScript's string value of the slider and its coercion by `++`, `--` and `==` (js/main.js:249-256): the index is an integer.
- Controls.MapPage.Slide: requires the new value within 0..6, which the range control itself guarantees; the browser's clamping of out-of-range values is not modelled.
- The order in which `for ... in` visits integer-like property names: the property bag is given already in visiting order.
- A layer that passes the guard but has no `setRadius` (a polygon layer whose feature had a truthy value) would throw; every layer in the model has a radius.
- Console logging.
- The assignment `i = 0` at js/main.js:183 creates an implicit global; the model reads `features[0]` directly and has no such global.
- `indexOf` positions in JavaScript count UTF-16 code units, while `Attributes.IndexOf` counts characters; only the test `> -1` is read, which both agree on.

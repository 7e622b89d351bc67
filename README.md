# Feature inspector of a small OpenLayers map viewer

The viewer (`script.js`) shows a base map, a county boundary layer (`layer1`)
and a choropleth data layer (`layer2`). Clicking the map inspects the feature
under the pointer. The feature's attributes are written into an info panel as
an escaped HTML table. A copy of the feature is shown in a highlight layer.
A clear button resets the panel and the highlight.

This project models that inspector core in Dafny:

- `html_escape.dfy` (module `HtmlEscape`): `escapeHtml` (script.js:99-101).
  `EscapeChar` is the replacement table of line 100, and `Escape` applies it
  to every character. The decoder `Unescape` is its partner.
- `features.dfy` (module `Features`): attribute values and features.
  `Stringify` is the value-to-text rule of script.js:92. `CloneFeature`,
  `SetId` and `HighlightCopy` are the clone-then-`setId` steps of
  script.js:106-108.
- `feature_info.dfy` (module `FeatureInfo`): `renderFeatureInfo`
  (script.js:83-97) as the HTML string it produces:
  - `Shown` is the filter predicate of line 90, and `Kept` applies it to the
    bag in key order (lines 89-90).
  - `Row` is the template of line 93, and `JoinRows` is the map and
    `join('')` of lines 91-95.
  - `FeatureInfoHtml` is the whole function. `EmptyStateHtml` and
    `NoAttributesHtml` are the markers of lines 85 and 96.
  - Its partner `ReadDisplay` reads the HTML back into a display outcome:
    empty state, no attributes, or a table of (key, text) rows.
- `choropleth.dfy` (module `Choropleth`): the fill rule of `layer2`'s style
  function (script.js:33-43). `RateOrZero` is `Number(...) || 0` (line 35),
  and `FillFor` is the green default with its two overrides (lines 36-38).
- `inspector.dfy` (module `Inspector`): the stateful part.
  - `Inspectable` is the layer test of script.js:123. `FirstHit` is the
    first-hit rule of lines 119-129, and `Pick` is the scan as a loop.
  - The highlight source (script.js:62) is the class `VectorSource`.
  - The page's two display elements and the handlers are the class `Page`.
    `ClearedLonLat` is the text set at line 138.

Modelling choices:

- A property bag is an ordered `seq<(string, Value)>`, in the order of
  `Object.keys(feature.getProperties())`. The geometry is the entry named
  `geometry`.
- A number value carries its text `String(n)`, and an object value carries
  `JSON.stringify(v)`. The host computes both, so the model takes them as data.
- The map library's hit test is an input: the ordered sequence of
  (feature, layer) hits that `forEachFeatureAtPixel` reports.
- The projection and `toFixed(5)` formatting of the clicked coordinate is a
  function parameter. The model states only that nothing changes without a
  coordinate.
- The code keeps no separate "selection" variable. The page state is the two
  display elements plus the highlight source, and the model follows the code.
- Line 138 of `script.js` sets the lon/lat text to the characters `â€”`.
  This looks like a double-encoded em dash. `ClearedLonLat` keeps the three
  characters exactly as the file has them.

## Model

| member | source | states |
|---|---|---|
| `HtmlEscape.EscapeConcat` | script.js:99-101 | escaping distributes over concatenation: `Escape(a + b) == Escape(a) + Escape(b)` |
| `HtmlEscape.EscapeFixpoint` | script.js:100 | a string comes back unchanged if and only if it contains none of `& < > " '` |
| `HtmlEscape.EscapeLength` | script.js:100 | escaping never shortens a string, and it strictly lengthens any string that holds a special character |
| `HtmlEscape.EscapeSafe` | script.js:100 | the output has no `<`, `>`, `"` or `'`, and every `&` in it starts one of `&amp; &lt; &gt; &quot; &#39;` |
| `HtmlEscape.EscapeNoLessThan` | script.js:100 | escaped text contains no `<`, so it can neither open nor close a tag |
| `HtmlEscape.EscapeCharSafe` | script.js:100 | each single-character replacement is itself safe |
| `HtmlEscape.UnescapeEscape` | script.js:100 | decoding the five references recovers the original string |
| `HtmlEscape.EscapeInjective` | script.js:100 | two strings that escape to the same text are equal |
| `HtmlEscape.EscapeExampleGt` | script.js:100 | `5 > 3` escapes to `5 &gt; 3` |
| `HtmlEscape.EscapeExampleApos` | script.js:100 | `O'Brien` escapes to `O&#39;Brien` |
| `Features.HighlightCopyPreserves` | script.js:106-108 | cloning drops the identifier and `setId` restores it, so the highlight copy has the source's identifier (or none) and the same properties |
| `FeatureInfo.KeptConcat` | script.js:89-90 | the attribute filter keeps key order, because it distributes over concatenation |
| `FeatureInfo.KeptSingle` | script.js:90 | a single entry is kept exactly when its key is not `geometry` and its value is neither null nor undefined |
| `FeatureInfo.KeptMembers` | script.js:90 | the kept entries are exactly the bag's entries that pass the filter |
| `FeatureInfo.Cells` | script.js:92-93 | one (key, text) cell per entry, in order, where the text is the stringified value |
| `FeatureInfo.ReadRow` | script.js:93 | a rendered row starts with `<tr><th>`, and the escaped key that follows it ends exactly where the `</th><td>` of the template begins |
| `FeatureInfo.JoinRowsEmpty` | script.js:91-96 | the joined rows are empty exactly when no entry passes the filter |
| `FeatureInfo.ReadJoinRows` | script.js:91-95 | the joined rows read back to one (key, text) pair per kept entry, in order, whatever the attributes contain |
| `FeatureInfo.TableIsNotAMarker` | script.js:84-96 | a table is never mistaken for either empty-state marker |
| `FeatureInfo.RenderedDisplay` | script.js:83-97 | no feature gives the empty-state marker; no kept attributes give the "No attributes to display." marker; otherwise a table of exactly the kept keys and values in key order; the three outcomes are distinct |
| `FeatureInfo.RenderInjective` | script.js:88-96 | two features that render to the same HTML have the same kept keys and texts |
| `FeatureInfo.CookExample` | script.js:88-96 | `{name: "Cook", unemployment_rate: 6.2, geometry}` renders as rows for `name` and `unemployment_rate` only, in that order |
| `Choropleth.FillFor` | script.js:36-38 | green if rate ≤ 5, yellow if 5 < rate ≤ 10, red if rate > 10 |
| `Choropleth.StyleFill` | script.js:33-43 | a missing or non-numeric rate is green; otherwise the thresholds 5 and 10 decide |
| `Choropleth.FillMonotone` | script.js:36-38 | the bucket never decreases as the rate increases |
| `Inspector.FirstHitSpec` | script.js:119-129 | with no hit in layer1 or layer2 the pick is null; otherwise it is the feature of the earliest such hit, and hits in other layers (including the highlight layer) are skipped |
| `Inspector.Pick` | script.js:119-129 | the early-exit scan returns exactly `FirstHit` of the hit sequence |
| `Inspector.VectorSource.constructor` | script.js:62 | a new source holds no features |
| `Inspector.VectorSource.Clear` | script.js:104 | a cleared source holds no features |
| `Inspector.VectorSource.AddFeature` | script.js:109 | adding appends the feature |
| `Inspector.Page.constructor` | script.js:62-75 | the page starts with an empty highlight source |
| `Inspector.Page.RenderLonLat` | script.js:77-81 | without a coordinate the lon/lat text is unchanged; otherwise it is set to the formatted coordinate |
| `Inspector.Page.RenderFeatureInfo` | script.js:83-97 | the info panel is set to the rendered HTML and nothing else changes |
| `Inspector.Page.HighlightFeature` | script.js:103-110 | afterwards the highlight source holds exactly the copy of the feature, or nothing when there is no feature |
| `Inspector.Page.OnSingleClick` | script.js:118-134 | the panel shows the first inspectable hit, the highlight holds its copy (or nothing), and the lon/lat text follows the coordinate |
| `Inspector.Page.OnClear` | script.js:136-142 | sets the lon/lat text to the file's dash, the panel to the empty-state marker, and empties the highlight; the result does not depend on the prior state |
| `Inspector.ClearTwice` | script.js:136-142 | clearing twice gives the same state as clearing once |
| `Inspector.HighlightTwice` | script.js:103-110 | a highlight followed by a second highlight leaves exactly one feature, equal to the second one |
| `Inspector.ClickOnNothing` | script.js:118-134 | a click with no inspectable hit shows the empty-state marker and empties the highlight |

## Left out

- Map, view, tile and vector-layer construction, and GeoJSON loading (script.js:1-32, 44-48, 62-70): library object setup with no logic of their own.
- Checkbox visibility wiring (script.js:51-59) and the pointermove cursor toggle (script.js:113-116): DOM event plumbing.
- The hit-testing geometry of `forEachFeatureAtPixel` and its 3-pixel `hitTolerance`: library code. The model takes the reported hit sequence as its input.
- `Inspector.Page.RenderLonLat`: does not model the EPSG:3857 to WGS84 projection or `toFixed(5)` formatting, because both are floating-point library code. They are a function parameter.
- The internals of `String(...)`, `JSON.stringify(...)` and `Number(...)`. The first two are carried as text inside `Value`. The third is the `Option<real>` argument of `StyleFill`, where `None` stands for NaN.
- `Choropleth.StyleFill`: rates are Dafny reals, so infinities and other IEEE 754 details of JavaScript numbers are not modelled.
- Colour and stroke values: only the choice of bucket is modelled.
- Object identity and aliasing of the cloned feature: features are values here, so the copy can never share state with the original by construction.
- `JSON.stringify` can throw (on a cyclic value or a BigInt) or return `undefined` (when a `toJSON` method returns it). `escapeHtml` would then throw at line 93, and the click handler would stop after updating the lon/lat text. `Obj(json: string)` assumes neither happens.
- Feature identifiers may be strings or numbers in the library; the model keeps only string identifiers (`Option<string>`).
- JavaScript strings are sequences of UTF-16 code units; a lone surrogate has no Dafny `char`, so such strings are not modelled.

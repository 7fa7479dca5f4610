# Earthquake map: depth colours, legend and marker style

The repository is one browser script that draws a week of earthquakes and the
tectonic plate boundaries on a Leaflet map. Almost all of it is calls into the
mapping and fetching libraries. This project models the three pieces of pure
logic in it and proves their properties:

- the depth classifier `getColor`, which maps a hypocentre depth in km to one
  of six colours, with strict thresholds at 90, 70, 50, 30 and 10 km
  (`DepthColor`);
- the legend loop, which walks the grades `[-10, 10, 30, 50, 70, 90]` and emits
  one swatch and one range label per grade (`Legend`, with `Decimal` for the
  number-to-text conversion the label concatenation performs);
- the marker style `pointToLayer` gives each earthquake feature (`Marker`).

`DepthColor.DepthBucket` is an independent reference definition of the bucket:
it counts how many cut-offs lie strictly below the depth. The classifier is
proved to return the colour of that bucket. The legend's swatches are proved to
agree with the classifier on every depth in their ranges. Every marker's colour
is proved to appear in the legend.

Modelling choices:

- Depths and magnitudes are mathematical reals, and grades are integers.
- The legend's `grades[i + 1] ? … : '+'` test is JavaScript truthiness. An
  index past the end reads `undefined`, and `0` is falsy too. `Legend.BuildLegend`
  works for any grade array and states this exactly: an entry is open-ended when
  it is the last one or when the next grade is 0. With the fixed grades, only
  the last entry (`90+`) is open-ended.
- A feature whose coordinates have no third component reads `undefined` as the
  depth. Every `>` comparison against `undefined` is false, so the classifier
  falls through to the shallowest colour `#98ee00`. `Marker.FillColor` models
  this with an `Option`.
- Legend entries are structured values (swatch, low, optional high). The
  label text after the swatch is modelled too, and it parses back to the range.
  The surrounding `<i style=…>` markup is not modelled.

## Model

| member | source | states |
|---|---|---|
| DepthColor.GetColor | static/js/logic.js:51-58 | total; the result is one of the six palette colours; each colour is returned exactly on its depth range: above 90, (70, 90], (50, 70], (30, 50], (10, 30], and at most 10 including negative depths |
| DepthColor.DepthBucketRange | static/js/logic.js:52-57 | the reference bucket of a depth is k exactly when the depth lies in the k-th half-open range between consecutive cut-offs |
| DepthColor.GetColorIsBucketColor | static/js/logic.js:51-58 | the classifier returns the palette colour of the bucket given by counting the cut-offs strictly below the depth |
| DepthColor.CutoffTakesShallowerColor | static/js/logic.js:52-56 | a depth exactly on a cut-off gets the shallower bucket's colour (so 90 gives `#ea822c` and 10 gives `#98ee00`), and any depth just above it gets the next colour |
| DepthColor.CutoffsBelowMonotone | static/js/logic.js:52-57 | the number of cut-offs a depth exceeds never decreases as the depth grows |
| DepthColor.GetColorMonotone | static/js/logic.js:52-57 | if d1 <= d2, the bucket index of the colour of d1 is at most that of d2 |
| Decimal.IntToDecimal | static/js/logic.js:70 | the text of a grade is non-empty, starts with '-' exactly for negative numbers, is otherwise all digits without leading zeros (zero itself is "0"), and never contains '&' |
| Decimal.IntRoundTrip | static/js/logic.js:70 | reading the text of a number back gives the number |
| Legend.BuildLegend | static/js/logic.js:68-71 | for any grade array: one entry per grade in the same order, with swatch `getColor(grades[i] + 1)` and low bound `grades[i]`; the entry is open-ended exactly when the next grade is missing or 0, and otherwise its high bound is the next grade |
| Legend.Label | static/js/logic.js:70 | a label ends in '+' exactly when its entry is open-ended, and ends in a line break exactly when the entry has an upper bound |
| Legend.LabelRoundTrip | static/js/logic.js:70 | parsing a label gives back the entry's low and high bounds, so the labels are unambiguous |
| Legend.LegendShape | static/js/logic.js:65-70 | with the fixed grades, entry i starts at grade i; only the last entry is open-ended, and every other one ends at the next grade |
| Legend.LegendLabel | static/js/logic.js:70 | with the fixed grades, every label but the last is "low&ndash;high<br>" and the last is "90+" |
| Legend.LegendSwatchIsPalette | static/js/logic.js:65-69 | the i-th swatch is the colour of the i-th depth bucket |
| Legend.LegendPartition | static/js/logic.js:65-70 | every depth above -10 lies in exactly one entry's range, and that entry is the one for its depth bucket |
| Legend.LegendConsistent | static/js/logic.js:69 | an entry's swatch equals `getColor(d)` for every depth d in the entry's range, including every d above 90 for the last entry |
| Legend.OnAdd | static/js/logic.js:63-74 | the legend on the map has six entries in strictly ascending order, one per palette colour; only the last is open-ended; each swatch agrees with the classifier on its range; the labels read "low&ndash;high<br>" and finally "90+" |
| Marker.Depth | static/js/logic.js:26 | the depth is present exactly when the coordinates have a third component, and then it is that third component |
| Marker.FillColor | static/js/logic.js:26 | a present depth gets the palette colour of its bucket; a missing depth gets the shallowest colour |
| Marker.PointStyle | static/js/logic.js:21-32 | radius is 4 times the magnitude; the fill colour is the bucket colour of the third coordinate, or the shallowest colour when it is missing; stroke colour "#000", weight 1, opacity 1 and fill opacity 0.8 |
| Marker.RadiusOrdersMagnitude | static/js/logic.js:22-25 | the magnitude is the radius divided by 4, and one radius is at most another exactly when its magnitude is |
| Marker.FillColorMonotone | static/js/logic.js:26 | a deeper quake never gets a shallower bucket's fill colour |
| Marker.MarkerColorInLegend | static/js/logic.js:26 | every marker's fill colour is some legend swatch; for a depth above -10 it is the swatch of the entry whose range holds that depth |
| Marker.WorkedMarkers | static/js/logic.js:22-26 | magnitude 5 at 45 km gives radius 20 and `#eecc00`; magnitude 2.5 at 5 km gives radius 10 and `#98ee00` |

## Left out

- Map, tile layer, layer groups and the layer-control widget (static/js/logic.js:1-15, 76-90): library calls with no logic of their own.
- The two `d3.json` fetches and their continuations, including the plate layer's fixed style (static/js/logic.js:17-48), except the `pointToLayer` style (static/js/logic.js:21-32), which is modelled: network I/O and asynchronous sequencing.
- The popup text (static/js/logic.js:33-35): it formats a `Date` in a locale- and timezone-dependent way and prints a floating-point magnitude.
- The legend's DOM node and the `<i style="background:…">` markup around each label (static/js/logic.js:64, 69): only the swatch colour and the label text are modelled.
- Marker.PointStyle: the magnitude is a mathematical real, so IEEE-754 rounding of `mag * 4` and the `null`, `undefined` and `NaN` magnitudes of JavaScript are not modelled.
- Decimal.IntToDecimal: prints plain digits for every integer, which matches JavaScript's number-to-text conversion only for integers of magnitude below 10^21 (JavaScript prints larger ones in exponent notation, and cannot represent every integer beyond 2^53); the legend only formats the grades -10 to 90.

/**
 Earthquake markers: each feature of the earthquake feed becomes a circle
 marker whose radius grows with the magnitude and whose fill colour is the
 depth classifier applied to the third coordinate.
 */
module Marker {
  import opened Wrappers
  import opened DepthColor
  import Legend

  /** Properties of an earthquake feature that the marker style reads. */
  datatype Properties = Properties(mag: real)

  /** Point geometry: longitude, latitude and, when present, depth in km. */
  datatype Geometry = Point(coordinates: seq<real>)

  datatype Feature = Feature(properties: Properties, geometry: Geometry)

  /** Style of a circle marker. */
  datatype CircleStyle = CircleStyle(
    radius: real,
    fillColor: string,
    color: string,
    weight: int,
    opacity: real,
    fillOpacity: real)

  /** Display units of radius per unit of magnitude. */
  const RadiusPerMagnitude: real := 4.0

  /** The depth coordinate, or None where JavaScript would read `undefined`. */
  function Depth(g: Geometry): (d: Option<real>)
    ensures d.Some? <==> |g.coordinates| > 2
    ensures d.Some? ==> d.value == g.coordinates[2]
  {
    if |g.coordinates| > 2 then Some(g.coordinates[2]) else None
  }

  /** Colour for a depth that may be missing: every `>` against `undefined` is
      false, so a missing depth falls through to the shallowest colour. */
  function FillColor(depth: Option<real>): (c: string)
    ensures c in Palette
    ensures depth.None? ==> c == Shallowest
    ensures depth.Some? ==> c == Palette[DepthBucket(depth.value)]
  {
    GetColorIsBucketColor(if depth.Some? then depth.value else 0.0);
    match depth
    case Some(d) => GetColor(d)
    case None => Shallowest
  }

  /** The style the feed layer gives the marker of one feature. */
  function PointStyle(f: Feature): (s: CircleStyle)
    ensures s.radius == RadiusPerMagnitude * f.properties.mag
    ensures |f.geometry.coordinates| > 2 ==> s.fillColor == Palette[DepthBucket(f.geometry.coordinates[2])]
    ensures |f.geometry.coordinates| <= 2 ==> s.fillColor == Shallowest
    ensures s.color == "#000" && s.weight == 1 && s.opacity == 1.0 && s.fillOpacity == 0.8
  {
    CircleStyle(
      radius := f.properties.mag * RadiusPerMagnitude,
      fillColor := FillColor(Depth(f.geometry)),
      color := "#000",
      weight := 1,
      opacity := 1.0,
      fillOpacity := 0.8)
  }

  /** The radius determines the magnitude, and a stronger quake never gets a smaller marker. */
  lemma RadiusOrdersMagnitude(f1: Feature, f2: Feature)
    ensures PointStyle(f1).radius / RadiusPerMagnitude == f1.properties.mag
    ensures PointStyle(f1).radius <= PointStyle(f2).radius <==> f1.properties.mag <= f2.properties.mag
  {
  }

  /** A deeper quake never gets a shallower bucket's fill colour. */
  lemma FillColorMonotone(f1: Feature, f2: Feature)
    requires |f1.geometry.coordinates| > 2 && |f2.geometry.coordinates| > 2
    requires f1.geometry.coordinates[2] <= f2.geometry.coordinates[2]
    ensures ColorRank(PointStyle(f1).fillColor) <= ColorRank(PointStyle(f2).fillColor)
  {
    GetColorMonotone(f1.geometry.coordinates[2], f2.geometry.coordinates[2]);
  }

  /** Every marker's fill colour is shown in the legend: by the entry whose
      range holds its depth when the depth is above the lowest grade, and by
      the first entry otherwise. */
  lemma MarkerColorInLegend(f: Feature)
    ensures exists i :: 0 <= i < |Legend.Grades| && Legend.EntryAt(Legend.Grades, i).swatch == PointStyle(f).fillColor
    ensures Depth(f.geometry).Some? && Depth(f.geometry).value > Legend.Grades[0] as real ==>
      var k := DepthBucket(Depth(f.geometry).value);
      Legend.Covers(Legend.EntryAt(Legend.Grades, k), Depth(f.geometry).value) &&
      Legend.EntryAt(Legend.Grades, k).swatch == PointStyle(f).fillColor
  {
    var c := PointStyle(f).fillColor;
    match Depth(f.geometry)
    case Some(d) =>
      var k := DepthBucket(d);
      Legend.LegendSwatchIsPalette(k);
      if d > Legend.Grades[0] as real {
        Legend.LegendPartition(d);
      }
    case None =>
      Legend.LegendSwatchIsPalette(0);
  }

  /** Two worked cases: magnitude 5 at 45 km and magnitude 2.5 at 5 km. */
  lemma WorkedMarkers()
    ensures PointStyle(Feature(Properties(5.0), Point([0.0, 0.0, 45.0]))) ==
      CircleStyle(20.0, "#eecc00", "#000", 1, 1.0, 0.8)
    ensures PointStyle(Feature(Properties(2.5), Point([0.0, 0.0, 5.0]))) ==
      CircleStyle(10.0, "#98ee00", "#000", 1, 1.0, 0.8)
  {
  }
}

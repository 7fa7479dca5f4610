/**
 Depth classifier of the earthquake map: every hypocentre depth (km, any sign)
 falls into one of six fixed buckets, and each bucket has one fill colour. The
 same function colours the markers and the legend swatches.
 */
module DepthColor {

  /** Fill colours of the six buckets, shallowest bucket first. */
  const Palette: seq<string> := ["#98ee00", "#d4ee00", "#eecc00", "#ee9c00", "#ea822c", "#ea2c2c"]

  /** Cut-offs (km) between consecutive buckets, ascending. A depth equal to a
      cut-off stays in the shallower bucket. */
  const Cutoffs: seq<real> := [10.0, 30.0, 50.0, 70.0, 90.0]

  /** The colour every depth not above the lowest cut-off falls through to. */
  const Shallowest: string := "#98ee00"

  /** The depth classifier: thresholds tested from the deepest down, each strict. */
  function GetColor(depth: real): (c: string)
    ensures c in Palette
    ensures c == "#ea2c2c" <==> depth > 90.0
    ensures c == "#ea822c" <==> 70.0 < depth <= 90.0
    ensures c == "#ee9c00" <==> 50.0 < depth <= 70.0
    ensures c == "#eecc00" <==> 30.0 < depth <= 50.0
    ensures c == "#d4ee00" <==> 10.0 < depth <= 30.0
    ensures c == Shallowest <==> depth <= 10.0
  {
    if depth > 90.0 then "#ea2c2c"
    else if depth > 70.0 then "#ea822c"
    else if depth > 50.0 then "#ee9c00"
    else if depth > 30.0 then "#eecc00"
    else if depth > 10.0 then "#d4ee00"
    else Shallowest
  }

  /** Number of cut-offs in `cuts` that `depth` strictly exceeds. */
  function CutoffsBelow(cuts: seq<real>, depth: real): (n: nat)
    ensures n <= |cuts|
  {
    if |cuts| == 0 then 0
    else (if depth > cuts[0] then 1 else 0) + CutoffsBelow(cuts[1..], depth)
  }

  /** Reference definition of the bucket of a depth: how many cut-offs lie strictly below it. */
  function DepthBucket(depth: real): (k: nat)
    ensures k < |Palette|
  {
    CutoffsBelow(Cutoffs, depth)
  }

  /** Position of a palette colour, so that colours can be compared by bucket. */
  function ColorRank(c: string): (k: nat)
    requires c in Palette
    ensures k < |Palette| && Palette[k] == c
  {
    IndexOf(Palette, c)
  }

  /** Position of the first occurrence of `x` in `s`. */
  function IndexOf(s: seq<string>, x: string): (k: nat)
    requires x in s
    ensures k < |s| && s[k] == x
    ensures x !in s[..k]
  {
    if s[0] == x then 0 else 1 + IndexOf(s[1..], x)
  }

  /** The six colours are pairwise different, so a colour names its bucket. */
  lemma PaletteDistinct()
    ensures forall i, j :: 0 <= i < j < |Palette| ==> Palette[i] != Palette[j]
  {
  }

  lemma ColorRankOfPalette(k: nat)
    requires k < |Palette|
    ensures ColorRank(Palette[k]) == k
  {
    PaletteDistinct();
  }

  /** Counting cut-offs below a depth can only grow with the depth. */
  lemma {:induction false} CutoffsBelowMonotone(cuts: seq<real>, d1: real, d2: real)
    requires d1 <= d2
    ensures CutoffsBelow(cuts, d1) <= CutoffsBelow(cuts, d2)
    decreases |cuts|
  {
    if |cuts| > 0 {
      CutoffsBelowMonotone(cuts[1..], d1, d2);
    }
  }

  /** The bucket of a depth is exactly k when it lies in the k-th half-open range
      (Cutoffs[k-1], Cutoffs[k]], with the lowest range unbounded below and the
      highest unbounded above. */
  lemma {:induction false} DepthBucketRange(depth: real, k: nat)
    requires k < |Palette|
    ensures DepthBucket(depth) == k <==>
      (k == 0 || depth > Cutoffs[k - 1]) && (k == |Cutoffs| || depth <= Cutoffs[k])
  {
    DepthBucketUnfolded(depth);
  }

  /** 1 when the depth exceeds the cut-off, else 0. */
  function Above(depth: real, cut: real): (n: nat)
  {
    if depth > cut then 1 else 0
  }

  /** The bucket written out cut-off by cut-off. */
  lemma DepthBucketUnfolded(depth: real)
    ensures DepthBucket(depth) ==
      Above(depth, 10.0) + Above(depth, 30.0) + Above(depth, 50.0) + Above(depth, 70.0) + Above(depth, 90.0)
  {
    var c := Cutoffs;
    assert CutoffsBelow([], depth) == 0;
    assert [90.0][1..] == [];
    assert CutoffsBelow([90.0], depth) == Above(depth, 90.0);
    assert [70.0, 90.0][1..] == [90.0];
    assert CutoffsBelow([70.0, 90.0], depth) == Above(depth, 70.0) + Above(depth, 90.0);
    assert [50.0, 70.0, 90.0][1..] == [70.0, 90.0];
    assert CutoffsBelow([50.0, 70.0, 90.0], depth) == Above(depth, 50.0) + Above(depth, 70.0) + Above(depth, 90.0);
    assert [30.0, 50.0, 70.0, 90.0][1..] == [50.0, 70.0, 90.0];
    assert CutoffsBelow([30.0, 50.0, 70.0, 90.0], depth) ==
      Above(depth, 30.0) + Above(depth, 50.0) + Above(depth, 70.0) + Above(depth, 90.0);
    assert c[1..] == [30.0, 50.0, 70.0, 90.0];
  }

  /** The classifier agrees with the reference: it returns the colour of the depth's bucket. */
  lemma GetColorIsBucketColor(depth: real)
    ensures GetColor(depth) == Palette[DepthBucket(depth)]
  {
    var k := DepthBucket(depth);
    DepthBucketRange(depth, k);
  }

  /** A depth equal to a cut-off takes the shallower bucket's colour. */
  lemma CutoffTakesShallowerColor(k: nat)
    requires k < |Cutoffs|
    ensures GetColor(Cutoffs[k]) == Palette[k]
    ensures forall d :: Cutoffs[k] < d <= Cutoffs[k] + 1.0 ==> GetColor(d) == Palette[k + 1]
  {
    DepthBucketRange(Cutoffs[k], k);
    GetColorIsBucketColor(Cutoffs[k]);
    forall d | Cutoffs[k] < d <= Cutoffs[k] + 1.0
      ensures GetColor(d) == Palette[k + 1]
    {
      DepthBucketRange(d, k + 1);
      GetColorIsBucketColor(d);
    }
  }

  /** A deeper hypocentre never gets a shallower bucket's colour. */
  lemma GetColorMonotone(d1: real, d2: real)
    requires d1 <= d2
    ensures ColorRank(GetColor(d1)) <= ColorRank(GetColor(d2))
  {
    GetColorIsBucketColor(d1);
    GetColorIsBucketColor(d2);
    CutoffsBelowMonotone(Cutoffs, d1, d2);
    ColorRankOfPalette(DepthBucket(d1));
    ColorRankOfPalette(DepthBucket(d2));
  }
}

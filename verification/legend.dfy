/**
 The depth legend: one entry per grade, each pairing a colour swatch with the
 depth range it stands for. An entry's upper bound is the next grade when that
 grade is JavaScript-truthy (present and non-zero); otherwise the entry is
 open-ended and its label ends in "+".
 */
module Legend {
  import opened Wrappers
  import opened DepthColor
  import opened Decimal

  /** Lower bounds (km) of the legend's ranges, ascending. */
  const Grades: seq<int> := [-10, 10, 30, 50, 70, 90]

  const RangeDash: string := "&ndash;"
  const LineBreak: string := "<br>"

  /** One legend line: the swatch colour, the range's lower bound and, unless
      the range is open-ended, its upper bound. */
  datatype LegendEntry = LegendEntry(swatch: string, low: int, high: Option<int>)

  /** JavaScript truthiness of `grades[j]` for integral grades: an index past
      the end reads `undefined`, which is falsy, and so is 0. */
  predicate GradeTruthy(grades: seq<int>, j: int)
  {
    0 <= j < |grades| && grades[j] != 0
  }

  /** The entry the legend loop emits for grade `i`. */
  function EntryAt(grades: seq<int>, i: nat): (e: LegendEntry)
    requires i < |grades|
  {
    LegendEntry(
      GetColor((grades[i] + 1) as real),
      grades[i],
      if GradeTruthy(grades, i + 1) then Some(grades[i + 1]) else None)
  }

  /** Depth `d` lies in the entry's half-open range (low, high], or above low
      when the entry is open-ended. */
  predicate Covers(e: LegendEntry, d: real)
  {
    d > e.low as real && (e.high.None? || d <= e.high.value as real)
  }

  /** The legend loop over any grade array: one entry per grade, in order. */
  method BuildLegend(grades: seq<int>) returns (entries: seq<LegendEntry>)
    ensures |entries| == |grades|
    ensures forall i :: 0 <= i < |grades| ==> entries[i] == EntryAt(grades, i)
    ensures forall i :: 0 <= i < |grades| ==>
      entries[i].low == grades[i] && entries[i].swatch == GetColor((grades[i] + 1) as real)
    ensures forall i :: 0 <= i < |grades| ==>
      (entries[i].high.None? <==> i + 1 == |grades| || grades[i + 1] == 0)
    ensures forall i :: 0 <= i < |grades| && entries[i].high.Some? ==> entries[i].high.value == grades[i + 1]
  {
    entries := [];
    var i := 0;
    while i < |grades|
      invariant 0 <= i <= |grades|
      invariant |entries| == i
      invariant forall j :: 0 <= j < i ==> entries[j] == EntryAt(grades, j)
    {
      entries := entries + [EntryAt(grades, i)];
      i := i + 1;
    }
  }

  /** The text after the swatch: "low&ndash;high<br>" for a bounded range, "low+" otherwise. */
  function Label(e: LegendEntry): (s: string)
    ensures |s| > 0
    ensures s[|s| - 1] == '+' <==> e.high.None?
    ensures e.high.Some? <==> |s| >= |LineBreak| && s[|s| - |LineBreak|..] == LineBreak
  {
    IntToDecimal(e.low) +
    if e.high.Some? then RangeDash + IntToDecimal(e.high.value) + LineBreak else "+"
  }

  function FirstIndex(s: string, c: char): (r: Option<nat>)
    ensures r.None? ==> c !in s
    ensures r.Some? ==> r.value < |s| && s[r.value] == c && c !in s[..r.value]
  {
    if |s| == 0 then None
    else if s[0] == c then Some(0)
    else match FirstIndex(s[1..], c)
      case None => None
      case Some(k) => Some(k + 1)
  }

  /** Reads a label back into the range it shows. */
  function ParseLabel(s: string): (r: Option<(int, Option<int>)>)
    ensures r.Some? ==> |s| > 0
  {
    if |s| > 0 && s[|s| - 1] == '+' then
      match ParseInt(s[..|s| - 1])
      case Some(lo) => Some((lo, None))
      case None => None
    else if |s| >= |LineBreak| && s[|s| - |LineBreak|..] == LineBreak then
      ParseRange(s[..|s| - |LineBreak|])
    else None
  }

  /** Reads "low&ndash;high", split at the first '&'. */
  function ParseRange(body: string): (r: Option<(int, Option<int>)>)
    ensures r.Some? ==> r.value.1.Some? && '&' in body
  {
    match FirstIndex(body, '&')
    case None => None
    case Some(k) =>
      var rest := body[k..];
      if |rest| >= |RangeDash| && rest[..|RangeDash|] == RangeDash then
        match (ParseInt(body[..k]), ParseInt(rest[|RangeDash|..]))
        case (Some(lo), Some(hi)) => Some((lo, Some(hi)))
        case _ => None
      else None
  }

  lemma FirstIndexAfterPrefix(a: string, b: string, c: char)
    requires c !in a && |b| > 0 && b[0] == c
    ensures FirstIndex(a + b, c) == Some(|a|)
  {
    assert (a + b)[|a|] == c;
  }

  lemma SplitAfterPrefix(a: string, t: string)
    ensures (a + t)[..|a|] == a && (a + t)[|a|..] == t
  {
  }

  lemma ParseOpenLabel(lo: int)
    ensures ParseLabel(IntToDecimal(lo) + "+") == Some((lo, None))
  {
    var s := IntToDecimal(lo) + "+";
    IntRoundTrip(lo);
    assert s[..|s| - 1] == IntToDecimal(lo);
  }

  /** A label ending in a line break is read as the range before it. */
  lemma ParseLineBreakLabel(body: string)
    ensures ParseLabel(body + LineBreak) == ParseRange(body)
  {
    var s := body + LineBreak;
    assert s[|s| - 1] == '>';
    SplitAfterPrefix(body, LineBreak);
  }

  lemma ParseDashedRange(a: string, b: string, lo: int, hi: int)
    requires '&' !in a && ParseInt(a) == Some(lo) && ParseInt(b) == Some(hi)
    ensures ParseRange(a + (RangeDash + b)) == Some((lo, Some(hi)))
  {
    var t := RangeDash + b;
    FirstIndexAfterPrefix(a, t, '&');
    SplitAfterPrefix(a, t);
    SplitAfterPrefix(RangeDash, b);
  }

  lemma ParseBoundedLabel(lo: int, hi: int)
    ensures ParseLabel(IntToDecimal(lo) + RangeDash + IntToDecimal(hi) + LineBreak) == Some((lo, Some(hi)))
  {
    var a := IntToDecimal(lo);
    var b := IntToDecimal(hi);
    assert a + RangeDash + b == a + (RangeDash + b);
    ParseLineBreakLabel(a + (RangeDash + b));
    IntRoundTrip(lo);
    IntRoundTrip(hi);
    ParseDashedRange(a, b, lo, hi);
  }

  /** A label names its range unambiguously: reading it back gives the entry's bounds. */
  lemma LabelRoundTrip(e: LegendEntry)
    ensures ParseLabel(Label(e)) == Some((e.low, e.high))
  {
    if e.high.None? {
      ParseOpenLabel(e.low);
    } else {
      assert Label(e) == IntToDecimal(e.low) + RangeDash + IntToDecimal(e.high.value) + LineBreak;
      ParseBoundedLabel(e.low, e.high.value);
    }
  }

  lemma GradesAscending()
    ensures forall i, j :: 0 <= i < j < |Grades| ==> Grades[i] < Grades[j]
  {
  }

  lemma GradesMeetCutoffs(k: nat)
    requires k < |Cutoffs|
    ensures Grades[k + 1] as real == Cutoffs[k]
  {
  }

  /** The legend's entries, grade by grade: bounded by the next grade except the last. */
  lemma LegendShape(i: nat)
    requires i < |Grades|
    ensures EntryAt(Grades, i).low == Grades[i]
    ensures EntryAt(Grades, i).high.None? <==> i == |Grades| - 1
    ensures i < |Grades| - 1 ==> EntryAt(Grades, i).high == Some(Grades[i + 1])
  {
  }

  /** Every label but the last shows a bounded range followed by a line break;
      the last shows the top grade followed by "+". */
  lemma LegendLabel(i: nat)
    requires i < |Grades|
    ensures i < |Grades| - 1 ==>
      Label(EntryAt(Grades, i)) == IntToDecimal(Grades[i]) + RangeDash + IntToDecimal(Grades[i + 1]) + LineBreak
    ensures i == |Grades| - 1 ==> Label(EntryAt(Grades, i)) == "90+"
  {
    var e := EntryAt(Grades, i);
    LegendShape(i);
    if i == |Grades| - 1 {
      assert NatToDecimal(9) == "9";
      assert NatToDecimal(90) == NatToDecimal(9) + [DigitChar(0)];
    } else {
      assert e.high.value == Grades[i + 1];
    }
  }

  /** The i-th swatch is the i-th bucket's colour. */
  lemma LegendSwatchIsPalette(i: nat)
    requires i < |Grades|
    ensures EntryAt(Grades, i).swatch == Palette[i]
  {
    var d := (Grades[i] + 1) as real;
    DepthBucketRange(d, i);
    GetColorIsBucketColor(d);
  }

  /** Every depth above the lowest grade lies in exactly one entry's range, the
      entry of its bucket. */
  lemma LegendPartition(d: real)
    requires d > Grades[0] as real
    ensures Covers(EntryAt(Grades, DepthBucket(d)), d)
    ensures forall i :: 0 <= i < |Grades| && Covers(EntryAt(Grades, i), d) ==> i == DepthBucket(d)
  {
    var k := DepthBucket(d);
    DepthBucketRange(d, k);
    if k > 0 {
      GradesMeetCutoffs(k - 1);
    }
    if k < |Cutoffs| {
      GradesMeetCutoffs(k);
    }
    forall i | 0 <= i < |Grades| && Covers(EntryAt(Grades, i), d)
      ensures i == k
    {
      DepthBucketRange(d, i);
      if i > 0 {
        GradesMeetCutoffs(i - 1);
      }
      if i < |Cutoffs| {
        GradesMeetCutoffs(i);
      }
    }
  }

  /** Legend and markers share one bucket function: an entry's swatch is the
      colour of every depth in its range. */
  lemma LegendConsistent(i: nat, d: real)
    requires i < |Grades| && Covers(EntryAt(Grades, i), d)
    ensures EntryAt(Grades, i).swatch == GetColor(d)
  {
    LegendPartition(d);
    LegendSwatchIsPalette(i);
    GetColorIsBucketColor(d);
  }

  /** The legend as built on the map: six entries in ascending order of depth,
      one per bucket, each bounded by the next grade except the last. */
  method OnAdd() returns (entries: seq<LegendEntry>)
    ensures |entries| == |Palette| == 6
    ensures forall i, j :: 0 <= i < j < |entries| ==> entries[i].low < entries[j].low
    ensures forall i :: 0 <= i < |entries| ==> entries[i].low == Grades[i] && entries[i].swatch == Palette[i]
    ensures forall i :: 0 <= i < |entries| ==> (entries[i].high.None? <==> i == |entries| - 1)
    ensures forall i, d :: 0 <= i < |entries| && Covers(entries[i], d) ==> entries[i].swatch == GetColor(d)
    ensures forall i :: 0 <= i < |entries| - 1 ==>
      Label(entries[i]) == IntToDecimal(Grades[i]) + RangeDash + IntToDecimal(Grades[i + 1]) + LineBreak
    ensures Label(entries[|entries| - 1]) == "90+"
  {
    entries := BuildLegend(Grades);
    forall i | 0 <= i < |entries|
      ensures entries[i].swatch == Palette[i]
      ensures entries[i].high.None? <==> i == |entries| - 1
    {
      LegendSwatchIsPalette(i);
      LegendShape(i);
    }
    forall i | 0 <= i < |entries|
      ensures i < |entries| - 1 ==>
        Label(entries[i]) == IntToDecimal(Grades[i]) + RangeDash + IntToDecimal(Grades[i + 1]) + LineBreak
    {
      LegendLabel(i);
    }
    LegendLabel(|entries| - 1);
    GradesAscending();
    forall i, j | 0 <= i < j < |entries|
      ensures entries[i].low < entries[j].low
    {
      assert entries[i].low == Grades[i] && entries[j].low == Grades[j];
    }
    forall i, d | 0 <= i < |entries| && Covers(entries[i], d)
      ensures entries[i].swatch == GetColor(d)
    {
      LegendConsistent(i, d);
    }
  }
}

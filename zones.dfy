/**
 * The support/resistance zone detector: scan the closes for strict local
 * minima (support) or maxima (resistance), count repeated levels, sort them,
 * fold each level into the current zone unless it lies more than
 * level * tolerance away, and keep the zones whose strength reaches minTests.
 */
module Zones {
  import opened Volatility
  import opened Sequences

  datatype Side = Support | Resistance

  /**
   * A clustered price level and its strength: each level folded in adds its
   * whole occurrence count, so a level touched k times adds k * k.
   */
  datatype Zone = Zone(level: real, strength: nat)

  // ---------------------------------------------------------------- candidates

  /** Interior bar i is a strict local minimum (support) or maximum (resistance) of the closes. */
  predicate IsReversal(closes: seq<real>, i: int, side: Side)
    requires 1 <= i < |closes| - 1
  {
    match side
    case Support => closes[i] < closes[i - 1] && closes[i] < closes[i + 1]
    case Resistance => closes[i] > closes[i - 1] && closes[i] > closes[i + 1]
  }

  /** The closes of the reversal bars among the interior bars 1 .. k - 1, in bar order. */
  function CandidatesBefore(closes: seq<real>, side: Side, k: nat): (levels: seq<real>)
    requires k <= 1 || k < |closes|
    ensures |levels| <= k
  {
    if k <= 1 then []
    else CandidatesBefore(closes, side, k - 1) + (if IsReversal(closes, k - 1, side) then [closes[k - 1]] else [])
  }

  /** The candidate levels: the closes of every reversal bar among bars 1 .. n - 2. */
  function Candidates(closes: seq<real>, side: Side): seq<real>
  {
    CandidatesBefore(closes, side, if |closes| < 2 then 1 else |closes| - 1)
  }

  // ---------------------------------------------------------------- sorting

  predicate Ascending(s: seq<real>)
  {
    forall i, j :: 0 <= i < j < |s| ==> s[i] <= s[j]
  }

  function Insert(x: real, s: seq<real>): (r: seq<real>)
    requires Ascending(s)
    ensures Ascending(r)
    ensures multiset(r) == multiset(s) + multiset{x}
  {
    if s == [] || x <= s[0] then [x] + s
    else
      var rest := Insert(x, s[1..]);
      assert s == [s[0]] + s[1..];
      LowerBoundKept(s[0], s[1..], x, rest);
      [s[0]] + rest
  }

  /** A lower bound of s and of x bounds every permutation of s plus x. */
  lemma LowerBoundKept(lo: real, s: seq<real>, x: real, r: seq<real>)
    requires lo <= x && forall k :: 0 <= k < |s| ==> lo <= s[k]
    requires multiset(r) == multiset(s) + multiset{x}
    ensures forall k :: 0 <= k < |r| ==> lo <= r[k]
  {
    forall k | 0 <= k < |r| ensures lo <= r[k] {
      assert r[k] in multiset(r);
      if r[k] != x {
        assert r[k] in s;
      }
    }
  }

  /** The in-place `sort()` of the candidate list: an ascending permutation. */
  function Sort(s: seq<real>): (r: seq<real>)
    ensures Ascending(r)
    ensures multiset(r) == multiset(s)
  {
    if s == [] then []
    else
      assert s == [s[0]] + s[1..];
      Insert(s[0], Sort(s[1..]))
  }

  // ---------------------------------------------------------------- clustering

  /**
   * The zones built from the levels in order: a level opens a new zone when
   * there is none yet or it lies more than level * tolerance from the current
   * zone's level; otherwise it adds its count to the current zone, whose level
   * stays that of the level that opened it.
   */
  function Group(levels: seq<real>, counts: multiset<real>, tolerance: real): (r: seq<Zone>)
    ensures |r| <= |levels|
    ensures |levels| > 0 ==> |r| > 0
  {
    if levels == [] then []
    else
      AddLevel(Group(AllButLast(levels), counts, tolerance), Last(levels), counts, tolerance)
  }

  /** Zone `upper` lies above zone `lower`, by more than upper's level * tolerance. */
  predicate Above(upper: Zone, lower: Zone, tolerance: real)
  {
    lower.level < upper.level && upper.level - lower.level > upper.level * tolerance
  }

  /** Zone levels strictly ascend, each one more than its own level * tolerance above every earlier one. */
  predicate Separated(zones: seq<Zone>, tolerance: real)
  {
    forall i, j :: 0 <= i < j < |zones| ==> Above(zones[j], zones[i], tolerance)
  }

  /** The zones whose strength reaches minTests, in their original order. */
  function KeepStrong(zones: seq<Zone>, minTests: int): (r: seq<Zone>)
    ensures |r| <= |zones|
    ensures forall z :: z in r <==> z in zones && z.strength >= minTests
  {
    if zones == [] then []
    else (if zones[0].strength >= minTests then [zones[0]] else []) + KeepStrong(zones[1..], minTests)
  }

  // ---------------------------------------------------------------- the detector

  /** The fractional tolerance: average ATR relative to the mean close. */
  function Tolerance(closes: seq<real>, averageAtr: real): (t: real)
    requires |closes| > 0 && AllPositive(closes) && averageAtr >= 0.0
    ensures t >= 0.0
  {
    SumPositive(closes);
    averageAtr / Mean(closes)
  }

  /**
   * The tolerance the detector uses. With no bars the mean close is undefined,
   * but then there are no candidates and the tolerance is never consulted.
   */
  function ZoneTolerance(closes: seq<real>, averageAtr: real): (t: real)
    requires AllPositive(closes) && averageAtr >= 0.0
    ensures t >= 0.0
  {
    if |closes| == 0 then 0.0 else Tolerance(closes, averageAtr)
  }

  /** The zones of one side before the minimum-strength filter. */
  function UnfilteredZones(closes: seq<real>, side: Side, averageAtr: real): seq<Zone>
    requires AllPositive(closes) && averageAtr >= 0.0
  {
    var levels := Candidates(closes, side);
    Group(Sort(levels), multiset(levels), ZoneTolerance(closes, averageAtr))
  }

  /** The zones of one side whose strength is at least minTests. */
  function DetectZones(closes: seq<real>, side: Side, averageAtr: real, minTests: int): seq<Zone>
    requires AllPositive(closes) && averageAtr >= 0.0
  {
    KeepStrong(UnfilteredZones(closes, side, averageAtr), minTests)
  }

  /** The two parallel lists of the source, zipped. */
  function Zip(levels: seq<real>, strengths: seq<nat>): (r: seq<Zone>)
    requires |levels| == |strengths|
    ensures |r| == |levels|
    ensures forall i :: 0 <= i < |r| ==> r[i] == Zone(levels[i], strengths[i])
  {
    seq(|levels|, i requires 0 <= i < |levels| => Zone(levels[i], strengths[i]))
  }

  /** The scan loop: the candidate levels in bar order and how often each level occurs. */
  method ScanLevels(closes: seq<real>, side: Side) returns (levels: seq<real>, strength: map<real, nat>)
    ensures levels == Candidates(closes, side)
    ensures Tally(strength, levels)
  {
    levels := [];
    strength := map[];
    var i := 1;
    while i < |closes| - 1
      invariant 1 <= i && (i == 1 || i < |closes|)
      invariant levels == CandidatesBefore(closes, side, i)
      invariant Tally(strength, levels)
    {
      if IsReversal(closes, i, side) {
        var level := closes[i];
        TallyAppend(strength, levels, level);
        levels := levels + [level];
        strength := strength[level := (if level in strength then strength[level] else 0) + 1];
      }
      i := i + 1;
    }
  }

  /** The dictionary counts how often each level occurs in the list, and holds no other key. */
  ghost predicate Tally(strength: map<real, nat>, levels: seq<real>)
  {
    (forall x :: x in strength <==> x in levels)
    && forall x :: x in strength ==> strength[x] == multiset(levels)[x]
  }

  /** Incrementing a level's entry (from 0 when absent) counts one more occurrence of it. */
  lemma TallyAppend(strength: map<real, nat>, levels: seq<real>, level: real)
    requires Tally(strength, levels)
    ensures Tally(strength[level := (if level in strength then strength[level] else 0) + 1], levels + [level])
  {
    assert multiset(levels + [level]) == multiset(levels) + multiset{level};
  }

  lemma ZipAppend(levels: seq<real>, strengths: seq<nat>, level: real, strength: nat)
    requires |levels| == |strengths|
    ensures Zip(levels + [level], strengths + [strength]) == Zip(levels, strengths) + [Zone(level, strength)]
  {
  }

  lemma ZipUpdateLast(levels: seq<real>, strengths: seq<nat>, strength: nat)
    requires |levels| == |strengths| > 0
    ensures Zip(levels, strengths[|strengths| - 1 := strength])
         == AllButLast(Zip(levels, strengths)) + [Zone(Last(levels), strength)]
  {
  }

  /** Whether a level opens a new zone after the zones built so far. */
  predicate OpensZone(zones: seq<Zone>, level: real, tolerance: real)
  {
    zones == [] || Abs(level - Last(zones).level) > level * tolerance
  }

  /** The zones after folding one more level into them. */
  function AddLevel(zones: seq<Zone>, level: real, counts: multiset<real>, tolerance: real): seq<Zone>
  {
    if OpensZone(zones, level, tolerance) then zones + [Zone(level, counts[level])]
    else AllButLast(zones) + [Zone(Last(zones).level, Last(zones).strength + counts[level])]
  }

  /** The loop's test on the list of zone levels: there is none yet, or the level is too far from the last. */
  predicate StartsZone(zoneLevels: seq<real>, level: real, tolerance: real)
  {
    zoneLevels == [] || Abs(level - zoneLevels[|zoneLevels| - 1]) > level * tolerance
  }

  lemma OpensZoneOfZip(levels: seq<real>, strengths: seq<nat>, level: real, tolerance: real)
    requires |levels| == |strengths|
    ensures OpensZone(Zip(levels, strengths), level, tolerance)
        <==> StartsZone(levels, level, tolerance)
  {
  }

  /** One step of the grouping loop: Group on the first j + 1 levels, from Group on the first j. */
  lemma GroupStep(levels: seq<real>, j: nat, counts: multiset<real>, tolerance: real)
    requires j < |levels|
    ensures Group(levels[..j + 1], counts, tolerance)
         == AddLevel(Group(levels[..j], counts, tolerance), levels[j], counts, tolerance)
  {
    assert AllButLast(levels[..j + 1]) == levels[..j];
  }

  /** One iteration of the grouping loop on the two parallel lists performs AddLevel on their zones. */
  lemma ColumnsStep(zoneLevels: seq<real>, grouped: seq<nat>, level: real, n: nat, counts: multiset<real>, tolerance: real)
    requires |zoneLevels| == |grouped| && n == counts[level]
    ensures StartsZone(zoneLevels, level, tolerance) ==>
              Zip(zoneLevels + [level], grouped + [n]) == AddLevel(Zip(zoneLevels, grouped), level, counts, tolerance)
    ensures !(StartsZone(zoneLevels, level, tolerance)) ==>
              Zip(zoneLevels, grouped[|grouped| - 1 := grouped[|grouped| - 1] + n])
              == AddLevel(Zip(zoneLevels, grouped), level, counts, tolerance)
  {
    var zones := Zip(zoneLevels, grouped);
    OpensZoneOfZip(zoneLevels, grouped, level, tolerance);
    if StartsZone(zoneLevels, level, tolerance) {
      ZipAppend(zoneLevels, grouped, level, n);
    } else {
      assert Last(zones).strength == grouped[|grouped| - 1];
      ZipUpdateLast(zoneLevels, grouped, grouped[|grouped| - 1] + n);
    }
  }

  /** One iteration of the grouping loop extends the invariant from j levels to j + 1. */
  lemma GroupLevelsStep(levels: seq<real>, j: nat, zoneLevels: seq<real>, grouped: seq<nat>, n: nat,
                        counts: multiset<real>, tolerance: real)
    requires j < |levels| && |zoneLevels| == |grouped| && n == counts[levels[j]]
    requires Zip(zoneLevels, grouped) == Group(levels[..j], counts, tolerance)
    ensures StartsZone(zoneLevels, levels[j], tolerance) ==>
              Zip(zoneLevels + [levels[j]], grouped + [n]) == Group(levels[..j + 1], counts, tolerance)
    ensures !(StartsZone(zoneLevels, levels[j], tolerance)) ==>
              Zip(zoneLevels, grouped[|grouped| - 1 := grouped[|grouped| - 1] + n]) == Group(levels[..j + 1], counts, tolerance)
  {
    GroupStep(levels, j, counts, tolerance);
    ColumnsStep(zoneLevels, grouped, levels[j], n, counts, tolerance);
  }

  /**
   * The grouping loop over the sorted levels: the zone levels and, in a parallel
   * list, the strength of each zone, where every occurrence of a level adds that
   * level's total count.
   */
  method GroupLevels(levels: seq<real>, strength: map<real, nat>, ghost counts: multiset<real>, tolerance: real)
    returns (zoneLevels: seq<real>, grouped: seq<nat>)
    requires forall k :: 0 <= k < |levels| ==> levels[k] in strength && strength[levels[k]] == counts[levels[k]]
    ensures |zoneLevels| == |grouped|
    ensures Zip(zoneLevels, grouped) == Group(levels, counts, tolerance)
  {
    zoneLevels := [];
    grouped := [];
    var j := 0;
    while j < |levels|
      invariant 0 <= j <= |levels|
      invariant |zoneLevels| == |grouped|
      invariant Zip(zoneLevels, grouped) == Group(levels[..j], counts, tolerance)
    {
      var level := levels[j];
      GroupLevelsStep(levels, j, zoneLevels, grouped, strength[level], counts, tolerance);
      if StartsZone(zoneLevels, level, tolerance) {
        zoneLevels := zoneLevels + [level];
        grouped := grouped + [strength[level]];
      } else {
        grouped := grouped[|grouped| - 1 := grouped[|grouped| - 1] + strength[level]];
      }
      j := j + 1;
    }
    assert levels[..j] == levels;
  }

  method FindZones(closes: seq<real>, side: Side, averageAtr: real, minTests: int) returns (zones: seq<Zone>)
    requires AllPositive(closes) && averageAtr >= 0.0
    ensures zones == DetectZones(closes, side, averageAtr, minTests)
  {
    var tolerance := ZoneTolerance(closes, averageAtr);
    var levels, strength := ScanLevels(closes, side);
    ghost var found := levels;
    levels := Sort(levels);
    forall k | 0 <= k < |levels| ensures levels[k] in strength && strength[levels[k]] == multiset(found)[levels[k]] {
      assert levels[k] in multiset(levels);
    }
    var zoneLevels, grouped := GroupLevels(levels, strength, multiset(found), tolerance);
    zones := KeepStrong(Zip(zoneLevels, grouped), minTests);
  }
}

/** What the zone detector promises, proved about its specification functions. */
module ZoneProperties {
  import opened Volatility
  import opened Sequences
  import opened Zones

  // ---------------------------------------------------------------- candidates

  lemma {:induction false} CandidatesBeforeIff(closes: seq<real>, side: Side, k: nat, x: real)
    requires k <= 1 || k < |closes|
    ensures x in CandidatesBefore(closes, side, k)
        <==> exists i :: 1 <= i < k && i < |closes| - 1 && IsReversal(closes, i, side) && closes[i] == x
  {
    if k > 1 {
      CandidatesBeforeIff(closes, side, k - 1, x);
      if x in CandidatesBefore(closes, side, k) && x !in CandidatesBefore(closes, side, k - 1) {
        assert IsReversal(closes, k - 1, side) && closes[k - 1] == x;
      }
    }
  }

  /**
   * A level is a candidate exactly when it is the close of an interior bar
   * (1 .. n - 2) that is a strict local minimum (support) or maximum (resistance).
   */
  lemma CandidatesIff(closes: seq<real>, side: Side, x: real)
    ensures x in Candidates(closes, side)
        <==> exists i :: 1 <= i < |closes| - 1 && IsReversal(closes, i, side) && closes[i] == x
  {
    CandidatesBeforeIff(closes, side, if |closes| < 2 then 1 else |closes| - 1, x);
  }

  /** The interior bars among 1 .. k - 1 that are reversals of the side and close at x. */
  function ReversalBarsAt(closes: seq<real>, side: Side, k: nat, x: real): set<nat>
  {
    set i: nat | 1 <= i < k && i < |closes| - 1 && ReversalAt(closes, side, i, x)
  }

  /** Whether bar i is a reversal of the side closing at x. */
  predicate ReversalAt(closes: seq<real>, side: Side, i: nat, x: real)
    requires 1 <= i < |closes| - 1
  {
    IsReversal(closes, i, side) && closes[i] == x
  }

  /** Scanning bar k - 1 adds one occurrence of x exactly when that bar is a reversal closing at x. */
  lemma CandidatesBeforeStep(closes: seq<real>, side: Side, k: nat, x: real)
    requires 1 < k < |closes|
    ensures multiset(CandidatesBefore(closes, side, k))[x]
         == multiset(CandidatesBefore(closes, side, k - 1))[x] + (if ReversalAt(closes, side, k - 1, x) then 1 else 0)
  {
    var prev := CandidatesBefore(closes, side, k - 1);
    if IsReversal(closes, k - 1, side) {
      assert CandidatesBefore(closes, side, k) == prev + [closes[k - 1]];
      assert multiset(prev + [closes[k - 1]]) == multiset(prev) + multiset{closes[k - 1]};
    } else {
      assert CandidatesBefore(closes, side, k) == prev + [];
      assert prev + [] == prev;
    }
  }

  /** Widening the range to bar k - 1 adds that bar to the reversal bars at x exactly when it is one. */
  lemma ReversalBarsStep(closes: seq<real>, side: Side, k: nat, x: real)
    requires 1 < k < |closes|
    ensures |ReversalBarsAt(closes, side, k, x)|
         == |ReversalBarsAt(closes, side, k - 1, x)| + (if ReversalAt(closes, side, k - 1, x) then 1 else 0)
  {
    var before := ReversalBarsAt(closes, side, k - 1, x);
    var after := ReversalBarsAt(closes, side, k, x);
    if ReversalAt(closes, side, k - 1, x) {
      assert after == before + {k - 1} by {
        forall i: nat | i in after ensures i in before + {k - 1} {
          if i != k - 1 {
            assert i in before;
          }
        }
      }
      assert k - 1 !in before;
    } else {
      assert after == before by {
        forall i: nat | i in after ensures i in before {
          assert i != k - 1;
        }
      }
    }
  }

  /** Each reversal bar among 1 .. k - 1 adds exactly one occurrence of its close. */
  lemma {:induction false} CandidatesBeforeCount(closes: seq<real>, side: Side, k: nat, x: real)
    requires k <= 1 || k < |closes|
    ensures multiset(CandidatesBefore(closes, side, k))[x] == |ReversalBarsAt(closes, side, k, x)|
  {
    if k <= 1 {
      assert ReversalBarsAt(closes, side, k, x) == {};
    } else {
      CandidatesBeforeCount(closes, side, k - 1, x);
      CandidatesBeforeStep(closes, side, k, x);
      ReversalBarsStep(closes, side, k, x);
    }
  }

  /**
   * A level occurs in the candidate list once for every interior bar that is a
   * reversal of the side closing at that level.
   */
  lemma CandidatesCount(closes: seq<real>, side: Side, x: real)
    ensures multiset(Candidates(closes, side))[x]
         == |set i: nat | 1 <= i < |closes| - 1 && IsReversal(closes, i, side) && closes[i] == x|
  {
    var k := if |closes| < 2 then 1 else |closes| - 1;
    CandidatesBeforeCount(closes, side, k, x);
    assert ReversalBarsAt(closes, side, k, x)
        == set i: nat | 1 <= i < |closes| - 1 && IsReversal(closes, i, side) && closes[i] == x;
  }

  /** No bar is both a support and a resistance candidate. */
  lemma NotBothSides(closes: seq<real>, i: int)
    requires 1 <= i < |closes| - 1
    ensures !(IsReversal(closes, i, Support) && IsReversal(closes, i, Resistance))
  {
  }

  lemma {:induction false} NoReversalNoCandidatesBefore(closes: seq<real>, side: Side, k: nat)
    requires k <= 1 || k < |closes|
    requires forall i :: 1 <= i < |closes| - 1 ==> !IsReversal(closes, i, side)
    ensures CandidatesBefore(closes, side, k) == []
  {
    if k > 1 {
      NoReversalNoCandidatesBefore(closes, side, k - 1);
    }
  }

  /** Fewer than three bars, or a constant close series, yield no candidates and so no zones. */
  lemma FlatOrShortSeriesHasNoZones(closes: seq<real>, side: Side, averageAtr: real, minTests: int)
    requires AllPositive(closes) && averageAtr >= 0.0
    requires |closes| < 3 || forall i :: 0 <= i < |closes| ==> closes[i] == closes[0]
    ensures Candidates(closes, side) == []
    ensures DetectZones(closes, side, averageAtr, minTests) == []
  {
    NoReversalNoCandidatesBefore(closes, side, if |closes| < 2 then 1 else |closes| - 1);
  }

  // ---------------------------------------------------------------- sorting

  /** Every entry of a sorted list is an entry of the list it sorts. */
  lemma SortedMembers(s: seq<real>, k: int)
    requires 0 <= k < |Sort(s)|
    ensures Sort(s)[k] in s
  {
    assert Sort(s)[k] in multiset(Sort(s));
  }

  // ---------------------------------------------------------------- clustering

  /** A level is covered by a zone at or below it, within level * tolerance of it. */
  predicate Covers(zone: Zone, level: real, tolerance: real)
  {
    zone.level <= level && level - zone.level <= level * tolerance
  }

  predicate NonNegative(s: seq<real>)
  {
    forall k :: 0 <= k < |s| ==> s[k] >= 0.0
  }

  /** Folding a level into the current zone changes no zone level. */
  lemma AddLevelShape(zones: seq<Zone>, level: real, counts: multiset<real>, tolerance: real)
    ensures var r := AddLevel(zones, level, counts, tolerance);
            if OpensZone(zones, level, tolerance) then r == zones + [Zone(level, counts[level])]
            else |r| == |zones| > 0 && AllButLast(r) == AllButLast(zones)
                 && Last(r) == Zone(Last(zones).level, Last(zones).strength + counts[level])
  {
  }

  /** A zone list with its last zone's strength changed has the same shape. */
  lemma SameLevelsSameShape(zones: seq<Zone>, r: seq<Zone>, tolerance: real)
    requires |r| == |zones| > 0 && AllButLast(r) == AllButLast(zones) && Last(r).level == Last(zones).level
    ensures Separated(zones, tolerance) ==> Separated(r, tolerance)
  {
    assert forall i :: 0 <= i < |r| ==> r[i].level == zones[i].level by {
      forall i | 0 <= i < |r| ensures r[i].level == zones[i].level {
        if i < |r| - 1 {
          assert r[i] == AllButLast(r)[i];
        }
      }
    }
  }

  /** Appending a zone far enough above the last one keeps the shape. */
  lemma AppendKeepsShape(zones: seq<Zone>, z: Zone, tolerance: real)
    requires Separated(zones, tolerance)
    requires zones != [] ==> Above(z, Last(zones), tolerance)
    ensures Separated(zones + [z], tolerance)
  {
    var r := zones + [z];
    forall i, j | 0 <= i < j < |r| ensures Above(r[j], r[i], tolerance) {
      if j == |zones| && i < |zones| - 1 {
        assert Above(Last(zones), zones[i], tolerance);
      }
    }
  }

  /** Putting a zone far enough below all the others in front keeps the shape. */
  lemma PrependKeepsShape(z: Zone, zones: seq<Zone>, tolerance: real)
    requires Separated(zones, tolerance)
    requires forall j :: 0 <= j < |zones| ==> Above(zones[j], z, tolerance)
    ensures Separated([z] + zones, tolerance)
  {
    var r := [z] + zones;
    forall i, j | 0 <= i < j < |r| ensures Above(r[j], r[i], tolerance) {
      if i > 0 {
        assert r[i] == zones[i - 1] && r[j] == zones[j - 1];
      }
    }
  }

  /**
   * On ascending levels, the zones come out strictly ascending and pairwise
   * separated by more than level * tolerance; the first zone is opened by the
   * lowest level and no zone lies above the highest level.
   */
  lemma {:induction false} GroupShape(s: seq<real>, counts: multiset<real>, tolerance: real)
    requires Ascending(s) && NonNegative(s) && tolerance >= 0.0
    ensures var r := Group(s, counts, tolerance);
            Separated(r, tolerance)
            && (|s| > 0 ==> r[0].level == s[0] && Last(r).level <= Last(s))
  {
    if s != [] {
      var p := AllButLast(s);
      assert Ascending(p) && NonNegative(p);
      GroupShape(p, counts, tolerance);
      assert p != [] ==> Last(p) <= Last(s);
      AddLevelKeepsShape(Group(p, counts, tolerance), Last(s), counts, tolerance);
    }
  }

  /** One grouping step keeps the zones separated, keeps the first zone, and ends at or below the new level. */
  lemma AddLevelKeepsShape(zones: seq<Zone>, level: real, counts: multiset<real>, tolerance: real)
    requires Separated(zones, tolerance) && level >= 0.0 && tolerance >= 0.0
    requires zones != [] ==> Last(zones).level <= level
    ensures var r := AddLevel(zones, level, counts, tolerance);
            Separated(r, tolerance) && |r| > 0 && Last(r).level <= level
            && (zones != [] ==> r[0].level == zones[0].level)
            && (zones == [] ==> r[0].level == level)
  {
    var r := AddLevel(zones, level, counts, tolerance);
    AddLevelShape(zones, level, counts, tolerance);
    if OpensZone(zones, level, tolerance) {
      assert level * tolerance >= 0.0;
      AppendKeepsShape(zones, Zone(level, counts[level]), tolerance);
    } else {
      SameLevelsSameShape(zones, r, tolerance);
      if |r| > 1 {
        assert r[0] == AllButLast(r)[0] && zones[0] == AllButLast(zones)[0];
      }
    }
  }

  /**
   * Every level lies in a zone at or below it and within level * tolerance of
   * that zone's level: the zone it was folded into, or the one it opened.
   */
  lemma {:induction false} GroupCovers(s: seq<real>, counts: multiset<real>, tolerance: real, k: nat)
    returns (i: nat)
    requires Ascending(s) && NonNegative(s) && tolerance >= 0.0
    requires k < |s|
    ensures i < |Group(s, counts, tolerance)| && Covers(Group(s, counts, tolerance)[i], s[k], tolerance)
  {
    var p := AllButLast(s);
    var x := Last(s);
    var prev := Group(p, counts, tolerance);
    var r := Group(s, counts, tolerance);
    assert r == AddLevel(prev, x, counts, tolerance);
    AddLevelShape(prev, x, counts, tolerance);
    assert Ascending(p) && NonNegative(p);
    if k < |p| {
      i := GroupCovers(p, counts, tolerance, k);
      assert p[k] == s[k];
      LevelKept(prev, x, counts, tolerance, i);
    } else {
      GroupShape(p, counts, tolerance);
      assert p != [] ==> Last(p) <= x;
      LastLevelCovers(prev, x, counts, tolerance);
      i := |r| - 1;
    }
  }

  /** Folding a level in keeps the level of every zone already there. */
  lemma LevelKept(zones: seq<Zone>, level: real, counts: multiset<real>, tolerance: real, i: nat)
    requires i < |zones|
    ensures var r := AddLevel(zones, level, counts, tolerance);
            i < |r| && r[i].level == zones[i].level
  {
    var r := AddLevel(zones, level, counts, tolerance);
    AddLevelShape(zones, level, counts, tolerance);
    if i < |zones| - 1 && !OpensZone(zones, level, tolerance) {
      assert r[i] == AllButLast(r)[i] && zones[i] == AllButLast(zones)[i];
    }
  }

  /** The level just added is covered by the last zone. */
  lemma LastLevelCovers(zones: seq<Zone>, level: real, counts: multiset<real>, tolerance: real)
    requires level >= 0.0 && tolerance >= 0.0
    requires zones != [] ==> Last(zones).level <= level
    ensures var r := AddLevel(zones, level, counts, tolerance);
            |r| > 0 && Covers(Last(r), level, tolerance)
  {
    AddLevelShape(zones, level, counts, tolerance);
    assert level * tolerance >= 0.0;
  }

  /**
   * Every zone level is one of the levels: the level at index k that opened the
   * zone. The zones built from the levels before k number i, and level k adds
   * zone i; later levels folded into the zone never move its level.
   */
  lemma {:induction false} GroupLevelsAreLevels(s: seq<real>, counts: multiset<real>, tolerance: real, i: nat)
    returns (k: nat)
    requires i < |Group(s, counts, tolerance)|
    ensures k < |s| && Group(s, counts, tolerance)[i].level == s[k]
    ensures |Group(s[..k], counts, tolerance)| == i && |Group(s[..k + 1], counts, tolerance)| == i + 1
  {
    var p := AllButLast(s);
    var prev := Group(p, counts, tolerance);
    AddLevelShape(prev, Last(s), counts, tolerance);
    if i < |prev| {
      k := GroupLevelsAreLevels(p, counts, tolerance, i);
      LevelKept(prev, Last(s), counts, tolerance, i);
      assert s[..k] == p[..k] && s[..k + 1] == p[..k + 1];
    } else {
      k := |s| - 1;
      assert s[..k] == p && s[..k + 1] == s;
    }
  }

  // ---------------------------------------------------------------- strength

  /** Sum of the strengths of a zone list. */
  function TotalStrength(zones: seq<Zone>): nat
  {
    if zones == [] then 0 else TotalStrength(AllButLast(zones)) + Last(zones).strength
  }

  /** Sum, over every occurrence in s, of that level's count. */
  function Weigh(s: seq<real>, counts: multiset<real>): nat
  {
    if s == [] then 0 else Weigh(AllButLast(s), counts) + counts[Last(s)]
  }

  /** Sum over the distinct elements x of m of m[x] * w[x]. */
  lemma NonEmptyHasElement(m: multiset<real>)
    requires m != multiset{}
    ensures exists x :: x in m
  {
    if forall x :: x !in m {
      assert false;
    }
  }

  ghost function WeightedSum(m: multiset<real>, w: multiset<real>): nat
    decreases m
  {
    if m == multiset{} then 0
    else
      NonEmptyHasElement(m);
      var x :| x in m;
      m[x] * w[x] + WeightedSum(m[x := 0], w)
  }

  /** Every occurrence of every level adds that level's total count: the strengths sum to the occurrences. */
  lemma {:induction false} GroupStrengthSum(s: seq<real>, counts: multiset<real>, tolerance: real)
    ensures TotalStrength(Group(s, counts, tolerance)) == Weigh(s, counts)
  {
    if s != [] {
      var prev := Group(AllButLast(s), counts, tolerance);
      GroupStrengthSum(AllButLast(s), counts, tolerance);
      var r := Group(s, counts, tolerance);
      if OpensZone(prev, Last(s), tolerance) {
        assert AllButLast(r) == prev;
      } else {
        assert AllButLast(r) == AllButLast(prev);
      }
    }
  }

  /** Every zone has strength at least one when every level occurs at least once. */
  lemma {:induction false} GroupStrengthPositive(s: seq<real>, counts: multiset<real>, tolerance: real)
    requires forall k :: 0 <= k < |s| ==> counts[s[k]] >= 1
    ensures forall i :: 0 <= i < |Group(s, counts, tolerance)| ==> Group(s, counts, tolerance)[i].strength >= 1
  {
    if s != [] {
      var p := AllButLast(s);
      assert forall k :: 0 <= k < |p| ==> counts[p[k]] >= 1 by {
        forall k | 0 <= k < |p| ensures counts[p[k]] >= 1 {
          assert p[k] == s[k];
        }
      }
      GroupStrengthPositive(p, counts, tolerance);
      var prev := Group(p, counts, tolerance);
      var r := Group(s, counts, tolerance);
      AddLevelShape(prev, Last(s), counts, tolerance);
      assert counts[Last(s)] >= 1;
      forall i | 0 <= i < |r| ensures r[i].strength >= 1 {
        if i < |r| - 1 && !OpensZone(prev, Last(s), tolerance) {
          assert r[i] == AllButLast(r)[i] && prev[i] == AllButLast(prev)[i];
        }
      }
    }
  }

  lemma {:induction false} WeightedSumPick(m: multiset<real>, w: multiset<real>, y: real)
    requires y in m
    ensures WeightedSum(m, w) == m[y] * w[y] + WeightedSum(m[y := 0], w)
    decreases m
  {
    var x :| x in m && WeightedSum(m, w) == m[x] * w[x] + WeightedSum(m[x := 0], w);
    if x != y {
      WeightedSumPick(m[x := 0], w, y);
      WeightedSumPick(m[y := 0], w, x);
      assert m[x := 0][y := 0] == m[y := 0][x := 0];
    }
  }

  lemma AddOneTimes(a: nat, b: nat)
    ensures (a + 1) * b == a * b + b
  {
  }

  /** Adding one occurrence of x adds w[x] to the weighted sum. */
  lemma WeightedSumAdd(m: multiset<real>, w: multiset<real>, x: real)
    ensures WeightedSum(m + multiset{x}, w) == WeightedSum(m, w) + w[x]
  {
    var m' := m + multiset{x};
    var a, b := m[x], w[x];
    assert m'[x] == a + 1;
    assert m'[x := 0] == m[x := 0];
    WeightedSumPick(m', w, x);
    if x in m {
      WeightedSumPick(m, w, x);
      AddOneTimes(a, b);
      calc {
        WeightedSum(m', w);
        (a + 1) * b + WeightedSum(m[x := 0], w);
        a * b + b + WeightedSum(m[x := 0], w);
        WeightedSum(m, w) + b;
      }
    } else {
      assert m[x := 0] == m;
    }
  }

  lemma {:induction false} WeighIsWeightedSum(s: seq<real>, w: multiset<real>)
    ensures Weigh(s, w) == WeightedSum(multiset(s), w)
  {
    if s != [] {
      var p := AllButLast(s);
      assert s == p + [Last(s)];
      assert multiset(s) == multiset(p) + multiset{Last(s)};
      WeighIsWeightedSum(p, w);
      WeightedSumAdd(multiset(p), w, Last(s));
    }
  }

  /**
   * Summed over the zones, the strengths equal the sum over the distinct
   * levels of the square of their counts: a level seen k times adds k * k.
   */
  lemma GroupStrengthIsSquareSum(s: seq<real>, tolerance: real)
    ensures TotalStrength(Group(s, multiset(s), tolerance)) == WeightedSum(multiset(s), multiset(s))
  {
    GroupStrengthSum(s, multiset(s), tolerance);
    WeighIsWeightedSum(s, multiset(s));
  }

  // ---------------------------------------------------------------- filter

  /** The filter keeps the separation (and so the ascending order), since it keeps a subsequence. */
  lemma {:induction false} KeepStrongShape(zones: seq<Zone>, minTests: int, tolerance: real)
    requires Separated(zones, tolerance)
    ensures Separated(KeepStrong(zones, minTests), tolerance)
  {
    if zones != [] {
      var rest := zones[1..];
      assert Separated(rest, tolerance);
      KeepStrongShape(rest, minTests, tolerance);
      var kept := KeepStrong(rest, minTests);
      forall j | 0 <= j < |kept| ensures Above(kept[j], zones[0], tolerance) {
        assert kept[j] in rest;
        var m :| 0 <= m < |rest| && rest[m] == kept[j];
        assert zones[m + 1] == kept[j];
      }
      if zones[0].strength >= minTests {
        PrependKeepsShape(zones[0], kept, tolerance);
      }
    }
  }

  // ---------------------------------------------------------------- the detector

  lemma CandidatesPositive(closes: seq<real>, side: Side, k: int)
    requires AllPositive(closes) && 0 <= k < |Candidates(closes, side)|
    ensures Candidates(closes, side)[k] > 0.0
  {
    CandidatesIff(closes, side, Candidates(closes, side)[k]);
  }

  /**
   * The detected zones ascend strictly and are pairwise separated by more than
   * level * tolerance, where the tolerance is average ATR over mean close; each
   * has strength at least minTests and at least 1, and each level is the close
   * of a reversal bar.
   */
  lemma DetectedZonesShape(closes: seq<real>, side: Side, averageAtr: real, minTests: int)
    requires AllPositive(closes) && averageAtr >= 0.0
    ensures var r := DetectZones(closes, side, averageAtr, minTests);
            Separated(r, ZoneTolerance(closes, averageAtr))
            && forall i :: 0 <= i < |r| ==>
                 r[i].strength >= minTests && r[i].strength >= 1 && r[i].level in Candidates(closes, side)
  {
    DetectedSeparated(closes, side, averageAtr, minTests);
    DetectedStrong(closes, side, averageAtr, minTests);
  }

  lemma DetectedSeparated(closes: seq<real>, side: Side, averageAtr: real, minTests: int)
    requires AllPositive(closes) && averageAtr >= 0.0
    ensures Separated(DetectZones(closes, side, averageAtr, minTests), ZoneTolerance(closes, averageAtr))
  {
    var levels := Candidates(closes, side);
    var sorted := Sort(levels);
    var tolerance := ZoneTolerance(closes, averageAtr);
    SortedCandidates(closes, side);
    GroupShape(sorted, multiset(levels), tolerance);
    KeepStrongShape(Group(sorted, multiset(levels), tolerance), minTests, tolerance);
  }

  lemma DetectedStrong(closes: seq<real>, side: Side, averageAtr: real, minTests: int)
    requires AllPositive(closes) && averageAtr >= 0.0
    ensures var r := DetectZones(closes, side, averageAtr, minTests);
            forall i :: 0 <= i < |r| ==>
              r[i].strength >= minTests && r[i].strength >= 1 && r[i].level in Candidates(closes, side)
  {
    var levels := Candidates(closes, side);
    var sorted := Sort(levels);
    var tolerance := ZoneTolerance(closes, averageAtr);
    var zones := Group(sorted, multiset(levels), tolerance);
    assert zones == UnfilteredZones(closes, side, averageAtr);
    SortedCandidates(closes, side);
    GroupStrengthPositive(sorted, multiset(levels), tolerance);
    var r := DetectZones(closes, side, averageAtr, minTests);
    assert r == KeepStrong(zones, minTests);
    forall i | 0 <= i < |r|
      ensures r[i].strength >= minTests && r[i].strength >= 1 && r[i].level in levels
    {
      assert r[i] in r;
      assert r[i] in zones && r[i].strength >= minTests;
      var j :| 0 <= j < |zones| && zones[j] == r[i];
      assert zones[j].strength >= 1;
      UnfilteredLevel(closes, side, averageAtr, j);
    }
  }

  /** The sorted candidates are positive and each occurs at least once. */
  lemma SortedCandidates(closes: seq<real>, side: Side)
    requires AllPositive(closes)
    ensures var levels := Candidates(closes, side);
            var sorted := Sort(levels);
            NonNegative(sorted) && forall k :: 0 <= k < |sorted| ==> multiset(levels)[sorted[k]] >= 1
  {
    var levels := Candidates(closes, side);
    var sorted := Sort(levels);
    forall k | 0 <= k < |sorted| ensures sorted[k] >= 0.0 && multiset(levels)[sorted[k]] >= 1 {
      SortedMembers(levels, k);
      var m :| 0 <= m < |levels| && levels[m] == sorted[k];
      CandidatesPositive(closes, side, m);
    }
  }

  /** Every zone level is the close of a reversal bar. */
  lemma UnfilteredLevel(closes: seq<real>, side: Side, averageAtr: real, j: nat)
    requires AllPositive(closes) && averageAtr >= 0.0
    requires j < |UnfilteredZones(closes, side, averageAtr)|
    ensures UnfilteredZones(closes, side, averageAtr)[j].level in Candidates(closes, side)
  {
    var levels := Candidates(closes, side);
    var sorted := Sort(levels);
    var k := GroupLevelsAreLevels(sorted, multiset(levels), ZoneTolerance(closes, averageAtr), j);
    SortedMembers(levels, k);
  }

  /**
   * Before the filter, the zone strengths of one side sum to the sum over the
   * distinct candidate levels of the square of their occurrence counts.
   */
  lemma UnfilteredStrengthIsSquareSum(closes: seq<real>, side: Side, averageAtr: real)
    requires AllPositive(closes) && averageAtr >= 0.0
    ensures var levels := Candidates(closes, side);
            TotalStrength(UnfilteredZones(closes, side, averageAtr)) == WeightedSum(multiset(levels), multiset(levels))
  {
    var levels := Candidates(closes, side);
    var sorted := Sort(levels);
    GroupStrengthIsSquareSum(sorted, ZoneTolerance(closes, averageAtr));
  }

  /** Every close of a reversal bar lies in a zone at or below it, within the tolerance, before the filter. */
  lemma CandidateCovered(closes: seq<real>, side: Side, averageAtr: real, x: real) returns (i: nat)
    requires AllPositive(closes) && averageAtr >= 0.0
    requires x in Candidates(closes, side)
    ensures var zones := UnfilteredZones(closes, side, averageAtr);
            i < |zones| && Covers(zones[i], x, ZoneTolerance(closes, averageAtr))
  {
    var levels := Candidates(closes, side);
    var sorted := Sort(levels);
    assert x in multiset(sorted);
    var k :| 0 <= k < |sorted| && sorted[k] == x;
    SortedCandidates(closes, side);
    i := GroupCovers(sorted, multiset(levels), ZoneTolerance(closes, averageAtr), k);
  }

  /** The closes of the worked example below. */
  function ExampleCloses(): seq<real>
  {
    [10.0, 9.0, 10.0, 11.0, 9.0, 10.0, 12.0, 9.0, 10.0]
  }

  lemma ExampleTolerance()
    ensures AllPositive(ExampleCloses())
    ensures ZoneTolerance(ExampleCloses(), 0.5) == 0.05
  {
    var closes := ExampleCloses();
    assert Sum(closes[8..]) == 10.0;
    assert Sum(closes[7..]) == 19.0;
    assert Sum(closes[6..]) == 31.0;
    assert Sum(closes[5..]) == 41.0;
    assert Sum(closes[4..]) == 50.0;
    assert Sum(closes[3..]) == 61.0;
    assert Sum(closes[2..]) == 71.0;
    assert Sum(closes[1..]) == 80.0;
    assert Mean(closes) == 10.0;
  }

  lemma ExampleCandidates()
    ensures Candidates(ExampleCloses(), Support) == [9.0, 9.0, 9.0]
    ensures Candidates(ExampleCloses(), Resistance) == [11.0, 12.0]
  {
    var closes := ExampleCloses();
    assert CandidatesBefore(closes, Support, 2) == [9.0];
    assert CandidatesBefore(closes, Support, 3) == [9.0];
    assert CandidatesBefore(closes, Support, 4) == [9.0];
    assert CandidatesBefore(closes, Support, 5) == [9.0, 9.0];
    assert CandidatesBefore(closes, Support, 6) == [9.0, 9.0];
    assert CandidatesBefore(closes, Support, 7) == [9.0, 9.0];
    assert CandidatesBefore(closes, Resistance, 2) == [];
    assert CandidatesBefore(closes, Resistance, 3) == [];
    assert CandidatesBefore(closes, Resistance, 4) == [11.0];
    assert CandidatesBefore(closes, Resistance, 5) == [11.0];
    assert CandidatesBefore(closes, Resistance, 6) == [11.0];
    assert CandidatesBefore(closes, Resistance, 7) == [11.0, 12.0];
  }

  lemma ExampleSupportSort()
    ensures Sort([9.0, 9.0, 9.0]) == [9.0, 9.0, 9.0]
  {
    assert Sort([9.0]) == [9.0];
    assert Sort([9.0, 9.0]) == [9.0, 9.0];
  }

  lemma ExampleSupportCount()
    ensures multiset([9.0, 9.0, 9.0])[9.0] == 3
  {
    assert multiset([9.0, 9.0, 9.0]) == multiset{9.0, 9.0, 9.0};
  }

  lemma ExampleSupportGroupOne()
    ensures Group([9.0], multiset([9.0, 9.0, 9.0]), 0.05) == [Zone(9.0, 3)]
  {
    ExampleSupportCount();
    assert AllButLast([9.0]) == [];
  }

  lemma ExampleSupportGroupTwo()
    ensures Group([9.0, 9.0], multiset([9.0, 9.0, 9.0]), 0.05) == [Zone(9.0, 6)]
  {
    ExampleSupportGroupOne();
    ExampleSupportCount();
    assert AllButLast([9.0, 9.0]) == [9.0];
    assert !OpensZone([Zone(9.0, 3)], 9.0, 0.05);
  }

  lemma ExampleSupportGroup()
    ensures Group(Sort([9.0, 9.0, 9.0]), multiset([9.0, 9.0, 9.0]), 0.05) == [Zone(9.0, 9)]
  {
    ExampleSupportSort();
    ExampleSupportGroupTwo();
    ExampleSupportCount();
    assert AllButLast([9.0, 9.0, 9.0]) == [9.0, 9.0];
    assert !OpensZone([Zone(9.0, 6)], 9.0, 0.05);
    var c := multiset([9.0, 9.0, 9.0]);
    assert Group([9.0, 9.0, 9.0], c, 0.05) == AddLevel([Zone(9.0, 6)], 9.0, c, 0.05);
  }

  lemma ExampleResistanceGroup()
    ensures Group(Sort([11.0, 12.0]), multiset([11.0, 12.0]), 0.05) == [Zone(11.0, 1), Zone(12.0, 1)]
  {
    var levels := [11.0, 12.0];
    assert Sort([12.0]) == [12.0];
    assert Sort(levels) == levels;
    var counts := multiset(levels);
    assert counts[11.0] == 1 && counts[12.0] == 1;
    assert Group([11.0], counts, 0.05) == [Zone(11.0, 1)];
    assert AllButLast(levels) == [11.0];
    assert OpensZone([Zone(11.0, 1)], 12.0, 0.05);
    assert AddLevel([Zone(11.0, 1)], 12.0, counts, 0.05) == [Zone(11.0, 1), Zone(12.0, 1)];
  }

  function TwoTouchCloses(): seq<real>
  {
    [10.0, 9.0, 10.0, 9.0, 10.0]
  }

  lemma TwoTouchCandidates()
    ensures AllPositive(TwoTouchCloses())
    ensures ZoneTolerance(TwoTouchCloses(), 0.0) == 0.0
    ensures Candidates(TwoTouchCloses(), Support) == [9.0, 9.0]
  {
    var closes := TwoTouchCloses();
    assert CandidatesBefore(closes, Support, 2) == [9.0];
    assert CandidatesBefore(closes, Support, 3) == [9.0];
  }

  lemma TwoTouchGroup()
    ensures Group(Sort([9.0, 9.0]), multiset([9.0, 9.0]), 0.0) == [Zone(9.0, 4)]
  {
    var c := multiset([9.0, 9.0]);
    assert c == multiset{9.0, 9.0};
    assert Sort([9.0]) == [9.0];
    assert Sort([9.0, 9.0]) == [9.0, 9.0];
    assert AllButLast([9.0]) == [];
    assert Group([9.0], c, 0.0) == [Zone(9.0, 2)];
    assert AllButLast([9.0, 9.0]) == [9.0];
    assert !OpensZone([Zone(9.0, 2)], 9.0, 0.0);
    assert Group([9.0, 9.0], c, 0.0) == AddLevel([Zone(9.0, 2)], 9.0, c, 0.0);
  }

  /**
   * Strength is not a touch count: in 10, 9, 10, 9, 10 the level 9 is touched
   * twice, but each touch adds the count 2, so the zone has strength 4 and a
   * minimum of 3 keeps it.
   */
  lemma TwoTouchesPassMinimumThree()
    ensures AllPositive(TwoTouchCloses())
    ensures |set i: nat | 1 <= i < |TwoTouchCloses()| - 1 && IsReversal(TwoTouchCloses(), i, Support)| == 2
    ensures DetectZones(TwoTouchCloses(), Support, 0.0, 3) == [Zone(9.0, 4)]
  {
    TwoTouchCandidates();
    TwoTouchGroup();
    TwoTouchBars();
  }

  lemma TwoTouchBars()
    ensures |set i: nat | 1 <= i < |TwoTouchCloses()| - 1 && IsReversal(TwoTouchCloses(), i, Support)| == 2
  {
    var closes := TwoTouchCloses();
    var bars := set i: nat | 1 <= i < |closes| - 1 && IsReversal(closes, i, Support);
    assert bars == {1, 3} by {
      assert IsReversal(closes, 1, Support) && IsReversal(closes, 3, Support);
      assert !IsReversal(closes, 2, Support);
      forall i: nat | i in bars ensures i == 1 || i == 3 {
        assert i == 1 || i == 2 || i == 3;
      }
    }
  }

  /**
   * The closes 10, 9, 10, 11, 9, 10, 12, 9, 10 with an average ATR of 0.5 (a
   * tolerance of 0.05): the three touches of 9 form one support zone, and as
   * each occurrence adds the level's total count its strength is 9, not 3.
   * The resistance candidates 11 and 12 lie 1 apart, more than 12 * 0.05, so
   * they stay two zones of strength 1, which a minimum strength of 3 removes.
   */
  lemma WorkedExample()
    ensures AllPositive(ExampleCloses())
    ensures DetectZones(ExampleCloses(), Support, 0.5, 3) == [Zone(9.0, 9)]
    ensures UnfilteredZones(ExampleCloses(), Resistance, 0.5) == [Zone(11.0, 1), Zone(12.0, 1)]
    ensures DetectZones(ExampleCloses(), Resistance, 0.5, 3) == []
  {
    ExampleTolerance();
    ExampleCandidates();
    ExampleSupportGroup();
    ExampleResistanceGroup();
  }
}

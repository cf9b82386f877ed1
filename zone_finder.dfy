/**
 * The two entry points of the zone detector. Both read the same average ATR
 * (passed in here; the source reads it from a module-level variable) and so use
 * the same tolerance; they differ only in the direction of the reversal test.
 */
module ZoneFinder {
  import opened Sequences
  import opened Zones
  import opened ZoneProperties

  /** Support zones: clusters of strict local minima of the closes with strength at least minTests. */
  method FindSupportZones(closes: seq<real>, averageAtr: real, minTests: int) returns (zones: seq<Zone>)
    requires AllPositive(closes) && averageAtr >= 0.0
    ensures zones == DetectZones(closes, Support, averageAtr, minTests)
    ensures Separated(zones, ZoneTolerance(closes, averageAtr))
    ensures forall i :: 0 <= i < |zones| ==>
              zones[i].strength >= minTests && zones[i].strength >= 1 && zones[i].level in Candidates(closes, Support)
  {
    zones := FindZones(closes, Support, averageAtr, minTests);
    DetectedZonesShape(closes, Support, averageAtr, minTests);
  }

  /** Resistance zones: clusters of strict local maxima of the closes with strength at least minTests. */
  method FindResistanceZones(closes: seq<real>, averageAtr: real, minTests: int) returns (zones: seq<Zone>)
    requires AllPositive(closes) && averageAtr >= 0.0
    ensures zones == DetectZones(closes, Resistance, averageAtr, minTests)
    ensures Separated(zones, ZoneTolerance(closes, averageAtr))
    ensures forall i :: 0 <= i < |zones| ==>
              zones[i].strength >= minTests && zones[i].strength >= 1 && zones[i].level in Candidates(closes, Resistance)
  {
    zones := FindZones(closes, Resistance, averageAtr, minTests);
    DetectedZonesShape(closes, Resistance, averageAtr, minTests);
  }
}

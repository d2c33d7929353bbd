/**
  `getTimeZonesForOffset` (src/db/legacy-migration/migrate.ts:136-143): the first
  zone name, in the order the time-zone database lists them, whose current
  UTC offset in minutes equals the legacy offset in hours times 60.
 */
module TimeZones {
  import opened Wrappers

  /** A named zone with its current offset from UTC, in minutes. */
  datatype Zone = Zone(name: string, offsetMinutes: int)

  /**
    Whether a zone's offset equals `offset * 60`; `offset` is the number the
    legacy value converts to, `None` standing for `NaN`, which equals nothing.
   */
  predicate Matches(zone: Zone, offsetHours: Option<real>)
  {
    offsetHours.Some? && offsetHours.value * 60.0 == zone.offsetMinutes as real
  }

  /** The index of the first matching zone, as `Array.prototype.find` scans. */
  function FirstMatch(zones: seq<Zone>, offsetHours: Option<real>): (r: Option<nat>)
    ensures r.None? <==> forall j :: 0 <= j < |zones| ==> !Matches(zones[j], offsetHours)
    ensures r.Some? ==> r.value < |zones| && Matches(zones[r.value], offsetHours)
    ensures r.Some? ==> forall j :: 0 <= j < r.value ==> !Matches(zones[j], offsetHours)
    decreases |zones|
  {
    if zones == [] then None
    else if Matches(zones[0], offsetHours) then Some(0)
    else
      match FirstMatch(zones[1..], offsetHours)
      case None => None
      case Some(k) => Some(k + 1)
  }

  /** The zone name chosen for a legacy offset, or `None` (`undefined`) when no zone matches. */
  function ZoneForOffset(zones: seq<Zone>, offsetHours: Option<real>): (r: Option<string>)
    ensures r.None? <==> forall j :: 0 <= j < |zones| ==> !Matches(zones[j], offsetHours)
    ensures r.Some? ==> exists i :: 0 <= i < |zones| && zones[i].name == r.value
                          && Matches(zones[i], offsetHours)
                          && forall j :: 0 <= j < i ==> !Matches(zones[j], offsetHours)
  {
    match FirstMatch(zones, offsetHours)
    case None => None
    case Some(i) => Some(zones[i].name)
  }

  /** An offset that converts to `NaN` selects no zone. */
  lemma NaNOffsetSelectsNothing(zones: seq<Zone>)
    ensures ZoneForOffset(zones, None) == None
  {
  }

  /** Zones listed after the first match never influence the choice. */
  lemma {:induction false} LaterZonesIrrelevant(zones: seq<Zone>, more: seq<Zone>, offsetHours: Option<real>)
    requires ZoneForOffset(zones, offsetHours).Some?
    ensures ZoneForOffset(zones + more, offsetHours) == ZoneForOffset(zones, offsetHours)
    decreases |zones|
  {
    if !Matches(zones[0], offsetHours) {
      assert (zones + more)[1..] == zones[1..] + more;
      LaterZonesIrrelevant(zones[1..], more, offsetHours);
    }
  }
}

/**
 * The feed identities the subscription layer works with: the twelve typed
 * feeds a delivery carries (one Java model class each) and the GBFS v2.3
 * feed names under which raw bytes are kept and handed to the validator.
 */
module GbfsFeeds {

  import opened Wrappers

  /** The twelve typed feeds of a delivery, in the order the subscription fills them. */
  datatype FeedType =
    | GbfsVersions
    | SystemInformation
    | VehicleTypes
    | SystemRegions
    | StationInformation
    | StationStatus
    | FreeBikeStatus
    | SystemAlerts
    | SystemCalendar
    | SystemHours
    | SystemPricingPlans
    | GeofencingZones

  /** The GBFS v2.3 feed names (the `GBFSFeedName` enumeration), the discovery feed included. */
  datatype FeedName =
    | Gbfs
    | GbfsVersionsName
    | SystemInformationName
    | VehicleTypesName
    | StationInformationName
    | StationStatusName
    | FreeBikeStatusName
    | SystemHoursName
    | SystemAlertsName
    | SystemCalendarName
    | SystemRegionsName
    | SystemPricingPlansName
    | GeofencingZonesName
  {
    /** The name as it appears in a discovery document (`GBFSFeedName.value()`). */
    function Value(): string
    {
      match this
      case Gbfs => "gbfs"
      case GbfsVersionsName => "gbfs_versions"
      case SystemInformationName => "system_information"
      case VehicleTypesName => "vehicle_types"
      case StationInformationName => "station_information"
      case StationStatusName => "station_status"
      case FreeBikeStatusName => "free_bike_status"
      case SystemHoursName => "system_hours"
      case SystemAlertsName => "system_alerts"
      case SystemCalendarName => "system_calendar"
      case SystemRegionsName => "system_regions"
      case SystemPricingPlansName => "system_pricing_plans"
      case GeofencingZonesName => "geofencing_zones"
    }
  }

  /** Distinct feed names have distinct values, so a map keyed by value loses no entry. */
  lemma ValueInjective(a: FeedName, b: FeedName)
    ensures a.Value() == b.Value() ==> a == b
  {
  }

  /** The enumeration in declaration order (`GBFSFeedName.values()`): every name exactly once. */
  function AllFeedNames(): (r: seq<FeedName>)
    ensures |r| == 13
    ensures forall i, j :: 0 <= i < j < |r| ==> r[i] != r[j]
  {
    [Gbfs, GbfsVersionsName, SystemInformationName, VehicleTypesName, StationInformationName,
     StationStatusName, FreeBikeStatusName, SystemHoursName, SystemAlertsName, SystemCalendarName,
     SystemRegionsName, SystemPricingPlansName, GeofencingZonesName]
  }

  /** `values()` leaves no feed name out. */
  lemma InAllFeedNames(n: FeedName)
    ensures n in AllFeedNames()
  {
  }
}

/**
 * `GbfsDelivery`: the snapshot a subscription hands to its consumer. The
 * discovery document has type `D`, every typed feed type `V` (the twelve
 * Java model classes are opaque here) and the validation result type `R`.
 * `None` stands for a Java field left null.
 */
module GbfsDeliveries {

  import opened Wrappers
  import opened GbfsFeeds

  datatype GbfsDelivery<D, V, R> = GbfsDelivery(
    discovery: Option<D>,
    version: Option<V>,
    systemInformation: Option<V>,
    vehicleTypes: Option<V>,
    systemRegions: Option<V>,
    stationInformation: Option<V>,
    stationStatus: Option<V>,
    freeBikeStatus: Option<V>,
    systemAlerts: Option<V>,
    systemCalendar: Option<V>,
    systemHours: Option<V>,
    systemPricingPlans: Option<V>,
    geofencingZones: Option<V>,
    validationResult: Option<R>)
  {
    /** The field that holds the feed of type `t`. */
    function Feed(t: FeedType): Option<V>
    {
      match t
      case GbfsVersions => version
      case SystemInformation => systemInformation
      case VehicleTypes => vehicleTypes
      case SystemRegions => systemRegions
      case StationInformation => stationInformation
      case StationStatus => stationStatus
      case FreeBikeStatus => freeBikeStatus
      case SystemAlerts => systemAlerts
      case SystemCalendar => systemCalendar
      case SystemHours => systemHours
      case SystemPricingPlans => systemPricingPlans
      case GeofencingZones => geofencingZones
    }
  }

  /** A freshly constructed delivery (`new GbfsDelivery()`): every field null. */
  function EmptyDelivery<D, V, R>(): (r: GbfsDelivery<D, V, R>)
    ensures r.discovery == None && r.validationResult == None
    ensures forall t :: r.Feed(t) == None
  {
    GbfsDelivery(None, None, None, None, None, None, None, None, None, None, None, None, None, None)
  }

  /**
   * The delivery that carries `discovery`, the typed value of every feed type
   * present in `feeds` (and null for every other), and `validation`.
   */
  function DeliveryOf<D, V, R>(discovery: Option<D>, feeds: map<FeedType, V>, validation: Option<R>)
    : (r: GbfsDelivery<D, V, R>)
    ensures r.discovery == discovery && r.validationResult == validation
    ensures forall t :: r.Feed(t) == Lookup(feeds, t)
    ensures forall t :: r.Feed(t).None? <==> t !in feeds
  {
    GbfsDelivery(
      discovery,
      Lookup(feeds, GbfsVersions),
      Lookup(feeds, SystemInformation),
      Lookup(feeds, VehicleTypes),
      Lookup(feeds, SystemRegions),
      Lookup(feeds, StationInformation),
      Lookup(feeds, StationStatus),
      Lookup(feeds, FreeBikeStatus),
      Lookup(feeds, SystemAlerts),
      Lookup(feeds, SystemCalendar),
      Lookup(feeds, SystemHours),
      Lookup(feeds, SystemPricingPlans),
      Lookup(feeds, GeofencingZones),
      validation)
  }
}

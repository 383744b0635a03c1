/**
 * `GbfsSubscription`: one operator's loader bound to a consumer. On every
 * update that the loader reports as a change it assembles a delivery from
 * the loader's state, optionally attaches a validation result, and hands the
 * delivery to the consumer. The consumer is represented by `delivered`, the
 * sequence of deliveries it has been handed.
 */
module GbfsSubscriptions {

  import opened Wrappers
  import opened GbfsFeeds
  import opened GbfsDeliveries
  import opened GbfsLoaders

  /** The options bundle of `GbfsSubscriptionOptions` that the subscription reads. */
  datatype GbfsSubscriptionOptions = GbfsSubscriptionOptions(
    discoveryUri: string,
    headers: map<string, string>,
    languageCode: string,
    timeout: Option<int>,
    enableValidation: bool)

  /** The JSON-schema validator: a function of the map from feed name to raw content. */
  type Validator<R> = map<string, Bytes> -> R

  /**
   * The validator's input for the raw feeds `raw`: one entry per feed name
   * that has raw content, keyed by the name's value, holding that content.
   */
  function RawFeedMap(raw: map<FeedName, Bytes>): (m: map<string, Bytes>)
    ensures m.Keys == set n | n in raw :: n.Value()
    ensures forall n :: n in raw ==> m[n.Value()] == raw[n]
  {
    assert forall a, b :: a in raw && b in raw && a.Value() == b.Value() ==> a == b by {
      forall a, b | a in raw && b in raw && a.Value() == b.Value() ensures a == b {
        ValueInjective(a, b);
      }
    }
    map n | n in raw :: n.Value() := raw[n]
  }

  /** Adding one raw feed adds exactly its entry to the validator's input. */
  lemma RawFeedMapPut(raw: map<FeedName, Bytes>, n: FeedName, b: Bytes)
    ensures RawFeedMap(raw[n := b]) == RawFeedMap(raw)[n.Value() := b]
  {
    var l, r := RawFeedMap(raw[n := b]), RawFeedMap(raw)[n.Value() := b];
    forall k | k in l ensures k in r && l[k] == r[k] {
      var x :| x in raw[n := b] && x.Value() == k;
      ValueInjective(x, n);
    }
  }

  /** The raw feeds of `raw` whose names occur in `names`. */
  function RawFeedsAmong(raw: map<FeedName, Bytes>, names: seq<FeedName>): (r: map<FeedName, Bytes>)
    ensures r.Keys <= raw.Keys
    ensures forall n :: n in r <==> n in raw && n in names
    ensures forall n :: n in r ==> r[n] == raw[n]
  {
    map n | n in raw && n in names :: raw[n]
  }

  /** Going one name further along `names` adds that name's raw feed, if it has one. */
  lemma RawFeedsAmongNext(raw: map<FeedName, Bytes>, names: seq<FeedName>, i: nat)
    requires i < |names|
    ensures RawFeedsAmong(raw, names[..i + 1])
         == if names[i] in raw then RawFeedsAmong(raw, names[..i])[names[i] := raw[names[i]]]
            else RawFeedsAmong(raw, names[..i])
  {
    assert names[..i + 1] == names[..i] + [names[i]];
  }

  /** Going through the whole enumeration collects every raw feed. */
  lemma RawFeedsAmongAll(raw: map<FeedName, Bytes>)
    ensures RawFeedsAmong(raw, AllFeedNames()[..|AllFeedNames()|]) == raw
  {
    var names := AllFeedNames();
    forall n | n in raw ensures n in names {
      InAllFeedNames(n);
    }
    assert names[..|names|] == names;
  }

  class GbfsSubscription<D, V, R> {
    const options: GbfsSubscriptionOptions
    const validator: Validator<R>
    /** Null until `Init` has run. */
    var loader: GbfsLoader?<D, V>
    /** Every delivery handed to the consumer, oldest first. */
    var delivered: seq<GbfsDelivery<D, V, R>>

    constructor (options: GbfsSubscriptionOptions, validator: Validator<R>)
      ensures this.options == options && this.validator == validator
      ensures loader == null && delivered == []
    {
      this.options := options;
      this.validator := validator;
      loader := null;
      delivered := [];
    }

    /** Creates the loader from the options. */
    method Init()
      modifies this`loader
      ensures loader != null && fresh(loader) && loader.outcomes == []
      ensures loader.discoveryUri == options.discoveryUri && loader.headers == options.headers
      ensures loader.languageCode == options.languageCode && loader.timeout == options.timeout
    {
      loader := new GbfsLoader(options.discoveryUri, options.headers, options.languageCode, options.timeout);
    }

    /** Whether the loader has completed its setup; only defined once `Init` has run. */
    function GetSetupComplete(): (r: bool)
      requires loader != null
      reads this, loader
      ensures r == loader.setupComplete
    {
      loader.GetSetupComplete()
    }

    /**
     * The delivery the current loader state calls for: the loader's discovery
     * document, the loader's value for each feed type (null where it has
     * none), and a validation result exactly when validation is enabled.
     */
    function Expected(): (r: GbfsDelivery<D, V, R>)
      requires loader != null
      reads this, loader
      ensures r.discovery == loader.GetDiscoveryFeed()
      ensures forall t :: r.Feed(t) == loader.GetFeed(t)
      ensures r.validationResult.Some? <==> options.enableValidation
      ensures r.validationResult.Some? ==> r.validationResult.value == validator(RawFeedMap(loader.rawFeeds))
    {
      DeliveryOf(loader.discovery, loader.feeds,
                 if options.enableValidation then Some(validator(RawFeedMap(loader.rawFeeds))) else None)
    }

    /**
     * What one `Update` does, from a state in which the consumer had been
     * handed `before` and the loader's history was `history`: the loader ran
     * exactly one more pass, and the consumer has been handed exactly the
     * delivery for the new loader state if that pass reported a change, and
     * nothing more otherwise.
     */
    ghost predicate PolledOnceFrom(before: seq<GbfsDelivery<D, V, R>>, history: seq<bool>)
      reads this, loader
    {
      && loader != null
      && |loader.outcomes| == |history| + 1
      && loader.outcomes[..|history|] == history
      && delivered == if loader.outcomes[|history|] then before + [Expected()] else before
    }

    /** Updates the loader and, if it changed, delivers the new snapshot to the consumer. */
    method Update()
      requires loader != null
      modifies this`delivered, loader
      ensures PolledOnceFrom(old(delivered), old(loader.outcomes))
    {
      var changed := loader.Update();
      if changed {
        var delivery: GbfsDelivery<D, V, R> := EmptyDelivery();
        delivery := delivery.(discovery := loader.GetDiscoveryFeed());
        delivery := delivery.(version := loader.GetFeed(GbfsVersions));
        delivery := delivery.(systemInformation := loader.GetFeed(SystemInformation));
        delivery := delivery.(vehicleTypes := loader.GetFeed(VehicleTypes));
        delivery := delivery.(systemRegions := loader.GetFeed(SystemRegions));
        delivery := delivery.(stationInformation := loader.GetFeed(StationInformation));
        delivery := delivery.(stationStatus := loader.GetFeed(StationStatus));
        delivery := delivery.(freeBikeStatus := loader.GetFeed(FreeBikeStatus));
        delivery := delivery.(systemAlerts := loader.GetFeed(SystemAlerts));
        delivery := delivery.(systemCalendar := loader.GetFeed(SystemCalendar));
        delivery := delivery.(systemHours := loader.GetFeed(SystemHours));
        delivery := delivery.(systemPricingPlans := loader.GetFeed(SystemPricingPlans));
        delivery := delivery.(geofencingZones := loader.GetFeed(GeofencingZones));

        if options.enableValidation {
          var result := ValidateFeeds();
          delivery := delivery.(validationResult := Some(result));
        }

        delivered := delivered + [delivery];
      }
    }

    /** Validates the raw content of every feed the loader has raw bytes for. */
    method ValidateFeeds() returns (result: R)
      requires loader != null
      ensures result == validator(RawFeedMap(loader.rawFeeds))
    {
      var feeds: map<string, Bytes> := map[];
      var names := AllFeedNames();
      for i := 0 to |names|
        invariant feeds == RawFeedMap(RawFeedsAmong(loader.rawFeeds, names[..i]))
      {
        var feedName := names[i];
        var rawFeed := loader.GetRawFeed(feedName);
        RawFeedsAmongNext(loader.rawFeeds, names, i);
        if rawFeed.Some? {
          RawFeedMapPut(RawFeedsAmong(loader.rawFeeds, names[..i]), feedName, loader.GetRawFeed(feedName).value);
          feeds := feeds[feedName.Value() := loader.GetRawFeed(feedName).value];
        }
      }
      RawFeedsAmongAll(loader.rawFeeds);
      result := validator(feeds);
    }
  }
}

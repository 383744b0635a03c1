/**
 * The polling engine one subscription drives. Its implementation (discovery,
 * fetching, parsing, refresh intervals) is not part of this model: it is
 * state that an update pass replaces by whatever the network produced, plus
 * the read accessors the subscription uses.
 */
module GbfsLoaders {

  import opened Wrappers
  import opened GbfsFeeds

  type Bytes = seq<bv8>

  class GbfsLoader<D, V> {
    // Configuration passed in by the subscription.
    const discoveryUri: string
    const headers: map<string, string>
    const languageCode: string
    const timeout: Option<int>

    // What the last passes left behind.
    var setupComplete: bool
    var discovery: Option<D>
    var feeds: map<FeedType, V>
    var rawFeeds: map<FeedName, Bytes>

    /** The result of every `Update` so far, oldest first. */
    ghost var outcomes: seq<bool>

    /** Creating a loader may already reach the network, so its state is unconstrained. */
    constructor (discoveryUri: string, headers: map<string, string>, languageCode: string, timeout: Option<int>)
      ensures this.discoveryUri == discoveryUri && this.headers == headers
      ensures this.languageCode == languageCode && this.timeout == timeout
      ensures outcomes == []
    {
      this.discoveryUri := discoveryUri;
      this.headers := headers;
      this.languageCode := languageCode;
      this.timeout := timeout;
      setupComplete := *;
      discovery := *;
      feeds := *;
      rawFeeds := *;
      outcomes := [];
    }

    /** One polling pass: any new state, and whether the pass reports a change. */
    method Update() returns (changed: bool)
      modifies this
      ensures outcomes == old(outcomes) + [changed]
    {
      changed := *;
      setupComplete := *;
      discovery := *;
      feeds := *;
      rawFeeds := *;
      outcomes := outcomes + [changed];
    }

    /** Whether the loader has completed its setup. */
    function GetSetupComplete(): (r: bool)
      reads this
      ensures r == setupComplete
    {
      setupComplete
    }

    /** The discovery document, or null if there is none. */
    function GetDiscoveryFeed(): (r: Option<D>)
      reads this
      ensures r == discovery
    {
      discovery
    }

    /** The typed value of feed type `t`, or null. */
    function GetFeed(t: FeedType): (r: Option<V>)
      reads this
      ensures r.Some? <==> t in feeds
      ensures r.Some? ==> r.value == feeds[t]
    {
      Lookup(feeds, t)
    }

    /** The raw bytes of the feed named `n`, or null. */
    function GetRawFeed(n: FeedName): (r: Option<Bytes>)
      reads this
      ensures r.Some? <==> n in rawFeeds
      ensures r.Some? ==> r.value == rawFeeds[n]
    {
      Lookup(rawFeeds, n)
    }
  }
}

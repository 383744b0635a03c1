# GBFS subscription layer, modelled in Dafny

This project models the delivery layer of a GBFS (General Bikeshare Feed
Specification) loader: the per-operator `GbfsSubscription`, which asks its
loader to poll and, when the loader reports a change, assembles a
`GbfsDelivery` snapshot (the discovery document plus the twelve typed feeds,
optionally with a validation result) and hands it to its consumer; and the
`GbfsSubscriptionManager`, a registry from subscription identifier to
subscription that subscribes, unsubscribes and updates every registered
subscription.

Files and modules:

- `wrappers.dfy` (`Wrappers`): `Option` for Java's nullable references, and `Lookup` for a `Map.get` that may return null.
- `feeds.dfy` (`GbfsFeeds`): the twelve typed feed types of a delivery and the thirteen GBFS v2.3 feed names with their string values.
- `delivery.dfy` (`GbfsDeliveries`): the `GbfsDelivery` snapshot as an immutable datatype.
- `loader.dfy` (`GbfsLoaders`): the polling engine as an abstract object. Its state is whatever a pass produced. A ghost history `outcomes` records each `Update` result.
- `subscription.dfy` (`GbfsSubscriptions`): the subscription class, the validator's input map, and the delivery assembly.
- `manager.dfy` (`GbfsSubscriptionManagers`): the registry class.

Modelling choices:

- The consumer callback is represented by the subscription's `delivered` field: the sequence of deliveries it has been handed, oldest first. A consumer call is an append.
- The discovery document, the typed feed values and the validation result are type parameters `D`, `V` and `R`. All twelve typed feeds share the type `V`.
- The JSON-schema validator is a total function from the feed map to `R`. The manager receives it at construction and passes it to each subscription.
- The random UUID that `subscribe` draws is an `id` parameter.
- The loader's network passes are nondeterministic: it is created and updated with arbitrary state.
- `GbfsSubscription.Update` builds the delivery field by field with datatype updates, one per Java setter. It is proved equal to `Expected()`, which states the whole snapshot in terms of the loader's accessors.
- `GbfsSubscriptionManager.Valid()` says that every registered subscription has a loader and that no two identifiers share a subscription or a loader. Every subscription that `subscribe` creates is fresh, so this holds.
- The feed-name enumeration `GBFSFeedName` is not part of this model's source files. It is taken to be the thirteen names of the GBFS v2.3 discovery schema, `gbfs` included, in schema order, with their snake-case values. The proofs depend only on the values being distinct and on every name being listed once.

Two behaviours of the code differ from what a GBFS consumer might expect; the model follows the code:

- A consumer might expect absent feed types to be left out of a delivery. The code null-fills them, so a delivery carries `None` for every feed type the loader lacks.
- A consumer might expect one subscription's failure not to stop the others. Neither class catches an exception from the consumer or the validator.

## Model

| member | source | states |
|---|---|---|
| GbfsSubscriptions.GbfsSubscription.constructor | src/main/java/org/entur/gbfs/GbfsSubscription.java:53-56 | stores the options (and validator); no loader exists yet and nothing has been delivered |
| GbfsSubscriptions.GbfsSubscription.Init | src/main/java/org/entur/gbfs/GbfsSubscription.java:61-69 | creates a fresh loader configured with the options' discovery URI, headers, language code and timeout; only the `loader` field changes |
| GbfsSubscriptions.GbfsSubscription.GetSetupComplete | src/main/java/org/entur/gbfs/GbfsSubscription.java:75-77 | callable only once `Init` has created the loader; returns the loader's setup-complete flag |
| GbfsSubscriptions.GbfsSubscription.Update | src/main/java/org/entur/gbfs/GbfsSubscription.java:83-106 | requires `Init` to have run; runs exactly one loader pass; if the pass reports a change, appends exactly one delivery, equal to `Expected()` for the loader state after the pass; otherwise appends nothing; options, validator and loader reference are unchanged |
| GbfsSubscriptions.GbfsSubscription.Expected | src/main/java/org/entur/gbfs/GbfsSubscription.java:85-102 | the delivery's discovery field is the loader's discovery feed; each of the twelve feed fields is the loader's value for that feed type (null where the loader has none); the validation result is present iff validation is enabled, and is then the validator applied to the raw-feed map |
| GbfsSubscriptions.GbfsSubscription.ValidateFeeds | src/main/java/org/entur/gbfs/GbfsSubscription.java:108-118 | the loop over every feed name builds exactly `RawFeedMap` of the loader's raw feeds, and the result is the validator applied to that map |
| GbfsSubscriptions.RawFeedMap | src/main/java/org/entur/gbfs/GbfsSubscription.java:109-115 | the keys are exactly the values of the feed names that have raw content; the entry for each such name holds that name's raw bytes |
| GbfsSubscriptions.RawFeedMapPut | src/main/java/org/entur/gbfs/GbfsSubscription.java:113 | adding one raw feed to the input adds exactly that feed's entry to the validator's map, and no other entry is lost (feed-name values are distinct) |
| GbfsSubscriptions.RawFeedsAmong | src/main/java/org/entur/gbfs/GbfsSubscription.java:110-112 | the raw feeds whose names a prefix of the enumeration has reached: exactly the names with raw content that occur in the prefix, with their bytes |
| GbfsSubscriptions.RawFeedsAmongNext | src/main/java/org/entur/gbfs/GbfsSubscription.java:110-115 | one more `forEach` step adds the name's raw feed if it is non-null and changes nothing otherwise |
| GbfsSubscriptions.RawFeedsAmongAll | src/main/java/org/entur/gbfs/GbfsSubscription.java:110 | going through all of `GBFSFeedName.values()` reaches every feed name that has raw content |
| GbfsDeliveries.EmptyDelivery | src/main/java/org/entur/gbfs/GbfsSubscription.java:85 | a new delivery has every field null |
| GbfsDeliveries.DeliveryOf | src/main/java/org/entur/gbfs/GbfsSubscription.java:86-102 | each feed field holds the value stored for its own feed type, and is null exactly when no value is stored for it; discovery and validation fields hold what was given |
| GbfsFeeds.ValueInjective | src/main/java/org/entur/gbfs/GbfsSubscription.java:113 | two feed names with the same value are the same name, so no `put` in the loop overwrites another feed's entry |
| GbfsFeeds.AllFeedNames | src/main/java/org/entur/gbfs/GbfsSubscription.java:110 | `GBFSFeedName.values()` has thirteen names, none repeated |
| GbfsFeeds.InAllFeedNames | src/main/java/org/entur/gbfs/GbfsSubscription.java:110 | every feed name occurs in `GBFSFeedName.values()` |
| GbfsLoaders.GbfsLoader.constructor | src/main/java/org/entur/gbfs/GbfsSubscription.java:62-68 | the loader keeps the configuration it is given; its polled state is arbitrary and no update has run |
| GbfsLoaders.GbfsLoader.GetSetupComplete | src/main/java/org/entur/gbfs/GbfsSubscription.java:76 | returns the loader's setup-complete flag |
| GbfsLoaders.GbfsLoader.GetDiscoveryFeed | src/main/java/org/entur/gbfs/GbfsSubscription.java:86 | returns the loader's discovery document, null when it has none |
| GbfsLoaders.GbfsLoader.GetFeed | src/main/java/org/entur/gbfs/GbfsSubscription.java:87-98 | non-null exactly when the loader holds a typed value for the feed type, and then that value |
| GbfsLoaders.GbfsLoader.GetRawFeed | src/main/java/org/entur/gbfs/GbfsSubscription.java:111-113 | non-null exactly when the loader holds raw bytes for the feed name, and then those bytes |
| GbfsLoaders.GbfsLoader.Update | src/main/java/org/entur/gbfs/GbfsSubscription.java:84 | one pass whose result is arbitrary and is appended to the loader's history of outcomes |
| GbfsSubscriptionManagers.GbfsSubscriptionManager.constructor | src/main/java/org/entur/gbfs/GbfsSubscriptionManager.java:27 | the registry starts empty |
| GbfsSubscriptionManagers.GbfsSubscriptionManager.Subscribe | src/main/java/org/entur/gbfs/GbfsSubscriptionManager.java:36-42 | returns `id`; `id` now maps to a fresh subscription with the given options and a fresh loader initialised from the options' discovery URI, headers, language code and timeout, with nothing delivered yet; every other entry is unchanged; an unused `id` adds exactly one key; a used `id` is overwritten |
| GbfsSubscriptionManagers.GbfsSubscriptionManager.Update | src/main/java/org/entur/gbfs/GbfsSubscriptionManager.java:47-49 | every registered subscription is updated exactly once, with the effect `GbfsSubscription.Update` states; the registry is unchanged; only registered subscriptions and their loaders are modified, so a removed subscription is not touched |
| GbfsSubscriptionManagers.GbfsSubscriptionManager.Unsubscribe | src/main/java/org/entur/gbfs/GbfsSubscriptionManager.java:56-58 | the identifier is no longer a key and every other entry is unchanged; an unregistered identifier leaves the registry unchanged |

## Left out

- The loader's implementation (discovery resolution, HTTP fetching, JSON parsing, refresh intervals, the setup flag's own rules) is not part of this model. Its state after a pass is unconstrained.
- The request authenticator that `init` passes to the loader is not modelled. It is an opaque capability.
- The discovery URI is kept as a string. `URI.toString()` is not modelled.
- Raw feeds go to the validator as byte sequences. The `ByteArrayInputStream` wrapping is I/O plumbing.
- The validator library and the `ValidationResult` type are opaque: a function into the type parameter `R`.
- The typed feed classes (station status, vehicle types and the rest) are opaque. One type parameter `V` stands for all twelve, so the model does not capture that each field has its own Java type.
- `UUID.randomUUID()` randomness is left out. The identifier is a parameter, and uniqueness is stated conditionally, for an `id` not yet in use.
- Concurrency is left out. Subscribe and unsubscribe racing with update on the unsynchronised `HashMap` is outside a sequential model.
- The iteration order of `HashMap.values()` is unspecified. The model fixes the set of subscriptions updated, not the order.
- Exceptions are left out, and the model has no exceptional path.
  - A consumer or validator exception would end `update` early in the source, and would skip the remaining subscriptions of the manager's `update`.
  - `subscribe` registers the subscription before calling `init()`. An exception out of `init()` would leave a registered subscription with a null loader, and every later manager `update` would then fail on it. `GbfsSubscriptionManager.Valid()` rules that state out.
- A consumer object shared by several subscriptions is not modelled. Each subscription's consumer is seen only through that subscription's `delivered` log.

/**
 * `GbfsSubscriptionManager`: the registry from subscription identifier to
 * subscription. Identifiers are chosen by the caller of `Subscribe` here
 * (the source draws a random UUID).
 */
module GbfsSubscriptionManagers {

  import opened GbfsLoaders
  import opened GbfsSubscriptions

  class GbfsSubscriptionManager<D, V, R> {
    const validator: Validator<R>
    var subscriptions: map<string, GbfsSubscription<D, V, R>>

    /** The loaders of the registered subscriptions. */
    ghost function Loaders(): set<GbfsLoader<D, V>>
      reads this, subscriptions.Values
    {
      set s | s in subscriptions.Values && s.loader != null :: s.loader
    }

    /**
     * Every registered subscription has been initialised, and no two
     * identifiers share a subscription or a loader.
     */
    ghost predicate Valid()
      reads this, subscriptions.Values
    {
      && (forall id :: id in subscriptions ==> subscriptions[id].loader != null)
      && (forall i, j :: i in subscriptions && j in subscriptions && i != j ==>
            subscriptions[i] != subscriptions[j] && subscriptions[i].loader != subscriptions[j].loader)
    }

    constructor (validator: Validator<R>)
      ensures Valid() && this.validator == validator && subscriptions == map[]
    {
      this.validator := validator;
      subscriptions := map[];
    }

    /**
     * Registers a new, initialised subscription under `id` and returns `id`.
     * An `id` already in use is overwritten, as `Map.put` does.
     */
    method Subscribe(id: string, options: GbfsSubscriptionOptions) returns (r: string)
      requires Valid()
      modifies this
      ensures Valid()
      ensures r == id && id in subscriptions
      ensures subscriptions == old(subscriptions)[id := subscriptions[id]]
      ensures fresh(subscriptions[id]) && subscriptions[id].options == options
      ensures subscriptions[id].validator == validator && subscriptions[id].delivered == []
      ensures subscriptions[id].loader != null && fresh(subscriptions[id].loader)
      ensures subscriptions[id].loader.outcomes == []
      ensures subscriptions[id].loader.discoveryUri == options.discoveryUri
      ensures subscriptions[id].loader.headers == options.headers
      ensures subscriptions[id].loader.languageCode == options.languageCode
      ensures subscriptions[id].loader.timeout == options.timeout
      ensures id !in old(subscriptions) ==>
                subscriptions.Keys == old(subscriptions).Keys + {id} && |subscriptions| == |old(subscriptions)| + 1
    {
      var subscription := new GbfsSubscription(options, validator);
      subscriptions := subscriptions[id := subscription];
      subscription.Init();
      r := id;
    }

    /** Calls `Update` once on every registered subscription, in no particular order. */
    method Update()
      requires Valid()
      modifies subscriptions.Values, Loaders()
      ensures Valid() && subscriptions == old(subscriptions)
      ensures forall id :: id in subscriptions ==>
                subscriptions[id].loader == old(subscriptions[id].loader)
                && subscriptions[id].PolledOnceFrom(old(subscriptions[id].delivered), old(subscriptions[id].loader.outcomes))
    {
      var subs := subscriptions;
      var remaining := subs.Keys;
      while remaining != {}
        invariant remaining <= subs.Keys
        invariant forall id :: id in subs ==>
                    && subs[id].loader == old(subs[id].loader)
                    && if id in remaining then
                         subs[id].delivered == old(subs[id].delivered)
                         && subs[id].loader.outcomes == old(subs[id].loader.outcomes)
                       else
                         subs[id].PolledOnceFrom(old(subs[id].delivered), old(subs[id].loader.outcomes))
        decreases remaining
      {
        var id :| id in remaining;
        subs[id].Update();
        remaining := remaining - {id};
      }
    }

    /** Removes the subscription registered under `identifier`, if any. */
    method Unsubscribe(identifier: string)
      requires Valid()
      modifies this
      ensures Valid()
      ensures subscriptions == old(subscriptions) - {identifier}
      ensures identifier !in subscriptions
      ensures identifier !in old(subscriptions) ==> subscriptions == old(subscriptions)
    {
      subscriptions := subscriptions - {identifier};
    }
  }
}

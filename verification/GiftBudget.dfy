/** The read gate's gift-wrap budget: one window of stamps per sender and recipient,
    charged for a whole frame or not at all. */
module GiftBudget {
  import opened GiftKeys
  import opened SlidingWindow
  import opened Text

  type Buckets = map<string, seq<nat>>

  function KeysOf(authed: string, recipients: seq<string>): seq<string> {
    seq(|recipients|, i requires 0 <= i < |recipients| => GiftKey(Canonical(authed), recipients[i]))
  }

  predicate HasRoom(buckets: Buckets, limit: nat, window: nat, key: string, now: nat) {
    |Recent(At(buckets, key), now, window)| < limit
  }

  function ChargeAll(buckets: Buckets, window: nat, keys: seq<string>, now: nat): Buckets {
    if keys == [] then buckets
    else
      var before := ChargeAll(buckets, window, keys[..|keys| - 1], now);
      var key := keys[|keys| - 1];
      before[key := Recent(At(before, key), now, window) + [now]]
  }

  predicate AllHaveRoom(buckets: Buckets, limit: nat, window: nat, keys: seq<string>, now: nat) {
    forall i :: 0 <= i < |keys| ==> HasRoom(buckets, limit, window, keys[i], now)
  }

  lemma {:induction false} NextKey(buckets: Buckets, limit: nat, window: nat, keys: seq<string>, now: nat, i: nat)
    requires i < |keys|
    ensures AllHaveRoom(buckets, limit, window, keys[..i + 1], now) <==>
      AllHaveRoom(buckets, limit, window, keys[..i], now) && HasRoom(buckets, limit, window, keys[i], now)
    ensures
      var before := ChargeAll(buckets, window, keys[..i], now);
      ChargeAll(buckets, window, keys[..i + 1], now) == before[keys[i] := Recent(At(before, keys[i]), now, window) + [now]]
  {
    assert keys[..i + 1][..i] == keys[..i];
    assert keys[..i + 1] == keys[..i] + [keys[i]];
  }

  function AfterAllow(buckets: Buckets, limit: nat, window: nat, keys: seq<string>, now: nat): Buckets {
    if AllHaveRoom(buckets, limit, window, keys, now) then ChargeAll(buckets, window, keys, now) else buckets
  }

  function AfterSweep(buckets: Buckets, window: nat, now: nat): Buckets {
    map key | key in buckets && Recent(buckets[key], now, window) != [] :: Recent(buckets[key], now, window)
  }

  /** `buckets` is the map behind the mutex, shared by all connections. */
  class GiftBudget {
    const limit: nat
    const window: nat
    var buckets: Buckets

    constructor (limit: nat, window: nat)
      ensures this.limit == limit && this.window == window && buckets == map[]
    {
      this.limit := limit;
      this.window := window;
      buckets := map[];
    }

    /** Charge one wrap from `authed` to each recipient; false, and nothing charged, when any of the
        pairs is already at the limit. */
    method Allow(authed: string, recipients: seq<string>, now: nat) returns (allowed: bool)
      modifies this
      ensures allowed == AllHaveRoom(old(buckets), limit, window, KeysOf(authed, recipients), now)
      ensures buckets == AfterAllow(old(buckets), limit, window, KeysOf(authed, recipients), now)
    {
      if recipients == [] {
        return true;
      }
      var keys := KeysOf(authed, recipients);
      for i := 0 to |keys|
        invariant AllHaveRoom(buckets, limit, window, keys[..i], now)
        invariant buckets == old(buckets)
      {
        NextKey(buckets, limit, window, keys, now, i);
        var count := |Recent(At(buckets, keys[i]), now, window)|;
        if count >= limit {
          assert !HasRoom(buckets, limit, window, keys[i], now);
          return false;
        }
      }
      assert keys[..|keys|] == keys;
      for i := 0 to |keys|
        invariant buckets == ChargeAll(old(buckets), window, keys[..i], now)
      {
        NextKey(old(buckets), limit, window, keys, now, i);
        var stamps := Recent(At(buckets, keys[i]), now, window);
        buckets := buckets[keys[i] := stamps + [now]];
      }
      allowed := true;
    }

    method SweepAt(now: nat)
      modifies this
      ensures buckets == AfterSweep(old(buckets), window, now)
    {
      var rest := buckets.Keys;
      var kept: Buckets := map[];
      while rest != {}
        invariant rest <= buckets.Keys && buckets == old(buckets)
        invariant forall key :: key in kept <==>
          key in buckets && key !in rest && Recent(buckets[key], now, window) != []
        invariant forall key :: key in kept ==> kept[key] == Recent(buckets[key], now, window)
      {
        var key :| key in rest;
        rest := rest - {key};
        var stamps := Recent(buckets[key], now, window);
        if stamps != [] {
          kept := kept[key := stamps];
        }
      }
      buckets := kept;
    }
  }
}

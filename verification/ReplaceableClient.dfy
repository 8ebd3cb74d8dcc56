/**
 The replaceable client as the objects its callers see, when calls do not overlap
 (crates/client/src/replaceable.rs).
 */
module ReplaceableClient {
  import opened Common
  import opened ClientProtocol

  /** `SharedClientData`. */
  class SharedClientData<C(==)> {
    var client: C
    var generation: nat

    /** Every client that was ever shared. */
    ghost var history: seq<C>

    ghost predicate Valid()
      reads this
    {
      history != [] && client == history[|history| - 1] && generation == (|history| - 1) % GENERATIONS
    }

    constructor (client: C)
      ensures Valid() && history == [client]
    {
      this.client := client;
      generation := 0;
      history := [client];
    }

    method Fetch() returns (c: C, g: nat)
      requires Valid()
      ensures c == history[|history| - 1] && g == (|history| - 1) % GENERATIONS
    {
      c := client;
      g := generation;
    }

    method FetchNewerThan(current: nat) returns (newer: Option<(C, nat)>)
      requires Valid()
      ensures newer.None? <==> current == (|history| - 1) % GENERATIONS
      ensures newer.Some? ==> newer.value == (history[|history| - 1], (|history| - 1) % GENERATIONS)
    {
      if current != generation {
        var c, g := Fetch();
        newer := Some((c, g));
      } else {
        newer := None;
      }
    }

    method ReplaceClient(c: C)
      requires Valid()
      modifies this
      ensures Valid() && history == old(history) + [c]
    {
      client := c;
      BumpedGeneration(|history| - 1);
      generation := (generation + 1) % GENERATIONS;
      history := history + [c];
    }
  }

  /** `SharedReplaceableClient`. */
  class SharedReplaceableClient<C(==)> {
    const shared: SharedClientData<C>
    var clonedClient: C
    var clonedGeneration: nat

    /** How long the history was when the cached clone was fetched. */
    ghost var seen: nat

    ghost predicate Valid()
      reads this, shared
    {
      && shared.Valid() && 1 <= seen <= |shared.history|
      && clonedGeneration == (seen - 1) % GENERATIONS
    }

    /** The clone is taken as it is exactly after a multiple of 2^32 replacements. */
    ghost predicate LooksCurrent()
      requires Valid()
      reads this, shared
    {
      (|shared.history| - seen) % GENERATIONS == 0
    }

    constructor (client: C)
      ensures Valid() && fresh(shared) && shared.history == [client] && clonedClient == client && seen == 1
    {
      shared := new SharedClientData(client);
      clonedClient := client;
      clonedGeneration := 0;
      seen := 1;
    }

    /** The instance made by `clone`: it never takes over the cached clone of the original. */
    constructor Clone(original: SharedReplaceableClient<C>)
      requires original.Valid()
      ensures Valid() && shared == original.shared && seen == |shared.history|
      ensures clonedClient == shared.history[|shared.history| - 1]
    {
      var c, g := original.shared.Fetch();
      shared := original.shared;
      clonedClient := c;
      clonedGeneration := g;
      seen := |original.shared.history|;
    }

    method ReplaceClient(c: C)
      requires Valid()
      modifies shared
      ensures Valid() && shared.history == old(shared.history) + [c] && unchanged(this)
    {
      shared.ReplaceClient(c);
    }

    /** Does not touch the cached clone, even if it is out of date. */
    method InnerCow() returns (c: C)
      requires Valid()
      ensures c == if LooksCurrent() then clonedClient else shared.history[|shared.history| - 1]
    {
      EqualModulo(seen - 1, |shared.history| - 1);
      var newer := shared.FetchNewerThan(clonedGeneration);
      c := if newer.Some? then newer.value.0 else clonedClient;
    }

    method InnerMutRefreshed() returns (c: C)
      requires Valid()
      modifies this
      ensures Valid() && c == clonedClient
      ensures old(LooksCurrent()) ==> clonedClient == old(clonedClient) && seen == old(seen)
      ensures !old(LooksCurrent()) ==>
                clonedClient == shared.history[|shared.history| - 1] && seen == |shared.history|
    {
      EqualModulo(seen - 1, |shared.history| - 1);
      var newer := shared.FetchNewerThan(clonedGeneration);
      if newer.Some? {
        clonedClient := newer.value.0;
        clonedGeneration := newer.value.1;
        seen := |shared.history|;
      }
      c := clonedClient;
    }
  }
}

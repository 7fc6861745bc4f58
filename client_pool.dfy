/** The pool of per-endpoint clients of the routing clients
    (src/db_client/route_based.rs `DirectClientPool`, and its twin
    `StandalonePool` in src/db_client/cluster.rs). The pool only grows. */
module ClientPools {
  import opened Route

  /** A client connected to one data node, built from the endpoint's
      printed form. */
  datatype Client = Client(target: string)

  /** The client a pool hands out for an endpoint. */
  function ClientFor(pool: map<Endpoint, Client>, ep: Endpoint): Client {
    if ep in pool then pool[ep] else Client(ToString(ep))
  }

  /** The pool after handing out a client for each endpoint in turn. */
  function AfterAll(pool: map<Endpoint, Client>, eps: seq<Endpoint>): (p: map<Endpoint, Client>)
    decreases |eps|
  {
    if eps == [] then pool
    else var n := |eps| - 1; var before := AfterAll(pool, eps[..n]);
      before[eps[n] := ClientFor(before, eps[n])]
  }

  /** The pool never loses or replaces a client, and afterwards holds one
      for every endpoint asked for; new clients are built from their
      endpoint. */
  lemma {:induction false} AfterAllGrows(pool: map<Endpoint, Client>, eps: seq<Endpoint>)
    ensures var p := AfterAll(pool, eps);
      && (forall ep :: ep in pool ==> ep in p && p[ep] == pool[ep])
      && (forall ep :: ep in p <==> ep in pool || ep in eps)
      && (forall ep :: ep in p && ep !in pool ==> p[ep] == Client(ToString(ep)))
    decreases |eps|
  {
    if eps != [] {
      var n := |eps| - 1;
      AfterAllGrows(pool, eps[..n]);
      assert eps == eps[..n] + [eps[n]];
    }
  }

  /** Handing out clients never changes which client an endpoint gets. */
  lemma {:induction false} ClientForStable(pool: map<Endpoint, Client>, eps: seq<Endpoint>, ep: Endpoint)
    ensures ClientFor(AfterAll(pool, eps), ep) == ClientFor(pool, ep)
    decreases |eps|
  {
    if eps != [] {
      ClientForStable(pool, eps[..|eps| - 1], ep);
    }
  }

  class ClientPool {
    var pool: map<Endpoint, Client>

    constructor ()
      ensures pool == map[]
    {
      pool := map[];
    }

    /** `get_or_create`: the cached client of the endpoint, or a new one,
        inserted first. */
    method GetOrCreate(ep: Endpoint) returns (c: Client)
      modifies this
      ensures c == ClientFor(old(pool), ep)
      ensures pool == old(pool)[ep := c]
      ensures ep in old(pool) ==> pool == old(pool)
    {
      if ep in pool {
        return pool[ep];
      }
      c := Client(ToString(ep));
      pool := pool[ep := c];
    }

    /** `get_or_create` for each endpoint in turn, as the write paths do
        for their partitions. */
    method GetOrCreateAll(eps: seq<Endpoint>) returns (clients: seq<Client>)
      modifies this
      ensures |clients| == |eps|
      ensures forall k :: 0 <= k < |eps| ==> clients[k] == ClientFor(old(pool), eps[k])
      ensures pool == AfterAll(old(pool), eps)
    {
      clients := [];
      for idx := 0 to |eps|
        invariant |clients| == idx
        invariant forall k :: 0 <= k < idx ==> clients[k] == ClientFor(old(pool), eps[k])
        invariant pool == AfterAll(old(pool), eps[..idx])
      {
        ClientForStable(old(pool), eps[..idx], eps[idx]);
        var client := GetOrCreate(eps[idx]);
        clients := clients + [client];
        assert eps[..idx + 1] == eps[..idx] + [eps[idx]];
      }
      assert eps[..|eps|] == eps;
    }
  }
}

/** The client of cluster mode (src/db_client/cluster.rs), the older twin
    of the route-based client: queries and writes over metrics, routed
    through the caching router, with results returned as vectors. */
module Cluster {
  import opened Ints
  import opened Common
  import opened Route
  import opened Router
  import opened Ordering
  import opened ClientPools
  import opened Partition

  datatype RpcContext = RpcContext(database: Option<string>)

  datatype QueryRequest = QueryRequest(metrics: seq<string>, ql: string)

  /** The response of a query: the Avro schema and the encoded rows. */
  datatype QueryResponse = QueryResponse(schemaContent: string, rows: seq<seq<u8>>)

  /** `WriteResult`: the metrics of one partition and their outcome. */
  type WriteResult = (seq<string>, Result<WriteResponse>)

  /** `query_internal` of the client of one endpoint. */
  type QueryRpc = (RpcContext, Client, QueryRequest) -> Result<QueryResponse>

  /** `write_internal` of the client of one endpoint, given the entries of
      its partition. */
  type WriteRpc<!E> = (RpcContext, Client, map<string, E>) -> WriteResult

  const EMPTY_METRICS: string := "Metrics in query request can't be empty in cluster mode"
  const NO_ENDPOINT: string := "Metric doesn't have corresponding endpoint"
  const NO_ENDPOINTS: string := "Metrics don't have corresponding endpoints"

  /** The results `write` returns once routing succeeded: only the entry of
      the unroutable metrics, if there are any. */
  function Reported(unroutable: seq<string>): (results: seq<WriteResult>)
    ensures |results| <= 1
    ensures forall k :: 0 <= k < |results| ==> results[k].1.Err? && results[k].0 == unroutable
    ensures results == [] <==> unroutable == []
  {
    if unroutable == [] then [] else [(unroutable, Err(Unknown(NO_ENDPOINTS)))]
  }

  /** Send every partition through the client of its endpoint. */
  method SendAll<E>(ctx: RpcContext, write: WriteRpc<E>, endpoints: seq<Endpoint>, clients: seq<Client>,
                    parts: map<Endpoint, map<string, E>>)
      returns (results: seq<WriteResult>)
    requires |clients| == |endpoints|
    requires forall e :: e in endpoints ==> e in parts
    ensures |results| == |endpoints|
    ensures forall k :: 0 <= k < |endpoints| ==> results[k] == write(ctx, clients[k], parts[endpoints[k]])
  {
    results := [];
    for idx := 0 to |endpoints|
      invariant |results| == idx
      invariant forall k :: 0 <= k < idx ==> results[k] == write(ctx, clients[k], parts[endpoints[k]])
    {
      var result := write(ctx, clients[idx], parts[endpoints[idx]]);
      results := results + [result];
    }
  }

  class ClusterImpl {
    const router: RouterImpl
    const pool: ClientPool

    constructor (routerEndpoint: Endpoint)
      ensures fresh(router) && fresh(pool)
      ensures router.defaultEndpoint == routerEndpoint && router.cache == map[] && pool.pool == map[]
    {
      router := new RouterImpl(routerEndpoint);
      pool := new ClientPool();
    }

    /** `query`: one result, from the endpoint of the first metric; a
        failed query evicts all the request's metrics. */
    method Query(ctx: RpcContext, req: QueryRequest, remote: RemoteRoute, query: QueryRpc)
        returns (results: seq<Result<QueryResponse>>)
      modifies router, pool
      ensures |results| == 1
      ensures req.metrics == [] ==>
        && results[0] == Err(Unknown(EMPTY_METRICS))
        && router.cache == old(router.cache) && router.remoteRequests == old(router.remoteRequests)
        && pool.pool == old(pool.pool)
      ensures req.metrics != [] ==>
        var miss := MissTables(old(router.cache), req.metrics);
        var (routed, cache) := RouteSpec(old(router.cache), router.defaultEndpoint, req.metrics, remote(miss));
        && router.remoteRequests == old(router.remoteRequests) + [miss]
        && (routed.Err? ==> results[0] == Err(routed.error) && router.cache == cache && pool.pool == old(pool.pool))
        && (routed.Ok? && routed.value[0].None? ==>
              results[0] == Err(Unknown(NO_ENDPOINT)) && router.cache == cache && pool.pool == old(pool.pool))
        && (routed.Ok? && routed.value[0].Some? ==>
              var ep := routed.value[0].value;
              var client := ClientFor(old(pool.pool), ep);
              && results[0] == query(ctx, client, req)
              && pool.pool == old(pool.pool)[ep := client]
              && router.cache == if results[0].Err? then cache - (set t | t in req.metrics) else cache)
    {
      if req.metrics == [] {
        return [Err(Unknown(EMPTY_METRICS))];
      }
      var routed := router.Route(req.metrics, remote);
      if routed.Err? {
        return [Err(routed.error)];
      }
      var endpoint := routed.value[0];
      if endpoint.None? {
        return [Err(Unknown(NO_ENDPOINT))];
      }
      var client := pool.GetOrCreate(endpoint.value);
      var result := query(ctx, client, req);
      if result.Err? {
        router.Evict(req.metrics);
      }
      results := [result];
    }

    /** The sending half of `write`: get the client of every endpoint and
        write its partition. */
    method FanOut<E>(ctx: RpcContext, parts: map<Endpoint, map<string, E>>, write: WriteRpc<E>)
        returns (results: seq<WriteResult>, ghost eps: seq<Endpoint>)
      modifies pool
      ensures Enumerates(eps, parts.Keys) && |results| == |eps|
      ensures forall k :: 0 <= k < |eps| ==> results[k] == write(ctx, ClientFor(old(pool.pool), eps[k]), parts[eps[k]])
      ensures pool.pool == AfterAll(old(pool.pool), eps)
    {
      var endpoints := HashOrder(parts.Keys);
      var clients := pool.GetOrCreateAll(endpoints);
      results := SendAll(ctx, write, endpoints, clients, parts);
      eps := endpoints;
    }

    /** `write`: route the metrics of the entries, partition the entries by
        endpoint, and, when there is a partition, write each one and evict
        the metrics of writes that failed on a stale route. The metric and
        endpoint orders are any orders; the ghost outputs record them and
        the results of the partition writes, which are not returned. */
    method Write<E>(ctx: RpcContext, entries: map<string, E>, remote: RemoteRoute, write: WriteRpc<E>)
        returns (results: seq<WriteResult>, ghost shouldRoutes: seq<string>, ghost eps: seq<Endpoint>,
                 ghost rpcResults: seq<WriteResult>)
      modifies router, pool
      ensures Enumerates(shouldRoutes, entries.Keys)
      ensures var miss := MissTables(old(router.cache), shouldRoutes);
        var (routed, cache) := RouteSpec(old(router.cache), router.defaultEndpoint, shouldRoutes, remote(miss));
        && router.remoteRequests == old(router.remoteRequests) + [miss]
        && (routed.Err? ==>
              results == [(shouldRoutes, Err(routed.error))] && router.cache == cache && pool.pool == old(pool.pool))
        && (routed.Ok? ==>
              var (parts, unroutable) := PartitionOf(routed.value, shouldRoutes, entries);
              && results == Reported(unroutable)
              && Enumerates(eps, parts.Keys)
              && |rpcResults| == |eps|
              && (forall k :: 0 <= k < |eps| ==>
                    rpcResults[k] == write(ctx, ClientFor(old(pool.pool), eps[k]), parts[eps[k]]))
              && pool.pool == AfterAll(old(pool.pool), eps)
              && router.cache == cache - (set t | t in Evicts(rpcResults)))
    {
      eps, rpcResults := [], [];
      var metrics := HashOrder(entries.Keys);
      shouldRoutes := metrics;
      var routed := router.Route(metrics, remote);
      if routed.Err? {
        return [(metrics, Err(routed.error))], shouldRoutes, eps, rpcResults;
      }
      var parts, unroutable := PartitionByEndpoint(routed.value, metrics, entries);
      results := [];
      if unroutable != [] {
        results := results + [(unroutable, Err(Unknown(NO_ENDPOINTS)))];
      }
      if parts != map[] {
        var writeResults;
        writeResults, eps := FanOut(ctx, parts, write);
        router.Evict(Evicts(writeResults));
        rpcResults := writeResults;
      } else {
        assert Evicts(rpcResults) == [];
        assert router.cache - (set t | t in []) == router.cache;
      }
    }
  }

  /** Behind `RouterImpl` every metric resolves to an endpoint, so once
      routing succeeds `write` returns nothing at all: the outcome of every
      partition write is dropped, failed or not. */
  lemma WriteReportsNothingOnceRouted<E>(cache: map<string, Endpoint>, default: Endpoint, metrics: seq<string>,
                                         response: Result<seq<RouteEntry>>, entries: map<string, E>)
    requires RouteSpec(cache, default, metrics, response).0.Ok?
    requires forall t :: t in metrics ==> t in entries
    ensures Reported(PartitionOf(RouteSpec(cache, default, metrics, response).0.value, metrics, entries).1) == []
  {
    var routed := RouteSpec(cache, default, metrics, response).0.value;
    RouteAllPresent(cache, default, metrics, response);
    PartitionUnroutable(routed, metrics, entries);
    AllPresentNoneUnroutable(routed, metrics);
  }
}

/** The client of route-based mode (src/db_client/route_based.rs): queries
    go to the endpoint of their first table, writes are split by endpoint,
    and routes that turn out stale are evicted. The router is the caching
    `RouterImpl`; remote calls and the per-endpoint RPCs are parameters. */
module RouteBased {
  import opened Ints
  import opened Common
  import opened Route
  import opened Router
  import opened Points
  import opened Ordering
  import opened ClientPools
  import opened Partition
  import SqlResponse

  /** The context of one call, after the database has been resolved. */
  datatype RpcContext = RpcContext(database: Option<string>)

  datatype SqlQueryRequest = SqlQueryRequest(tables: seq<string>, sql: string)

  /** `sql_query_internal` of the client of one endpoint. */
  type QueryRpc = (RpcContext, Client, SqlQueryRequest) -> Result<SqlResponse.Response>

  /** `write_internal` of the client of one endpoint, given the point groups
      of its sub-request. */
  type WriteRpc = (RpcContext, Client, map<string, seq<Point>>) -> Result<WriteResponse>

  /** The conversion of (tables, result) pairs into a `RouteBasedWriteError`. */
  type IntoWriteError = seq<(seq<string>, Result<WriteResponse>)> -> RouteBasedWriteError

  /** `RouteBasedWriteError::all_ok`. */
  type AllOkTest = RouteBasedWriteError -> bool

  const EMPTY_TABLES: string := "tables in query request can't be empty in route based mode"
  const NO_ENDPOINT: string := "table doesn't have corresponding endpoint"
  const NO_ENDPOINTS: string := "tables don't have corresponding endpoints"

  /** The write outcome: the successful part when `allOk` accepts the
      merged outcome, otherwise the whole outcome as an error. */
  function WriteOutcome(e: RouteBasedWriteError, allOk: AllOkTest): Result<WriteResponse> {
    if allOk(e) then Ok(e.ok.1) else Err(RouteBasedWrite(e))
  }

  /** The pairs the write fans out to: per endpoint, its tables (in any
      order) and the result of writing its sub-request, then the
      unroutable tables if there are any. */
  ghost predicate FannedOut(pairs: seq<(seq<string>, Result<WriteResponse>)>, eps: seq<Endpoint>,
                            parts: map<Endpoint, map<string, seq<Point>>>, unroutable: seq<string>,
                            ctx: RpcContext, pool: map<Endpoint, Client>, write: WriteRpc)
    requires forall e :: e in eps ==> e in parts
  {
    && |pairs| == |eps| + (if unroutable == [] then 0 else 1)
    && (forall k :: 0 <= k < |eps| ==>
          && Enumerates(pairs[k].0, parts[eps[k]].Keys)
          && pairs[k].1 == write(ctx, ClientFor(pool, eps[k]), parts[eps[k]]))
    && (unroutable != [] ==> pairs[|eps|] == (unroutable, Err(Unknown(NO_ENDPOINTS))))
  }

  /** The tables of each endpoint's sub-request, each in any order. */
  method TablesOf(endpoints: seq<Endpoint>, parts: map<Endpoint, map<string, seq<Point>>>)
      returns (writeTables: seq<seq<string>>)
    requires forall e :: e in endpoints ==> e in parts
    ensures |writeTables| == |endpoints|
    ensures forall k :: 0 <= k < |endpoints| ==> Enumerates(writeTables[k], parts[endpoints[k]].Keys)
  {
    writeTables := [];
    for idx := 0 to |endpoints|
      invariant |writeTables| == idx
      invariant forall k :: 0 <= k < idx ==> Enumerates(writeTables[k], parts[endpoints[k]].Keys)
    {
      var subTables := HashOrder(parts[endpoints[idx]].Keys);
      writeTables := writeTables + [subTables];
    }
  }

  /** Send every sub-request through the client of its endpoint and pair
      the result with the sub-request's tables. */
  method SendAll(ctx: RpcContext, write: WriteRpc, endpoints: seq<Endpoint>, writeTables: seq<seq<string>>,
                 clients: seq<Client>, parts: map<Endpoint, map<string, seq<Point>>>)
      returns (pairs: seq<(seq<string>, Result<WriteResponse>)>)
    requires |writeTables| == |endpoints| && |clients| == |endpoints|
    requires forall e :: e in endpoints ==> e in parts
    ensures |pairs| == |endpoints|
    ensures forall k :: 0 <= k < |endpoints| ==> pairs[k] == (writeTables[k], write(ctx, clients[k], parts[endpoints[k]]))
  {
    pairs := [];
    for idx := 0 to |endpoints|
      invariant |pairs| == idx
      invariant forall k :: 0 <= k < idx ==> pairs[k] == (writeTables[k], write(ctx, clients[k], parts[endpoints[k]]))
    {
      var result := write(ctx, clients[idx], parts[endpoints[idx]]);
      pairs := pairs + [(writeTables[idx], result)];
    }
  }

  class RouteBasedImpl {
    const router: RouterImpl
    const pool: ClientPool

    constructor (routerEndpoint: Endpoint)
      ensures fresh(router) && fresh(pool)
      ensures router.defaultEndpoint == routerEndpoint && router.cache == map[] && pool.pool == map[]
    {
      router := new RouterImpl(routerEndpoint);
      pool := new ClientPool();
    }

    /** `sql_query`: route the tables, send the query to the endpoint of the
        first one, and evict all its tables if the query fails. `resolved`
        is the outcome of resolving the database of the context. */
    method SqlQuery(resolved: Result<RpcContext>, req: SqlQueryRequest, remote: RemoteRoute, query: QueryRpc)
        returns (r: Result<SqlResponse.Response>)
      modifies router, pool
      ensures req.tables == [] ==> r == Err(Unknown(EMPTY_TABLES))
      ensures req.tables == [] || resolved.Err? ==>
        router.cache == old(router.cache) && router.remoteRequests == old(router.remoteRequests) && pool.pool == old(pool.pool)
      ensures req.tables != [] && resolved.Err? ==> r == Err(resolved.error)
      ensures req.tables != [] && resolved.Ok? ==>
        var miss := MissTables(old(router.cache), req.tables);
        var (routed, cache) := RouteSpec(old(router.cache), router.defaultEndpoint, req.tables, remote(miss));
        && router.remoteRequests == old(router.remoteRequests) + [miss]
        && (routed.Err? ==> r == Err(routed.error) && router.cache == cache && pool.pool == old(pool.pool))
        && (routed.Ok? && routed.value[0].None? ==>
              r == Err(Unknown(NO_ENDPOINT)) && router.cache == cache && pool.pool == old(pool.pool))
        && (routed.Ok? && routed.value[0].Some? ==>
              var ep := routed.value[0].value;
              var client := ClientFor(old(pool.pool), ep);
              && r == query(resolved.value, client, req)
              && pool.pool == old(pool.pool)[ep := client]
              && router.cache == if r.Err? then cache - (set t | t in req.tables) else cache)
    {
      if req.tables == [] {
        return Err(Unknown(EMPTY_TABLES));
      }
      if resolved.Err? {
        return Err(resolved.error);
      }
      var ctx := resolved.value;
      var routed := router.Route(req.tables, remote);
      if routed.Err? {
        return Err(routed.error);
      }
      var endpoint := routed.value[0];
      if endpoint.None? {
        return Err(Unknown(NO_ENDPOINT));
      }
      var client := pool.GetOrCreate(endpoint.value);
      r := query(ctx, client, req);
      if r.Err? {
        router.Evict(req.tables);
      }
    }

    /** The sending half of `write`: get the client of every endpoint,
        write its sub-request, and pair the result with the sub-request's
        tables; the unroutable tables come last. */
    method FanOut(ctx: RpcContext, parts: map<Endpoint, map<string, seq<Point>>>, unroutable: seq<string>,
                  write: WriteRpc)
        returns (pairs: seq<(seq<string>, Result<WriteResponse>)>, ghost eps: seq<Endpoint>)
      modifies pool
      ensures Enumerates(eps, parts.Keys)
      ensures FannedOut(pairs, eps, parts, unroutable, ctx, old(pool.pool), write)
      ensures pool.pool == AfterAll(old(pool.pool), eps)
    {
      var endpoints := HashOrder(parts.Keys);
      var writeTables := TablesOf(endpoints, parts);
      var clients := pool.GetOrCreateAll(endpoints);
      pairs := SendAll(ctx, write, endpoints, writeTables, clients, parts);
      if unroutable != [] {
        pairs := pairs + [(unroutable, Err(Unknown(NO_ENDPOINTS)))];
      }
      eps := endpoints;
    }

    /** `write`: route the tables of the request, split its point groups by
        endpoint, write each sub-request through the client of its
        endpoint, evict the tables of writes that failed on a stale route,
        and merge the results. The hash-map orders (of the request's
        tables, of the endpoints, of each sub-request's tables) are any
        orders; the ghost outputs record the ones taken and the pairs
        handed to the merge. */
    method Write(resolved: Result<RpcContext>, groups: map<string, seq<Point>>, remote: RemoteRoute,
                 write: WriteRpc, into: IntoWriteError, allOk: AllOkTest)
        returns (r: Result<WriteResponse>, ghost shouldRoutes: seq<string>, ghost eps: seq<Endpoint>,
                 ghost pairs: seq<(seq<string>, Result<WriteResponse>)>)
      modifies router, pool
      ensures resolved.Err? ==>
        r == Err(resolved.error) && router.cache == old(router.cache)
        && router.remoteRequests == old(router.remoteRequests) && pool.pool == old(pool.pool)
      ensures resolved.Ok? ==> Enumerates(shouldRoutes, groups.Keys)
      ensures resolved.Ok? ==>
        var miss := MissTables(old(router.cache), shouldRoutes);
        var (routed, cache) := RouteSpec(old(router.cache), router.defaultEndpoint, shouldRoutes, remote(miss));
        && router.remoteRequests == old(router.remoteRequests) + [miss]
        && (routed.Err? ==> r == Err(routed.error) && router.cache == cache && pool.pool == old(pool.pool))
        && (routed.Ok? ==>
              var (parts, unroutable) := PartitionOf(routed.value, shouldRoutes, groups);
              && Enumerates(eps, parts.Keys)
              && FannedOut(pairs, eps, parts, unroutable, resolved.value, old(pool.pool), write)
              && pool.pool == AfterAll(old(pool.pool), eps)
              && router.cache == cache - (set t | t in Evicts(pairs))
              && r == WriteOutcome(into(pairs), allOk))
    {
      shouldRoutes, eps, pairs := [], [], [];
      if resolved.Err? {
        return Err(resolved.error), shouldRoutes, eps, pairs;
      }
      var ctx := resolved.value;
      var tables := HashOrder(groups.Keys);
      shouldRoutes := tables;
      var routed := router.Route(tables, remote);
      if routed.Err? {
        return Err(routed.error), shouldRoutes, eps, pairs;
      }
      var parts, unroutable := PartitionByEndpoint(routed.value, tables, groups);
      var tablesResultPairs;
      tablesResultPairs, eps := FanOut(ctx, parts, unroutable, write);
      var evicts := Evicts(tablesResultPairs);
      router.Evict(evicts);
      pairs := tablesResultPairs;
      var routeBasedError := into(tablesResultPairs);
      if allOk(routeBasedError) {
        r := Ok(routeBasedError.ok.1);
      } else {
        r := Err(RouteBasedWrite(routeBasedError));
      }
    }
  }

  /** Behind `RouterImpl` every table resolves to some endpoint, so a
      successful route leaves no table unroutable: the unroutable entry of
      `write` and the missing-endpoint error of `sql_query` cannot occur. */
  lemma RouterLeavesNothingUnroutable(cache: map<string, Endpoint>, default: Endpoint, tables: seq<string>,
                                      response: Result<seq<RouteEntry>>, groups: map<string, seq<Point>>)
    requires RouteSpec(cache, default, tables, response).0.Ok?
    requires forall t :: t in tables ==> t in groups
    ensures var routed := RouteSpec(cache, default, tables, response).0.value;
      && PartitionOf(routed, tables, groups).1 == []
      && (tables != [] ==> routed[0].Some?)
  {
    var routed := RouteSpec(cache, default, tables, response).0.value;
    RouteAllPresent(cache, default, tables, response);
    PartitionUnroutable(routed, tables, groups);
    AllPresentNoneUnroutable(routed, tables);
  }
}

/** The client-side router: maps table names to endpoints through a cache,
    asks the server for the misses in one remote call, and lets callers
    evict stale entries (src/router.rs). */
module Router {
  import opened Common
  import opened Route

  /** One entry of the remote route response: a table and maybe its endpoint. */
  datatype RouteEntry = RouteEntry(table: string, endpoint: Option<EndpointPb>)

  /** The remote `route` call of the rpc client: given the requested tables
      (collected from a hash map, so in no particular order) it answers with
      route entries or fails. */
  type RemoteRoute = set<string> -> Result<seq<RouteEntry>>

  // ---------------------------------------------------------------------
  // Specification of one `route` call.
  // ---------------------------------------------------------------------

  /** The miss map: every table of the input absent from the cache, mapped
      to the LAST index at which it occurs (later inserts overwrite earlier). */
  function Misses(cache: map<string, Endpoint>, tables: seq<string>): map<string, nat>
    decreases |tables|
  {
    if tables == [] then map[]
    else
      var m := Misses(cache, tables[..|tables| - 1]);
      var t := tables[|tables| - 1];
      if t in cache then m else m[t := |tables| - 1]
  }

  /** Exactly the uncached tables of the input are missed, each mapped to
      one of its indices. */
  lemma {:induction false} MissesDomain(cache: map<string, Endpoint>, tables: seq<string>)
    ensures forall t :: t in Misses(cache, tables) <==> t !in cache && t in tables
    ensures forall t :: t in Misses(cache, tables) ==>
      Misses(cache, tables)[t] < |tables| && tables[Misses(cache, tables)[t]] == t
    decreases |tables|
  {
    if tables != [] {
      var prefix := tables[..|tables| - 1];
      MissesDomain(cache, prefix);
      assert tables == prefix + [tables[|tables| - 1]];
    }
  }

  lemma MissesSnoc(cache: map<string, Endpoint>, tables: seq<string>, t: string)
    ensures Misses(cache, tables + [t]) ==
      if t in cache then Misses(cache, tables) else Misses(cache, tables)[t := |tables|]
  {
    assert (tables + [t])[..|tables|] == tables;
  }

  /** The index kept for a missed table is its last occurrence. */
  lemma {:induction false} MissesLast(cache: map<string, Endpoint>, tables: seq<string>, t: string)
    requires t in Misses(cache, tables)
    ensures forall j :: Misses(cache, tables)[t] < j < |tables| ==> tables[j] != t
    decreases |tables|
  {
    MissesDomain(cache, tables);
    var prefix := tables[..|tables| - 1];
    var last := tables[|tables| - 1];
    if last != t {
      MissesLast(cache, prefix, t);
    }
  }

  /** The tables requested from the server. */
  function MissTables(cache: map<string, Endpoint>, tables: seq<string>): set<string> {
    Misses(cache, tables).Keys
  }

  /** The targets before the remote answer: the cached endpoint for a hit,
      the default endpoint otherwise. */
  function Initial(cache: map<string, Endpoint>, default: Endpoint, tables: seq<string>): (ts: seq<Option<Endpoint>>)
    ensures |ts| == |tables|
  {
    seq(|tables|, i requires 0 <= i < |tables| =>
      Some(if tables[i] in cache then cache[tables[i]] else default))
  }

  function UnknownTable(table: string): Error {
    Unknown("Unknown table:" + table + " in response")
  }

  /** Process the route entries in order: skip entries without endpoint,
      fail on a table that was not requested, otherwise cache the endpoint
      and write it at the table's index. Inserts done before a failure stay. */
  function Apply(routes: seq<RouteEntry>, misses: map<string, nat>, targets: seq<Option<Endpoint>>,
                 cache: map<string, Endpoint>): (r: (Result<seq<Option<Endpoint>>>, map<string, Endpoint>))
    requires forall t :: t in misses ==> misses[t] < |targets|
    ensures r.0.Ok? ==> |r.0.value| == |targets|
    decreases |routes|
  {
    if routes == [] then (Ok(targets), cache)
    else
      var route := routes[0];
      if route.endpoint.None? then Apply(routes[1..], misses, targets, cache)
      else if route.table !in misses then (Err(UnknownTable(route.table)), cache)
      else
        var ep := FromPb(route.endpoint.value);
        Apply(routes[1..], misses, targets[misses[route.table] := Some(ep)], cache[route.table := ep])
  }

  /** `RouterImpl::route` as a function of the cache before the call, the
      default endpoint, the input tables and the remote answer: the result
      and the cache after the call. */
  function RouteSpec(cache: map<string, Endpoint>, default: Endpoint, tables: seq<string>,
                     response: Result<seq<RouteEntry>>): (r: (Result<seq<Option<Endpoint>>>, map<string, Endpoint>))
    ensures r.0.Ok? ==> |r.0.value| == |tables|
  {
    match response
    case Err(e) => (Err(e), cache)
    case Ok(routes) =>
      MissesDomain(cache, tables);
      Apply(routes, Misses(cache, tables), Initial(cache, default, tables), cache)
  }

  // ---------------------------------------------------------------------
  // Helpers describing the effect of a response.
  // ---------------------------------------------------------------------

  /** The endpoint of the last entry for `t` that carries one. */
  function LastResolved(routes: seq<RouteEntry>, t: string): (r: Option<EndpointPb>)
    ensures r.Some? <==> exists k :: 0 <= k < |routes| && routes[k].table == t && routes[k].endpoint.Some?
    decreases |routes|
  {
    if routes == [] then None
    else
      var rest := LastResolved(routes[1..], t);
      assert forall k :: 0 < k < |routes| ==> routes[k] == routes[1..][k - 1];
      if rest.Some? then rest
      else if routes[0].table == t && routes[0].endpoint.Some? then routes[0].endpoint
      else None
  }

  /** The cache after inserting every entry that carries an endpoint. */
  function Inserts(cache: map<string, Endpoint>, routes: seq<RouteEntry>): map<string, Endpoint>
    decreases |routes|
  {
    if routes == [] then cache
    else
      var c := if routes[0].endpoint.Some? then cache[routes[0].table := FromPb(routes[0].endpoint.value)] else cache;
      Inserts(c, routes[1..])
  }

  /** An entry with an endpoint for a table that was not requested. */
  predicate IsUnknown(route: RouteEntry, misses: map<string, nat>) {
    route.endpoint.Some? && route.table !in misses
  }

  ghost predicate Injective(m: map<string, nat>) {
    forall t, u :: t in m && u in m && t != u ==> m[t] != m[u]
  }

  lemma {:induction false} InsertsAt(cache: map<string, Endpoint>, routes: seq<RouteEntry>, t: string)
    ensures t in Inserts(cache, routes) <==> t in cache || LastResolved(routes, t).Some?
    ensures LastResolved(routes, t).Some? ==> Inserts(cache, routes)[t] == FromPb(LastResolved(routes, t).value)
    ensures LastResolved(routes, t).None? && t in cache ==> Inserts(cache, routes)[t] == cache[t]
    decreases |routes|
  {
    if routes != [] {
      var c := if routes[0].endpoint.Some? then cache[routes[0].table := FromPb(routes[0].endpoint.value)] else cache;
      InsertsAt(c, routes[1..], t);
    }
  }

  lemma {:induction false} ApplyOkIff(routes: seq<RouteEntry>, misses: map<string, nat>,
                                      targets: seq<Option<Endpoint>>, cache: map<string, Endpoint>)
    requires forall t :: t in misses ==> misses[t] < |targets|
    ensures Apply(routes, misses, targets, cache).0.Ok? <==>
      forall k :: 0 <= k < |routes| ==> !IsUnknown(routes[k], misses)
    decreases |routes|
  {
    if routes != [] {
      assert forall k :: 0 < k < |routes| ==> routes[k] == routes[1..][k - 1];
      var route := routes[0];
      if route.endpoint.None? {
        ApplyOkIff(routes[1..], misses, targets, cache);
      } else if route.table in misses {
        var ep := FromPb(route.endpoint.value);
        ApplyOkIff(routes[1..], misses, targets[misses[route.table] := Some(ep)], cache[route.table := ep]);
      }
    }
  }

  /** A successful pass: the cache receives every entry with an endpoint, the
      slot of a requested table holds its last resolved endpoint, and any
      slot no requested table owns is left as it was. */
  lemma {:induction false} ApplyOk(routes: seq<RouteEntry>, misses: map<string, nat>,
                                   targets: seq<Option<Endpoint>>, cache: map<string, Endpoint>)
    requires forall t :: t in misses ==> misses[t] < |targets|
    requires Injective(misses)
    requires Apply(routes, misses, targets, cache).0.Ok?
    ensures var (r, c) := Apply(routes, misses, targets, cache);
      && c == Inserts(cache, routes)
      && |r.value| == |targets|
      && (forall t :: t in misses ==>
            r.value[misses[t]] == (if LastResolved(routes, t).Some? then Some(FromPb(LastResolved(routes, t).value)) else targets[misses[t]]))
      && (forall i :: 0 <= i < |targets| && (forall t :: t in misses ==> misses[t] != i) ==> r.value[i] == targets[i])
    decreases |routes|
  {
    if routes != [] {
      var route := routes[0];
      if route.endpoint.None? {
        ApplyOk(routes[1..], misses, targets, cache);
      } else {
        var ep := FromPb(route.endpoint.value);
        var targets' := targets[misses[route.table] := Some(ep)];
        ApplyOk(routes[1..], misses, targets', cache[route.table := ep]);
      }
    }
  }

  /** A failing pass stops at the first unknown table and keeps the inserts
      made before it. */
  lemma {:induction false} ApplyErr(routes: seq<RouteEntry>, misses: map<string, nat>,
                                    targets: seq<Option<Endpoint>>, cache: map<string, Endpoint>, k: nat)
    requires forall t :: t in misses ==> misses[t] < |targets|
    requires k < |routes| && IsUnknown(routes[k], misses)
    requires forall j :: 0 <= j < k ==> !IsUnknown(routes[j], misses)
    ensures Apply(routes, misses, targets, cache) == (Err(UnknownTable(routes[k].table)), Inserts(cache, routes[..k]))
    decreases |routes|
  {
    if k > 0 {
      var route := routes[0];
      assert routes[1..][..k - 1] == routes[..k][1..];
      if route.endpoint.None? {
        ApplyErr(routes[1..], misses, targets, cache, k - 1);
      } else {
        var ep := FromPb(route.endpoint.value);
        ApplyErr(routes[1..], misses, targets[misses[route.table] := Some(ep)], cache[route.table := ep], k - 1);
      }
    }
  }

  lemma MissesInjective(cache: map<string, Endpoint>, tables: seq<string>)
    ensures Injective(Misses(cache, tables))
  {
    MissesDomain(cache, tables);
  }

  // ---------------------------------------------------------------------
  // Properties of `route`.
  // ---------------------------------------------------------------------

  /** A successful route has exactly one entry per input table and every
      entry is present: the router never answers `None`. */
  lemma RouteAllPresent(cache: map<string, Endpoint>, default: Endpoint, tables: seq<string>,
                        response: Result<seq<RouteEntry>>)
    requires RouteSpec(cache, default, tables, response).0.Ok?
    ensures var r := RouteSpec(cache, default, tables, response).0.value;
      |r| == |tables| && forall i :: 0 <= i < |r| ==> r[i].Some?
  {
    var routes := response.value;
    var misses := Misses(cache, tables);
    MissesDomain(cache, tables);
    var init := Initial(cache, default, tables);
    MissesInjective(cache, tables);
    ApplyOk(routes, misses, init, cache);
    var r := RouteSpec(cache, default, tables, response).0.value;
    forall i | 0 <= i < |r| ensures r[i].Some? {
      if exists t :: t in misses && misses[t] == i {
        var t :| t in misses && misses[t] == i;
      }
    }
  }

  /** A failing remote call is returned as is and leaves the cache alone. */
  lemma RouteRemoteFailure(cache: map<string, Endpoint>, default: Endpoint, tables: seq<string>, e: Error)
    ensures RouteSpec(cache, default, tables, Err(e)) == (Err(e), cache)
  {
  }

  /** A cache hit answers the cached endpoint whatever the server says, and
      the table is not requested from the server. */
  lemma RouteCacheHit(cache: map<string, Endpoint>, default: Endpoint, tables: seq<string>,
                      response: Result<seq<RouteEntry>>, i: nat)
    requires i < |tables| && tables[i] in cache
    requires RouteSpec(cache, default, tables, response).0.Ok?
    ensures tables[i] !in MissTables(cache, tables)
    ensures RouteSpec(cache, default, tables, response).0.value[i] == Some(cache[tables[i]])
  {
    var misses := Misses(cache, tables);
    MissesDomain(cache, tables);
    MissesInjective(cache, tables);
    ApplyOk(response.value, misses, Initial(cache, default, tables), cache);
  }

  /** The slot of a missed table holds the last endpoint the server gave for
      it; if the server gave none (or the table reappears later in the
      input, whose later index owns it) the slot stays at the default. */
  lemma RouteMiss(cache: map<string, Endpoint>, default: Endpoint, tables: seq<string>,
                  response: Result<seq<RouteEntry>>, i: nat)
    requires i < |tables| && tables[i] !in cache
    requires RouteSpec(cache, default, tables, response).0.Ok?
    ensures tables[i] in MissTables(cache, tables)
    ensures var t := tables[i]; var last := LastResolved(response.value, t);
      RouteSpec(cache, default, tables, response).0.value[i] ==
        if last.Some? && t !in tables[i + 1..] then Some(FromPb(last.value)) else Some(default)
  {
    var t := tables[i];
    var misses := Misses(cache, tables);
    MissesDomain(cache, tables);
    MissesInjective(cache, tables);
    MissesLast(cache, tables, t);
    ApplyOk(response.value, misses, Initial(cache, default, tables), cache);
    if t in tables[i + 1..] {
      var j :| i + 1 <= j < |tables| && tables[j] == t;
      assert misses[t] >= j;
      assert forall u :: u in misses ==> misses[u] != i;
    } else {
      forall j | i < j < |tables| ensures tables[j] != t {
        assert tables[j] == tables[i + 1..][j - i - 1];
      }
      assert misses[t] == i;
    }
  }

  /** After a successful route the cache holds, for every table the server
      resolved, the last endpoint it gave; every other entry is unchanged. */
  lemma RouteCacheAfterOk(cache: map<string, Endpoint>, default: Endpoint, tables: seq<string>,
                          response: Result<seq<RouteEntry>>, t: string)
    requires RouteSpec(cache, default, tables, response).0.Ok?
    ensures var c := RouteSpec(cache, default, tables, response).1;
      var last := LastResolved(response.value, t);
      && (t in c <==> t in cache || last.Some?)
      && (last.Some? ==> t in MissTables(cache, tables) && c[t] == FromPb(last.value))
      && (last.None? && t in cache ==> c[t] == cache[t])
  {
    var misses := Misses(cache, tables);
    MissesDomain(cache, tables);
    MissesInjective(cache, tables);
    ApplyOk(response.value, misses, Initial(cache, default, tables), cache);
    ApplyOkIff(response.value, misses, Initial(cache, default, tables), cache);
    InsertsAt(cache, response.value, t);
  }

  /** An endpoint for a table that was not requested makes the whole call
      fail with `Unknown`; the inserts of the entries before it are kept. */
  lemma RouteUnknownTable(cache: map<string, Endpoint>, default: Endpoint, tables: seq<string>,
                          routes: seq<RouteEntry>, k: nat)
    requires k < |routes| && IsUnknown(routes[k], Misses(cache, tables))
    requires forall j :: 0 <= j < k ==> !IsUnknown(routes[j], Misses(cache, tables))
    ensures RouteSpec(cache, default, tables, Ok(routes)) == (Err(UnknownTable(routes[k].table)), Inserts(cache, routes[..k]))
  {
    MissesDomain(cache, tables);
    ApplyErr(routes, Misses(cache, tables), Initial(cache, default, tables), cache, k);
  }

  /** The route call succeeds iff the remote call does and every endpoint it
      returns belongs to a requested table. */
  lemma RouteOkIff(cache: map<string, Endpoint>, default: Endpoint, tables: seq<string>,
                   response: Result<seq<RouteEntry>>)
    ensures RouteSpec(cache, default, tables, response).0.Ok? <==>
      response.Ok? && forall k :: 0 <= k < |response.value| ==> !IsUnknown(response.value[k], Misses(cache, tables))
  {
    if response.Ok? {
      MissesDomain(cache, tables);
      ApplyOkIff(response.value, Misses(cache, tables), Initial(cache, default, tables), cache);
    }
  }

  /** After a table is resolved and cached, routing it again asks the server
      for nothing: the remote call still happens, with an empty request. */
  lemma CachedTableNotRequested(cache: map<string, Endpoint>, t: string)
    requires t in cache
    ensures MissTables(cache, [t]) == {}
  {
    MissesDomain(cache, [t]);
  }

  /** After eviction the table is requested from the server again. */
  lemma EvictedTableRequested(cache: map<string, Endpoint>, evicted: seq<string>, t: string)
    requires t in evicted
    ensures t in MissTables(cache - (set e | e in evicted), [t])
  {
    MissesDomain(cache - (set e | e in evicted), [t]);
  }

  // ---------------------------------------------------------------------
  // The router object.
  // ---------------------------------------------------------------------

  class RouterImpl {
    const defaultEndpoint: Endpoint
    var cache: map<string, Endpoint>
    /** Every request sent to the remote `route`, in order. */
    ghost var remoteRequests: seq<set<string>>

    constructor (defaultEndpoint: Endpoint)
      ensures this.defaultEndpoint == defaultEndpoint
      ensures cache == map[] && remoteRequests == []
    {
      this.defaultEndpoint := defaultEndpoint;
      cache := map[];
      remoteRequests := [];
    }

    /** The first pass of `route`: the cached endpoint (or the default one)
        for every table, and the miss map. Changes nothing. */
    method Lookup(tables: seq<string>) returns (targets: array<Option<Endpoint>>, misses: map<string, nat>)
      ensures fresh(targets)
      ensures targets[..] == Initial(cache, defaultEndpoint, tables)
      ensures misses == Misses(cache, tables)
    {
      ghost var init := Initial(cache, defaultEndpoint, tables);
      targets := new Option<Endpoint>[|tables|](_ => Some(defaultEndpoint));
      misses := map[];
      var idx := 0;
      while idx < |tables|
        invariant 0 <= idx <= |tables| && targets.Length == |tables|
        invariant misses == Misses(cache, tables[..idx])
        invariant forall k :: 0 <= k < idx ==> targets[k] == init[k]
        invariant forall k :: idx <= k < |tables| ==> targets[k] == Some(defaultEndpoint)
      {
        var table := tables[idx];
        if table in cache {
          targets[idx] := Some(cache[table]);
        } else {
          misses := misses[table := idx];
        }
        assert misses == Misses(cache, tables[..idx + 1]) by {
          MissesSnoc(cache, tables[..idx], table);
          assert tables[..idx + 1] == tables[..idx] + [table];
        }
        idx := idx + 1;
      }
      assert tables[..idx] == tables;
    }

    /** `Router::route`: resolve every table, from the cache first, and from
        exactly one remote call for the misses (made even when there are
        none). */
    method Route(tables: seq<string>, remote: RemoteRoute) returns (r: Result<seq<Option<Endpoint>>>)
      modifies this
      ensures remoteRequests == old(remoteRequests) + [MissTables(old(cache), tables)]
      ensures (r, cache) == RouteSpec(old(cache), defaultEndpoint, tables, remote(MissTables(old(cache), tables)))
    {
      var targets, misses := Lookup(tables);
      MissesDomain(old(cache), tables);
      var request := misses.Keys;
      remoteRequests := remoteRequests + [request];
      var response := remote(request);
      if response.Err? {
        return Err(response.error);
      }
      ghost var init := targets[..];
      var routes := response.value;
      var k := 0;
      while k < |routes|
        invariant 0 <= k <= |routes|
        invariant remoteRequests == old(remoteRequests) + [request]
        invariant forall t :: t in misses ==> misses[t] < targets.Length
        invariant Apply(routes[k..], misses, targets[..], cache) == Apply(routes, misses, init, old(cache))
      {
        var route := routes[k];
        assert routes[k..][1..] == routes[k + 1..];
        if route.endpoint.Some? {
          if route.table !in misses {
            return Err(UnknownTable(route.table));
          }
          var idx := misses[route.table];
          var endpoint := FromPb(route.endpoint.value);
          cache := cache[route.table := endpoint];
          targets[idx] := Some(endpoint);
        }
        k := k + 1;
      }
      r := Ok(targets[..]);
    }

    /** `Router::evict`: remove each listed table from the cache; absent
        tables are ignored and no other entry changes. */
    method Evict(tables: seq<string>)
      modifies this`cache
      ensures cache == old(cache) - (set t | t in tables)
    {
      var i := 0;
      while i < |tables|
        invariant 0 <= i <= |tables|
        invariant cache == old(cache) - (set t | t in tables[..i])
      {
        assert tables[..i + 1] == tables[..i] + [tables[i]];
        cache := cache - {tables[i]};
        i := i + 1;
      }
      assert tables[..i] == tables;
    }
  }
}

/** The write fan-out shared by both routing clients
    (src/db_client/route_based.rs and src/db_client/cluster.rs): split a
    request's tables by the endpoint the router resolved, and pick the
    tables whose routes must be evicted after the writes. */
module Partition {
  import opened Ints
  import opened Common
  import opened Route
  import opened Util

  /** Placing one table: into the sub-request of its endpoint (created if
      needed) with its entry, or onto the unroutable list. */
  function Place<V>(parts: map<Endpoint, map<string, V>>, unroutable: seq<string>,
                    t: string, ep: Option<Endpoint>, v: V): (map<Endpoint, map<string, V>>, seq<string>)
  {
    match ep
    case None => (parts, unroutable + [t])
    case Some(e) =>
      var sub := if e in parts then parts[e] else map[];
      (parts[e := sub[t := v]], unroutable)
  }

  /** The sub-requests by endpoint and the tables without one, after the
      first |tables| (endpoint, table) pairs. A table's entry is copied from
      the request. */
  function PartitionOf<V>(eps: seq<Option<Endpoint>>, tables: seq<string>, groups: map<string, V>)
    : (r: (map<Endpoint, map<string, V>>, seq<string>))
    requires |eps| == |tables|
    requires forall t :: t in tables ==> t in groups
    decreases |tables|
  {
    if tables == [] then (map[], [])
    else
      var n := |tables| - 1;
      var (parts, unroutable) := PartitionOf(eps[..n], tables[..n], groups);
      Place(parts, unroutable, tables[n], eps[n], groups[tables[n]])
  }

  /** Where one table ends up: with an endpoint, in that endpoint's
      sub-request only, with its own entry; without one, only in the
      unroutable list. */
  ghost predicate Placed<V>(parts: map<Endpoint, map<string, V>>, unroutable: seq<string>,
                            t: string, ep: Option<Endpoint>, v: V) {
    match ep
    case None => t in unroutable && forall e :: e in parts ==> t !in parts[e]
    case Some(e) =>
      && e in parts && t in parts[e] && parts[e][t] == v && t !in unroutable
      && forall e' :: e' in parts && e' != e ==> t !in parts[e']
  }

  /** Placing a table places it, and keeps every other table where it was. */
  lemma PlacePlaces<V>(parts: map<Endpoint, map<string, V>>, unroutable: seq<string>,
                       t: string, ep: Option<Endpoint>, v: V)
    requires t !in unroutable && forall e :: e in parts ==> t !in parts[e]
    ensures var (parts', unroutable') := Place(parts, unroutable, t, ep, v);
      && Placed(parts', unroutable', t, ep, v)
      && forall u, uep, uv :: u != t && Placed(parts, unroutable, u, uep, uv) ==> Placed(parts', unroutable', u, uep, uv)
  {
  }

  /** What the sub-requests and the unroutable list may hold: only input
      tables, under their own endpoint, and only endpoints of the input. */
  ghost predicate OnlyInput<V>(parts: map<Endpoint, map<string, V>>, unroutable: seq<string>,
                               eps: seq<Option<Endpoint>>, tables: seq<string>)
    requires |eps| == |tables|
  {
    && (forall e, t :: e in parts && t in parts[e] ==> exists i :: 0 <= i < |tables| && tables[i] == t && eps[i] == Some(e))
    && (forall t :: t in unroutable ==> exists i :: 0 <= i < |tables| && tables[i] == t && eps[i].None?)
  }

  lemma {:induction false} PartitionOnlyInput<V>(eps: seq<Option<Endpoint>>, tables: seq<string>, groups: map<string, V>)
    requires |eps| == |tables|
    requires forall t :: t in tables ==> t in groups
    ensures var (parts, unroutable) := PartitionOf(eps, tables, groups);
      OnlyInput(parts, unroutable, eps, tables)
    decreases |tables|
  {
    if tables != [] {
      var n := |tables| - 1;
      assert forall t :: t in tables[..n] ==> t in tables;
      PartitionOnlyInput(eps[..n], tables[..n], groups);
      var (parts, unroutable) := PartitionOf(eps[..n], tables[..n], groups);
      assert forall i :: 0 <= i < n ==> tables[..n][i] == tables[i] && eps[..n][i] == eps[i];
    }
  }

  /** Each table is placed by its own endpoint, with its own entry. */
  lemma {:induction false} PartitionPlacesEach<V>(eps: seq<Option<Endpoint>>, tables: seq<string>, groups: map<string, V>)
    requires |eps| == |tables| && Distinct(tables)
    requires forall t :: t in tables ==> t in groups
    ensures var (parts, unroutable) := PartitionOf(eps, tables, groups);
      forall i :: 0 <= i < |tables| ==> Placed(parts, unroutable, tables[i], eps[i], groups[tables[i]])
    decreases |tables|
  {
    if tables != [] {
      var n := |tables| - 1;
      var ps, ts := eps[..n], tables[..n];
      assert forall t :: t in ts ==> t in tables;
      assert forall i :: 0 <= i < n ==> ts[i] == tables[i] && ps[i] == eps[i];
      PartitionPlacesEach(ps, ts, groups);
      PartitionOnlyInput(ps, ts, groups);
      var (parts, unroutable) := PartitionOf(ps, ts, groups);
      var t := tables[n];
      assert t !in ts;
      assert t !in unroutable && forall e :: e in parts ==> t !in parts[e];
      PlacePlaces(parts, unroutable, t, eps[n], groups[t]);
    }
  }

  /** Partitioning is complete and disjoint: every table is placed by its
      own endpoint, and the sub-requests and the unroutable list hold
      nothing else. Tables that share an endpoint share its sub-request. */
  lemma PartitionPlaces<V>(eps: seq<Option<Endpoint>>, tables: seq<string>, groups: map<string, V>)
    requires |eps| == |tables| && Distinct(tables)
    requires forall t :: t in tables ==> t in groups
    ensures var (parts, unroutable) := PartitionOf(eps, tables, groups);
      && (forall i :: 0 <= i < |tables| ==> Placed(parts, unroutable, tables[i], eps[i], groups[tables[i]]))
      && OnlyInput(parts, unroutable, eps, tables)
  {
    PartitionPlacesEach(eps, tables, groups);
    PartitionOnlyInput(eps, tables, groups);
  }

  /** The unroutable tables are the tables without an endpoint, in input
      order. */
  lemma {:induction false} PartitionUnroutable<V>(eps: seq<Option<Endpoint>>, tables: seq<string>, groups: map<string, V>)
    requires |eps| == |tables|
    requires forall t :: t in tables ==> t in groups
    ensures PartitionOf(eps, tables, groups).1 == Unroutable(eps, tables)
    decreases |tables|
  {
    if tables != [] {
      var n := |tables| - 1;
      assert forall t :: t in tables[..n] ==> t in tables;
      PartitionUnroutable(eps[..n], tables[..n], groups);
    }
  }

  /** The tables paired with no endpoint, in order. */
  function Unroutable(eps: seq<Option<Endpoint>>, tables: seq<string>): seq<string>
    requires |eps| == |tables|
    decreases |tables|
  {
    if tables == [] then []
    else
      var n := |tables| - 1;
      Unroutable(eps[..n], tables[..n]) + (if eps[n].None? then [tables[n]] else [])
  }

  /** No table goes unroutable when every endpoint is present. */
  lemma {:induction false} AllPresentNoneUnroutable(eps: seq<Option<Endpoint>>, tables: seq<string>)
    requires |eps| == |tables| && forall i :: 0 <= i < |eps| ==> eps[i].Some?
    ensures Unroutable(eps, tables) == []
    decreases |tables|
  {
    if tables != [] {
      AllPresentNoneUnroutable(eps[..|tables| - 1], tables[..|tables| - 1]);
    }
  }

  /** The partition loop: zip the endpoints with the tables and put each
      table's entry into its endpoint's sub-request, or the table into the
      unroutable list. */
  method PartitionByEndpoint<V>(eps: seq<Option<Endpoint>>, tables: seq<string>, groups: map<string, V>)
      returns (parts: map<Endpoint, map<string, V>>, unroutable: seq<string>)
    requires |eps| == |tables|
    requires forall t :: t in tables ==> t in groups
    ensures (parts, unroutable) == PartitionOf(eps, tables, groups)
  {
    parts := map[];
    unroutable := [];
    for i := 0 to |tables|
      invariant (parts, unroutable) == PartitionOf(eps[..i], tables[..i], groups)
    {
      assert eps[..i + 1][..i] == eps[..i] && tables[..i + 1][..i] == tables[..i];
      assert forall t :: t in tables[..i + 1] ==> t in tables;
      var t := tables[i];
      match eps[i]
      case None =>
        unroutable := unroutable + [t];
      case Some(ep) =>
        var sub := if ep in parts then parts[ep] else map[];
        parts := parts[ep := sub[t := groups[t]]];
    }
    assert eps[..|tables|] == eps && tables[..|tables|] == tables;
  }

  // ---------------------------------------------------------------------
  // Eviction.
  // ---------------------------------------------------------------------

  /** A result that shows the cached route was stale: a server error that
      `should_refresh` accepts. */
  predicate ShouldEvict<T>(result: Result<T>) {
    result.Err? && result.error.Server? && ShouldRefresh(result.error.code, result.error.msg)
  }

  /** The tables of every (tables, result) pair whose result calls for
      eviction, in order. */
  function Evicts<T>(pairs: seq<(seq<string>, Result<T>)>): seq<string>
    decreases |pairs|
  {
    if pairs == [] then []
    else
      var n := |pairs| - 1;
      Evicts(pairs[..n]) + (if ShouldEvict(pairs[n].1) then pairs[n].0 else [])
  }

  /** A table is evicted iff it belongs to a pair whose result is a server
      error accepted by `should_refresh`; other errors and successes evict
      nothing. */
  lemma {:induction false} EvictsIff<T>(pairs: seq<(seq<string>, Result<T>)>, t: string)
    ensures t in Evicts(pairs) <==> exists i :: 0 <= i < |pairs| && ShouldEvict(pairs[i].1) && t in pairs[i].0
    decreases |pairs|
  {
    if pairs != [] {
      var n := |pairs| - 1;
      EvictsIff(pairs[..n], t);
      if t in Evicts(pairs[..n]) {
        var i :| 0 <= i < n && ShouldEvict(pairs[..n][i].1) && t in pairs[..n][i].0;
        assert pairs[i] == pairs[..n][i];
      }
      if exists i :: 0 <= i < |pairs| && ShouldEvict(pairs[i].1) && t in pairs[i].0 {
        var i :| 0 <= i < |pairs| && ShouldEvict(pairs[i].1) && t in pairs[i].0;
        if i < n {
          assert pairs[..n][i] == pairs[i];
        }
      }
    }
  }
}

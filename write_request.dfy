/** A write request: points grouped by table (src/model/write/request.rs,
    `Request`). The group map is a hash map the request updates in place. */
module WriteRequest {
  import opened Points

  /** The points of table `t`, empty when the table has no group yet. */
  function Group(groups: map<string, seq<Point>>, t: string): seq<Point> {
    if t in groups then groups[t] else []
  }

  /** The groups after adding one point. */
  function AddTo(groups: map<string, seq<Point>>, p: Point): map<string, seq<Point>> {
    groups[p.table := Group(groups, p.table) + [p]]
  }

  /** The groups after adding points one after the other. */
  function AddAll(groups: map<string, seq<Point>>, points: seq<Point>): map<string, seq<Point>>
    decreases |points|
  {
    if points == [] then groups else AddAll(AddTo(groups, points[0]), points[1..])
  }

  /** The points of `points` that belong to table `t`, in order. */
  function OfTable(points: seq<Point>, t: string): (r: seq<Point>)
    ensures forall k :: 0 <= k < |r| ==> r[k].table == t
    decreases |points|
  {
    if points == [] then []
    else (if points[0].table == t then [points[0]] else []) + OfTable(points[1..], t)
  }

  /** Every point sits in the group of its own table. */
  ghost predicate WellGrouped(groups: map<string, seq<Point>>) {
    forall t, k :: t in groups && 0 <= k < |groups[t]| ==> groups[t][k].table == t
  }

  lemma GroupAddTo(groups: map<string, seq<Point>>, p: Point, t: string)
    ensures Group(AddTo(groups, p), t) == Group(groups, t) + (if p.table == t then [p] else [])
    ensures t in AddTo(groups, p) <==> t in groups || p.table == t
  {
  }

  /** Adding points appends each table's points, in order, to that table's
      group, and leaves every other group as it was. */
  lemma {:induction false} AddAllGroups(groups: map<string, seq<Point>>, points: seq<Point>, t: string)
    ensures Group(AddAll(groups, points), t) == Group(groups, t) + OfTable(points, t)
    decreases |points|
  {
    if points != [] {
      var g := AddTo(groups, points[0]);
      AddAllGroups(g, points[1..], t);
      GroupAddTo(groups, points[0], t);
      var first := if points[0].table == t then [points[0]] else [];
      assert OfTable(points, t) == first + OfTable(points[1..], t);
      assert Group(groups, t) + first + OfTable(points[1..], t) == Group(groups, t) + (first + OfTable(points[1..], t));
    }
  }

  /** Groups are created only for the tables of added points. */
  lemma {:induction false} AddAllKeys(groups: map<string, seq<Point>>, points: seq<Point>, t: string)
    ensures t in AddAll(groups, points) <==> t in groups || exists k :: 0 <= k < |points| && points[k].table == t
    decreases |points|
  {
    if points != [] {
      AddAllKeys(AddTo(groups, points[0]), points[1..], t);
      assert forall k :: 0 < k < |points| ==> points[k] == points[1..][k - 1];
    }
  }

  /** Adding points keeps every point in the group of its table. */
  lemma AddAllWellGrouped(groups: map<string, seq<Point>>, points: seq<Point>)
    requires WellGrouped(groups)
    ensures WellGrouped(AddAll(groups, points))
  {
    var r: map<string, seq<Point>> := AddAll(groups, points);
    forall t: string, k: int | t in r && 0 <= k < |r[t]| ensures r[t][k].table == t {
      AddAllGroups(groups, points, t);
      assert r[t] == Group(groups, t) + OfTable(points, t);
    }
  }

  class Request {
    var pointGroups: map<string, seq<Point>>

    constructor ()
      ensures pointGroups == map[]
    {
      pointGroups := map[];
    }

    /** `Request::add_point`: append the point to its table's group. */
    method AddPoint(point: Point)
      modifies this
      ensures pointGroups == AddTo(old(pointGroups), point)
    {
      var points := if point.table in pointGroups then pointGroups[point.table] else [];
      pointGroups := pointGroups[point.table := points + [point]];
    }

    /** `Request::add_points`: `add_point` on each point in order. */
    method AddPoints(points: seq<Point>)
      modifies this
      ensures pointGroups == AddAll(old(pointGroups), points)
    {
      var i := 0;
      while i < |points|
        invariant 0 <= i <= |points|
        invariant AddAll(pointGroups, points[i..]) == AddAll(old(pointGroups), points)
      {
        assert points[i..][1..] == points[i + 1..];
        AddPoint(points[i]);
        i := i + 1;
      }
    }
  }
}

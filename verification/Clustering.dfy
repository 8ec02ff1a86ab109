/** The incremental spatial clusterer and the wildfire reducer that feeds it.

    `SpatialClusterer` keeps the forest of `UnionFind` in step with the proximity graph of the
    points added so far; `Clusters` turns the forest into one summary per component. */
module Clustering {
  import opened Words
  import opened Reals
  import opened UnionFind
  import opened Components
  import opened Lists

  // ----- Proximity -------------------------------------------------------------------------

  function Distance2(p: Point, q: Point): real {
    Square(p.x - q.x) + Square(p.y - q.y)
  }

  /** Two points are near when their squared distance is at most the squared radius. */
  function Within(radius: real): Proximity {
    (p: Point, q: Point) => Distance2(p, q) <= radius * radius
  }

  /** The distance test of the insertion loop, for a point at (`x`, `y`). */
  method IsClose(x: real, y: real, q: Point, r2: real) returns (close: bool)
    ensures forall p: Point :: p.x == x && p.y == y ==> (close <==> Distance2(p, q) <= r2)
  {
    var dx := x - q.x;
    var dy := y - q.y;
    close := dx * dx + dy * dy <= r2;
  }

  lemma CloseIsWithin(p: Point, q: Point, radius: real, r2: real)
    requires r2 == radius * radius
    ensures Within(radius)(p, q) <==> Distance2(p, q) <= r2
  {
  }

  lemma SquareOfDifference(a: real, b: real)
    ensures (a - b) * (a - b) == (b - a) * (b - a)
  {
  }

  lemma WithinIsSymmetric(radius: real)
    ensures Symmetric(Within(radius))
  {
    forall p: Point, q: Point | Within(radius)(p, q) ensures Within(radius)(q, p) {
      SquareOfDifference(p.x, q.x);
      SquareOfDifference(p.y, q.y);
    }
  }

  lemma Distance2Is(p: Point, q: Point, radius: real)
    ensures Within(radius)(p, q) <==> Square(p.x - q.x) + Square(p.y - q.y) <= Square(radius)
  {
  }

  /** Points above each other or beside each other are near when they are at most the radius apart. */
  lemma WithinOnAxes(p: Point, q: Point, radius: real)
    ensures p.x == q.x ==> (Within(radius)(p, q) <==> Abs(p.y - q.y) <= Abs(radius))
    ensures p.y == q.y ==> (Within(radius)(p, q) <==> Abs(p.x - q.x) <= Abs(radius))
  {
    Distance2Is(p, q, radius);
    SquareOrder(p.x - q.x, radius);
    SquareOrder(p.y - q.y, radius);
  }

  /** Near points are at most the radius apart in each coordinate. */
  lemma WithinBox(p: Point, q: Point, radius: real)
    requires Within(radius)(p, q)
    ensures Abs(p.x - q.x) <= Abs(radius) && Abs(p.y - q.y) <= Abs(radius)
  {
    Distance2Is(p, q, radius);
    SquareNotNegative(p.x - q.x);
    SquareNotNegative(p.y - q.y);
    SquareOrder(p.x - q.x, radius);
    SquareOrder(p.y - q.y, radius);
  }

  /** The point turned around the origin by the angle with cosine `c` and sine `s`, and moved by
      (`dx`, `dy`). */
  function Turned(p: Point, c: real, s: real, dx: real, dy: real): Point {
    Point(c * p.x - s * p.y + dx, s * p.x + c * p.y + dy, p.value)
  }

  lemma TurnedSquares(a: real, b: real, c: real, s: real)
    requires c * c + s * s == 1.0
    ensures Square(c * a - s * b) + Square(s * a + c * b) == Square(a) + Square(b)
  {
    assert Square(c * a - s * b) == c * c * (a * a) - 2.0 * (c * s * (a * b)) + s * s * (b * b);
    assert Square(s * a + c * b) == s * s * (a * a) + 2.0 * (c * s * (a * b)) + c * c * (b * b);
    assert (c * c + s * s) * (a * a) == c * c * (a * a) + s * s * (a * a);
    assert (c * c + s * s) * (b * b) == c * c * (b * b) + s * s * (b * b);
  }

  lemma TurnedDifference(p: Point, q: Point, c: real, s: real, dx: real, dy: real)
    ensures var p', q' := Turned(p, c, s, dx, dy), Turned(q, c, s, dx, dy);
      && p'.x - q'.x == c * (p.x - q.x) - s * (p.y - q.y)
      && p'.y - q'.y == s * (p.x - q.x) + c * (p.y - q.y)
  {
  }

  /** Nearness is a matter of distance in the plane: turning and moving both points, or exchanging
      their coordinates, does not change it. */
  lemma WithinIsGeometric(p: Point, q: Point, radius: real, c: real, s: real, dx: real, dy: real)
    requires c * c + s * s == 1.0
    ensures Within(radius)(Turned(p, c, s, dx, dy), Turned(q, c, s, dx, dy)) <==> Within(radius)(p, q)
    ensures Within(radius)(Point(p.y, p.x, p.value), Point(q.y, q.x, q.value)) <==> Within(radius)(p, q)
  {
    var p', q' := Turned(p, c, s, dx, dy), Turned(q, c, s, dx, dy);
    TurnedDifference(p, q, c, s, dx, dy);
    TurnedSquares(p.x - q.x, p.y - q.y, c, s);
    Distance2Is(p, q, radius);
    Distance2Is(p', q', radius);
  }

  /** On whole coordinates, the radius joins exactly the eight neighbours of a position. */
  ghost predicate JoinsNeighbours(radius: real) {
    forall a: int, b: int, c: int, d: int :: NearOnGrid(radius, a, b, c, d) <==> -1 <= a - c <= 1 && -1 <= b - d <= 1
  }

  ghost predicate NearOnGrid(radius: real, a: int, b: int, c: int, d: int) {
    Within(radius)(Point(a as real, b as real, 0.0), Point(c as real, d as real, 0.0))
  }

  lemma GridDistance(radius: real, a: int, b: int, c: int, d: int)
    ensures NearOnGrid(radius, a, b, c, d) <==> ((a - c) * (a - c) + (b - d) * (b - d)) as real <= Square(radius)
  {
    var x, y := a - c, b - d;
    Distance2Is(Point(a as real, b as real, 0.0), Point(c as real, d as real, 0.0), radius);
    WholeSquare(x);
    WholeSquare(y);
    assert a as real - c as real == x as real && b as real - d as real == y as real;
  }

  lemma WholeSquare(x: int)
    ensures Square(x as real) == (x * x) as real
  {
  }

  lemma SmallSquares(x: int, y: int)
    ensures -1 <= x <= 1 && -1 <= y <= 1 ==> x * x + y * y <= 2
    ensures !(-1 <= x <= 1 && -1 <= y <= 1) ==> x * x + y * y >= 4
  {
    assert x * x >= 0 && y * y >= 0;
    if x >= 2 || x <= -2 { assert x * x >= 4; }
    if y >= 2 || y <= -2 { assert y * y >= 4; }
  }

  /** The clusterer is documented as grouping by 8-connectivity.  On whole coordinates it does so
      exactly for radii from the square root of two up to, but not including, two. */
  lemma EightConnectedExactly(radius: real)
    ensures JoinsNeighbours(radius) <==> 2.0 <= Square(radius) < 4.0
  {
    if 2.0 <= Square(radius) < 4.0 {
      forall a: int, b: int, c: int, d: int
        ensures NearOnGrid(radius, a, b, c, d) <==> -1 <= a - c <= 1 && -1 <= b - d <= 1
      {
        GridDistance(radius, a, b, c, d);
        SmallSquares(a - c, b - d);
      }
    }
    if JoinsNeighbours(radius) {
      GridDistance(radius, 1, 1, 0, 0);
      GridDistance(radius, 2, 0, 0, 0);
      assert NearOnGrid(radius, 1, 1, 0, 0) && !NearOnGrid(radius, 2, 0, 0, 0);
    }
  }

  /** Radius one leaves diagonal neighbours apart. */
  lemma UnitRadiusLeavesDiagonals()
    ensures !NearOnGrid(1.0, 1, 1, 0, 0) && !JoinsNeighbours(1.0)
  {
    GridDistance(1.0, 1, 1, 0, 0);
    EightConnectedExactly(1.0);
  }

  // Points that stand apart.

  /** More than the radius lies between point `i` and every other one, in one coordinate or the other. */
  ghost predicate Isolated(pts: seq<Point>, radius: real, i: nat) {
    forall k :: 0 <= k < |pts| && k != i && i < |pts| ==>
      Abs(pts[i].x - pts[k].x) > Abs(radius) || Abs(pts[i].y - pts[k].y) > Abs(radius)
  }

  /** Such a point is joined to no other. */
  lemma IsolatedStaysAlone(pts: seq<Point>, radius: real, i: nat, j: nat)
    requires i < |pts| && Isolated(pts, radius, i) && Joined(Within(radius), pts, i, j)
    ensures i == j
  {
    var path :| IsChain(Within(radius), pts, path, i, j);
    if i != j { LeavesSomewhere(pts, radius, path, i, j); }
  }

  lemma {:induction false} LeavesSomewhere(pts: seq<Point>, radius: real, path: seq<nat>, i: nat, j: nat)
    requires i < |pts| && i != j && IsChain(Within(radius), pts, path, i, j)
    ensures !Isolated(pts, radius, i)
    decreases |path|
  {
    if path[1] == i {
      LeavesSomewhere(pts, radius, path[1..], i, j);
    } else {
      assert Within(radius)(pts[path[0]], pts[path[1]]);
      WithinBox(pts[i], pts[path[1]], radius);
    }
  }

  /** What the radius means for the representatives: a point that stands apart keeps its own, and
      points above or beside each other within the radius share one. */
  ghost predicate SeparatedBy(radius: real, pts: seq<Point>, reps: seq<nat>)
    requires |pts| <= |reps|
  {
    forall i, j :: 0 <= i < |pts| && 0 <= j < |pts| && i != j ==>
      && (Isolated(pts, radius, i) ==> reps[i] != reps[j])
      && (pts[i].x == pts[j].x && Abs(pts[i].y - pts[j].y) <= Abs(radius) ==> reps[i] == reps[j])
      && (pts[i].y == pts[j].y && Abs(pts[i].x - pts[j].x) <= Abs(radius) ==> reps[i] == reps[j])
  }

  lemma ExactSeparates(radius: real, pts: seq<Point>, reps: seq<nat>)
    requires |pts| <= |reps|
    requires forall i, j :: 0 <= i < |pts| && 0 <= j < |pts| ==>
      (reps[i] == reps[j] <==> Joined(Within(radius), pts, i, j))
    ensures SeparatedBy(radius, pts, reps)
  {
    forall i, j | 0 <= i < |pts| && 0 <= j < |pts| && i != j
      ensures Isolated(pts, radius, i) ==> reps[i] != reps[j]
      ensures Within(radius)(pts[i], pts[j]) ==> reps[i] == reps[j]
    {
      if Isolated(pts, radius, i) && reps[i] == reps[j] { IsolatedStaysAlone(pts, radius, i, j); }
      if Within(radius)(pts[i], pts[j]) { JoinedStep(Within(radius), pts, i, j); }
    }
    forall i, j | 0 <= i < |pts| && 0 <= j < |pts| && i != j
      ensures pts[i].x == pts[j].x ==> (Within(radius)(pts[i], pts[j]) <==> Abs(pts[i].y - pts[j].y) <= Abs(radius))
      ensures pts[i].y == pts[j].y ==> (Within(radius)(pts[i], pts[j]) <==> Abs(pts[i].x - pts[j].x) <= Abs(radius))
    {
      WithinOnAxes(pts[i], pts[j], radius);
    }
  }

  // ----- Accumulators ----------------------------------------------------------------------

  datatype Accum = Accum(sumX: real, sumY: real, maxValue: real, count: u16)

  const EMPTY := Accum(0.0, 0.0, 0.0, 0)

  /** Adds one point, in the order of the running sums, maximum and counter. */
  function AddTo(a: Accum, p: Point): Accum
    requires a.count < 0xFFFF
  {
    Accum(a.sumX + p.x, a.sumY + p.y, if p.value > a.maxValue then p.value else a.maxValue, a.count + 1)
  }

  /** `a` holds the sums, maximum and size of the points at `s`. */
  ghost predicate Accumulates(a: Accum, pts: seq<Point>, s: set<nat>) {
    && (forall i :: i in s ==> i < |pts|)
    && a.sumX == SumAt(Xs(pts), s) && a.sumY == SumAt(Ys(pts), s)
    && a.maxValue == MaxAt(Values(pts), s) && a.count as int == |s|
  }

  lemma AccumulatesOneMore(a: Accum, pts: seq<Point>, s: set<nat>, i: nat)
    requires Accumulates(a, pts, s) && i < |pts| && i !in s && a.count < 0xFFFF
    ensures Accumulates(AddTo(a, pts[i]), pts, s + {i})
  {
    var t, b := s + {i}, AddTo(a, pts[i]);
    assert t - {i} == s;
    SumAtTake(Xs(pts), t, i);
    SumAtTake(Ys(pts), t, i);
    var vs := Values(pts);
    if pts[i].value > a.maxValue {
      assert i in t && vs[i] == b.maxValue;
    } else if a.maxValue != 0.0 {
      var k :| k in s && vs[k] == a.maxValue;
      assert k in t;
    }
    MaxAtIsDetermined(vs, t, b.maxValue);
  }

  /** The points among the first `k` that carry tag `r`. */
  ghost function Members(tags: seq<nat>, k: nat, r: nat): (s: set<nat>)
    requires k <= |tags|
    ensures forall i: nat :: i in s <==> i < k && tags[i] == r
    ensures |s| <= k
  {
    if k == 0 then {} else if tags[k - 1] == r then Members(tags, k - 1, r) + {k - 1} else Members(tags, k - 1, r)
  }

  /** Every slot holds the sums of its members among the first `k` points. */
  ghost predicate SlotsHold(accum: seq<Accum>, pts: seq<Point>, tags: seq<nat>, k: nat) {
    && |accum| == |tags| && k <= |tags|
    && forall r {:trigger Members(tags, k, r)} :: 0 <= r < |accum| ==> Accumulates(accum[r], pts, Members(tags, k, r))
  }

  lemma EmptySlotsHold(accum: seq<Accum>, pts: seq<Point>, tags: seq<nat>)
    requires |accum| == |tags| && forall r :: 0 <= r < |accum| ==> accum[r] == EMPTY
    ensures SlotsHold(accum, pts, tags, 0)
  {
  }

  lemma SlotTakesPoint(accum: seq<Accum>, pts: seq<Point>, tags: seq<nat>, k: nat)
    requires SlotsHold(accum, pts, tags, k) && k < |pts| <= |tags| && |pts| <= 0xFFFF && tags[k] < |tags|
    ensures var root := tags[k];
            accum[root].count < 0xFFFF && SlotsHold(accum[root := AddTo(accum[root], pts[k])], pts, tags, k + 1)
  {
    var root := tags[k];
    AccumulatesOneMore(accum[root], pts, Members(tags, k, root), k);
    forall r | 0 <= r < |accum| && r != root ensures Accumulates(accum[r], pts, Members(tags, k + 1, r)) {
      assert Members(tags, k + 1, r) == Members(tags, k, r);
    }
  }

  ghost predicate Summarises(pts: seq<Point>, tags: seq<nat>, r: nat, c: Cluster)
    requires |pts| <= |tags|
  {
    Members(tags, |pts|, r) != {} && c == Summary(pts, Members(tags, |pts|, r))
  }

  /** What the scan over the accumulators has produced once it has passed slot `n`. */
  ghost predicate ListsSlots(pts: seq<Point>, tags: seq<nat>, n: nat, reps: seq<nat>, out: seq<Cluster>)
    requires |pts| <= |tags|
  {
    && |out| == |reps| && (forall k :: 0 <= k < |reps| ==> reps[k] < n && Summarises(pts, tags, reps[k], out[k]))
    && (forall k, l :: 0 <= k < l < |reps| ==> reps[k] < reps[l])
    && (forall r: nat :: r < n && Members(tags, |pts|, r) != {} ==> r in reps)
  }

  lemma SkipSlot(a: Accum, pts: seq<Point>, tags: seq<nat>, r: nat, reps: seq<nat>, out: seq<Cluster>)
    requires |pts| <= |tags| && ListsSlots(pts, tags, r, reps, out)
    requires Accumulates(a, pts, Members(tags, |pts|, r)) && a.count == 0
    ensures ListsSlots(pts, tags, r + 1, reps, out)
  {
    assert Members(tags, |pts|, r) == {};
  }

  function ToCluster(a: Accum): Cluster
    requires a.count > 0
  {
    var n := a.count as real;
    Cluster(a.sumX / n, a.sumY / n, a.maxValue, a.count)
  }

  lemma ListSlot(a: Accum, pts: seq<Point>, tags: seq<nat>, r: nat, reps: seq<nat>, out: seq<Cluster>)
    requires |pts| <= |tags| && ListsSlots(pts, tags, r, reps, out)
    requires Accumulates(a, pts, Members(tags, |pts|, r)) && a.count > 0
    ensures ListsSlots(pts, tags, r + 1, reps + [r], out + [ToCluster(a)])
  {
    assert Members(tags, |pts|, r) != {};
    assert Summarises(pts, tags, r, ToCluster(a));
    var reps' := reps + [r];
    forall q: nat | q < r + 1 && Members(tags, |pts|, q) != {} ensures q in reps' {
      StaysListed(reps, r, q);
    }
  }

  lemma StaysListed(reps: seq<nat>, r: nat, q: nat)
    requires q in reps || q == r
    ensures q in reps + [r]
  {
  }

  /** The first `n` points are tagged with indices among themselves. */
  ghost predicate TagsBelow(tags: seq<nat>, n: nat) {
    n <= |tags| && forall i :: 0 <= i < n ==> tags[i] < n
  }

  /** Tags that name a point of their own class: what `Find` returns for points already added. */
  ghost predicate SelfNaming(tags: seq<nat>, n: nat) {
    n <= |tags| && forall i :: 0 <= i < n ==> tags[i] < n && tags[tags[i]] == tags[i]
  }

  lemma ClassIsComponent(near: Proximity, pts: seq<Point>, tags: seq<nat>, r: nat)
    requires Exact(near, pts, tags) && SelfNaming(tags, |pts|) && Members(tags, |pts|, r) != {}
    ensures r < |pts| && tags[r] == r && Members(tags, |pts|, r) == Component(near, pts, r)
  {
    var i :| i in Members(tags, |pts|, r);
    assert tags[i] == r;
  }

  /** One summary per nonempty slot is one summary per component. */
  lemma SlotsAreFaithful(near: Proximity, pts: seq<Point>, tags: seq<nat>, reps: seq<nat>, out: seq<Cluster>)
    requires Exact(near, pts, tags) && SelfNaming(tags, |pts|)
    requires ListsSlots(pts, tags, |tags|, reps, out)
    ensures Faithful(near, pts, reps, out)
  {
    forall k | 0 <= k < |reps|
      ensures reps[k] < |pts| && tags[reps[k]] == reps[k] && out[k] == ClusterOf(near, pts, reps[k])
    {
      ClassIsComponent(near, pts, tags, reps[k]);
    }
    forall k, l | 0 <= k < l < |reps| ensures !Joined(near, pts, reps[k], reps[l]) {
      assert tags[reps[k]] != tags[reps[l]];
    }
    forall i | 0 <= i < |pts| ensures Represented(near, pts, reps, i) {
      var r := tags[i];
      assert i in Members(tags, |pts|, r);
      ClassIsComponent(near, pts, tags, r);
      var k :| 0 <= k < |reps| && reps[k] == r;
      assert Joined(near, pts, reps[k], i);
    }
  }

  // ----- The clusterer ---------------------------------------------------------------------

  class SpatialClusterer {
    const uf: UnionFind
    const radius: real
    var points: seq<Point>

    ghost predicate Valid()
      reads this, uf, uf.parent, uf.rank
    {
      && uf.Valid() && |points| <= |uf.reps|
      && Exact(Within(radius), points, uf.reps)
      && SpareTags(uf.reps, |points|)
      && TagsBelow(uf.reps, |points|)
    }

    constructor (capacity: nat, radius: real)
      requires capacity <= 0x1_0000
      ensures Valid() && points == [] && this.radius == radius && |uf.reps| == capacity
      ensures fresh(uf) && fresh(uf.parent) && fresh(uf.rank)
    {
      uf := new UnionFind(capacity);
      this.radius := radius;
      points := [];
    }

    /** Adds a point and merges it with every earlier point within the radius.
        Fails, changing nothing, exactly when the clusterer is full.  Afterwards two points share
        a representative just when a chain of added points joins them. */
    method Add(x: real, y: real, value: real) returns (ok: bool)
      requires Valid()
      modifies this`points, uf`reps, uf.parent, uf.rank
      ensures Valid()
      ensures ok <==> old(|points|) < |uf.reps|
      ensures points == if ok then old(points) + [Point(x, y, value)] else old(points)
      ensures !ok ==> uf.reps == old(uf.reps)
      ensures forall i, j :: 0 <= i < |points| && 0 <= j < |points| ==>
                (uf.reps[i] == uf.reps[j] <==> Joined(Within(radius), points, i, j))
      ensures SeparatedBy(radius, points, uf.reps)
    {
      var idx := |points|;
      if idx == uf.parent.Length {
        ExactSeparates(radius, points, uf.reps);
        return false;
      }
      ghost var near := Within(radius);
      WithinIsSymmetric(radius);
      ghost var p := Point(x, y, value);
      InsertionStarts(near, points, p, uf.reps);
      uf.RepOfRep(idx);
      points := points + [Point(x, y, value)];
      CompareAll(x, y);
      ExactSeparates(radius, points, uf.reps);
      return true;
    }

    /** The insertion loop: the newest point, at (`x`, `y`), against all earlier ones. */
    method CompareAll(x: real, y: real)
      requires uf.Valid() && 0 < |points| <= |uf.reps|
      requires points[|points| - 1].x == x && points[|points| - 1].y == y
      requires ExactUpTo(Within(radius), points, uf.reps, 0) && TagsBelow(uf.reps, |points|)
      modifies uf`reps, uf.parent, uf.rank
      ensures Valid()
    {
      var r2 := radius * radius;
      for j := 0 to |points| - 1
        invariant uf.Valid() && |points| <= |uf.reps|
        invariant ExactUpTo(Within(radius), points, uf.reps, j) && TagsBelow(uf.reps, |points|)
      {
        Compare(x, y, j, r2);
      }
      WithinIsSymmetric(radius);
      InsertionEnds(Within(radius), points, uf.reps);
    }

    /** One turn of the insertion loop: the newest point, at (`x`, `y`), against point `j`. */
    method Compare(x: real, y: real, j: nat, r2: real)
      requires uf.Valid() && 0 < |points| <= |uf.reps| && j < |points| - 1 && r2 == radius * radius
      requires points[|points| - 1].x == x && points[|points| - 1].y == y
      requires ExactUpTo(Within(radius), points, uf.reps, j)
      requires TagsBelow(uf.reps, |points|)
      modifies uf`reps, uf.parent, uf.rank
      ensures uf.Valid() && ExactUpTo(Within(radius), points, uf.reps, j + 1)
      ensures TagsBelow(uf.reps, |points|)
    {
      ghost var before := uf.reps;
      var close := IsClose(x, y, points[j], r2);
      CloseIsWithin(points[|points| - 1], points[j], radius, r2);
      if close {
        uf.Union(|points| - 1, j);
      }
      WithinIsSymmetric(radius);
      InsertionStep(Within(radius), points, before, uf.reps, j);
    }

    /** Sums the points of every class into the slot of its representative. */
    method Accumulate() returns (accum: array<Accum>)
      requires uf.Valid() && TagsBelow(uf.reps, |points|) && |points| <= 0xFFFF
      modifies uf.parent
      ensures uf.Valid() && fresh(accum) && SlotsHold(accum[..], points, uf.reps, |points|)
    {
      accum := EmptySlots();
      TakePoints(accum);
    }

    ghost predicate Separate(accum: array<Accum>) {
      accum as object != uf.parent as object && accum as object != uf.rank as object
    }

    method EmptySlots() returns (accum: array<Accum>)
      requires uf.Valid()
      ensures fresh(accum) && SlotsHold(accum[..], points, uf.reps, 0)
    {
      accum := new Accum[uf.parent.Length](_ => EMPTY);
      EmptySlotsHold(accum[..], points, uf.reps);
    }

    method TakePoints(accum: array<Accum>)
      requires uf.Valid() && TagsBelow(uf.reps, |points|) && |points| <= 0xFFFF
      requires Separate(accum) && SlotsHold(accum[..], points, uf.reps, 0)
      modifies uf.parent, accum
      ensures uf.Valid() && SlotsHold(accum[..], points, uf.reps, |points|)
    {
      ghost var tags, slots := uf.reps, accum[..];
      for i := 0 to |points|
        invariant uf.Valid() && accum[..] == slots && SlotsHold(slots, points, tags, i)
      {
        slots := TakePoint(accum, i, slots);
      }
    }

    /** One turn of the accumulation loop: point `i` into the slot of its representative. */
    method TakePoint(accum: array<Accum>, i: nat, ghost slots: seq<Accum>) returns (ghost slots': seq<Accum>)
      requires uf.Valid() && i < |points| <= |uf.reps| && |points| <= 0xFFFF && TagsBelow(uf.reps, |points|)
      requires Separate(accum) && accum[..] == slots && SlotsHold(slots, points, uf.reps, i)
      modifies uf.parent, accum
      ensures uf.Valid() && accum[..] == slots' && SlotsHold(slots', points, uf.reps, i + 1)
    {
      var root := uf.Find(i);
      SlotTakesPoint(slots, points, uf.reps, i);
      assert accum[root] == slots[root];
      accum[root] := AddTo(accum[root], points[i]);
      slots' := slots[root := AddTo(slots[root], points[i])];
    }

    /** Lists the clusters: exactly one summary for every component of the points added. */
    method Clusters() returns (out: seq<Cluster>)
      requires Valid() && |points| <= 0xFFFF
      modifies uf.parent
      ensures Valid() && ListsComponents(Within(radius), points, out)
    {
      var accum := Accumulate();
      ghost var reps: seq<nat>;
      out, reps := ListClusters(accum, points, uf.reps);
      forall i | 0 <= i < |points| ensures uf.reps[uf.reps[i]] == uf.reps[i] {
        uf.RepOfRep(i);
      }
      SlotsAreFaithful(Within(radius), points, uf.reps, reps, out);
    }
  }

  /** The scan over the accumulators: one summary for each slot that holds points. */
  method ListClusters(accum: array<Accum>, ghost pts: seq<Point>, ghost tags: seq<nat>)
      returns (out: seq<Cluster>, ghost reps: seq<nat>)
    requires |pts| <= |tags| && SlotsHold(accum[..], pts, tags, |pts|)
    ensures ListsSlots(pts, tags, |tags|, reps, out)
  {
    ghost var slots := accum[..];
    out, reps := [], [];
    for r := 0 to accum.Length
      invariant ListsSlots(pts, tags, r, reps, out)
    {
      var a := accum[r];
      assert a == slots[r];
      if a.count > 0 {
        ListSlot(a, pts, tags, r, reps, out);
        out, reps := out + [ToCluster(a)], reps + [r];
      } else {
        SkipSlot(a, pts, tags, r, reps, out);
      }
    }
  }

  // ----- The wildfire reducer --------------------------------------------------------------

  method AddHotspot(clusterer: SpatialClusterer, p: Point) returns (ok: bool)
    requires clusterer.Valid()
    modifies clusterer`points, clusterer.uf`reps, clusterer.uf.parent, clusterer.uf.rank
    ensures clusterer.Valid() && |clusterer.uf.reps| == old(|clusterer.uf.reps|)
    ensures ok <==> old(|clusterer.points|) < |clusterer.uf.reps|
    ensures clusterer.points == if ok then old(clusterer.points) + [p] else old(clusterer.points)
  {
    ok := clusterer.Add(p.x, p.y, p.value);
  }

  /** Adds the hotspots of one batch until the clusterer is full. */
  method AddBatch(clusterer: SpatialClusterer, batch: seq<Point>)
    requires clusterer.Valid()
    modifies clusterer`points, clusterer.uf`reps, clusterer.uf.parent, clusterer.uf.rank
    ensures clusterer.Valid() && |clusterer.uf.reps| == old(|clusterer.uf.reps|)
    ensures clusterer.points == Take(old(clusterer.points) + batch, |clusterer.uf.reps|)
  {
    var h := 0;
    while h < |batch|
      invariant clusterer.Valid() && h <= |batch| && |clusterer.uf.reps| == old(|clusterer.uf.reps|)
      invariant clusterer.points == old(clusterer.points) + batch[..h]
    {
      var ok := AddHotspot(clusterer, batch[h]);
      if !ok {
        return;
      }
      h := h + 1;
    }
  }

  /** Clusters the hotspots of every received batch, ignoring those that no longer fit. */
  method ReduceHotspots(capacity: nat, radius: real, batches: seq<seq<Point>>)
      returns (out: seq<Cluster>)
    requires capacity <= 0xFFFF
    ensures ListsComponents(Within(radius), Take(Flatten(batches), capacity), out)
  {
    var clusterer := new SpatialClusterer(capacity, radius);
    for b := 0 to |batches|
      invariant clusterer.Valid() && |clusterer.uf.reps| == capacity
      invariant fresh(clusterer) && fresh(clusterer.uf) && fresh(clusterer.uf.parent) && fresh(clusterer.uf.rank)
      invariant clusterer.points == Take(Flatten(batches[..b]), capacity)
    {
      AddBatch(clusterer, batches[b]);
      assert batches[..b + 1][..b] == batches[..b];
    }
    assert batches[..|batches|] == batches;
    out := clusterer.Clusters();
  }

  /** Whatever way the mappers' batches were cut and interleaved, if all hotspots fit the
      reducer reports the same clusters. */
  lemma InterleavingIndependence(capacity: nat, radius: real, batches: seq<seq<Point>>, batches': seq<seq<Point>>,
                                 out: seq<Cluster>, out': seq<Cluster>)
    requires multiset(Flatten(batches)) == multiset(Flatten(batches')) && |Flatten(batches)| <= capacity
    requires ListsComponents(Within(radius), Take(Flatten(batches), capacity), out)
    requires ListsComponents(Within(radius), Take(Flatten(batches'), capacity), out')
    ensures multiset(out) == multiset(out')
  {
    WithinIsSymmetric(radius);
    assert |multiset(Flatten(batches))| == |multiset(Flatten(batches'))|;
    OrderIndependence(Within(radius), Flatten(batches), Flatten(batches'), out, out');
  }
}

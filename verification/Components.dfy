/** Connected components of a proximity graph over a list of points, and what a component is
    summarised to.  `near` is any symmetric relation, so nothing here depends on rounding. */
module Components {
  import Lists
  import opened Reals
  import opened UnionFind

  datatype Point = Point(x: real, y: real, value: real)

  datatype Cluster = Cluster(centroidX: real, centroidY: real, maxValue: real, count: nat)

  type Proximity = (Point, Point) -> bool

  ghost predicate Symmetric(near: Proximity) {
    forall p, q :: near(p, q) ==> near(q, p)
  }

  // ----- Chains ----------------------------------------------------------------------------

  /** `path` walks from point `i` to point `j` in steps between near points. */
  ghost predicate IsChain(near: Proximity, pts: seq<Point>, path: seq<nat>, i: nat, j: nat) {
    && |path| > 0 && path[0] == i && path[|path| - 1] == j
    && (forall k :: 0 <= k < |path| ==> path[k] < |pts|)
    && (forall k :: 0 <= k < |path| - 1 ==> near(pts[path[k]], pts[path[k + 1]]))
  }

  ghost predicate Joined(near: Proximity, pts: seq<Point>, i: nat, j: nat) {
    exists path :: IsChain(near, pts, path, i, j)
  }

  lemma JoinedSelf(near: Proximity, pts: seq<Point>, i: nat)
    requires i < |pts|
    ensures Joined(near, pts, i, i)
  {
    assert IsChain(near, pts, [i], i, i);
  }

  lemma JoinedStep(near: Proximity, pts: seq<Point>, i: nat, j: nat)
    requires i < |pts| && j < |pts| && near(pts[i], pts[j])
    ensures Joined(near, pts, i, j)
  {
    assert IsChain(near, pts, [i, j], i, j);
  }

  lemma JoinedTransitive(near: Proximity, pts: seq<Point>, i: nat, j: nat, k: nat)
    requires Joined(near, pts, i, j) && Joined(near, pts, j, k)
    ensures Joined(near, pts, i, k)
  {
    var p :| IsChain(near, pts, p, i, j);
    var q :| IsChain(near, pts, q, j, k);
    var path := p + q[1..];
    forall m | 0 <= m < |path| - 1 ensures near(pts[path[m]], pts[path[m + 1]]) {
      if m >= |p| - 1 {
        assert path[m] == q[m - |p| + 1] && path[m + 1] == q[m - |p| + 2];
      }
    }
    assert IsChain(near, pts, path, i, k);
  }

  lemma JoinedSymmetric(near: Proximity, pts: seq<Point>, i: nat, j: nat)
    requires Symmetric(near) && Joined(near, pts, i, j)
    ensures Joined(near, pts, j, i)
  {
    var p :| IsChain(near, pts, p, i, j);
    var path := seq(|p|, k requires 0 <= k < |p| => p[|p| - 1 - k]);
    forall m | 0 <= m < |path| - 1 ensures near(pts[path[m]], pts[path[m + 1]]) {
      var m' := |p| - 2 - m;
      assert near(pts[p[m']], pts[p[m' + 1]]);
    }
    assert IsChain(near, pts, path, j, i);
  }

  /** More points can only join more. */
  lemma JoinedInExtension(near: Proximity, pts: seq<Point>, more: seq<Point>, i: nat, j: nat)
    requires pts <= more && Joined(near, pts, i, j)
    ensures Joined(near, more, i, j)
  {
    var p :| IsChain(near, pts, p, i, j);
    assert IsChain(near, more, p, i, j);
  }

  /** A tagging that agrees across every near pair agrees along every chain. */
  lemma {:induction false} ChainKeepsTag(near: Proximity, pts: seq<Point>, tag: seq<nat>, path: seq<nat>, i: nat,
                                         j: nat)
    requires |tag| >= |pts| && IsChain(near, pts, path, i, j)
    requires forall a, b :: 0 <= a < |pts| && 0 <= b < |pts| && near(pts[a], pts[b]) ==> tag[a] == tag[b]
    ensures tag[i] == tag[j]
    decreases |path|
  {
    if |path| > 1 {
      var rest := path[1..];
      assert near(pts[path[0]], pts[path[1]]);
      forall k | 0 <= k < |rest| - 1 ensures near(pts[rest[k]], pts[rest[k + 1]]) {
        assert near(pts[path[k + 1]], pts[path[k + 1 + 1]]);
      }
      ChainKeepsTag(near, pts, tag, rest, path[1], j);
    }
  }

  // ----- Taggings that are exactly the components ----------------------------------------

  /** Two points carry the same tag just when a chain joins them. */
  ghost predicate Exact(near: Proximity, pts: seq<Point>, tag: seq<nat>) {
    && |tag| >= |pts|
    && forall i, j :: 0 <= i < |pts| && 0 <= j < |pts| ==>
         (tag[i] == tag[j] <==> Joined(near, pts, i, j))
  }

  /** Tags of points not yet added are shared with nobody. */
  ghost predicate SpareTags(tag: seq<nat>, used: nat) {
    forall i, j :: used <= i < |tag| && 0 <= j < |tag| && i != j ==> tag[i] != tag[j]
  }

  /** Half-way through an insertion: the last point of `pts` has been compared with the first `k`. */
  ghost predicate ExactUpTo(near: Proximity, pts: seq<Point>, tag: seq<nat>, k: nat)
    requires 0 < |pts| <= |tag| && k < |pts|
  {
    var last := |pts| - 1;
    && (forall i, j :: 0 <= i < last && 0 <= j < last && near(pts[i], pts[j]) ==> tag[i] == tag[j])
    && (forall j :: 0 <= j < k && near(pts[last], pts[j]) ==> tag[last] == tag[j])
    && (forall i, j :: 0 <= i < |pts| && 0 <= j < |pts| && tag[i] == tag[j] ==> Joined(near, pts, i, j))
    && SpareTags(tag, |pts|)
  }

  lemma InsertionStarts(near: Proximity, pts: seq<Point>, p: Point, tag: seq<nat>)
    requires Exact(near, pts, tag) && SpareTags(tag, |pts|) && |pts| < |tag|
    ensures ExactUpTo(near, pts + [p], tag, 0)
  {
    var more := pts + [p];
    forall i, j | 0 <= i < |pts| && 0 <= j < |pts| && near(more[i], more[j]) ensures tag[i] == tag[j] {
      JoinedStep(near, pts, i, j);
    }
    forall i, j | 0 <= i < |more| && 0 <= j < |more| && tag[i] == tag[j] ensures Joined(near, more, i, j) {
      if i == j {
        JoinedSelf(near, more, i);
      } else {
        assert i < |pts| && j < |pts|;
        JoinedInExtension(near, pts, more, i, j);
      }
    }
  }

  /** Comparing with point `k`: merge when near, do nothing otherwise. */
  lemma InsertionStep(near: Proximity, pts: seq<Point>, before: seq<nat>, after: seq<nat>, k: nat)
    requires Symmetric(near) && 0 < |pts| <= |before| && k < |pts| - 1
    requires ExactUpTo(near, pts, before, k)
    requires if near(pts[|pts| - 1], pts[k]) then Merges(before, after, |pts| - 1, k) else after == before
    ensures |after| == |before| && ExactUpTo(near, pts, after, k + 1)
  {
    var last := |pts| - 1;
    if near(pts[last], pts[k]) {
      forall i, j | 0 <= i < |pts| && 0 <= j < |pts| && after[i] == after[j] ensures Joined(near, pts, i, j) {
        JoinedStep(near, pts, last, k);
        JoinedStep(near, pts, k, last);
        if before[i] == before[last] && before[j] == before[k] {
          JoinedTransitive(near, pts, i, last, k);
          JoinedTransitive(near, pts, i, k, j);
        } else if before[i] == before[k] && before[j] == before[last] {
          JoinedTransitive(near, pts, i, k, last);
          JoinedTransitive(near, pts, i, last, j);
        }
      }
      assert SpareTags(after, |pts|);
    }
  }

  lemma InsertionEnds(near: Proximity, pts: seq<Point>, tag: seq<nat>)
    requires Symmetric(near) && 0 < |pts| <= |tag| && ExactUpTo(near, pts, tag, |pts| - 1)
    ensures Exact(near, pts, tag) && SpareTags(tag, |pts|)
  {
    var last := |pts| - 1;
    forall a, b | 0 <= a < |pts| && 0 <= b < |pts| && near(pts[a], pts[b]) ensures tag[a] == tag[b] {
      if a == last { assert b < last ==> tag[last] == tag[b]; }
      else if b == last { assert near(pts[last], pts[a]); }
    }
    forall i, j | 0 <= i < |pts| && 0 <= j < |pts| ensures tag[i] == tag[j] <==> Joined(near, pts, i, j) {
      if Joined(near, pts, i, j) {
        var path :| IsChain(near, pts, path, i, j);
        ChainKeepsTag(near, pts, tag, path, i, j);
      }
    }
  }

  // ----- Summaries of a set of points ------------------------------------------------------

  ghost function SumAt(xs: seq<real>, s: set<nat>): real
    requires forall i :: i in s ==> i < |xs|
  {
    if s == {} then 0.0
    else
      var i :| i in s;
      xs[i] + SumAt(xs, s - {i})
  }

  /** The sum does not depend on the order in which elements are taken. */
  lemma {:induction false} SumAtTake(xs: seq<real>, s: set<nat>, i: nat)
    requires (forall k :: k in s ==> k < |xs|) && i in s
    ensures SumAt(xs, s) == xs[i] + SumAt(xs, s - {i})
    decreases s
  {
    var j :| j in s && SumAt(xs, s) == xs[j] + SumAt(xs, s - {j});
    if j != i {
      SumAtTake(xs, s - {j}, i);
      SumAtTake(xs, s - {i}, j);
      assert s - {j} - {i} == s - {i} - {j};
    }
  }

  /** The largest of zero and the values at `s`. */
  ghost function MaxAt(xs: seq<real>, s: set<nat>): (m: real)
    requires forall i :: i in s ==> i < |xs|
    ensures m >= 0.0 && forall i :: i in s ==> xs[i] <= m
    ensures m == 0.0 || exists i :: i in s && xs[i] == m
  {
    if s == {} then 0.0
    else
      var i :| i in s;
      var rest := MaxAt(xs, s - {i});
      if xs[i] > rest then xs[i] else rest
  }

  lemma MaxAtIsDetermined(xs: seq<real>, s: set<nat>, m: real)
    requires forall i :: i in s ==> i < |xs|
    requires m >= 0.0 && (forall i :: i in s ==> xs[i] <= m)
    requires m == 0.0 || exists i :: i in s && xs[i] == m
    ensures m == MaxAt(xs, s)
  {
    if m != 0.0 {
      var i :| i in s && xs[i] == m;
    }
  }

  function Xs(pts: seq<Point>): (xs: seq<real>)
    ensures |xs| == |pts| && forall i :: 0 <= i < |pts| ==> xs[i] == pts[i].x
  {
    seq(|pts|, i requires 0 <= i < |pts| => pts[i].x)
  }

  function Ys(pts: seq<Point>): (ys: seq<real>)
    ensures |ys| == |pts| && forall i :: 0 <= i < |pts| ==> ys[i] == pts[i].y
  {
    seq(|pts|, i requires 0 <= i < |pts| => pts[i].y)
  }

  function Values(pts: seq<Point>): (vs: seq<real>)
    ensures |vs| == |pts| && forall i :: 0 <= i < |pts| ==> vs[i] == pts[i].value
  {
    seq(|pts|, i requires 0 <= i < |pts| => pts[i].value)
  }

  /** Mean position, largest value (never below zero) and size of a nonempty set of points. */
  ghost function Summary(pts: seq<Point>, s: set<nat>): (c: Cluster)
    requires s != {} && forall i :: i in s ==> i < |pts|
    ensures c.count == |s| > 0
  {
    assert |s| > 0;
    var n := |s| as real;
    Cluster(SumAt(Xs(pts), s) / n, SumAt(Ys(pts), s) / n, MaxAt(Values(pts), s), |s|)
  }

  /** `sum` lies between `n` times `lo` and `n` times `hi`. */
  ghost predicate Between(n: real, lo: real, hi: real, sum: real) {
    n * lo <= sum <= n * hi
  }

  lemma BetweenOneMore(n: real, lo: real, hi: real, sum: real, x: real)
    requires Between(n, lo, hi, sum) && lo <= x <= hi
    ensures Between(n + 1.0, lo, hi, x + sum)
  {
    OneMoreTimes(n, lo);
    OneMoreTimes(n, hi);
  }

  lemma {:induction false} SumAtBetween(xs: seq<real>, s: set<nat>, lo: real, hi: real)
    requires forall i :: i in s ==> i < |xs| && lo <= xs[i] <= hi
    ensures Between(|s| as real, lo, hi, SumAt(xs, s))
    decreases s
  {
    if s != {} {
      var i :| i in s;
      SumAtBetween(xs, s - {i}, lo, hi);
      SumAtTake(xs, s, i);
      BetweenOneMore(|s - {i}| as real, lo, hi, SumAt(xs, s - {i}), xs[i]);
    }
  }

  lemma QuotientBetween(sum: real, n: real, lo: real, hi: real, q: real)
    requires n > 0.0 && Between(n, lo, hi, sum) && q == sum / n
    ensures lo <= q <= hi
  {
    CancelFactor(lo, q, n, lo * n, q * n);
    CancelFactor(q, hi, n, q * n, hi * n);
  }

  lemma MeanIsCentral(xs: seq<real>, s: set<nat>, lo: real, hi: real, n: real, mean: real)
    requires s != {} && forall i :: i in s ==> i < |xs| && lo <= xs[i] <= hi
    requires n == |s| as real && mean == SumAt(xs, s) / n
    ensures lo <= mean <= hi
  {
    SumAtBetween(xs, s, lo, hi);
    QuotientBetween(SumAt(xs, s), n, lo, hi, mean);
  }

  /** The centroid of a cluster lies within every rectangle that holds all its points. */
  lemma CentroidIsCentral(pts: seq<Point>, s: set<nat>, x0: real, x1: real, y0: real, y1: real)
    requires s != {} && forall i :: i in s ==> i < |pts| && x0 <= pts[i].x <= x1 && y0 <= pts[i].y <= y1
    ensures var c := Summary(pts, s); x0 <= c.centroidX <= x1 && y0 <= c.centroidY <= y1
  {
    var c := Summary(pts, s);
    MeanIsCentral(Xs(pts), s, x0, x1, c.count as real, c.centroidX);
    MeanIsCentral(Ys(pts), s, y0, y1, c.count as real, c.centroidY);
  }

  ghost function Component(near: Proximity, pts: seq<Point>, i: nat): (s: set<nat>)
    requires i < |pts|
    ensures i in s && forall j: nat :: j in s <==> j < |pts| && Joined(near, pts, i, j)
  {
    JoinedSelf(near, pts, i);
    set j: nat | j < |pts| && Joined(near, pts, i, j)
  }

  /** Joined points have the same component. */
  lemma ComponentOfMember(near: Proximity, pts: seq<Point>, i: nat, j: nat)
    requires Symmetric(near) && i < |pts| && j in Component(near, pts, i)
    ensures Component(near, pts, j) == Component(near, pts, i)
  {
    JoinedSymmetric(near, pts, i, j);
    forall k: nat | k < |pts| ensures k in Component(near, pts, j) <==> k in Component(near, pts, i) {
      if Joined(near, pts, j, k) { JoinedTransitive(near, pts, i, j, k); }
      if Joined(near, pts, i, k) { JoinedTransitive(near, pts, j, i, k); }
    }
  }

  /** The cluster that point `i` ends up in. */
  ghost function ClusterOf(near: Proximity, pts: seq<Point>, i: nat): Cluster
    requires i < |pts|
  {
    Summary(pts, Component(near, pts, i))
  }

  // ----- Faithful lists of clusters --------------------------------------------------------

  ghost predicate Represented(near: Proximity, pts: seq<Point>, reps: seq<nat>, i: nat) {
    exists k :: 0 <= k < |reps| && Joined(near, pts, reps[k], i)
  }

  /** One representative per component, none joined to another. */
  ghost predicate Apart(near: Proximity, pts: seq<Point>, reps: seq<nat>) {
    && (forall k :: 0 <= k < |reps| ==> reps[k] < |pts|)
    && (forall k, l :: 0 <= k < l < |reps| ==> !Joined(near, pts, reps[k], reps[l]))
  }

  /** `out` holds one summary per component: `reps` picks one point from each, no component is
      missed and none is listed twice. */
  ghost predicate Faithful(near: Proximity, pts: seq<Point>, reps: seq<nat>, out: seq<Cluster>) {
    && |out| == |reps| && Apart(near, pts, reps)
    && (forall k :: 0 <= k < |reps| ==> out[k] == ClusterOf(near, pts, reps[k]))
    && (forall i :: 0 <= i < |pts| ==> Represented(near, pts, reps, i))
  }

  /** `out` is such a list: one cluster for each component, in some order. */
  ghost predicate ListsComponents(near: Proximity, pts: seq<Point>, out: seq<Cluster>) {
    exists reps :: Faithful(near, pts, reps, out)
  }

  /** Pairwise disjoint sets of points. */
  ghost predicate Disjoint(parts: seq<set<nat>>) {
    forall k, l :: 0 <= k < l < |parts| ==> parts[k] !! parts[l]
  }

  ghost function UnionOf(parts: seq<set<nat>>): (u: set<nat>)
    ensures forall i :: i in u <==> exists k :: 0 <= k < |parts| && i in parts[k]
  {
    if parts == [] then {} else UnionOf(parts[..|parts| - 1]) + parts[|parts| - 1]
  }

  /** The listed components, as sets. */
  ghost function Parts(near: Proximity, pts: seq<Point>, reps: seq<nat>): (parts: seq<set<nat>>)
    requires Apart(near, pts, reps)
    ensures |parts| == |reps| && forall k :: 0 <= k < |reps| ==> parts[k] == Component(near, pts, reps[k])
  {
    seq(|reps|, k requires 0 <= k < |reps| => Component(near, pts, reps[k]))
  }

  /** Components of representatives that are apart do not meet. */
  lemma PartsAreDisjoint(near: Proximity, pts: seq<Point>, reps: seq<nat>)
    requires Symmetric(near) && Apart(near, pts, reps)
    ensures Disjoint(Parts(near, pts, reps))
  {
    var parts := Parts(near, pts, reps);
    forall k, l | 0 <= k < l < |parts| ensures parts[k] !! parts[l] {
      forall i | i in parts[k] ensures i !in parts[l] {
        if i in parts[l] {
          JoinedSymmetric(near, pts, reps[l], i);
          JoinedTransitive(near, pts, reps[k], i, reps[l]);
        }
      }
    }
  }

  ghost function TotalCount(out: seq<Cluster>): nat {
    if out == [] then 0 else TotalCount(out[..|out| - 1]) + out[|out| - 1].count
  }

  lemma {:induction false} CountsAddUp(parts: seq<set<nat>>, out: seq<Cluster>)
    requires Disjoint(parts) && |out| == |parts|
    requires forall k :: 0 <= k < |out| ==> out[k].count == |parts[k]|
    ensures TotalCount(out) == |UnionOf(parts)|
    decreases |parts|
  {
    if parts != [] {
      var n := |parts| - 1;
      CountsAddUp(parts[..n], out[..n]);
      assert UnionOf(parts[..n]) !! parts[n];
    }
  }

  /** The indices below `n`. */
  ghost function Below(n: nat): (s: set<nat>)
    ensures |s| == n && forall i: nat :: i in s <==> i < n
  {
    if n == 0 then {} else Below(n - 1) + {n - 1}
  }

  lemma PartsHoldPoint(near: Proximity, pts: seq<Point>, reps: seq<nat>, i: nat)
    requires Apart(near, pts, reps) && (i < |pts| ==> Represented(near, pts, reps, i))
    ensures i in UnionOf(Parts(near, pts, reps)) <==> i < |pts|
  {
    var parts := Parts(near, pts, reps);
    if i < |pts| {
      var k :| 0 <= k < |reps| && Joined(near, pts, reps[k], i);
      assert i in parts[k];
    }
  }

  lemma PartsCoverPoints(near: Proximity, pts: seq<Point>, reps: seq<nat>)
    requires Apart(near, pts, reps)
    requires forall i :: 0 <= i < |pts| ==> Represented(near, pts, reps, i)
    ensures UnionOf(Parts(near, pts, reps)) == Below(|pts|)
  {
    var u := UnionOf(Parts(near, pts, reps));
    forall i: nat ensures i in u <==> i in Below(|pts|) {
      PartsHoldPoint(near, pts, reps, i);
    }
  }

  /** Conservation: the counts of a faithful list add up to the number of points. */
  lemma CountsSumToPoints(near: Proximity, pts: seq<Point>, out: seq<Cluster>)
    requires Symmetric(near) && ListsComponents(near, pts, out)
    ensures TotalCount(out) == |pts|
  {
    var reps :| Faithful(near, pts, reps, out);
    PartsAreDisjoint(near, pts, reps);
    CountsAddUp(Parts(near, pts, reps), out);
    PartsCoverPoints(near, pts, reps);
  }

  /** The reported maximum is the component's maximum just when some member is not negative. */
  lemma MaxIsComponentMax(pts: seq<Point>, s: set<nat>)
    requires s != {} && forall i :: i in s ==> i < |pts|
    ensures (exists i :: i in s && pts[i].value >= 0.0) <==>
            (forall i :: i in s ==> pts[i].value <= Summary(pts, s).maxValue) &&
            (exists i :: i in s && pts[i].value == Summary(pts, s).maxValue)
  {
    var vs := Values(pts);
    var m := MaxAt(vs, s);
    if i :| i in s && pts[i].value >= 0.0 {
      if m == 0.0 {
        assert vs[i] == m;
      } else {
        var k :| k in s && vs[k] == m;
        assert pts[k].value == m;
      }
    }
  }

  /** A single point of value -1.0 is reported with maximum zero. */
  lemma NegativeMaximumIsLost()
    ensures Summary([Point(0.0, 0.0, -1.0)], {0}).maxValue == 0.0
  {
    MaxAtIsDetermined(Values([Point(0.0, 0.0, -1.0)]), {0}, 0.0);
  }

  // ----- Order independence ----------------------------------------------------------------

  /** `pi` and `inv` are mutually inverse rearrangements taking `s` to `t`. */
  ghost predicate Rearranges<T>(s: seq<T>, t: seq<T>, pi: seq<nat>, inv: seq<nat>) {
    && |s| == |t| == |pi| == |inv|
    && (forall i :: 0 <= i < |s| ==> pi[i] < |s| && inv[pi[i]] == i && s[i] == t[pi[i]])
    && (forall k :: 0 <= k < |s| ==> inv[k] < |s| && pi[inv[k]] == k)
  }

  /** A rearrangement of all but one element extends to that element. */
  lemma RearrangementExtends<T>(s: seq<T>, a: T, t: seq<T>, j: nat, pi: seq<nat>, inv: seq<nat>)
      returns (pi': seq<nat>, inv': seq<nat>)
    requires j < |t| && t[j] == a && Rearranges(s, Lists.Without(t, j), pi, inv)
    ensures Rearranges(s + [a], t, pi', inv')
  {
    var n := |s|;
    pi' := seq(n, i requires 0 <= i < n => if pi[i] < j then pi[i] else pi[i] + 1) + [j];
    inv' := seq(n + 1, k requires 0 <= k <= n => if k < j then inv[k] else if k == j then n else inv[k - 1]);
  }

  /** Lists with the same elements, counted, are rearrangements of each other. */
  lemma {:induction false} RearrangementExists<T>(s: seq<T>, t: seq<T>) returns (pi: seq<nat>, inv: seq<nat>)
    requires multiset(s) == multiset(t)
    ensures Rearranges(s, t, pi, inv)
    decreases |s|
  {
    assert |s| == |multiset(s)| == |multiset(t)| == |t|;
    if s == [] {
      return [], [];
    }
    var n := |s| - 1;
    assert s[n] in multiset(t);
    var j :| 0 <= j < |t| && t[j] == s[n];
    Lists.WithoutRest(s, t, j);
    assert s == s[..n] + [s[n]];
    pi, inv := RearrangementExists(s[..n], Lists.Without(t, j));
    pi, inv := RearrangementExtends(s[..n], s[n], t, j, pi, inv);
  }

  ghost function Image(pi: seq<nat>, s: set<nat>): (t: set<nat>)
    requires forall i :: i in s ==> i < |pi|
  {
    set i | i in s :: pi[i]
  }

  /** An invertible map sends distinct elements to distinct elements. */
  lemma ImageWithout(pi: seq<nat>, inv: seq<nat>, s: set<nat>, i: nat)
    requires forall k :: k in s ==> k < |pi| && pi[k] < |inv| && inv[pi[k]] == k
    requires i in s
    ensures pi[i] in Image(pi, s) && Image(pi, s - {i}) == Image(pi, s) - {pi[i]}
  {
    forall k | k in Image(pi, s - {i}) ensures k != pi[i] {
      var m :| m in s - {i} && pi[m] == k;
      assert inv[pi[m]] == m;
    }
  }

  lemma {:induction false} ImageSize(pi: seq<nat>, inv: seq<nat>, s: set<nat>)
    requires forall k :: k in s ==> k < |pi| && pi[k] < |inv| && inv[pi[k]] == k
    ensures |Image(pi, s)| == |s|
    decreases s
  {
    if s == {} {
      assert Image(pi, s) == {};
    } else {
      var i :| i in s;
      ImageWithout(pi, inv, s, i);
      ImageSize(pi, inv, s - {i});
    }
  }

  lemma {:induction false} SumOfImage(xs: seq<real>, ys: seq<real>, pi: seq<nat>, inv: seq<nat>, s: set<nat>)
    requires Rearranges(xs, ys, pi, inv) && forall i :: i in s ==> i < |xs|
    ensures forall k :: k in Image(pi, s) ==> k < |ys|
    ensures SumAt(xs, s) == SumAt(ys, Image(pi, s))
    decreases s
  {
    if s == {} {
      assert Image(pi, s) == {};
    } else {
      var i :| i in s;
      SumOfImage(xs, ys, pi, inv, s - {i});
      ImageWithout(pi, inv, s, i);
      SumAtTake(xs, s, i);
      SumAtTake(ys, Image(pi, s), pi[i]);
    }
  }

  lemma MaxOfImage(xs: seq<real>, ys: seq<real>, pi: seq<nat>, inv: seq<nat>, s: set<nat>)
    requires Rearranges(xs, ys, pi, inv) && forall i :: i in s ==> i < |xs|
    ensures forall k :: k in Image(pi, s) ==> k < |ys|
    ensures MaxAt(xs, s) == MaxAt(ys, Image(pi, s))
  {
    var m, t := MaxAt(xs, s), Image(pi, s);
    forall k | k in t ensures ys[k] <= m {
      var i :| i in s && pi[i] == k;
    }
    if m != 0.0 {
      var i :| i in s && xs[i] == m;
      assert pi[i] in t && ys[pi[i]] == m;
    }
    MaxAtIsDetermined(ys, t, m);
  }

  lemma RearrangedFields(pts: seq<Point>, qts: seq<Point>, pi: seq<nat>, inv: seq<nat>)
    requires Rearranges(pts, qts, pi, inv)
    ensures Rearranges(Xs(pts), Xs(qts), pi, inv)
    ensures Rearranges(Ys(pts), Ys(qts), pi, inv)
    ensures Rearranges(Values(pts), Values(qts), pi, inv)
    ensures Rearranges(qts, pts, inv, pi)
  {
  }

  lemma JoinedRearranged(near: Proximity, pts: seq<Point>, qts: seq<Point>, pi: seq<nat>, inv: seq<nat>, i: nat, j: nat)
    requires Rearranges(pts, qts, pi, inv) && i < |pts| && j < |pts|
    requires Joined(near, pts, i, j)
    ensures Joined(near, qts, pi[i], pi[j])
  {
    var p :| IsChain(near, pts, p, i, j);
    var q := seq(|p|, k requires 0 <= k < |p| => pi[p[k]]);
    assert IsChain(near, qts, q, pi[i], pi[j]);
  }

  /** A point keeps its cluster, whatever the order of the list. */
  lemma ClusterRearranged(near: Proximity, pts: seq<Point>, qts: seq<Point>, pi: seq<nat>, inv: seq<nat>, i: nat)
    requires Rearranges(pts, qts, pi, inv) && i < |pts|
    ensures ClusterOf(near, pts, i) == ClusterOf(near, qts, pi[i])
  {
    var s, t := Component(near, pts, i), Component(near, qts, pi[i]);
    forall k: nat | k < |pts| ensures k in Image(pi, s) <==> k in t {
      if k in Image(pi, s) {
        var m :| m in s && pi[m] == k;
        JoinedRearranged(near, pts, qts, pi, inv, i, m);
      }
      if k in t {
        JoinedRearranged(near, qts, pts, inv, pi, pi[i], k);
        assert inv[k] in s && pi[inv[k]] == k;
      }
    }
    assert Image(pi, s) == t by {
      forall k | k in Image(pi, s) ensures k < |pts| {
        var m :| m in s && pi[m] == k;
      }
    }
    RearrangedFields(pts, qts, pi, inv);
    SumOfImage(Xs(pts), Xs(qts), pi, inv, s);
    SumOfImage(Ys(pts), Ys(qts), pi, inv, s);
    ImageSize(pi, inv, s);
    MaxOfImage(Values(pts), Values(qts), pi, inv, s);
  }

  /** The cluster of every point, in order. */
  ghost function ClusterList(near: Proximity, pts: seq<Point>): (held: seq<Cluster>)
    ensures |held| == |pts| && forall i :: 0 <= i < |pts| ==> held[i] == ClusterOf(near, pts, i)
  {
    seq(|pts|, i requires 0 <= i < |pts| => ClusterOf(near, pts, i))
  }

  /** Points of `among` whose cluster is `c`. */
  ghost function Holders(held: seq<Cluster>, among: set<nat>, c: Cluster): (h: set<nat>)
    requires forall i :: i in among ==> i < |held|
    ensures forall i: nat :: i in h <==> i in among && held[i] == c
  {
    set i: nat | i in among && held[i] == c
  }

  ghost predicate AllHold(held: seq<Cluster>, part: set<nat>, d: Cluster) {
    forall i :: i in part ==> i < |held| && held[i] == d
  }

  lemma HoldersOfUnion(held: seq<Cluster>, u: set<nat>, part: set<nat>, d: Cluster, c: Cluster)
    requires u !! part && (forall i :: i in u ==> i < |held|) && AllHold(held, part, d)
    ensures |Holders(held, u + part, c)| == |Holders(held, u, c)| + (if d == c then |part| else 0)
  {
    if d == c {
      assert Holders(held, u + part, c) == Holders(held, u, c) + part;
    } else {
      assert Holders(held, u + part, c) == Holders(held, u, c);
    }
  }

  lemma LastOccurrence(out: seq<Cluster>, c: Cluster)
    requires out != []
    ensures var n := |out| - 1;
            multiset(out)[c] * c.count == multiset(out[..n])[c] * c.count + (if out[n] == c then c.count else 0)
  {
    var n := |out| - 1;
    assert out == out[..n] + [out[n]];
  }

  /** Each listed occurrence of a cluster accounts for exactly `count` of the points that hold it. */
  lemma {:induction false} OccurrencesCountHolders(parts: seq<set<nat>>, held: seq<Cluster>, out: seq<Cluster>,
                                                   c: Cluster)
    requires Disjoint(parts) && |out| == |parts|
    requires forall k :: 0 <= k < |parts| ==> AllHold(held, parts[k], out[k]) && out[k].count == |parts[k]|
    ensures forall i :: i in UnionOf(parts) ==> i < |held|
    ensures multiset(out)[c] * c.count == |Holders(held, UnionOf(parts), c)|
    decreases |parts|
  {
    if parts == [] {
      assert out == [] && Holders(held, UnionOf(parts), c) == {};
    } else {
      var n := |parts| - 1;
      OccurrencesCountHolders(parts[..n], held, out[..n], c);
      assert UnionOf(parts[..n]) !! parts[n];
      HoldersOfUnion(held, UnionOf(parts[..n]), parts[n], out[n], c);
      LastOccurrence(out, c);
    }
  }

  lemma {:induction false} CancelCount(a: nat, b: nat, n: nat)
    requires n > 0 && a * n == b * n
    ensures a == b
    decreases a
  {
    if a == 0 || b == 0 {
      assert a * n == 0 && b * n == 0;
    } else {
      assert (a - 1) * n == a * n - n && (b - 1) * n == b * n - n;
      CancelCount(a - 1, b - 1, n);
    }
  }

  /** What a faithful list says about one cluster value, without mentioning the list's order. */
  lemma FaithfulOccurrences(near: Proximity, pts: seq<Point>, reps: seq<nat>, out: seq<Cluster>, c: Cluster)
    requires Symmetric(near) && Faithful(near, pts, reps, out)
    ensures multiset(out)[c] * c.count == |Holders(ClusterList(near, pts), Below(|pts|), c)|
    ensures c.count == 0 ==> c !in out
  {
    var held, parts := ClusterList(near, pts), Parts(near, pts, reps);
    forall k | 0 <= k < |parts| ensures AllHold(held, parts[k], out[k]) {
      forall i | i in parts[k] ensures i < |held| && held[i] == out[k] {
        ComponentOfMember(near, pts, reps[k], i);
      }
    }
    PartsAreDisjoint(near, pts, reps);
    OccurrencesCountHolders(parts, held, out, c);
    PartsCoverPoints(near, pts, reps);
  }

  lemma HoldersRearranged(held: seq<Cluster>, held': seq<Cluster>, pi: seq<nat>, inv: seq<nat>, c: Cluster)
    requires Rearranges(held, held', pi, inv)
    ensures |Holders(held, Below(|held|), c)| == |Holders(held', Below(|held|), c)|
  {
    var a, b := Holders(held, Below(|held|), c), Holders(held', Below(|held|), c);
    ImageSize(pi, inv, a);
    assert Image(pi, a) == b by {
      forall k | k in b ensures k in Image(pi, a) {
        assert inv[k] in a && pi[inv[k]] == k;
      }
      forall k | k in Image(pi, a) ensures k in b {
        var m :| m in a && pi[m] == k;
      }
    }
  }

  /** Order independence: rearranging the points rearranges the list of clusters and nothing else. */
  lemma OrderIndependence(near: Proximity, pts: seq<Point>, qts: seq<Point>, out: seq<Cluster>, out': seq<Cluster>)
    requires Symmetric(near) && multiset(pts) == multiset(qts)
    requires ListsComponents(near, pts, out) && ListsComponents(near, qts, out')
    ensures multiset(out) == multiset(out')
  {
    var reps :| Faithful(near, pts, reps, out);
    var reps' :| Faithful(near, qts, reps', out');
    var pi, inv := RearrangementExists(pts, qts);
    var held, held' := ClusterList(near, pts), ClusterList(near, qts);
    forall i: nat | i < |pts| ensures held[i] == held'[pi[i]] {
      ClusterRearranged(near, pts, qts, pi, inv, i);
    }
    assert Rearranges(held, held', pi, inv);
    forall c: Cluster ensures multiset(out)[c] == multiset(out')[c] {
      SameListing(near, pts, qts, reps, out, reps', out', pi, inv, c);
    }
  }

  lemma SameListing(near: Proximity, pts: seq<Point>, qts: seq<Point>, reps: seq<nat>, out: seq<Cluster>,
                    reps': seq<nat>, out': seq<Cluster>, pi: seq<nat>, inv: seq<nat>, c: Cluster)
    requires Symmetric(near) && |pts| == |qts| && Rearranges(ClusterList(near, pts), ClusterList(near, qts), pi, inv)
    requires Faithful(near, pts, reps, out) && Faithful(near, qts, reps', out')
    ensures multiset(out)[c] == multiset(out')[c]
  {
    HoldersRearranged(ClusterList(near, pts), ClusterList(near, qts), pi, inv, c);
    FaithfulOccurrences(near, pts, reps, out, c);
    FaithfulOccurrences(near, qts, reps', out', c);
    SameOccurrences(out, out', c);
  }

  lemma SameOccurrences(out: seq<Cluster>, out': seq<Cluster>, c: Cluster)
    requires multiset(out)[c] * c.count == multiset(out')[c] * c.count
    requires c.count == 0 ==> c !in out && c !in out'
    ensures multiset(out)[c] == multiset(out')[c]
  {
    if c.count > 0 {
      CancelCount(multiset(out)[c], multiset(out')[c], c.count);
    }
  }
}

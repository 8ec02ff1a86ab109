/** Disjoint sets kept in a parent array and a rank array.

    The first half is the specification: a forest is a pair of sequences whose parent edges
    climb strictly in rank, and `Root` follows them.  The second half is the array code:
    `Find` with path halving and `Union` by rank, each proved against `Root`. */
module UnionFind {
  import opened Words

  // ----- Forests ---------------------------------------------------------------------------

  /** Parent edges stay inside the array and climb strictly in rank. */
  ghost predicate IsForest(parent: seq<nat>, rank: seq<nat>) {
    && |parent| == |rank|
    && forall i {:trigger parent[i]} :: 0 <= i < |parent| ==>
         parent[i] < |parent| && (parent[i] != i ==> rank[i] < rank[parent[i]])
  }

  ghost function MaxRank(rank: seq<nat>): (m: nat)
    ensures forall i :: 0 <= i < |rank| ==> rank[i] <= m
  {
    if rank == [] then 0
    else
      var last := |rank| - 1;
      var m := MaxRank(rank[..last]);
      assert forall i :: 0 <= i < last ==> rank[i] == rank[..last][i];
      if m < rank[last] then rank[last] else m
  }

  /** The representative of `i`: the end of its chain of parents. */
  ghost function Root(parent: seq<nat>, rank: seq<nat>, i: nat): (r: nat)
    requires IsForest(parent, rank) && i < |parent|
    ensures r < |parent| && parent[r] == r && rank[i] <= rank[r]
    decreases MaxRank(rank) - rank[i]
  {
    if parent[i] == i then i else Root(parent, rank, parent[i])
  }

  ghost function Class(parent: seq<nat>, rank: seq<nat>, r: nat): (c: set<nat>)
    requires IsForest(parent, rank)
    ensures forall i: nat :: i in c <==> i < |parent| && Root(parent, rank, i) == r
  {
    set i: nat | i < |parent| && Root(parent, rank, i) == r
  }

  /** The representative of every element. */
  ghost function Roots(parent: seq<nat>, rank: seq<nat>): (roots: seq<nat>)
    requires IsForest(parent, rank)
    ensures |roots| == |parent|
    ensures forall i :: 0 <= i < |parent| ==> roots[i] == Root(parent, rank, i)
  {
    seq(|parent|, i requires 0 <= i < |parent| => Root(parent, rank, i))
  }

  /** From `before` to `after` exactly the classes of `a` and `b` have become one, headed by one
      of their two representatives; every other element keeps its own. */
  ghost predicate Merges(before: seq<nat>, after: seq<nat>, a: nat, b: nat)
    requires a < |before| && b < |before|
  {
    && |after| == |before|
    && (after[a] == before[a] || after[a] == before[b])
    && forall i :: 0 <= i < |before| ==>
         after[i] == if before[i] == before[a] || before[i] == before[b] then after[a] else before[i]
  }

  /** Merging two classes can be described by any of their members, in either order. */
  lemma MergesByMembers(before: seq<nat>, after: seq<nat>, a: nat, b: nat, a': nat, b': nat)
    requires a < |before| && b < |before| && a' < |before| && b' < |before|
    requires before[a] == before[a'] && before[b] == before[b']
    requires Merges(before, after, a', b') || Merges(before, after, b', a')
    ensures Merges(before, after, a, b)
  {
  }

  /** One step of path halving changes no representative. */
  lemma {:induction false} HalvingKeepsRoot(parent: seq<nat>, rank: seq<nat>, x: nat, i: nat)
    requires IsForest(parent, rank) && x < |parent| && i < |parent|
    ensures var halved := parent[x := parent[parent[x]]];
            IsForest(halved, rank) && Root(halved, rank, i) == Root(parent, rank, i)
    decreases MaxRank(rank) - rank[i]
  {
    var halved := parent[x := parent[parent[x]]];
    assert parent[parent[x]] < |parent|;
    if halved[i] != i {
      HalvingKeepsRoot(parent, rank, x, halved[i]);
    }
  }

  /** Hanging root `a` under root `b` (whose rank may grow to `rb`) moves exactly the class of `a`. */
  lemma {:induction false} LinkMergesClasses(parent: seq<nat>, rank: seq<nat>, a: nat, b: nat, rb: nat, i: nat)
    requires IsForest(parent, rank) && a < |parent| && b < |parent| && i < |parent|
    requires a != b && parent[a] == a && parent[b] == b && rank[a] < rb && rank[b] <= rb
    ensures var linked, ranked := parent[a := b], rank[b := rb];
            IsForest(linked, ranked) &&
            Root(linked, ranked, i) == if Root(parent, rank, i) == a then b else Root(parent, rank, i)
    decreases MaxRank(rank) - rank[i]
  {
    if parent[i] != i {
      LinkMergesClasses(parent, rank, a, b, rb, parent[i]);
    }
  }

  // ----- Rank bound ------------------------------------------------------------------------

  ghost function Pow2(n: nat): (p: nat)
    ensures n < p
  {
    if n == 0 then 1 else 2 * Pow2(n - 1)
  }

  lemma {:induction false} Pow2Monotone(m: nat, n: nat)
    requires m <= n
    ensures Pow2(m) <= Pow2(n)
    decreases n - m
  {
    if m < n { Pow2Monotone(m, n - 1); }
  }

  /** A root of rank k heads a class of at least 2^k elements. */
  ghost predicate RanksPaidFor(parent: seq<nat>, rank: seq<nat>)
    requires IsForest(parent, rank)
  {
    forall r {:trigger Class(parent, rank, r)} :: 0 <= r < |parent| && parent[r] == r ==>
      Pow2(rank[r]) <= |Class(parent, rank, r)|
  }

  lemma SizeOfRange(s: set<nat>, n: nat)
    requires forall i :: i in s ==> i < n
    ensures |s| <= n
  {
    if n == 0 {
      assert s == {};
    } else {
      SizeOfRange(s - {n - 1}, n - 1);
    }
  }

  /** Ranks are logarithmic: 2^rank never exceeds the number of elements, at any node. */
  lemma RankIsLogarithmic(parent: seq<nat>, rank: seq<nat>, i: nat)
    requires IsForest(parent, rank) && RanksPaidFor(parent, rank) && i < |parent|
    ensures Pow2(rank[i]) <= |parent|
  {
    var r := Root(parent, rank, i);
    Pow2Monotone(rank[i], rank[r]);
    SizeOfRange(Class(parent, rank, r), |parent|);
  }

  /** With 16-bit indices no rank exceeds 16, so the 8-bit rank counter cannot wrap. */
  lemma RankFitsByte(parent: seq<nat>, rank: seq<nat>, i: nat)
    requires IsForest(parent, rank) && RanksPaidFor(parent, rank) && i < |parent| <= 0x1_0000
    ensures rank[i] <= 16
  {
    RankIsLogarithmic(parent, rank, i);
    if rank[i] > 16 {
      assert Pow2(17) == 0x2_0000 by {
        assert Pow2(4) == 16;
        assert Pow2(8) == 256;
        assert Pow2(12) == 4096;
        assert Pow2(16) == 0x1_0000;
      }
      Pow2Monotone(17, rank[i]);
    }
  }

  lemma SameRootsKeepRanksPaidFor(parent: seq<nat>, parent': seq<nat>, rank: seq<nat>)
    requires IsForest(parent, rank) && IsForest(parent', rank) && RanksPaidFor(parent, rank)
    requires Roots(parent', rank) == Roots(parent, rank)
    ensures RanksPaidFor(parent', rank)
  {
    forall r | 0 <= r < |parent'| && parent'[r] == r
      ensures Pow2(rank[r]) <= |Class(parent', rank, r)|
    {
      SameRootsSameClass(parent, parent', rank, r);
    }
  }

  lemma SameRootsSameClass(parent: seq<nat>, parent': seq<nat>, rank: seq<nat>, r: nat)
    requires IsForest(parent, rank) && IsForest(parent', rank) && r < |parent'| && parent'[r] == r
    requires Roots(parent', rank) == Roots(parent, rank)
    ensures parent[r] == r && Class(parent', rank, r) == Class(parent, rank, r)
  {
    var roots, roots' := Roots(parent, rank), Roots(parent', rank);
    assert roots[r] == roots'[r] == r;
    forall i: nat | i < |parent| ensures Root(parent', rank, i) == Root(parent, rank, i) {
      assert roots[i] == roots'[i];
    }
  }

  /** One step of path halving keeps every representative and moves `x` up the tree. */
  lemma HalvingStep(parent: seq<nat>, rank: seq<nat>, x: nat)
    requires IsForest(parent, rank) && x < |parent| && parent[x] != x
    ensures parent[parent[x]] < |parent|
    ensures var halved := parent[x := parent[parent[x]]];
            && IsForest(halved, rank) && Roots(halved, rank) == Roots(parent, rank)
            && Roots(parent, rank)[halved[x]] == Roots(parent, rank)[x]
            && rank[x] < rank[halved[x]] <= MaxRank(rank)
  {
    assert parent[parent[x]] < |parent|;
    var halved := parent[x := parent[parent[x]]];
    HalvingKeepsRoot(parent, rank, x, x);
    forall i | 0 <= i < |parent| ensures Roots(halved, rank)[i] == Roots(parent, rank)[i] {
      HalvingKeepsRoot(parent, rank, x, i);
    }
    assert Root(parent, rank, x) == Root(parent, rank, parent[x]) == Root(parent, rank, parent[parent[x]]);
  }

  /** Union by rank keeps the bound: the surviving root gains the other class. */
  lemma LinkKeepsRanksPaidFor(parent: seq<nat>, rank: seq<nat>, a: nat, b: nat, rb: nat)
    requires IsForest(parent, rank) && RanksPaidFor(parent, rank)
    requires a < |parent| && b < |parent| && a != b && parent[a] == a && parent[b] == b
    requires if rank[a] == rank[b] then rb == rank[b] + 1 else rank[a] < rank[b] && rb == rank[b]
    ensures var linked, ranked := parent[a := b], rank[b := rb];
            IsForest(linked, ranked) && RanksPaidFor(linked, ranked)
  {
    var linked, ranked := parent[a := b], rank[b := rb];
    LinkMergesClasses(parent, rank, a, b, rb, a);
    forall r | 0 <= r < |linked| && linked[r] == r
      ensures Pow2(ranked[r]) <= |Class(linked, ranked, r)|
    {
      LinkedClass(parent, rank, a, b, rb, r);
    }
  }

  /** After linking, the class of a surviving root is the old one, joined to that of `a` for `b`. */
  lemma LinkedClass(parent: seq<nat>, rank: seq<nat>, a: nat, b: nat, rb: nat, r: nat)
    requires IsForest(parent, rank) && a < |parent| && b < |parent| && r < |parent|
    requires a != b && r != a && parent[a] == a && parent[b] == b && rank[a] < rb && rank[b] <= rb
    ensures IsForest(parent[a := b], rank[b := rb])
    ensures var after := Class(parent[a := b], rank[b := rb], r);
            var ca, cr := Class(parent, rank, a), Class(parent, rank, r);
            if r == b then |after| == |ca| + |cr| else after == cr
  {
    var linked, ranked := parent[a := b], rank[b := rb];
    LinkMergesClasses(parent, rank, a, b, rb, a);
    forall i: nat | i < |parent|
      ensures Root(linked, ranked, i) == if Root(parent, rank, i) == a then b else Root(parent, rank, i)
    {
      LinkMergesClasses(parent, rank, a, b, rb, i);
    }
    var ca, cr := Class(parent, rank, a), Class(parent, rank, r);
    if r == b {
      assert Class(linked, ranked, b) == ca + cr;
      assert ca !! cr;
    } else {
      assert Class(linked, ranked, r) == cr;
    }
  }

  // ----- The array implementation ----------------------------------------------------------

  class UnionFind {
    const parent: array<u16>
    const rank: array<u8>

    ghost var reps: seq<nat>  // the representative of every element

    ghost predicate Valid()
      reads this, parent, rank
    {
      && parent as object != rank as object
      && parent.Length == |reps| <= 0x1_0000
      && IsForest(parent[..], rank[..])
      && RanksPaidFor(parent[..], rank[..])
      && reps == Roots(parent[..], rank[..])
    }

    /** Representatives are elements that represent themselves: roots of the forest. */
    lemma RepOfRep(i: nat)
      requires Valid() && i < |reps|
      ensures reps[i] < |reps| && reps[reps[i]] == reps[i] && parent[reps[i]] == reps[i]
    {
    }

    lemma NoRankOverflow(i: nat)
      requires Valid() && i < |reps|
      ensures rank[i] <= 16
    {
      RankFitsByte(parent[..], rank[..], i);
    }

    constructor (n: nat)
      requires n <= 0x1_0000
      ensures Valid() && fresh(parent) && fresh(rank)
      ensures |reps| == n && forall i :: 0 <= i < n ==> reps[i] == i
    {
      parent := new u16[n];
      rank := new u8[n](_ => 0);
      new;
      for i := 0 to n
        invariant forall k :: 0 <= k < i ==> parent[k] == k
        invariant forall k :: 0 <= k < n ==> rank[k] == 0
      {
        parent[i] := i;
      }
      assert IsForest(parent[..], rank[..]);
      forall r | 0 <= r < n ensures Pow2(rank[..][r]) <= |Class(parent[..], rank[..], r)| {
        assert r in Class(parent[..], rank[..], r);
      }
      reps := Roots(parent[..], rank[..]);
    }

    /** Follows parents to the root, halving the path on the way. */
    method Find(x0: u16) returns (x: u16)
      requires Valid() && x0 < |reps|
      modifies parent
      ensures Valid() && x == reps[x0] && x < parent.Length && parent[x] == x
    {
      ghost var start, ranks := parent[..], rank[..];
      x := x0;
      while parent[x] != x
        invariant x < parent.Length && rank[..] == ranks
        invariant IsForest(parent[..], ranks) && Roots(parent[..], ranks) == reps
        invariant reps[x] == reps[x0]
        decreases MaxRank(ranks) - ranks[x]
      {
        ghost var before := parent[..];
        HalvingStep(before, ranks, x);
        parent[x] := parent[parent[x]];
        assert parent[..] == before[x := before[before[x]]];
        x := parent[x];
      }
      SameRootsKeepRanksPaidFor(start, parent[..], ranks);
      assert Root(parent[..], ranks, x) == x;
    }

    /** Merges the classes of `a` and `b` and no others. */
    method Union(a: u16, b: u16)
      requires Valid() && a < |reps| && b < |reps|
      modifies this`reps, parent, rank
      ensures Valid() && Merges(old(reps), reps, a, b)
    {
      ghost var before := reps;
      var ra := Find(a);
      var rb := Find(b);
      RepOfRep(a);
      RepOfRep(b);
      if ra == rb {
        return;
      }
      if rank[ra] < rank[rb] {
        Link(ra, rb, rank[rb]);
        MergesByMembers(before, reps, a, b, ra, rb);
      } else {
        NoRankOverflow(ra);
        Link(rb, ra, if rank[ra] == rank[rb] then rank[ra] + 1 else rank[ra]);
        MergesByMembers(before, reps, a, b, ra, rb);
      }
    }

    /** The assignment step of `Union`: hang root `a` under root `b` and set the rank of `b`. */
    method Link(a: u16, b: u16, rb: u8)
      requires Valid() && a < |reps| && b < |reps| && a != b
      requires parent[a] == a && parent[b] == b
      requires if rank[a] == rank[b] then rb as int == rank[b] as int + 1 else rank[a] < rank[b] && rb == rank[b]
      modifies this`reps, parent, rank
      ensures Valid() && Merges(old(reps), reps, a, b)
    {
      ghost var p, r := parent[..], rank[..];
      LinkKeepsRanksPaidFor(p, r, a, b, rb);
      forall i | 0 <= i < |p|
        ensures Root(p[a := b], r[b := rb], i) == if Root(p, r, i) == a then b else Root(p, r, i)
      {
        LinkMergesClasses(p, r, a, b, rb, i);
      }
      parent[a] := b;
      rank[b] := rb;
      assert parent[..] == p[a := b] && rank[..] == r[b := rb];
      reps := Roots(parent[..], rank[..]);
    }
  }
}

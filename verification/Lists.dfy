/** Lists of lists. */
module Lists {

  /** The elements of all the lists, in order. */
  function Flatten<T>(lists: seq<seq<T>>): seq<T> {
    if lists == [] then [] else Flatten(lists[..|lists| - 1]) + lists[|lists| - 1]
  }

  lemma FlattenOneMore<T>(lists: seq<seq<T>>, last: seq<T>)
    ensures Flatten(lists + [last]) == Flatten(lists) + last
  {
    assert (lists + [last])[..|lists|] == lists;
  }

  lemma {:induction false} FlattenConcat<T>(a: seq<seq<T>>, b: seq<seq<T>>)
    ensures Flatten(a + b) == Flatten(a) + Flatten(b)
    decreases |b|
  {
    if b == [] {
      assert a + b == a;
    } else {
      var n := |b| - 1;
      FlattenConcat(a, b[..n]);
      assert a + b == (a + b[..n]) + [b[n]];
      FlattenOneMore(a + b[..n], b[n]);
      ConcatAssociates(Flatten(a), Flatten(b[..n]), b[n]);
    }
  }

  lemma ConcatAssociates<T>(a: seq<T>, b: seq<T>, c: seq<T>)
    ensures a + (b + c) == (a + b) + c
  {
  }

  /** The first `n` elements, or all of them. */
  function Take<T>(s: seq<T>, n: nat): seq<T> {
    if |s| <= n then s else s[..n]
  }

  function Without<T>(t: seq<T>, j: nat): (r: seq<T>)
    requires j < |t|
    ensures |r| == |t| - 1
    ensures multiset(t) == multiset(r) + multiset{t[j]}
  {
    assert t == t[..j] + ([t[j]] + t[j + 1..]);
    t[..j] + t[j + 1..]
  }

  lemma AroundOne<T>(t: seq<T>, j: nat)
    requires j < |t|
    ensures t == t[..j] + ([t[j]] + t[j + 1..]) && Without(t, j) == t[..j] + t[j + 1..]
  {
  }

  function Pointwise<T, U>(f: T -> U, s: seq<T>): (r: seq<U>)
    ensures |r| == |s| && forall i :: 0 <= i < |s| ==> r[i] == f(s[i])
  {
    seq(|s|, i requires 0 <= i < |s| => f(s[i]))
  }

  lemma WithoutRest<T>(s: seq<T>, t: seq<T>, j: nat)
    requires s != [] && j < |t| && s[|s| - 1] == t[j] && multiset(s) == multiset(t)
    ensures multiset(s[..|s| - 1]) == multiset(Without(t, j))
  {
    var n := |s| - 1;
    assert s == s[..n] + [s[n]];
    calc {
      multiset(s[..n]);
      multiset(s) - multiset{s[n]};
      multiset(Without(t, j)) + multiset{t[j]} - multiset{t[j]};
      multiset(Without(t, j));
    }
  }

  /** Lists with the same elements, counted, stay so when mapped. */
  lemma {:induction false} PointwiseRearranges<T, U>(f: T -> U, s: seq<T>, t: seq<T>)
    requires multiset(s) == multiset(t)
    ensures multiset(Pointwise(f, s)) == multiset(Pointwise(f, t))
    decreases |s|
  {
    assert |s| == |multiset(s)| == |multiset(t)| == |t|;
    if s != [] {
      var n := |s| - 1;
      assert s[n] in multiset(t);
      var j :| 0 <= j < |t| && t[j] == s[n];
      WithoutRest(s, t, j);
      PointwiseRearranges(f, s[..n], Without(t, j));
      PointwiseSplits(f, s, n);
      PointwiseSplits(f, t, j);
    }
  }

  lemma PointwiseSplits<T, U>(f: T -> U, t: seq<T>, j: nat)
    requires j < |t|
    ensures multiset(Pointwise(f, t)) == multiset(Pointwise(f, Without(t, j))) + multiset{f(t[j])}
    ensures j == |t| - 1 ==> Without(t, j) == t[..j]
  {
    var m := Pointwise(f, t);
    assert m == m[..j] + ([m[j]] + m[j + 1..]);
    assert Pointwise(f, Without(t, j)) == m[..j] + m[j + 1..];
  }
}

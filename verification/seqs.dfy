/** Sequence helpers that follow JavaScript's `Array.prototype.filter`, `findIndex` and
    `splice`. */
module Seqs {
  import opened Options

  /** `xs.filter(p)`. */
  function Filter<T>(xs: seq<T>, p: T -> bool): (r: seq<T>)
    ensures |r| <= |xs|
    ensures forall i :: 0 <= i < |r| ==> p(r[i])
    ensures forall i :: 0 <= i < |r| ==> r[i] in xs
    ensures forall i :: 0 <= i < |xs| && p(xs[i]) ==> xs[i] in r
  {
    if |xs| == 0 then []
    else
      var rest := Filter(xs[1..], p);
      assert xs == [xs[0]] + xs[1..];
      if p(xs[0]) then [xs[0]] + rest else rest
  }

  /** Filtering keeps every element satisfying `p` as often as it occurs, and nothing else. */
  lemma {:induction false} FilterMultiset<T>(xs: seq<T>, p: T -> bool)
    ensures forall x :: multiset(Filter(xs, p))[x] == if p(x) then multiset(xs)[x] else 0
  {
    if |xs| > 0 {
      FilterMultiset(xs[1..], p);
      assert xs == [xs[0]] + xs[1..];
    }
  }

  /** Filtering keeps the order of the kept elements: it distributes over concatenation. */
  lemma {:induction false} FilterConcat<T>(a: seq<T>, b: seq<T>, p: T -> bool)
    ensures Filter(a + b, p) == Filter(a, p) + Filter(b, p)
  {
    if |a| > 0 {
      FilterConcat(a[1..], b, p);
      assert (a + b)[1..] == a[1..] + b;
    } else {
      assert a + b == b;
    }
  }

  /** When every element but the one at `i` satisfies `p`, filtering removes exactly that one. */
  lemma {:induction false} FilterRemovesOne<T>(xs: seq<T>, i: nat, p: T -> bool)
    requires i < |xs| && !p(xs[i])
    requires forall j :: 0 <= j < |xs| && j != i ==> p(xs[j])
    ensures Filter(xs, p) == xs[..i] + xs[i + 1..]
    decreases i
  {
    var tail := xs[1..];
    if i == 0 {
      forall j | 0 <= j < |tail|
        ensures p(tail[j])
      {
        assert tail[j] == xs[j + 1];
      }
      FilterAll(tail, p);
    } else {
      forall j | 0 <= j < |tail| && j != i - 1
        ensures p(tail[j])
      {
        assert tail[j] == xs[j + 1];
      }
      FilterRemovesOne(tail, i - 1, p);
      assert xs[..i] == [xs[0]] + tail[..i - 1];
      assert xs[i + 1..] == tail[i..];
    }
  }

  /** Filtering with a predicate every element satisfies changes nothing. */
  lemma {:induction false} FilterAll<T>(xs: seq<T>, p: T -> bool)
    requires forall j :: 0 <= j < |xs| ==> p(xs[j])
    ensures Filter(xs, p) == xs
  {
    if |xs| > 0 {
      FilterAll(xs[1..], p);
    }
  }

  /** `xs.findIndex(p)`: the first index whose element satisfies `p`, or -1. */
  function FindIndex<T>(xs: seq<T>, p: T -> bool): (r: int)
    ensures -1 <= r < |xs|
    ensures r >= 0 ==> p(xs[r])
    ensures forall j :: 0 <= j < |xs| && (r == -1 || j < r) ==> !p(xs[j])
  {
    if |xs| == 0 then -1
    else if p(xs[0]) then 0
    else
      var k := FindIndex(xs[1..], p);
      if k == -1 then -1 else k + 1
  }

  /** `xs.find(p)`: the first element satisfying `p`, if any. */
  function Find<T>(xs: seq<T>, p: T -> bool): (r: Option<T>)
    ensures r.Some? <==> exists i :: 0 <= i < |xs| && p(xs[i])
    ensures r.Some? ==> r.value in xs && p(r.value)
    ensures forall i :: 0 <= i < |xs| && p(xs[i]) && (forall j :: 0 <= j < i ==> !p(xs[j])) ==>
              r == Some(xs[i])
  {
    var i := FindIndex(xs, p);
    if i == -1 then None else Some(xs[i])
  }

  /** `xs.map(x => p(x) ? f(x) : x)`: `f` applied to the elements satisfying `p`, the others
      kept in place. */
  function MapWhere<T>(xs: seq<T>, p: T -> bool, f: T -> T): (r: seq<T>)
    ensures |r| == |xs|
    ensures forall i :: 0 <= i < |xs| ==> r[i] == if p(xs[i]) then f(xs[i]) else xs[i]
  {
    seq(|xs|, i requires 0 <= i < |xs| => if p(xs[i]) then f(xs[i]) else xs[i])
  }

  /** The last index holding `true`, or -1: a scan from the end that stops at the first hit. */
  function LastTrue(bs: seq<bool>): (r: int)
    ensures -1 <= r < |bs|
    ensures r >= 0 ==> bs[r]
    ensures forall j :: 0 <= j < |bs| && j > r ==> !bs[j]
  {
    if |bs| == 0 then -1
    else if bs[|bs| - 1] then |bs| - 1
    else LastTrue(bs[..|bs| - 1])
  }

  /** `xs.splice(i, 1)` on a copy: the sequence without the element at `i`. */
  function RemoveAt<T>(xs: seq<T>, i: nat): (r: seq<T>)
    requires i < |xs|
    ensures |r| == |xs| - 1
    ensures multiset(r) + multiset{xs[i]} == multiset(xs)
  {
    assert xs == xs[..i] + [xs[i]] + xs[i + 1..];
    xs[..i] + xs[i + 1..]
  }

  /** `xs.splice(i, 0, x)` on a copy: `x` inserted so that it lands at index `i`. */
  function InsertAt<T>(xs: seq<T>, i: nat, x: T): (r: seq<T>)
    requires i <= |xs|
    ensures |r| == |xs| + 1 && r[i] == x
    ensures RemoveAt(r, i) == xs
    ensures multiset(r) == multiset(xs) + multiset{x}
  {
    assert xs == xs[..i] + xs[i..];
    var r := xs[..i] + [x] + xs[i..];
    assert r[..i] == xs[..i] && r[i + 1..] == xs[i..];
    r
  }
}

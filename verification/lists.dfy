/** Generic sequence helpers: the LINQ projection the mappers use, and the
    listing of a finite set of keys that stands for an unordered query result. */
module Lists {
  import opened Primitives

  /** `xs.Select(f).ToList()`: a fresh list holding `f` of every element, in order. */
  function MapSeq<A, B>(f: A -> B, xs: seq<A>): (r: seq<B>)
    ensures |r| == |xs|
    ensures forall i :: 0 <= i < |xs| ==> r[i] == f(xs[i])
  {
    if xs == [] then [] else [f(xs[0])] + MapSeq(f, xs[1..])
  }

  /** Projecting with `f` and then with a left inverse `g` of `f` gives back the list. */
  lemma MapSeqInverse<A, B>(f: A -> B, g: B -> A, xs: seq<A>)
    requires forall i :: 0 <= i < |xs| ==> g(f(xs[i])) == xs[i]
    ensures MapSeq(g, MapSeq(f, xs)) == xs
  {
  }

  /** No two elements of `xs` share a key. */
  predicate KeysDistinct<T>(xs: seq<T>, key: T -> Guid) {
    forall i, j :: 0 <= i < j < |xs| ==> key(xs[i]) != key(xs[j])
  }

  /** The elements of `xs` whose key is not in `drop`, in order. */
  function Without<T(!new)>(xs: seq<T>, key: T -> Guid, drop: set<Guid>): (r: seq<T>)
    ensures |r| <= |xs|
    ensures forall x :: x in r <==> x in xs && key(x) !in drop
    ensures (forall x :: x in xs ==> key(x) !in drop) ==> r == xs
  {
    if xs == [] then []
    else if key(xs[0]) in drop then Without(xs[1..], key, drop)
    else [xs[0]] + Without(xs[1..], key, drop)
  }

  /** Dropping elements keeps the remaining keys distinct. */
  lemma {:induction false} WithoutKeepsDistinct<T(!new)>(xs: seq<T>, key: T -> Guid, drop: set<Guid>)
    requires KeysDistinct(xs, key)
    ensures KeysDistinct(Without(xs, key, drop), key)
  {
    if xs != [] {
      var tail := xs[1..];
      TailKeysDistinct(xs, key);
      WithoutKeepsDistinct(tail, key, drop);
      if key(xs[0]) !in drop {
        var rest := Without(tail, key, drop);
        forall y | y in rest
          ensures key(y) != key(xs[0])
        {
          var m :| 0 <= m < |tail| && tail[m] == y;
          assert xs[m + 1] == y;
        }
        ConsKeysDistinct(xs[0], rest, key);
      }
    }
  }

  lemma TailKeysDistinct<T>(xs: seq<T>, key: T -> Guid)
    requires xs != [] && KeysDistinct(xs, key)
    ensures KeysDistinct(xs[1..], key)
  {
    var tail := xs[1..];
    forall i, j | 0 <= i < j < |tail|
      ensures key(tail[i]) != key(tail[j])
    {
      assert tail[i] == xs[i + 1] && tail[j] == xs[j + 1];
    }
  }

  /** A key no later element has can go in front of a list with distinct keys. */
  lemma ConsKeysDistinct<T>(x: T, rest: seq<T>, key: T -> Guid)
    requires KeysDistinct(rest, key)
    requires forall y :: y in rest ==> key(y) != key(x)
    ensures KeysDistinct([x] + rest, key)
  {
    var r := [x] + rest;
    forall i, j | 0 <= i < j < |r|
      ensures key(r[i]) != key(r[j])
    {
      assert r[j] == rest[j - 1] && r[j] in rest;
      if i > 0 {
        assert r[i] == rest[i - 1];
      }
    }
  }

  /** `m` is a key of `s` no larger than any other. */
  predicate IsLeast(m: Guid, s: set<Guid>) {
    m in s && forall x :: x in s ==> m <= x
  }

  /** Every non-empty set of keys has a least element. */
  lemma {:induction false} LeastExists(s: set<Guid>)
    requires s != {}
    ensures exists m :: IsLeast(m, s)
  {
    var y :| y in s;
    if s == {y} {
      assert IsLeast(y, s);
    } else {
      LeastExists(s - {y});
      var m :| IsLeast(m, s - {y});
      var least := if y < m then y else m;
      forall x | x in s
        ensures least <= x
      {
        if x != y {
          assert x in s - {y};
        }
      }
      assert IsLeast(least, s);
    }
  }

  /** The least key of a non-empty set. */
  function Least(s: set<Guid>): (m: Guid)
    requires s != {}
    ensures IsLeast(m, s)
  {
    LeastExists(s);
    var m :| IsLeast(m, s); m
  }

  /** Every element is smaller than every later one. */
  predicate Increasing(r: seq<Guid>) {
    forall i, j :: 0 <= i < j < |r| ==> r[i] < r[j]
  }

  /** Listing the least key before an ascending listing of the others lists the whole set. */
  lemma {:induction false} ConsLeast(m: Guid, s: set<Guid>, rest: seq<Guid>)
    requires IsLeast(m, s)
    requires |rest| == |s - {m}| && Increasing(rest)
    requires forall x :: x in rest <==> x in s - {m}
    ensures |[m] + rest| == |s| && Increasing([m] + rest)
    ensures forall x :: x in [m] + rest <==> x in s
  {
    var r := [m] + rest;
    forall i, j | 0 <= i < j < |r|
      ensures r[i] < r[j]
    {
      assert r[j] == rest[j - 1] && r[j] in s - {m};
      if i > 0 {
        assert r[i] == rest[i - 1];
      }
    }
  }

  /** The keys of `s` listed once each, in ascending order. A query without
      `OrderBy` returns its rows in an order the database chooses; this is one
      such order. */
  function SortedKeys(s: set<Guid>): (r: seq<Guid>)
    ensures |r| == |s|
    ensures forall x :: x in r <==> x in s
    ensures Increasing(r)
    decreases |s|
  {
    if s == {} then []
    else
      var m := Least(s);
      var rest := SortedKeys(s - {m});
      ConsLeast(m, s, rest);
      [m] + rest
  }
}

/** The query primitives the ORM applies to a table: `where` (filter),
    `orderBy: desc` (sort), `take` (bounded prefix) and the
    `.map(...).filter(x => x !== null)` pipeline the actions run on rows. */
module Seqs {
  import opened Common

  /** The rows of `s` that satisfy `p`, in table order. */
  function Filter<T(!new)>(s: seq<T>, p: T -> bool): (r: seq<T>)
    ensures |r| <= |s|
    ensures forall i :: 0 <= i < |r| ==> p(r[i])
    ensures forall x :: multiset(r)[x] == if p(x) then multiset(s)[x] else 0
  {
    if s == [] then []
    else
      assert s == [s[0]] + s[1..];
      if p(s[0]) then [s[0]] + Filter(s[1..], p) else Filter(s[1..], p)
  }

  lemma {:induction false} FilterAppend<T(!new)>(s: seq<T>, t: seq<T>, p: T -> bool)
    ensures Filter(s + t, p) == Filter(s, p) + Filter(t, p)
  {
    if s == [] {
      assert s + t == t;
    } else {
      assert (s + t)[1..] == s[1..] + t;
      FilterAppend(s[1..], t, p);
    }
  }

  /** `key` does not increase along `s`: newest first, when `key` is a time. */
  ghost predicate SortedDesc<T>(s: seq<T>, key: T -> int)
  {
    forall i, j :: 0 <= i < j < |s| ==> key(s[i]) >= key(s[j])
  }

  /** Places `x` before the first element whose key is not larger than its own. */
  function InsertDesc<T>(x: T, s: seq<T>, key: T -> int): (r: seq<T>)
    requires SortedDesc(s, key)
    ensures |r| == |s| + 1
    ensures multiset(r) == multiset(s) + multiset{x}
    ensures r[0] == x || (s != [] && r[0] == s[0])
    ensures SortedDesc(r, key)
  {
    if s == [] || key(x) >= key(s[0]) then [x] + s
    else
      var rest := InsertDesc(x, s[1..], key);
      assert s == [s[0]] + s[1..];
      assert multiset(s) == multiset{s[0]} + multiset(s[1..]);
      assert key(s[0]) >= key(rest[0]);
      var r := [s[0]] + rest;
      assert SortedDesc(r, key) by {
        forall i, j | 0 <= i < j < |r| ensures key(r[i]) >= key(r[j]) {
          if i == 0 {
            assert key(rest[0]) >= key(rest[j - 1]);
          } else {
            assert r[i] == rest[i - 1] && r[j] == rest[j - 1];
          }
        }
      }
      r
  }

  /** The rows of `s` ordered by `key`, largest first; equal keys keep table order. */
  function SortDesc<T>(s: seq<T>, key: T -> int): (r: seq<T>)
    ensures |r| == |s|
    ensures multiset(r) == multiset(s)
    ensures SortedDesc(r, key)
  {
    if s == [] then []
    else
      assert s == [s[0]] + s[1..];
      InsertDesc(s[0], SortDesc(s[1..], key), key)
  }

  /** The first `n` rows of `s`, or all of them when there are fewer. */
  function Take<T>(s: seq<T>, n: nat): (r: seq<T>)
    ensures |r| == Min(n, |s|)
    ensures r == s[..|r|]
  {
    s[..Min(n, |s|)]
  }

  /** Cutting a descending sequence after `n` rows keeps the largest keys:
      every row left behind has a key no larger than any row kept. */
  lemma TakeSortedKeepsLargest<T>(s: seq<T>, key: T -> int, n: nat)
    requires SortedDesc(s, key)
    ensures SortedDesc(Take(s, n), key)
    ensures multiset(Take(s, n)) <= multiset(s)
    ensures forall x, i :: x in multiset(s) - multiset(Take(s, n)) && 0 <= i < |Take(s, n)|
              ==> key(x) <= key(Take(s, n)[i])
  {
    var r := Take(s, n);
    var rest := s[|r|..];
    assert s == r + rest;
    assert multiset(s) == multiset(r) + multiset(rest);
    forall x, i | x in multiset(s) - multiset(r) && 0 <= i < |r|
      ensures key(x) <= key(r[i])
    {
      assert x in multiset(rest);
      var j :| 0 <= j < |rest| && rest[j] == x;
      assert s[|r| + j] == x;
    }
  }

  /** `rows.map(f).filter(x => x !== null)`: applies `f` to every row and drops
      the rows it maps to null. */
  function MapNonNull<A, B>(rows: seq<A>, f: Option<A> -> Option<B>): (r: seq<B>)
    ensures |r| <= |rows|
  {
    if rows == [] then []
    else
      var head := f(Some(rows[0]));
      (if head.Some? then [head.value] else []) + MapNonNull(rows[1..], f)
  }

  /** When `f` maps no row to null, nothing is dropped and the rows stay in place. */
  lemma {:induction false} MapNonNullKeepsAll<A, B>(rows: seq<A>, f: Option<A> -> Option<B>)
    requires forall a :: f(Some(a)).Some?
    ensures |MapNonNull(rows, f)| == |rows|
    ensures forall i :: 0 <= i < |rows| ==> Some(MapNonNull(rows, f)[i]) == f(Some(rows[i]))
  {
    if rows != [] {
      MapNonNullKeepsAll(rows[1..], f);
    }
  }
}

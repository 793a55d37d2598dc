/** Sequence operations that stand for the query primitives the handlers use:
    a WHERE filter, a "first matching row" lookup and an OFFSET/LIMIT window.
    Rows are kept in a fixed order (ascending primary key), so every query
    result is a sequence rather than an unordered set. */
module Seqs {

  import opened Wrappers

  /** The rows of `s` that satisfy `p`, in their stored order (a WHERE clause). */
  function Filter<T>(s: seq<T>, p: T -> bool): (r: seq<T>)
    ensures |r| <= |s|
    ensures forall k :: 0 <= k < |r| ==> r[k] in s && p(r[k])
    ensures forall k :: 0 <= k < |s| && p(s[k]) ==> s[k] in r
    decreases |s|
  {
    if s == [] then []
    else (if p(s[0]) then [s[0]] else []) + Filter(s[1..], p)
  }

  /** Filtering distributes over concatenation: rows keep their relative order. */
  lemma {:induction false} FilterAppend<T>(s: seq<T>, t: seq<T>, p: T -> bool)
    ensures Filter(s + t, p) == Filter(s, p) + Filter(t, p)
    decreases |s|
  {
    if s == [] {
      assert s + t == t;
    } else {
      assert (s + t)[0] == s[0];
      assert (s + t)[1..] == s[1..] + t;
      FilterAppend(s[1..], t, p);
    }
  }

  /** A predicate every row satisfies filters nothing out. */
  lemma {:induction false} FilterKeepsAll<T>(s: seq<T>, p: T -> bool)
    requires forall k :: 0 <= k < |s| ==> p(s[k])
    ensures Filter(s, p) == s
    decreases |s|
  {
    if s != [] {
      FilterKeepsAll(s[1..], p);
    }
  }

  /** Filtering keeps rows in their stored order: rows sorted by a strictly
      increasing key stay sorted by it. */
  lemma {:induction false} FilterKeepsOrder<T>(s: seq<T>, p: T -> bool, key: T -> int)
    requires forall i, j :: 0 <= i < j < |s| ==> key(s[i]) < key(s[j])
    ensures forall i, j :: 0 <= i < j < |Filter(s, p)| ==> key(Filter(s, p)[i]) < key(Filter(s, p)[j])
    decreases |s|
  {
    if s != [] {
      var rest := Filter(s[1..], p);
      FilterKeepsOrder(s[1..], p, key);
      forall k | 0 <= k < |rest| ensures key(s[0]) < key(rest[k]) {
        assert rest[k] in s[1..];
      }
    }
  }

  /** No row satisfies `p` exactly when the filter is empty. */
  lemma FilterEmpty<T>(s: seq<T>, p: T -> bool)
    ensures Filter(s, p) == [] <==> forall k :: 0 <= k < |s| ==> !p(s[k])
  {
    var r := Filter(s, p);
    if r != [] {
      assert r[0] in r;
    }
    if exists k :: 0 <= k < |s| && p(s[k]) {
      var k :| 0 <= k < |s| && p(s[k]);
      assert s[k] in r;
    }
  }

  /** The index of the first row satisfying `p` (SELECT ... LIMIT 1 in key order). */
  function FirstIndex<T>(s: seq<T>, p: T -> bool): (r: Option<nat>)
    ensures r.Some? ==> r.value < |s| && p(s[r.value])
    ensures r.Some? ==> forall k :: 0 <= k < r.value ==> !p(s[k])
    ensures r.None? <==> forall k :: 0 <= k < |s| ==> !p(s[k])
    decreases |s|
  {
    if s == [] then None
    else if p(s[0]) then Some(0)
    else match FirstIndex(s[1..], p)
      case None => None
      case Some(k) => Some(k + 1)
  }

  /** The first match depends only on which rows satisfy `p`. */
  lemma {:induction false} FirstIndexAgree<T>(s: seq<T>, t: seq<T>, p: T -> bool)
    requires |s| == |t|
    requires forall k :: 0 <= k < |s| ==> p(s[k]) == p(t[k])
    ensures FirstIndex(s, p) == FirstIndex(t, p)
    decreases |s|
  {
    if s != [] && !p(s[0]) {
      FirstIndexAgree(s[1..], t[1..], p);
    }
  }

  /** The number of leading rows an OFFSET skips: none for a non-positive
      offset, all of them for an offset past the end. */
  function Skipped(len: nat, offset: int): (n: nat)
    ensures n <= len
    ensures 0 < offset <= len ==> n == offset
  {
    if offset <= 0 then 0 else if offset >= len then len else offset
  }

  /** The OFFSET/LIMIT window of `s`: a negative limit means "no limit",
      a non-positive offset means "skip nothing". */
  function Window<T>(s: seq<T>, offset: int, limit: int): (r: seq<T>)
    ensures limit >= 0 ==> |r| == if limit < |s| - Skipped(|s|, offset) then limit else |s| - Skipped(|s|, offset)
    ensures limit < 0 ==> |r| == |s| - Skipped(|s|, offset)
    ensures forall i :: 0 <= i < |r| ==> r[i] == s[Skipped(|s|, offset) + i]
  {
    var rest := s[Skipped(|s|, offset)..];
    if 0 <= limit < |rest| then rest[..limit] else rest
  }

  /** Pages 1..n of size `limit`, concatenated. */
  function Pages<T>(s: seq<T>, n: nat, limit: nat): seq<T>
  {
    if n == 0 then [] else Pages(s, n - 1, limit) + Window(s, (n - 1) * limit, limit)
  }

  /** Walking pages 1..n returns exactly the first m = n * limit rows, so
      once m reaches |s| every row has been listed once, in order. */
  lemma {:induction false} PagesArePrefix<T>(s: seq<T>, n: nat, limit: nat, m: nat)
    requires m == n * limit
    ensures Pages(s, n, limit) == Window(s, 0, m)
  {
    if n > 0 {
      var before := (n - 1) * limit;
      MulSucc(n - 1, limit);
      PagesArePrefix(s, n - 1, limit, before);
      AdjacentWindowsGeneral(s, 0, before, limit);
    }
  }

  lemma MulSucc(a: nat, b: nat)
    ensures a * b + b == (a + 1) * b
  {
  }

  /** A window of length `m` followed by the next window of length `limit`. */
  lemma AdjacentWindowsGeneral<T>(s: seq<T>, offset: nat, m: nat, limit: nat)
    ensures Window(s, offset, m) + Window(s, offset + m, limit) == Window(s, offset, m + limit)
  {
    var a, b, c := Window(s, offset, m), Window(s, offset + m, limit), Window(s, offset, m + limit);
    assert |a + b| == |c|;
    forall i | 0 <= i < |c| ensures (a + b)[i] == c[i] {
      if i >= |a| {
        assert (a + b)[i] == b[i - |a|];
      }
    }
  }
}

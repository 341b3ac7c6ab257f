/** The LINQ operators the controllers use, on sequences: `Where`, `Skip`, `Take`. */
module Seqs {

  function Where<T>(s: seq<T>, p: T -> bool): (r: seq<T>)
    ensures |r| <= |s|
  {
    if s == [] then [] else (if p(s[0]) then [s[0]] else []) + Where(s[1..], p)
  }

  /** An element survives `Where` exactly when it is in the input and passes the test. */
  lemma {:induction false} WhereMember<T>(s: seq<T>, p: T -> bool, x: T)
    ensures x in Where(s, p) <==> x in s && p(x)
  {
    if s != [] {
      WhereMember(s[1..], p, x);
      assert s == [s[0]] + s[1..];
    }
  }

  /** Two `Where`s in a row are one `Where` with the conjunction of the tests. */
  lemma {:induction false} WhereWhere<T>(s: seq<T>, p: T -> bool, q: T -> bool, pq: T -> bool)
    requires forall x :: pq(x) == (p(x) && q(x))
    ensures Where(Where(s, p), q) == Where(s, pq)
  {
    if s != [] {
      WhereWhere(s[1..], p, q, pq);
      WhereAppend([s[0]], s[1..], p);
      var head := if p(s[0]) then [s[0]] else [];
      WhereAppend(head, Where(s[1..], p), q);
    }
  }

  lemma {:induction false} WhereAppend<T>(a: seq<T>, b: seq<T>, p: T -> bool)
    ensures Where(a + b, p) == Where(a, p) + Where(b, p)
  {
    if a != [] {
      WhereAppend(a[1..], b, p);
      var ab := a + b;
      assert ab[0] == a[0] && ab[1..] == a[1..] + b;
      assert Where(ab, p) == (if p(a[0]) then [a[0]] else []) + Where(a[1..] + b, p);
    } else {
      assert a + b == b;
    }
  }

  /** `Where` depends only on the values of its test. */
  lemma {:induction false} WhereExt<T>(s: seq<T>, p: T -> bool, p': T -> bool)
    requires forall x :: p(x) == p'(x)
    ensures Where(s, p) == Where(s, p')
  {
    if s != [] {
      WhereExt(s[1..], p, p');
    }
  }

  /** A test no element passes leaves nothing. */
  lemma WhereNone<T>(s: seq<T>, p: T -> bool)
    requires forall x :: x in s ==> !p(x)
    ensures Where(s, p) == []
  {
    if Where(s, p) != [] {
      WhereMember(s, p, Where(s, p)[0]);
    }
  }

  /** A test every element passes removes nothing. */
  lemma {:induction false} WhereAll<T>(s: seq<T>, p: T -> bool)
    requires forall x :: x in s ==> p(x)
    ensures Where(s, p) == s
  {
    if s != [] {
      WhereAll(s[1..], p);
    }
  }

  /** LINQ `Skip(n)`: a non-positive count skips nothing. */
  function Skip<T>(s: seq<T>, n: int): seq<T> {
    if n <= 0 then s else if n >= |s| then [] else s[n..]
  }

  /** LINQ `Take(n)`: a non-positive count takes nothing. */
  function Take<T>(s: seq<T>, n: int): seq<T> {
    if n <= 0 then [] else if n >= |s| then s else s[..n]
  }

  /** Where a page taken by `Skip(n)` then `Take(m)` starts ... */
  function SliceStart(len: nat, n: int): (a: nat)
    ensures a <= len
  {
    if n <= 0 then 0 else if n >= len then len else n
  }

  /** ... and where it ends. */
  function SliceEnd(len: nat, n: int, m: int): (b: nat)
    ensures SliceStart(len, n) <= b <= len
  {
    var a := SliceStart(len, n);
    if m <= 0 then a else if m >= len - a then len else a + m
  }

  /** `Skip` then `Take` is one contiguous slice of the input. */
  lemma SkipTakeIsSlice<T>(s: seq<T>, n: int, m: int)
    ensures Take(Skip(s, n), m) == s[SliceStart(|s|, n)..SliceEnd(|s|, n, m)]
  {
  }

  /** For non-negative counts, `Skip(n)` then `Take(m)` is the window of at most `m` elements from `n` on. */
  lemma SkipTakeWindow<T>(s: seq<T>, n: int, m: int)
    requires n >= 0 && m >= 0
    ensures var p := Take(Skip(s, n), m);
            && |p| == (if n >= |s| then 0 else if |s| - n < m then |s| - n else m)
            && forall k :: 0 <= k < |p| ==> p[k] == s[n + k]
  {
  }
}

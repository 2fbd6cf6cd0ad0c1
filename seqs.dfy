/** List comprehensions and `append` loops, stated once as functions over the first `n`
    elements of a sequence. */
module Seqs {
  import opened Wrappers

  /** `[f(x) for x in s[:n] if keep(x)]`: what a loop that appends `f(x)` for every kept `x`
      has gathered after `n` elements. */
  function Gather<T, U>(s: seq<T>, keep: T -> bool, f: T -> U, n: nat): (r: seq<U>)
    requires n <= |s|
    ensures |r| <= n
  {
    if n == 0 then []
    else Gather(s, keep, f, n - 1) + (if keep(s[n - 1]) then [f(s[n - 1])] else [])
  }

  /** An element is gathered exactly when some kept element of the prefix maps to it. */
  lemma {:induction false} GatherMember<T, U>(s: seq<T>, keep: T -> bool, f: T -> U, n: nat, y: U)
    requires n <= |s|
    ensures y in Gather(s, keep, f, n) <==> exists k :: 0 <= k < n && keep(s[k]) && f(s[k]) == y
  {
    if n > 0 {
      GatherMember(s, keep, f, n - 1, y);
    }
  }

  /** Gathering everything of an element that is kept lists each kept element as `f` of it, in
      order: the `k`-th kept element is the `k`-th gathered. */
  lemma {:induction false} GatherAll<T, U>(s: seq<T>, keep: T -> bool, f: T -> U, n: nat)
    requires n <= |s|
    requires forall k :: 0 <= k < n ==> keep(s[k])
    ensures |Gather(s, keep, f, n)| == n
    ensures forall k :: 0 <= k < n ==> Gather(s, keep, f, n)[k] == f(s[k])
  {
    if n > 0 {
      GatherAll(s, keep, f, n - 1);
    }
  }

  /** The values among the first `n` answers of `outs`, in order: what a loop that appends each
      present answer has gathered after `n` steps. */
  function Present<U>(outs: nat -> Option<U>, n: nat): (r: seq<U>)
    ensures |r| <= n
  {
    if n == 0 then [] else Present(outs, n - 1) + (if outs(n - 1).Some? then [outs(n - 1).value] else [])
  }

  /** A value is gathered exactly when one of the first `n` answers is that value. */
  lemma {:induction false} PresentMember<U>(outs: nat -> Option<U>, n: nat, y: U)
    ensures y in Present(outs, n) <==> exists k :: 0 <= k < n && outs(k) == Some(y)
  {
    if n > 0 {
      PresentMember(outs, n - 1, y);
    }
  }

  /** The identity, for loops that append the element itself. */
  function Id<T>(x: T): T {
    x
  }

  /** A loop that appends the kept elements themselves keeps exactly the elements that pass. */
  lemma GatherKeeps<T>(s: seq<T>, keep: T -> bool, n: nat, x: T)
    requires n <= |s|
    ensures x in Gather(s, keep, Id, n) <==> (exists k :: 0 <= k < n && s[k] == x) && keep(x)
  {
    GatherMember(s, keep, Id, n, x);
  }

  /** No element occurs twice. */
  predicate Distinct<T(==)>(s: seq<T>) {
    forall i, j :: 0 <= i < j < |s| ==> s[i] != s[j]
  }

  /** Keeping elements of a list without repeats gives a list without repeats: each kept element
      is listed once. */
  lemma {:induction false} GatherDistinct<T>(s: seq<T>, keep: T -> bool, n: nat)
    requires n <= |s| && Distinct(s)
    ensures Distinct(Gather(s, keep, Id, n))
  {
    if n > 0 {
      GatherDistinct(s, keep, n - 1);
      var x := s[n - 1];
      if keep(x) {
        GatherKeeps(s, keep, n - 1, x);
        var g := Gather(s, keep, Id, n - 1);
        assert x !in g;
        assert Gather(s, keep, Id, n) == g + [x];
      }
    }
  }

  /** The last element, `s[-1]`. */
  function Last<T>(s: seq<T>): T
    requires |s| > 0
  {
    s[|s| - 1]
  }

  /** The last element of a concatenation is the last element of its non-empty right part. */
  lemma LastConcat<T>(a: seq<T>, b: seq<T>)
    requires |b| > 0
    ensures Last(a + b) == Last(b)
  {
  }
}

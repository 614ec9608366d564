/** Sequence facts shared by the stages. */
module Sequences {
  /** a + b. Where a can be known to be empty, the solver keeps taking a + b apart; this form stops it. */
  function Cat<T>(a: seq<T>, b: seq<T>): seq<T> {
    if a == [] then b else a + b
  }

  lemma CatIsConcat<T>(a: seq<T>, b: seq<T>)
    ensures Cat(a, b) == a + b
  {
    if a == [] {
      assert a + b == b;
    }
  }

  /** The elements among the first k that satisfy p, in order. */
  function FilterUpTo<T>(s: seq<T>, p: T -> bool, k: nat): seq<T>
    requires k <= |s|
  {
    if k == 0 then [] else FilterUpTo(s, p, k - 1) + (if p(s[k - 1]) then [s[k - 1]] else [])
  }

  function Filter<T>(s: seq<T>, p: T -> bool): seq<T> {
    FilterUpTo(s, p, |s|)
  }

  lemma {:induction false} FilterPrefix<T>(a: seq<T>, b: seq<T>, p: T -> bool, k: nat)
    requires k <= |a|
    ensures FilterUpTo(a + b, p, k) == FilterUpTo(a, p, k)
    decreases k
  {
    if k > 0 {
      FilterPrefix(a, b, p, k - 1);
    }
  }

  lemma {:induction false} FilterConcatUpTo<T>(a: seq<T>, b: seq<T>, p: T -> bool, k: nat)
    requires k <= |b|
    ensures FilterUpTo(a + b, p, |a| + k) == Filter(a, p) + FilterUpTo(b, p, k)
    decreases k
  {
    if k == 0 {
      FilterPrefix(a, b, p, |a|);
    } else {
      FilterConcatUpTo(a, b, p, k - 1);
    }
  }

  lemma FilterConcat<T>(a: seq<T>, b: seq<T>, p: T -> bool)
    ensures Filter(a + b, p) == Filter(a, p) + Filter(b, p)
  {
    FilterConcatUpTo(a, b, p, |b|);
  }

  /** If p holds exactly on [i, j), filtering yields that slice. */
  lemma {:induction false} FilterRun<T>(s: seq<T>, p: T -> bool, i: nat, j: nat, k: nat)
    requires i <= j <= |s| && k <= |s|
    requires forall x :: 0 <= x < |s| ==> (p(s[x]) <==> i <= x < j)
    ensures FilterUpTo(s, p, k) == if k < i then [] else s[i..if k < j then k else j]
    decreases k
  {
    if k > 0 {
      FilterRun(s, p, i, j, k - 1);
    }
  }

  /** Filtering only asks p about the elements. */
  lemma {:induction false} FilterSame<T>(s: seq<T>, p: T -> bool, q: T -> bool, k: nat)
    requires k <= |s|
    requires forall x :: 0 <= x < k ==> p(s[x]) == q(s[x])
    ensures FilterUpTo(s, p, k) == FilterUpTo(s, q, k)
    decreases k
  {
    if k > 0 {
      FilterSame(s, p, q, k - 1);
    }
  }

  lemma {:induction false} FilterNone<T>(s: seq<T>, p: T -> bool, k: nat)
    requires k <= |s|
    requires forall x :: 0 <= x < k ==> !p(s[x])
    ensures FilterUpTo(s, p, k) == []
    decreases k
  {
    if k > 0 {
      FilterNone(s, p, k - 1);
    }
  }

  lemma {:induction false} FilterAll<T>(s: seq<T>, p: T -> bool, k: nat)
    requires k <= |s|
    requires forall x :: 0 <= x < k ==> p(s[x])
    ensures FilterUpTo(s, p, k) == s[..k]
    decreases k
  {
    if k > 0 {
      FilterAll(s, p, k - 1);
    }
  }
}

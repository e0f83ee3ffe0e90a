/** List comprehensions with a condition (`[x for x in s if keep(x)]`), the shape several of
    the scripts use to pick names out of a listing. */
module Seqs {

  function Filter<T>(s: seq<T>, keep: T -> bool): (r: seq<T>)
    ensures |r| <= |s|
    decreases |s|
  {
    if s == [] then []
    else (if keep(s[0]) then [s[0]] else []) + Filter(s[1..], keep)
  }

  /** What is kept comes from `s` and meets the condition, and every element of `s` that meets
      it is kept. */
  lemma {:induction false} FilterMembers<T>(s: seq<T>, keep: T -> bool)
    ensures forall k :: 0 <= k < |Filter(s, keep)| ==> Filter(s, keep)[k] in s && keep(Filter(s, keep)[k])
    ensures forall k :: 0 <= k < |s| && keep(s[k]) ==> s[k] in Filter(s, keep)
    decreases |s|
  {
    if s != [] {
      FilterMembers(s[1..], keep);
      var r, t := Filter(s, keep), Filter(s[1..], keep);
      var h := if keep(s[0]) then [s[0]] else [];
      assert r == h + t;
      forall k | 0 <= k < |r| ensures r[k] in s && keep(r[k]) {
        if k >= |h| { assert r[k] == t[k - |h|]; assert t[k - |h|] in s[1..]; }
      }
      forall k | 0 <= k < |s| && keep(s[k]) ensures s[k] in r {
        if k > 0 { assert s[k] == s[1..][k - 1]; assert s[k] in t; }
      }
    }
  }

  /** Filtering keeps the order: it distributes over concatenation. */
  lemma {:induction false} FilterAppend<T>(a: seq<T>, b: seq<T>, keep: T -> bool)
    ensures Filter(a + b, keep) == Filter(a, keep) + Filter(b, keep)
    decreases |a|
  {
    if a == [] {
      assert a + b == b;
    } else {
      var t := a[1..];
      var h := if keep(a[0]) then [a[0]] else [];
      assert (a + b)[0] == a[0];
      assert (a + b)[1..] == t + b;
      FilterAppend(t, b, keep);
      assert Filter(a + b, keep) == h + (Filter(t, keep) + Filter(b, keep));
      assert Filter(a, keep) == h + Filter(t, keep);
    }
  }

  /** A condition every element meets keeps everything. */
  lemma {:induction false} FilterAll<T>(s: seq<T>, keep: T -> bool)
    requires forall k :: 0 <= k < |s| ==> keep(s[k])
    ensures Filter(s, keep) == s
    decreases |s|
  {
    if s != [] {
      FilterAll(s[1..], keep);
    }
  }

  /** The elements kept come from `s` and meet the condition, in the order of `s`. */
  lemma {:induction false} FilterFirst<T>(s: seq<T>, keep: T -> bool)
    requires Filter(s, keep) != []
    ensures exists k :: 0 <= k < |s| && Filter(s, keep)[0] == s[k] && keep(s[k])
                     && (forall j :: 0 <= j < k ==> !keep(s[j]))
    decreases |s|
  {
    if !keep(s[0]) {
      FilterFirst(s[1..], keep);
      var k :| 0 <= k < |s[1..]| && Filter(s[1..], keep)[0] == s[1..][k] && keep(s[1..][k])
        && forall j :: 0 <= j < k ==> !keep(s[1..][j]);
      assert Filter(s, keep)[0] == s[k + 1];
      forall j | 0 <= j < k + 1 ensures !keep(s[j]) {
        if j > 0 { assert s[j] == s[1..][j - 1]; }
      }
    } else {
      assert Filter(s, keep)[0] == s[0];
    }
  }

  /** Extending a prefix taken from `b` by the next element of `b`. */
  lemma {:induction false} PrefixSnoc<T>(a: seq<T>, b: seq<T>, n: nat)
    requires n < |b|
    ensures (a + b[..n]) + [b[n]] == a + b[..n + 1]
  {
    assert b[..n + 1] == b[..n] + [b[n]];
  }

  lemma {:induction false} PrefixTake<T>(a: seq<T>, b: seq<T>, k: nat)
    requires k <= |b|
    ensures (a + b)[..|a| + k] == a + b[..k]
  {
  }

  /** `[y for x in s for y in f(x)]`: the results of `f`, in the order of `s`. */
  function FlatMap<T, U>(s: seq<T>, f: T -> seq<U>): seq<U>
    decreases |s|
  {
    if s == [] then [] else FlatMap(s[..|s| - 1], f) + f(s[|s| - 1])
  }

  lemma {:induction false} FlatMapAppend<T, U>(a: seq<T>, b: seq<T>, f: T -> seq<U>)
    ensures FlatMap(a + b, f) == FlatMap(a, f) + FlatMap(b, f)
    decreases |b|
  {
    if b == [] {
      assert a + b == a;
    } else {
      var b' := b[..|b| - 1];
      assert (a + b)[..|a + b| - 1] == a + b';
      assert (a + b)[|a + b| - 1] == b[|b| - 1];
      FlatMapAppend(a, b', f);
    }
  }

  lemma {:induction false} FlatMapStep<T, U>(s: seq<T>, n: nat, f: T -> seq<U>)
    requires n < |s|
    ensures FlatMap(s[..n + 1], f) == FlatMap(s[..n], f) + f(s[n])
  {
    assert s[..n + 1][..n] == s[..n];
  }

  /** An element of the result comes from the result of some element of `s`. */
  lemma {:induction false} FlatMapIff<T, U>(s: seq<T>, f: T -> seq<U>, x: U)
    ensures x in FlatMap(s, f) <==> exists t :: t in s && x in f(t)
    decreases |s|
  {
    if s != [] {
      var init, last := s[..|s| - 1], s[|s| - 1];
      FlatMapIff(init, f, x);
      assert s == init + [last];
      assert forall t :: t in s <==> t in init || t == last;
    }
  }

  /** Elements that each give nothing give nothing together. */
  lemma {:induction false} FlatMapNone<T, U>(s: seq<T>, f: T -> seq<U>)
    requires forall k :: 0 <= k < |s| ==> f(s[k]) == []
    ensures FlatMap(s, f) == []
    decreases |s|
  {
    if s != [] {
      FlatMapNone(s[..|s| - 1], f);
    }
  }
}

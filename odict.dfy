/** Python's `dict` as the scripts use it: insertion-ordered, where assigning to an existing
    key replaces its value and keeps its position. A dictionary is its sequence of items. */
module OrderedDict {
  import opened Wrappers

  type Dict<K, V> = seq<(K, V)>

  function Keys<K, V>(d: Dict<K, V>): (ks: seq<K>)
    ensures |ks| == |d|
    ensures forall i :: 0 <= i < |d| ==> ks[i] == d[i].0
  {
    seq(|d|, i requires 0 <= i < |d| => d[i].0)
  }

  /** No key occurs twice: the shape of every dictionary built with `Put`. */
  predicate Distinct<K(==)>(ks: seq<K>) {
    forall i, j :: 0 <= i < j < |ks| ==> ks[i] != ks[j]
  }

  predicate WellFormed<K(==), V>(d: Dict<K, V>) { Distinct(Keys(d)) }

  /** `d.get(k)`. */
  function Get<K(==), V>(d: Dict<K, V>, k: K): (r: Option<V>)
    ensures r.None? <==> k !in Keys(d)
    ensures r.Some? ==> (k, r.value) in d
    decreases |d|
  {
    if d == [] then None
    else if d[0].0 == k then Some(d[0].1)
    else
      var r := Get(d[1..], k);
      assert Keys(d) == [d[0].0] + Keys(d[1..]);
      r
  }

  /** `d[k] = v`. */
  function Put<K(==), V>(d: Dict<K, V>, k: K, v: V): (r: Dict<K, V>)
    ensures k in Keys(d) ==> Keys(r) == Keys(d)
    ensures k !in Keys(d) ==> Keys(r) == Keys(d) + [k]
    decreases |d|
  {
    if d == [] then [(k, v)]
    else
      assert d == [d[0]] + d[1..];
      KeysCons(d[0], d[1..]);
      if d[0].0 == k then
        KeysCons((k, v), d[1..]);
        [(k, v)] + d[1..]
      else
        var t := Put(d[1..], k, v);
        KeysCons(d[0], t);
        [d[0]] + t
  }

  lemma {:induction false} KeysCons<K, V>(e: (K, V), d: Dict<K, V>)
    ensures Keys([e] + d) == [e.0] + Keys(d)
  {
  }

  lemma {:induction false} PutGet<K, V>(d: Dict<K, V>, k: K, v: V, k2: K)
    ensures Get(Put(d, k, v), k2) == if k2 == k then Some(v) else Get(d, k2)
    decreases |d|
  {
    if d != [] && d[0].0 != k {
      PutGet(d[1..], k, v, k2);
      assert Put(d, k, v)[1..] == Put(d[1..], k, v);
    }
  }

  /** An item after `d[k] = v` was already in `d` or is the new one. */
  lemma {:induction false} PutItems<K, V>(d: Dict<K, V>, k: K, v: V, e: (K, V))
    requires e in Put(d, k, v)
    ensures e in d || e == (k, v)
    decreases |d|
  {
    if d != [] {
      var t := d[1..];
      if d[0].0 == k {
        assert Put(d, k, v) == [(k, v)] + t;
        InCons((k, v), t, e);
        if e in t { InTail(d, e); }
      } else {
        var pt := Put(t, k, v);
        assert Put(d, k, v) == [d[0]] + pt;
        InCons(d[0], pt, e);
        if e in pt {
          PutItems(t, k, v, e);
          if e in t { InTail(d, e); }
        }
      }
    }
  }

  lemma {:induction false} InCons<T>(x: T, t: seq<T>, e: T)
    requires e in [x] + t
    ensures e == x || e in t
  {
    var i :| 0 <= i < |[x] + t| && ([x] + t)[i] == e;
    if i > 0 { assert t[i - 1] == e; }
  }

  lemma {:induction false} InTail<T>(d: seq<T>, e: T)
    requires d != [] && e in d[1..]
    ensures e in d
  {
    var i :| 0 <= i < |d[1..]| && d[1..][i] == e;
    assert d[i + 1] == e;
  }

  lemma {:induction false} PutWellFormed<K, V>(d: Dict<K, V>, k: K, v: V)
    requires WellFormed(d)
    ensures WellFormed(Put(d, k, v))
  {
  }

  /** A new key goes at the end. */
  lemma {:induction false} PutNew<K, V>(d: Dict<K, V>, k: K, v: V)
    requires k !in Keys(d)
    ensures Put(d, k, v) == d + [(k, v)]
    decreases |d|
  {
    if d != [] {
      assert Keys(d) == [d[0].0] + Keys(d[1..]);
      PutNew(d[1..], k, v);
      assert [d[0]] + (d[1..] + [(k, v)]) == d + [(k, v)];
    }
  }

  /** Assigning to the last key replaces the last value. */
  lemma {:induction false} PutLast<K, V>(d: Dict<K, V>, k: K, v0: V, v: V)
    requires k !in Keys(d)
    ensures Put(d + [(k, v0)], k, v) == d + [(k, v)]
    decreases |d|
  {
    if d == [] {
      assert d + [(k, v0)] == [(k, v0)];
    } else {
      var x, t := d[0], d[1..];
      assert d == [x] + t;
      KeysCons(x, t);
      ConsSnoc(x, t, (k, v0));
      PutCons(x, t + [(k, v0)], k, v);
      PutLast(t, k, v0, v);
      ConsSnoc(x, t, (k, v));
    }
  }

  lemma {:induction false} ConsSnoc<T>(x: T, t: seq<T>, y: T)
    ensures [x] + t + [y] == [x] + (t + [y])
  {
  }

  /** Assigning to a key that is not the first leaves the first item in place. */
  lemma {:induction false} PutCons<K, V>(e: (K, V), t: Dict<K, V>, k: K, v: V)
    requires e.0 != k
    ensures Put([e] + t, k, v) == [e] + Put(t, k, v)
  {
    assert ([e] + t)[1..] == t;
  }

  /** `d.get(k)` of the last item, when its key is new. */
  lemma {:induction false} GetLast<K, V>(d: Dict<K, V>, k: K, v: V)
    requires k !in Keys(d)
    ensures Get(d + [(k, v)], k) == Some(v)
    decreases |d|
  {
    if d == [] {
      assert d + [(k, v)] == [(k, v)];
    } else {
      assert Keys(d) == [d[0].0] + Keys(d[1..]);
      assert (d + [(k, v)])[1..] == d[1..] + [(k, v)];
      GetLast(d[1..], k, v);
    }
  }

  /** The second of two assignments to the same key wins. */
  lemma {:induction false} PutPut<K, V>(d: Dict<K, V>, k: K, v1: V, v2: V)
    ensures Put(Put(d, k, v1), k, v2) == Put(d, k, v2)
    decreases |d|
  {
    if d != [] && d[0].0 != k {
      PutPut(d[1..], k, v1, v2);
      assert Put(d, k, v1)[1..] == Put(d[1..], k, v1);
    }
  }

  /** The dictionary the items build when assigned one after the other. */
  function PutAll<K(==), V>(items: seq<(K, V)>): Dict<K, V>
    decreases |items|
  {
    if items == [] then []
    else Put(PutAll(items[..|items| - 1]), items[|items| - 1].0, items[|items| - 1].1)
  }

  /** The distinct elements of `s`, in the order of their first occurrence. */
  function FirstOccurrences<K(==)>(s: seq<K>): seq<K>
    decreases |s|
  {
    if s == [] then []
    else
      var d := FirstOccurrences(s[..|s| - 1]);
      if s[|s| - 1] in d then d else d + [s[|s| - 1]]
  }

  lemma {:induction false} FirstOccurrencesSpec<K>(s: seq<K>)
    ensures Distinct(FirstOccurrences(s))
    ensures forall x :: x in FirstOccurrences(s) <==> x in s
    decreases |s|
  {
    if s != [] {
      var pre := s[..|s| - 1];
      FirstOccurrencesSpec(pre);
      assert s == pre + [s[|s| - 1]];
    }
  }

  /** Insertion order: the keys are the items' keys, each at its first assignment. */
  lemma {:induction false} PutAllKeys<K, V>(items: seq<(K, V)>)
    ensures Keys(PutAll(items)) == FirstOccurrences(Keys(items))
    decreases |items|
  {
    if items != [] {
      var n := |items| - 1;
      PutAllKeys(items[..n]);
      assert Keys(items)[..n] == Keys(items[..n]);
    }
  }

  /** Last write wins: a key is present exactly when some item has it, with the value of the
      last such item. */
  lemma {:induction false} PutAllLastWins<K, V>(items: seq<(K, V)>, k: K)
    ensures Get(PutAll(items), k).None? <==> k !in Keys(items)
    ensures forall i :: 0 <= i < |items| && items[i].0 == k && (forall j :: i < j < |items| ==> items[j].0 != k)
                        ==> Get(PutAll(items), k) == Some(items[i].1)
  {
    PutAllKeys(items);
    FirstOccurrencesSpec(Keys(items));
    forall i | 0 <= i < |items| && items[i].0 == k && (forall j :: i < j < |items| ==> items[j].0 != k)
      ensures Get(PutAll(items), k) == Some(items[i].1)
    {
      PutAllLast(items, k, i);
    }
  }

  lemma {:induction false} PutAllLast<K, V>(items: seq<(K, V)>, k: K, i: nat)
    requires i < |items| && items[i].0 == k && forall j :: i < j < |items| ==> items[j].0 != k
    ensures Get(PutAll(items), k) == Some(items[i].1)
    decreases |items|
  {
    var n := |items| - 1;
    var pre := items[..n];
    PutGet(PutAll(pre), items[n].0, items[n].1, k);
    if i < n {
      assert pre[i] == items[i];
      forall j | i < j < |pre| ensures pre[j].0 != k {
        assert pre[j] == items[j];
      }
      PutAllLast(pre, k, i);
    }
  }
}

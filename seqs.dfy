/** Sequences used as Python lists and as insertion-ordered Python dicts. */
module Seqs {
  import opened Wrappers

  predicate NoDups<T(==)>(s: seq<T>) { forall i, j :: 0 <= i < j < |s| ==> s[i] != s[j] }

  /** Position of the first occurrence of `x` in `xs`. */
  function FirstIndex<T(==)>(xs: seq<T>, x: T): (i: nat)
    requires x in xs
    ensures i < |xs| && xs[i] == x
    ensures forall j :: 0 <= j < i ==> xs[j] != x
  {
    if xs[0] == x then 0 else 1 + FirstIndex(xs[1..], x)
  }

  /** `list(dict.fromkeys(xs))`: each element once, at its first position. */
  function Dedup<T(==)>(xs: seq<T>): seq<T>
  {
    if xs == [] then []
    else
      var d := Dedup(xs[..|xs| - 1]);
      if xs[|xs| - 1] in d then d else d + [xs[|xs| - 1]]
  }

  /** `Dedup` keeps exactly the elements of its input, each once. */
  lemma {:induction false} DedupElements<T>(xs: seq<T>)
    ensures NoDups(Dedup(xs))
    ensures forall x :: x in Dedup(xs) <==> x in xs
  {
    if xs != [] {
      var ys := xs[..|xs| - 1];
      DedupElements(ys);
      assert xs == ys + [xs[|xs| - 1]];
    }
  }

  /** `Dedup` lists the elements in the order of their first occurrence. */
  lemma {:induction false} DedupOrder<T>(xs: seq<T>)
    ensures forall x :: x in Dedup(xs) ==> x in xs
    ensures forall i, j :: 0 <= i < j < |Dedup(xs)| ==>
      FirstIndex(xs, Dedup(xs)[i]) < FirstIndex(xs, Dedup(xs)[j])
  {
    DedupElements(xs);
    if xs != [] {
      var ys := xs[..|xs| - 1];
      var x := xs[|xs| - 1];
      var d := Dedup(ys);
      DedupOrder(ys);
      DedupElements(ys);
      forall e | e in ys ensures FirstIndex(xs, e) == FirstIndex(ys, e) {
        FirstIndexPrefix(ys, x, e);
      }
      if x !in d {
        assert x !in ys;
        forall j | 0 <= j < |xs| - 1 ensures xs[j] != x { assert xs[j] == ys[j]; }
        assert FirstIndex(xs, x) == |xs| - 1;
      }
    }
  }

  lemma FirstIndexPrefix<T>(ys: seq<T>, x: T, e: T)
    requires e in ys
    ensures FirstIndex(ys + [x], e) == FirstIndex(ys, e)
  {
    var k := FirstIndex(ys, e);
    var zs := ys + [x];
    assert zs[k] == e;
    forall j | 0 <= j < k ensures zs[j] != e { assert zs[j] == ys[j]; }
    FirstIndexUnique(zs, e, k);
  }

  lemma FirstIndexUnique<T>(xs: seq<T>, x: T, k: nat)
    requires k < |xs| && xs[k] == x
    requires forall j :: 0 <= j < k ==> xs[j] != x
    ensures FirstIndex(xs, x) == k
  {
    var f := FirstIndex(xs, x);
  }

  // ---------------------------------------------------------------
  // Insertion-ordered dictionaries: a sequence of (key, value) pairs.

  function KeysOf<K(==), V>(d: seq<(K, V)>): (ks: seq<K>)
    ensures |ks| == |d| && forall i :: 0 <= i < |d| ==> ks[i] == d[i].0
  {
    seq(|d|, i requires 0 <= i < |d| => d[i].0)
  }

  /** Python's `d[k]` lookup: `None` where the key is absent. */
  function Lookup<K(==), V>(d: seq<(K, V)>, k: K): Option<V>
  {
    if d == [] then None else if d[0].0 == k then Some(d[0].1) else Lookup(d[1..], k)
  }

  /** Python's `d[k] = v`: an existing key keeps its position and takes the
      new value; a new key goes last. */
  function Put<K(==), V>(d: seq<(K, V)>, k: K, v: V): seq<(K, V)>
  {
    if d == [] then [(k, v)]
    else if d[0].0 == k then [(k, v)] + d[1..]
    else [d[0]] + Put(d[1..], k, v)
  }

  /** The dict after `d[k] = v` for every pair of `ps`, in order. */
  function PutAll<K(==), V>(d: seq<(K, V)>, ps: seq<(K, V)>): seq<(K, V)>
  {
    if ps == [] then d else Put(PutAll(d, ps[..|ps| - 1]), ps[|ps| - 1].0, ps[|ps| - 1].1)
  }

  /** The value of the last pair in `ps` with key `k`. */
  function LastValue<K(==), V>(ps: seq<(K, V)>, k: K): Option<V>
  {
    if ps == [] then None
    else if ps[|ps| - 1].0 == k then Some(ps[|ps| - 1].1)
    else LastValue(ps[..|ps| - 1], k)
  }

  lemma {:induction false} PutKeys<K, V>(d: seq<(K, V)>, k: K, v: V)
    ensures KeysOf(Put(d, k, v)) == if k in KeysOf(d) then KeysOf(d) else KeysOf(d) + [k]
  {
    if d != [] {
      PutKeys(d[1..], k, v);
      assert KeysOf(d) == [d[0].0] + KeysOf(d[1..]);
      if d[0].0 != k {
        assert KeysOf(Put(d, k, v)) == [d[0].0] + KeysOf(Put(d[1..], k, v));
      } else {
        assert KeysOf(Put(d, k, v)) == [k] + KeysOf(d[1..]);
      }
    }
  }

  lemma {:induction false} PutLookup<K, V>(d: seq<(K, V)>, k: K, v: V, k': K)
    ensures Lookup(Put(d, k, v), k') == if k' == k then Some(v) else Lookup(d, k')
  {
    if d != [] && d[0].0 != k {
      PutLookup(d[1..], k, v, k');
    }
  }

  /** Filling an empty dict key by key lists the keys in first-seen order,
      each once: the key order of the result is `Dedup` of the keys fed in. */
  lemma {:induction false} PutAllKeys<K, V>(ps: seq<(K, V)>)
    ensures KeysOf(PutAll([], ps)) == Dedup(KeysOf(ps))
  {
    if ps != [] {
      var qs := ps[..|ps| - 1];
      PutAllKeys(qs);
      PutKeys(PutAll([], qs), ps[|ps| - 1].0, ps[|ps| - 1].1);
      assert KeysOf(ps)[..|ps| - 1] == KeysOf(qs);
    }
  }

  /** The last value written for a key is the one the dict holds. */
  lemma {:induction false} PutAllLookup<K, V>(d: seq<(K, V)>, ps: seq<(K, V)>, k: K)
    ensures Lookup(PutAll(d, ps), k) == match LastValue(ps, k) case Some(v) => Some(v) case None => Lookup(d, k)
  {
    if ps != [] {
      var qs := ps[..|ps| - 1];
      PutAllLookup(d, qs, k);
      PutLookup(PutAll(d, qs), ps[|ps| - 1].0, ps[|ps| - 1].1, k);
    }
  }

  /** A key that is not in the dict is not found. */
  lemma {:induction false} LookupAbsent<K, V>(d: seq<(K, V)>, k: K)
    ensures Lookup(d, k).None? <==> k !in KeysOf(d)
  {
    if d != [] {
      LookupAbsent(d[1..], k);
      assert KeysOf(d) == [d[0].0] + KeysOf(d[1..]);
    }
  }

  /** A second assignment to the same key overrides the first. */
  lemma {:induction false} PutPut<K, V>(d: seq<(K, V)>, k: K, v1: V, v2: V)
    ensures Put(Put(d, k, v1), k, v2) == Put(d, k, v2)
  {
    if d != [] && d[0].0 != k {
      PutPut(d[1..], k, v1, v2);
    }
  }

  /** Assignments keep the keys of a dict distinct. */
  lemma PutNoDups<K, V>(d: seq<(K, V)>, k: K, v: V)
    requires NoDups(KeysOf(d))
    ensures NoDups(KeysOf(Put(d, k, v)))
  {
    PutKeys(d, k, v);
  }

  lemma {:induction false} PutAllNoDups<K, V>(d: seq<(K, V)>, ps: seq<(K, V)>)
    requires NoDups(KeysOf(d))
    ensures NoDups(KeysOf(PutAll(d, ps)))
  {
    if ps != [] {
      PutAllNoDups(d, ps[..|ps| - 1]);
      PutNoDups(PutAll(d, ps[..|ps| - 1]), ps[|ps| - 1].0, ps[|ps| - 1].1);
    }
  }

  /** Assigning only keys the dict already holds leaves its key order alone. */
  lemma {:induction false} PutAllPresentKeys<K, V>(d: seq<(K, V)>, ps: seq<(K, V)>)
    requires forall i :: 0 <= i < |ps| ==> ps[i].0 in KeysOf(d)
    ensures KeysOf(PutAll(d, ps)) == KeysOf(d)
  {
    if ps != [] {
      var qs := ps[..|ps| - 1];
      PutAllPresentKeys(d, qs);
      PutKeys(PutAll(d, qs), ps[|ps| - 1].0, ps[|ps| - 1].1);
    }
  }

  /** After assigning the pairs of `ps`, the dict holds every key of `ps`. */
  lemma PutAllHasKeys<K, V>(d: seq<(K, V)>, ps: seq<(K, V)>, i: nat)
    requires i < |ps|
    ensures ps[i].0 in KeysOf(PutAll(d, ps))
  {
    LastValueSome(ps, i);
    PutAllLookup(d, ps, ps[i].0);
    LookupAbsent(PutAll(d, ps), ps[i].0);
  }

  lemma {:induction false} LastValueSome<K, V>(ps: seq<(K, V)>, i: nat)
    requires i < |ps|
    ensures LastValue(ps, ps[i].0).Some?
  {
    if i < |ps| - 1 && ps[|ps| - 1].0 != ps[i].0 {
      LastValueSome(ps[..|ps| - 1], i);
    }
  }

  /** Two dicts with distinct keys, the same key order and the same value
      for every key are the same dict. */
  lemma {:induction false} DictExt<K, V>(a: seq<(K, V)>, b: seq<(K, V)>)
    requires NoDups(KeysOf(a)) && KeysOf(a) == KeysOf(b)
    requires forall k :: Lookup(a, k) == Lookup(b, k)
    ensures a == b
  {
    if a != [] {
      var k0 := a[0].0;
      assert KeysOf(a) == [k0] + KeysOf(a[1..]);
      assert KeysOf(b) == [b[0].0] + KeysOf(b[1..]);
      assert Lookup(a, k0) == Some(a[0].1) && Lookup(b, k0) == Some(b[0].1);
      forall k ensures Lookup(a[1..], k) == Lookup(b[1..], k) {
        if k == k0 {
          assert k0 !in KeysOf(a[1..]);
          LookupAbsent(a[1..], k);
          LookupAbsent(b[1..], k);
        } else {
          assert Lookup(a, k) == Lookup(a[1..], k) && Lookup(b, k) == Lookup(b[1..], k);
        }
      }
      DictExt(a[1..], b[1..]);
    }
  }

  /** `d.update(ps)` twice is `d.update(ps)` once. */
  lemma PutAllIdempotent<K, V>(d: seq<(K, V)>, ps: seq<(K, V)>)
    requires NoDups(KeysOf(d))
    ensures PutAll(PutAll(d, ps), ps) == PutAll(d, ps)
  {
    var once := PutAll(d, ps);
    forall i | 0 <= i < |ps| ensures ps[i].0 in KeysOf(once) {
      PutAllHasKeys(d, ps, i);
    }
    PutAllPresentKeys(once, ps);
    PutAllNoDups(d, ps);
    forall k ensures Lookup(PutAll(once, ps), k) == Lookup(once, k) {
      PutAllLookup(once, ps, k);
      PutAllLookup(d, ps, k);
    }
    DictExt(PutAll(once, ps), once);
  }
  /** Every pair of `d[k] = v` is the new pair or a pair of `d`. */
  lemma {:induction false} PutFrom<K, V>(d: seq<(K, V)>, k: K, v: V)
    ensures forall e :: e in Put(d, k, v) ==> e in d || e == (k, v)
  {
    if d != [] && d[0].0 != k {
      PutFrom(d[1..], k, v);
      assert forall e :: e in d[1..] ==> e in d;
    }
  }

  /** Every pair of the updated dict is a pair of `d` or one of `ps`. */
  lemma {:induction false} PutAllFrom<K, V>(d: seq<(K, V)>, ps: seq<(K, V)>)
    ensures forall e :: e in PutAll(d, ps) ==> e in d || e in ps
  {
    if ps != [] {
      var qs := ps[..|ps| - 1];
      PutAllFrom(d, qs);
      PutFrom(PutAll(d, qs), ps[|ps| - 1].0, ps[|ps| - 1].1);
      assert forall e :: e in qs ==> e in ps;
    }
  }

  /** The last value for a key in `a + b` comes from `b` when `b` has the key. */
  lemma {:induction false} LastValueAppend<K, V>(a: seq<(K, V)>, b: seq<(K, V)>, k: K)
    ensures LastValue(a + b, k) == if LastValue(b, k).Some? then LastValue(b, k) else LastValue(a, k)
  {
    if b == [] {
      assert a + b == a;
    } else {
      var c := b[..|b| - 1];
      assert (a + b)[..|a + b| - 1] == a + c;
      LastValueAppend(a, c, k);
    }
  }

  /** `[f(x) for x in xs if f(x)]`: the values `f` gives, in order, the
      elements it gives nothing for dropped. */
  function Filtered<T, U>(xs: seq<T>, f: T -> Option<U>): seq<U>
  {
    if xs == [] then []
    else
      var earlier := Filtered(xs[..|xs| - 1], f);
      match f(xs[|xs| - 1])
      case Some(y) => earlier + [y]
      case None => earlier
  }

  /** Every value `f` gives for an element is kept, and every value kept
      is one that `f` gives for an element. */
  lemma {:induction false} FilteredSpec<T, U>(xs: seq<T>, f: T -> Option<U>)
    ensures forall i :: 0 <= i < |xs| && f(xs[i]).Some? ==> f(xs[i]).value in Filtered(xs, f)
    ensures forall y :: y in Filtered(xs, f) ==> exists i :: 0 <= i < |xs| && f(xs[i]) == Some(y)
  {
    if xs != [] {
      var init := xs[..|xs| - 1];
      FilteredSpec(init, f);
      forall y | y in Filtered(xs, f) ensures exists i :: 0 <= i < |xs| && f(xs[i]) == Some(y) {
        if y in Filtered(init, f) {
          var i :| 0 <= i < |init| && f(init[i]) == Some(y);
          assert xs[i] == init[i];
        } else {
          assert f(xs[|xs| - 1]) == Some(y);
        }
      }
      forall i | 0 <= i < |xs| && f(xs[i]).Some? ensures f(xs[i]).value in Filtered(xs, f) {
        if i < |init| {
          assert init[i] == xs[i];
        }
      }
    }
  }

  /** Putting `a` and then `b` is putting `a + b`. */
  lemma {:induction false} PutAllAppend<K, V>(d: seq<(K, V)>, a: seq<(K, V)>, b: seq<(K, V)>)
    ensures PutAll(d, a + b) == PutAll(PutAll(d, a), b)
  {
    if b == [] {
      assert a + b == a;
    } else {
      var c := b[..|b| - 1];
      PutAllAppend(d, a, c);
      assert (a + b)[..|a + b| - 1] == a + c;
    }
  }
}

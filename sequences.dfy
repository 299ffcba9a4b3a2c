/**
 * Generic sequence helpers shared by the scrapers and the merger: keeping
 * the images of the elements that pass a test, and keeping only the first
 * element for each key.
 */
module Sequences {

  predicate IsPrefix<T(==)>(a: seq<T>, b: seq<T>) {
    |a| <= |b| && b[..|a|] == a
  }

  predicate NoDuplicates<T(==)>(s: seq<T>) {
    forall i, j :: 0 <= i < j < |s| ==> s[i] != s[j]
  }

  lemma PrefixTransitive<T>(a: seq<T>, b: seq<T>, c: seq<T>)
    requires IsPrefix(a, b) && IsPrefix(b, c)
    ensures IsPrefix(a, c)
  {
    assert c[..|a|] == c[..|b|][..|a|];
  }

  lemma AppendAssoc<T>(a: seq<T>, b: seq<T>, c: seq<T>)
    ensures (a + b) + c == a + (b + c)
  {
  }

  /** The index of the first element satisfying `p`, or `|s|` when none does. */
  function FirstWhere<T>(s: seq<T>, p: T -> bool): (n: nat)
    ensures n <= |s|
    ensures forall k :: 0 <= k < n ==> !p(s[k])
    ensures n < |s| ==> p(s[n])
  {
    FirstWhereFrom(s, p, 0)
  }

  function FirstWhereFrom<T>(s: seq<T>, p: T -> bool, i: nat): (n: nat)
    requires i <= |s|
    requires forall k :: 0 <= k < i ==> !p(s[k])
    ensures i <= n <= |s|
    ensures forall k :: 0 <= k < n ==> !p(s[k])
    ensures n < |s| ==> p(s[n])
    decreases |s| - i
  {
    if i == |s| || p(s[i]) then i else FirstWhereFrom(s, p, i + 1)
  }

  /** `FirstWhere` is `i` when `s[i]` is the first element satisfying `p`. */
  lemma FirstWhereAt<T>(s: seq<T>, p: T -> bool, i: nat)
    requires i <= |s|
    requires forall k :: 0 <= k < i ==> !p(s[k])
    requires i < |s| ==> p(s[i])
    ensures FirstWhere(s, p) == i
  {
  }

  /** The images under `f` of the elements satisfying `keep`, in order. */
  function FilterMap<A, B>(xs: seq<A>, keep: A -> bool, f: A -> B): seq<B> {
    if xs == [] then []
    else
      var last := xs[|xs| - 1];
      FilterMap(xs[..|xs| - 1], keep, f) + (if keep(last) then [f(last)] else [])
  }

  /** One more element: its image is appended when it is kept. */
  lemma FilterMapStep<A, B>(xs: seq<A>, i: nat, keep: A -> bool, f: A -> B)
    requires i < |xs|
    ensures FilterMap(xs[..i + 1], keep, f) == FilterMap(xs[..i], keep, f) + (if keep(xs[i]) then [f(xs[i])] else [])
  {
    assert xs[..i + 1][..i] == xs[..i];
  }

  /** The filter of a sequence with one element in front. */
  lemma {:induction false} FilterMapCons<A, B>(x: A, xs: seq<A>, keep: A -> bool, f: A -> B)
    ensures FilterMap([x] + xs, keep, f) == (if keep(x) then [f(x)] else []) + FilterMap(xs, keep, f)
    decreases |xs|
  {
    if xs == [] {
      assert [x] + xs == [x];
      assert [x][..0] == [];
    } else {
      var init := xs[..|xs| - 1];
      FilterMapCons(x, init, keep, f);
      assert ([x] + xs)[..|xs|] == [x] + init;
      assert ([x] + xs)[|xs|] == xs[|xs| - 1];
    }
  }

  lemma {:induction false} FilterMapPrefix<A, B>(xs: seq<A>, i: nat, keep: A -> bool, f: A -> B)
    requires i <= |xs|
    ensures |FilterMap(xs[..i], keep, f)| <= |FilterMap(xs, keep, f)|
    ensures FilterMap(xs, keep, f)[..|FilterMap(xs[..i], keep, f)|] == FilterMap(xs[..i], keep, f)
    decreases |xs| - i
  {
    if i < |xs| {
      FilterMapPrefix(xs, i + 1, keep, f);
      assert xs[..i + 1][..i] == xs[..i];
    } else {
      assert xs[..i] == xs;
    }
  }

  /** Every image comes from a kept element, and every kept element's image
      is there. */
  lemma {:induction false} FilterMapMembers<A, B>(xs: seq<A>, keep: A -> bool, f: A -> B)
    ensures forall y :: y in FilterMap(xs, keep, f) ==>
      exists n :: 0 <= n < |xs| && keep(xs[n]) && y == f(xs[n])
    ensures forall n :: 0 <= n < |xs| && keep(xs[n]) ==> f(xs[n]) in FilterMap(xs, keep, f)
  {
    if xs != [] {
      var init := xs[..|xs| - 1];
      FilterMapMembers(init, keep, f);
      forall y | y in FilterMap(xs, keep, f)
        ensures exists n :: 0 <= n < |xs| && keep(xs[n]) && y == f(xs[n])
      {
        if y in FilterMap(init, keep, f) {
          var n :| 0 <= n < |init| && keep(init[n]) && y == f(init[n]);
          assert xs[n] == init[n];
        } else {
          assert keep(xs[|xs| - 1]) && y == f(xs[|xs| - 1]);
        }
      }
      forall n | 0 <= n < |xs| && keep(xs[n]) ensures f(xs[n]) in FilterMap(xs, keep, f) {
        if n < |init| {
          assert xs[n] == init[n];
        }
      }
    }
  }

  /** The image at index k comes from a kept element whose earlier kept
      elements all have their images before index k. */
  lemma {:induction false} FilterMapIndex<A, B>(xs: seq<A>, keep: A -> bool, f: A -> B, k: nat)
    requires k < |FilterMap(xs, keep, f)|
    ensures exists n :: (0 <= n < |xs| && keep(xs[n]) && FilterMap(xs, keep, f)[k] == f(xs[n])
      && forall m :: 0 <= m < n && keep(xs[m]) ==> f(xs[m]) in FilterMap(xs, keep, f)[..k])
  {
    var init := xs[..|xs| - 1];
    var fi := FilterMap(init, keep, f);
    var r := FilterMap(xs, keep, f);
    if k < |fi| {
      FilterMapIndex(init, keep, f, k);
      var n :| 0 <= n < |init| && keep(init[n]) && fi[k] == f(init[n])
        && forall m :: 0 <= m < n && keep(init[m]) ==> f(init[m]) in fi[..k];
      assert r[..k] == fi[..k];
      assert xs[n] == init[n];
      assert forall m :: 0 <= m < n ==> xs[m] == init[m];
    } else {
      var n := |xs| - 1;
      assert r[..k] == fi;
      FilterMapMembers(init, keep, f);
      forall m | 0 <= m < n && keep(xs[m]) ensures f(xs[m]) in fi {
        assert xs[m] == init[m];
      }
    }
  }

  /** The concatenation of the images under `f`, in order. */
  function ConcatMap<A, B>(xs: seq<A>, f: A -> seq<B>): seq<B> {
    if xs == [] then [] else ConcatMap(xs[..|xs| - 1], f) + f(xs[|xs| - 1])
  }

  /** The images of a prefix come first. */
  lemma {:induction false} ConcatMapPrefix<A, B>(xs: seq<A>, f: A -> seq<B>, k: nat)
    requires k <= |xs|
    ensures IsPrefix(ConcatMap(xs[..k], f), ConcatMap(xs, f))
    decreases |xs| - k
  {
    if k == |xs| {
      assert xs[..k] == xs;
    } else {
      ConcatMapPrefix(xs, f, k + 1);
      assert xs[..k + 1][..k] == xs[..k];
    }
  }

  /** An element is in the concatenation exactly when it is in some image. */
  lemma {:induction false} ConcatMapMembers<A, B>(xs: seq<A>, f: A -> seq<B>)
    ensures forall y :: y in ConcatMap(xs, f) <==> exists k :: 0 <= k < |xs| && y in f(xs[k])
  {
    if xs != [] {
      var init := xs[..|xs| - 1];
      ConcatMapMembers(init, f);
      forall y | y in ConcatMap(xs, f) ensures exists k :: 0 <= k < |xs| && y in f(xs[k]) {
        ConcatMapLast(xs, init, f, y);
      }
      forall y, k | 0 <= k < |xs| && y in f(xs[k]) ensures y in ConcatMap(xs, f) {
        if k < |init| {
          assert init[k] == xs[k];
        }
      }
    }
  }

  /** The step of ConcatMapMembers from all but the last element to all. */
  lemma ConcatMapLast<A, B>(xs: seq<A>, init: seq<A>, f: A -> seq<B>, y: B)
    requires xs != [] && init == xs[..|xs| - 1] && y in ConcatMap(xs, f)
    requires forall y :: y in ConcatMap(init, f) <==> exists k :: 0 <= k < |init| && y in f(init[k])
    ensures exists k :: 0 <= k < |xs| && y in f(xs[k])
  {
    if y in ConcatMap(init, f) {
      var k :| 0 <= k < |init| && y in f(init[k]);
      assert xs[k] == init[k];
    } else {
      assert y in f(xs[|xs| - 1]);
    }
  }

  function Keys<T(==), K>(es: seq<T>, key: T -> K): set<K> {
    set e | e in es :: key(e)
  }

  lemma KeysAppend<T, K>(es: seq<T>, e: T, key: T -> K)
    ensures Keys(es + [e], key) == Keys(es, key) + {key(e)}
  {
    assert e in es + [e];
    assert forall x :: x in es + [e] <==> x in es || x == e;
  }

  /** Keeps the first element for each key, in order. */
  function DedupBy<T(==), K(==)>(es: seq<T>, key: T -> K): seq<T> {
    if es == [] then []
    else
      var d := DedupBy(es[..|es| - 1], key);
      var last := es[|es| - 1];
      if key(last) in Keys(d, key) then d else d + [last]
  }

  /** One more element: it is appended unless its key is already there. */
  lemma DedupByStep<T, K>(es: seq<T>, x: T, key: T -> K)
    ensures DedupBy(es + [x], key) ==
      if key(x) in Keys(DedupBy(es, key), key) then DedupBy(es, key) else DedupBy(es, key) + [x]
  {
    assert (es + [x])[..|es|] == es;
  }

  /** Deduplicating a prefix gives a prefix of the deduplicated whole. */
  lemma {:induction false} DedupPrefix<T, K>(a: seq<T>, b: seq<T>, key: T -> K)
    requires |a| <= |b| && b[..|a|] == a
    ensures |DedupBy(a, key)| <= |DedupBy(b, key)|
    ensures DedupBy(b, key)[..|DedupBy(a, key)|] == DedupBy(a, key)
    decreases |b|
  {
    if |a| < |b| {
      var b' := b[..|b| - 1];
      assert b'[..|a|] == b[..|a|];
      DedupPrefix(a, b', key);
      var d := DedupBy(b', key);
      assert (d + [b[|b| - 1]])[..|d|] == d;
    } else {
      assert a == b;
    }
  }

  function Identity<T>(x: T): T { x }

  /** The keys of a sequence under Identity are its elements. */
  lemma KeysIdentity<T>(es: seq<T>, x: T)
    ensures x in Keys(es, Identity) <==> x in es
  {
    if x in es {
      assert Identity(x) == x;
    }
  }

  /** Deduplicating a sequence without duplicates leaves it unchanged. */
  lemma {:induction false} DedupOfDistinct<T>(es: seq<T>)
    requires NoDuplicates(es)
    ensures DedupBy(es, Identity) == es
  {
    if es != [] {
      var init := es[..|es| - 1];
      DedupOfDistinct(init);
      KeysIdentity(init, es[|es| - 1]);
      assert es == init + [es[|es| - 1]];
    }
  }

  /** No two elements share a key. */
  ghost predicate DistinctKeys<T, K>(s: seq<T>, key: T -> K) {
    forall i, j :: 0 <= i < j < |s| ==> key(s[i]) != key(s[j])
  }

  /** An element whose key no later element has keeps the keys distinct. */
  lemma DistinctKeysCons<T, K>(x: T, rest: seq<T>, key: T -> K)
    requires DistinctKeys(rest, key)
    requires forall e :: e in rest ==> key(e) != key(x)
    ensures DistinctKeys([x] + rest, key)
  {
    var s := [x] + rest;
    forall i, j | 0 <= i < j < |s| ensures key(s[i]) != key(s[j]) {
      assert s[j] == rest[j - 1] && rest[j - 1] in rest;
      if i > 0 {
        assert s[i] == rest[i - 1];
      }
    }
  }

  lemma {:induction false} DedupDistinct<T, K>(es: seq<T>, key: T -> K)
    ensures DistinctKeys(DedupBy(es, key), key)
  {
    if es != [] {
      DedupDistinct(es[..|es| - 1], key);
      var d := DedupBy(es[..|es| - 1], key);
      var last := es[|es| - 1];
      if key(last) !in Keys(d, key) {
        var d' := d + [last];
        forall i, j | 0 <= i < j < |d'| ensures key(d'[i]) != key(d'[j]) {
          if j == |d| {
            assert d'[i] == d[i] && d[i] in d && d'[j] == last;
            assert key(d[i]) in Keys(d, key);
          } else {
            assert d'[i] == d[i] && d'[j] == d[j];
          }
        }
      }
    }
  }

  /** Every element kept is the first one with its key, and every key is kept. */
  lemma {:induction false} DedupFirstOccurrence<T, K>(es: seq<T>, key: T -> K)
    ensures Keys(DedupBy(es, key), key) == Keys(es, key)
    ensures forall e :: e in DedupBy(es, key) ==>
      exists n :: 0 <= n < |es| && es[n] == e && forall m :: 0 <= m < n ==> key(es[m]) != key(e)
  {
    if es != [] {
      var init := es[..|es| - 1];
      var last := es[|es| - 1];
      DedupFirstOccurrence(init, key);
      var d := DedupBy(init, key);
      assert es == init + [last];
      assert Keys(es, key) == Keys(init, key) + {key(last)};
      forall e | e in DedupBy(es, key)
        ensures exists n :: 0 <= n < |es| && es[n] == e && forall m :: 0 <= m < n ==> key(es[m]) != key(e)
      {
        if e in d {
          var n :| 0 <= n < |init| && init[n] == e && forall m :: 0 <= m < n ==> key(init[m]) != key(e);
          assert es[n] == e;
          assert forall m :: 0 <= m < n ==> es[m] == init[m];
        } else {
          assert e == last && key(last) !in Keys(d, key);
          forall m | 0 <= m < |init| ensures key(es[m]) != key(e) {
            assert es[m] == init[m] && key(init[m]) in Keys(init, key);
          }
          assert es[|es| - 1] == e;
        }
      }
      if key(last) !in Keys(d, key) {
        assert Keys(d + [last], key) == Keys(d, key) + {key(last)};
      }
    }
  }

  /** Deduplicating the images of the kept elements: each survivor is the
      image of a kept element none of whose kept predecessors has the same
      key, and every kept element's key survives. */
  lemma DedupOfFilterMap<A, B, K>(xs: seq<A>, keep: A -> bool, f: A -> B, key: B -> K)
    ensures forall e :: e in DedupBy(FilterMap(xs, keep, f), key) ==>
      exists n :: 0 <= n < |xs| && keep(xs[n]) && e == f(xs[n])
        && forall m :: 0 <= m < n && keep(xs[m]) ==> key(f(xs[m])) != key(e)
    ensures forall n :: 0 <= n < |xs| && keep(xs[n]) ==> key(f(xs[n])) in Keys(DedupBy(FilterMap(xs, keep, f), key), key)
  {
    var c := FilterMap(xs, keep, f);
    var d := DedupBy(c, key);
    DedupFirstOccurrence(c, key);
    FilterMapMembers(xs, keep, f);
    forall e | e in d
      ensures exists n :: (0 <= n < |xs| && keep(xs[n]) && e == f(xs[n])
        && forall m :: 0 <= m < n && keep(xs[m]) ==> key(f(xs[m])) != key(e))
    {
      var k :| 0 <= k < |c| && c[k] == e && forall m :: 0 <= m < k ==> key(c[m]) != key(e);
      FilterMapIndex(xs, keep, f, k);
      var n :| 0 <= n < |xs| && keep(xs[n]) && c[k] == f(xs[n])
        && forall m :: 0 <= m < n && keep(xs[m]) ==> f(xs[m]) in c[..k];
      forall m | 0 <= m < n && keep(xs[m]) ensures key(f(xs[m])) != key(e) {
        var x :| 0 <= x < k && c[..k][x] == f(xs[m]);
        assert c[x] == f(xs[m]);
      }
    }
    forall n | 0 <= n < |xs| && keep(xs[n]) ensures key(f(xs[n])) in Keys(d, key) {
      assert key(f(xs[n])) in Keys(c, key);
    }
  }
}

/** The two record shapes that flow through the pipeline. */
module Records {
  import opened Seqs

  /** One Google Docs item of the Drive listing. `path` is the slash-separated
      folder path the listing assigns (absent on a bare listing item); the two
      times are '' when the listing did not carry them. */
  datatype FileMeta = FileMeta(id: string, name: string, path: Option<string>,
                               createdTime: string, modifiedTime: string)

  /** `file.get('path', file['name'])`. */
  function PathOf(f: FileMeta): string
  {
    if f.path.Some? then f.path.value else f.name
  }

  /** A diary whose text has been fetched from Drive or re-read from the raw cache. */
  datatype DiaryEntry = DiaryEntry(filename: string, path: string, content: string,
                                   createdTime: string, modifiedTime: string)
}

/** Bucketing a list by a partial key, as the `defaultdict(list)` loops of the
    source do: elements without a key are dropped, every bucket keeps the input
    order, and no bucket is empty. */
module Grouping {
  import opened Seqs

  /** The elements whose key is `k`, in input order. */
  function Bucket<T, K(==)>(xs: seq<T>, key: T -> Option<K>, k: K): seq<T>
  {
    if xs == [] then []
    else Bucket(xs[..|xs| - 1], key, k) + (if key(xs[|xs| - 1]) == Some(k) then [xs[|xs| - 1]] else [])
  }

  /** The keys that at least one element has. */
  function KeysOf<T, K(==)>(xs: seq<T>, key: T -> Option<K>): set<K>
  {
    set i | 0 <= i < |xs| && key(xs[i]).Some? :: key(xs[i]).value
  }

  /** The dictionary the grouping loop builds: one bucket per key that occurs. */
  function GroupBy<T, K(==)>(xs: seq<T>, key: T -> Option<K>): map<K, seq<T>>
  {
    map k | k in KeysOf(xs, key) :: Bucket(xs, key, k)
  }

  /** Bucketing a concatenation: the first part's elements come first. */
  lemma {:induction false} BucketConcat<T, K>(xs: seq<T>, ys: seq<T>, key: T -> Option<K>, k: K)
    ensures Bucket(xs + ys, key, k) == Bucket(xs, key, k) + Bucket(ys, key, k)
    decreases |ys|
  {
    if ys == [] {
      assert xs + ys == xs;
    } else {
      var last := ys[|ys| - 1];
      assert (xs + ys)[..|xs + ys| - 1] == xs + ys[..|ys| - 1];
      BucketConcat(xs, ys[..|ys| - 1], key, k);
    }
  }

  /** An element is in bucket `k` exactly when it is in the input and its key is `k`. */
  lemma {:induction false} BucketMembership<T, K>(xs: seq<T>, key: T -> Option<K>, k: K, x: T)
    ensures x in Bucket(xs, key, k) <==> x in xs && key(x) == Some(k)
    decreases |xs|
  {
    if xs != [] {
      var init := xs[..|xs| - 1];
      BucketMembership(init, key, k, x);
      assert xs == init + [xs[|xs| - 1]];
    }
  }

  /** The keys of a list are those of its prefix and that of its last element. */
  lemma KeysOfSnoc<T, K>(xs: seq<T>, key: T -> Option<K>)
    requires xs != []
    ensures var last := xs[|xs| - 1];
            KeysOf(xs, key) == KeysOf(xs[..|xs| - 1], key) + (if key(last).Some? then {key(last).value} else {})
  {
    var init := xs[..|xs| - 1];
    var last := xs[|xs| - 1];
    var extra: set<K> := if key(last).Some? then {key(last).value} else {};
    forall k | k in KeysOf(xs, key) ensures k in KeysOf(init, key) + extra {
      var i :| 0 <= i < |xs| && key(xs[i]).Some? && key(xs[i]).value == k;
      if i < |init| {
        assert init[i] == xs[i];
      }
    }
    forall k | k in KeysOf(init, key) ensures k in KeysOf(xs, key) {
      var i :| 0 <= i < |init| && key(init[i]).Some? && key(init[i]).value == k;
      assert xs[i] == init[i];
    }
    if key(last).Some? {
      assert key(xs[|xs| - 1]).value in KeysOf(xs, key);
    }
  }

  /** A bucket is non-empty exactly when its key occurs. */
  lemma {:induction false} BucketNonEmpty<T, K>(xs: seq<T>, key: T -> Option<K>, k: K)
    ensures Bucket(xs, key, k) != [] <==> k in KeysOf(xs, key)
    decreases |xs|
  {
    if xs != [] {
      BucketNonEmpty(xs[..|xs| - 1], key, k);
      KeysOfSnoc(xs, key);
    }
  }

  /** The groups of the input: every key that occurs has a non-empty bucket of exactly
      the elements with that key; elements without a key are in no bucket. */
  lemma GroupByBuckets<T, K>(xs: seq<T>, key: T -> Option<K>)
    ensures forall k :: k in GroupBy(xs, key) ==> GroupBy(xs, key)[k] != []
    ensures forall x, k :: k in GroupBy(xs, key) && x in GroupBy(xs, key)[k] <==> x in xs && key(x) == Some(k)
  {
    forall k | k in GroupBy(xs, key) ensures GroupBy(xs, key)[k] != [] {
      BucketNonEmpty(xs, key, k);
    }
    forall x, k ensures k in GroupBy(xs, key) && x in GroupBy(xs, key)[k] <==> x in xs && key(x) == Some(k) {
      BucketMembership(xs, key, k, x);
      BucketNonEmpty(xs, key, k);
    }
  }

  /** One step of the grouping loop: `groups[key(x)].append(x)`, or nothing without a key. */
  function AddToGroup<T, K(==)>(groups: map<K, seq<T>>, x: T, key: T -> Option<K>): map<K, seq<T>>
  {
    match key(x)
    case None => groups
    case Some(k) => groups[k := (if k in groups then groups[k] else []) + [x]]
  }

  lemma GroupBySnoc<T, K>(xs: seq<T>, x: T, key: T -> Option<K>)
    ensures GroupBy(xs + [x], key) == AddToGroup(GroupBy(xs, key), x, key)
  {
    var ys := xs + [x];
    assert ys[..|ys| - 1] == xs;
    assert forall i :: 0 <= i < |xs| ==> ys[i] == xs[i];
    var lhs := GroupBy(ys, key);
    var rhs := AddToGroup(GroupBy(xs, key), x, key);
    assert KeysOf(ys, key) == KeysOf(xs, key) + (if key(x).Some? then {key(x).value} else {}) by {
      assert ys[|xs|] == x;
    }
    forall k | k in lhs ensures k in rhs && lhs[k] == rhs[k] {
      BucketNonEmpty(xs, key, k);
    }
    forall k | k in rhs ensures k in lhs {
    }
  }

  /** Two-level grouping, `d[outer][inner]`: the outer buckets, each bucketed again. */
  function Nested<T, K1(==), K2(==)>(xs: seq<T>, outer: T -> Option<K1>, inner: T -> Option<K2>): map<K1, map<K2, seq<T>>>
  {
    var g := GroupBy(xs, outer);
    map a | a in g :: GroupBy(g[a], inner)
  }

  /** An element is in bucket [a][b] exactly when it is in the input with outer key `a`
      and inner key `b`; no bucket is empty. */
  lemma NestedMembers<T, K1, K2>(xs: seq<T>, outer: T -> Option<K1>, inner: T -> Option<K2>)
    ensures forall a, b, x ::
      (a in Nested(xs, outer, inner) && b in Nested(xs, outer, inner)[a] && x in Nested(xs, outer, inner)[a][b]) <==>
      (x in xs && outer(x) == Some(a) && inner(x) == Some(b))
    ensures forall a, b :: a in Nested(xs, outer, inner) && b in Nested(xs, outer, inner)[a] ==>
      Nested(xs, outer, inner)[a][b] != []
  {
    var g := Nested(xs, outer, inner);
    forall a, b, x
      ensures (a in g && b in g[a] && x in g[a][b]) <==> (x in xs && outer(x) == Some(a) && inner(x) == Some(b))
    {
      var bucket := Bucket(xs, outer, a);
      BucketMembership(xs, outer, a, x);
      BucketNonEmpty(xs, outer, a);
      BucketMembership(bucket, inner, b, x);
      BucketNonEmpty(bucket, inner, b);
    }
    forall a, b | a in g && b in g[a] ensures g[a][b] != [] {
      BucketNonEmpty(Bucket(xs, outer, a), inner, b);
    }
  }

  /** An element of bucket [a][b] is an input element with outer key `a` and
      inner key `b`. */
  lemma NestedMember<T, K1, K2>(xs: seq<T>, outer: T -> Option<K1>, inner: T -> Option<K2>, a: K1, b: K2, x: T)
    requires a in Nested(xs, outer, inner) && b in Nested(xs, outer, inner)[a] && x in Nested(xs, outer, inner)[a][b]
    ensures x in xs && outer(x) == Some(a) && inner(x) == Some(b)
  {
    var bucket := Bucket(xs, outer, a);
    BucketMembership(xs, outer, a, x);
    BucketMembership(bucket, inner, b, x);
  }

  /** One step of the two-level loop: `d[outer(x)][inner(x)].append(x)`. */
  function AddNested<T, K1(==), K2(==)>(g: map<K1, map<K2, seq<T>>>, x: T, outer: T -> Option<K1>, inner: T -> Option<K2>): map<K1, map<K2, seq<T>>>
  {
    match outer(x)
    case None => g
    case Some(a) => g[a := AddToGroup(if a in g then g[a] else map[], x, inner)]
  }

  lemma GroupByEmpty<T, K>(key: T -> Option<K>)
    ensures GroupBy([], key) == map[]
  {
    assert KeysOf([], key) == {};
  }

  lemma NestedSnoc<T, K1, K2>(xs: seq<T>, x: T, outer: T -> Option<K1>, inner: T -> Option<K2>)
    ensures Nested(xs + [x], outer, inner) == AddNested(Nested(xs, outer, inner), x, outer, inner)
  {
    GroupBySnoc(xs, x, outer);
    var lhs := Nested(xs + [x], outer, inner);
    var rhs := AddNested(Nested(xs, outer, inner), x, outer, inner);
    assert lhs.Keys == rhs.Keys;
    forall a | a in lhs ensures lhs[a] == rhs[a] {
      NestedSnocAt(xs, x, outer, inner, a);
    }
  }

  lemma NestedSnocAt<T, K1, K2>(xs: seq<T>, x: T, outer: T -> Option<K1>, inner: T -> Option<K2>, a: K1)
    requires a in Nested(xs + [x], outer, inner)
    ensures a in AddNested(Nested(xs, outer, inner), x, outer, inner)
    ensures Nested(xs + [x], outer, inner)[a] == AddNested(Nested(xs, outer, inner), x, outer, inner)[a]
  {
    GroupBySnoc(xs, x, outer);
    var g := GroupBy(xs, outer);
    var g' := GroupBy(xs + [x], outer);
    var n := Nested(xs, outer, inner);
    if outer(x) == Some(a) {
      var bucket := if a in g then g[a] else [];
      assert g'[a] == bucket + [x];
      GroupBySnoc(bucket, x, inner);
      GroupByEmpty(inner);
      assert (if a in n then n[a] else map[]) == GroupBy(bucket, inner);
    } else {
      assert g'[a] == g[a];
    }
  }
}

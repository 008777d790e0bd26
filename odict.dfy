/** Python's insertion-ordered `dict` (and `OrderedDict`) with string keys: the keys in the
    order they were first inserted, and the current value of each. Assigning to a key that is
    already present replaces its value and keeps its place. */
module ODicts {
  import opened Options
  import opened Seqs

  datatype ODict<V> = ODict(keys: seq<string>, vals: map<string, V>)

  /** Each key listed once, and listed exactly when it has a value. */
  ghost predicate Valid<V>(d: ODict<V>)
  {
    && Distinct(d.keys)
    && (forall k :: k in d.vals <==> k in d.keys)
  }

  function Empty<V>(): ODict<V>
  {
    ODict([], map[])
  }

  /** `d.get(k)`. */
  function Get<V>(d: ODict<V>, k: string): Option<V>
  {
    if k in d.vals then Some(d.vals[k]) else None
  }

  /** `d[k] = v`. */
  function Put<V>(d: ODict<V>, k: string, v: V): ODict<V>
  {
    if k in d.vals then ODict(d.keys, d.vals[k := v]) else ODict(d.keys + [k], d.vals[k := v])
  }

  /** An assignment keeps the dictionary well formed, gives `k` the value `v`, leaves every other
      key alone, and appends `k` to the order only when it is new. */
  lemma PutSpec<V>(d: ODict<V>, k: string, v: V)
    requires Valid(d)
    ensures Valid(Put(d, k, v))
    ensures Get(Put(d, k, v), k) == Some(v)
    ensures forall j :: j != k ==> Get(Put(d, k, v), j) == Get(d, j)
    ensures Put(d, k, v).keys == if k in d.keys then d.keys else d.keys + [k]
  {
  }

  /** Assigning the same key twice is assigning the second value. */
  lemma PutPut<V>(d: ODict<V>, k: string, v: V, w: V)
    ensures Put(Put(d, k, v), k, w) == Put(d, k, w)
  {
  }

  /** The distinct elements of `xs` in order of first appearance. */
  function Dedup(xs: seq<string>): seq<string>
    decreases |xs|
  {
    if xs == [] then []
    else
      var d := Dedup(xs[..|xs| - 1]);
      if xs[|xs| - 1] in d then d else d + [xs[|xs| - 1]]
  }

  /** `Dedup` lists every element once, and the distinct elements of a prefix come first. */
  lemma {:induction false} DedupSpec(xs: seq<string>)
    ensures Distinct(Dedup(xs))
    ensures forall x :: x in Dedup(xs) <==> x in xs
    ensures |Dedup(xs)| <= |xs|
    decreases |xs|
  {
    if xs != [] {
      var init := xs[..|xs| - 1];
      DedupSpec(init);
      assert xs == init + [xs[|xs| - 1]];
    }
  }

  lemma {:induction false} DedupPrefix(xs: seq<string>, n: int)
    requires 0 <= n <= |xs|
    ensures Dedup(xs[..n]) <= Dedup(xs)
    decreases |xs| - n
  {
    if n < |xs| {
      DedupPrefix(xs, n + 1);
      assert xs[..n + 1][..n] == xs[..n];
    } else {
      assert xs[..n] == xs;
    }
  }

  /** `[key(x) for x in xs]`. */
  function MapKeys<T>(xs: seq<T>, key: T -> string): (ks: seq<string>)
    ensures |ks| == |xs| && forall i :: 0 <= i < |xs| ==> ks[i] == key(xs[i])
  {
    seq(|xs|, i requires 0 <= i < |xs| => key(xs[i]))
  }

  /** The loop `for x in xs: d[key(x)] = step(d.get(key(x)), x)` from an empty dict: each
      item updates the entry of its key from that entry's current value. */
  function FoldUpsert<T, V>(xs: seq<T>, key: T -> string, step: (Option<V>, T) -> V): ODict<V>
    decreases |xs|
  {
    if xs == [] then Empty()
    else
      var d := FoldUpsert(xs[..|xs| - 1], key, step);
      var last := xs[|xs| - 1];
      Put(d, key(last), step(Get(d, key(last)), last))
  }

  /** The value `step` builds from a sequence of items, starting from nothing. */
  function Agg<T, V>(ys: seq<T>, step: (Option<V>, T) -> V): Option<V>
    decreases |ys|
  {
    if ys == [] then None else Some(step(Agg(ys[..|ys| - 1], step), ys[|ys| - 1]))
  }

  /** Grouping, the keys: the distinct keys of the items in order of first appearance. */
  lemma {:induction false} FoldUpsertSpec<T, V>(xs: seq<T>, key: T -> string, step: (Option<V>, T) -> V)
    ensures Valid(FoldUpsert(xs, key, step))
    ensures FoldUpsert(xs, key, step).keys == Dedup(MapKeys(xs, key))
    decreases |xs|
  {
    if xs != [] {
      var init, last := xs[..|xs| - 1], xs[|xs| - 1];
      FoldUpsertSpec(init, key, step);
      var d := FoldUpsert(init, key, step);
      assert MapKeys(xs, key)[..|xs| - 1] == MapKeys(init, key);
      DedupSpec(MapKeys(init, key));
      PutSpec(d, key(last), step(Get(d, key(last)), last));
    }
  }

  /** Grouping, the entries: the entry of key `k` is what `step` builds from exactly the items
      `keep` selects, the items whose key is `k`, in order. */
  lemma {:induction false} FoldUpsertAt<T, V>(xs: seq<T>, key: T -> string, step: (Option<V>, T) -> V,
                                              k: string, keep: T -> bool)
    requires forall x :: keep(x) == (key(x) == k)
    ensures Get(FoldUpsert(xs, key, step), k) == Agg(Filter(xs, keep), step)
    decreases |xs|
  {
    if xs != [] {
      var init, last := xs[..|xs| - 1], xs[|xs| - 1];
      FoldUpsertAt(init, key, step, k, keep);
      var f := Filter(xs, keep);
      if keep(last) {
        assert f[..|f| - 1] == Filter(init, keep);
      }
    }
  }

  /** The last item decides the value when `step` ignores the current value. */
  lemma AggLast<T, V>(ys: seq<T>, step: (Option<V>, T) -> V)
    requires ys != []
    ensures Agg(ys, step) == Some(step(Agg(ys[..|ys| - 1], step), ys[|ys| - 1]))
  {
  }
  /** A sequence without repeats is its own de-duplication. */
  lemma {:induction false} DedupDistinct(xs: seq<string>)
    requires Distinct(xs)
    ensures Dedup(xs) == xs
    decreases |xs|
  {
    if xs != [] {
      var init := xs[..|xs| - 1];
      DedupDistinct(init);
      DedupSpec(init);
      assert xs[|xs| - 1] !in init;
      assert xs == init + [xs[|xs| - 1]];
    }
  }

  /** When `step` keeps only the item, the value is the last item's. */
  function LastWins<V>(cur: Option<V>, kv: (string, V)): V
  {
    kv.1
  }

  lemma AggLastWins<V>(kvs: seq<(string, V)>)
    requires kvs != []
    ensures Agg(kvs, LastWins) == Some(kvs[|kvs| - 1].1)
  {
  }

  function FirstOf<V>(kv: (string, V)): string
  {
    kv.0
  }
  /** One more item is one more assignment. */
  lemma FoldUpsertSnoc<T, V>(xs: seq<T>, x: T, key: T -> string, step: (Option<V>, T) -> V)
    ensures FoldUpsert(xs + [x], key, step)
         == Put(FoldUpsert(xs, key, step), key(x), step(Get(FoldUpsert(xs, key, step), key(x)), x))
  {
    assert (xs + [x])[..|xs|] == xs;
  }

  /** When every item with key `k` carries the same value `v`, and one does, the last one wins
      with `v`. */
  lemma FoldLastWinsUniform<V>(xs: seq<(string, V)>, k: string, v: V)
    requires (k, v) in xs
    requires forall kv :: kv in xs && kv.0 == k ==> kv.1 == v
    ensures Get(FoldUpsert(xs, FirstOf, LastWins), k) == Some(v)
  {
    var keep := (kv: (string, V)) => kv.0 == k;
    FoldUpsertAt(xs, FirstOf, LastWins, k, keep);
    FilterMembers(xs, keep);
    var f := Filter(xs, keep);
    assert (k, v) in f;
    AggLastWins(f);
    assert f[|f| - 1] in f;
  }
}

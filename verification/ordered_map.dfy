/** A Python `dict` from filename to caption as the scripts use it: keys
    kept in insertion order, assigning to a present key replaces its value
    in place. */
module OrderedMap {
  import opened Types

  type K = string
  type V = Option<string>

  datatype Entry = Entry(key: K, value: V)

  function Keys(m: seq<Entry>): (r: seq<K>)
    ensures |r| == |m|
  {
    if m == [] then [] else [m[0].key] + Keys(m[1..])
  }

  lemma {:induction false} KeysAt(m: seq<Entry>)
    ensures forall i :: 0 <= i < |m| ==> Keys(m)[i] == m[i].key
  {
    if m != [] {
      KeysAt(m[1..]);
    }
  }

  ghost predicate Distinct(xs: seq<K>) {
    forall i, j :: 0 <= i < j < |xs| ==> xs[i] != xs[j]
  }

  /** `d.get(k)`: the value stored under `k`, if any. */
  function Get(m: seq<Entry>, k: K): (r: Option<V>)
    ensures r.Some? <==> k in Keys(m)
    ensures r.Some? ==> Entry(k, r.value) in m
  {
    if m == [] then None
    else if m[0].key == k then Some(m[0].value)
    else
      assert Keys(m) == [m[0].key] + Keys(m[1..]);
      Get(m[1..], k)
  }

  /** `d[k] = v`: a new key goes to the end, a present key keeps its place
      and takes the new value. `PutSpec` states what the assignment means. */
  function Put(m: seq<Entry>, k: K, v: V): seq<Entry>
  {
    if m == [] then [Entry(k, v)]
    else if m[0].key == k then [Entry(k, v)] + m[1..]
    else [m[0]] + Put(m[1..], k, v)
  }

  /** What assigning `k := v` in `m` must give: the key list grows by `k`
      only when `k` is new, `k` reads back `v`, and every other key reads
      back what it read before. */
  ghost predicate PutResult(m: seq<Entry>, k: K, v: V, r: seq<Entry>) {
    && Keys(r) == (if k in Keys(m) then Keys(m) else Keys(m) + [k])
    && Get(r, k) == Some(v)
    && forall k' :: k' != k ==> Get(r, k') == Get(m, k')
  }

  /** The assignment grows the key list by `k` only when `k` is new; `k`
      reads back `v`; every other key reads back what it read before. */
  lemma {:induction false} PutSpec(m: seq<Entry>, k: K, v: V)
    ensures PutResult(m, k, v, Put(m, k, v))
    decreases |m|
  {
    if m != [] {
      if m[0].key == k {
        PutHere(m, k, v);
      } else {
        PutSpec(m[1..], k, v);
        PutLater(m, k, v, Put(m[1..], k, v));
      }
    }
  }

  lemma PutHere(m: seq<Entry>, k: K, v: V)
    requires m != [] && m[0].key == k
    ensures PutResult(m, k, v, [Entry(k, v)] + m[1..])
  {
    ConsParts(m[0], m[1..]);
    ConsParts(Entry(k, v), m[1..]);
    assert m == [m[0]] + m[1..];
  }

  lemma PutLater(m: seq<Entry>, k: K, v: V, rest: seq<Entry>)
    requires m != [] && m[0].key != k
    requires PutResult(m[1..], k, v, rest)
    ensures PutResult(m, k, v, [m[0]] + rest)
  {
    ConsParts(m[0], m[1..]);
    ConsParts(m[0], rest);
    assert m == [m[0]] + m[1..];
    assert k in Keys(m) <==> k in Keys(m[1..]);
  }

  lemma ConsParts(e: Entry, rest: seq<Entry>)
    ensures Keys([e] + rest) == [e.key] + Keys(rest)
    ensures forall k :: Get([e] + rest, k) == if e.key == k then Some(e.value) else Get(rest, k)
  {
    assert ([e] + rest)[1..] == rest;
  }

  /** Assigning the pairs of `ps` one after another, as the feed loop does. */
  function PutAll(m: seq<Entry>, ps: seq<(K, V)>): seq<Entry>
    decreases |ps|
  {
    if ps == [] then m else PutAll(Put(m, ps[0].0, ps[0].1), ps[1..])
  }

  function Firsts(ps: seq<(K, V)>): (r: seq<K>)
    ensures |r| == |ps|
    ensures forall i :: 0 <= i < |ps| ==> r[i] == ps[i].0
  {
    if ps == [] then [] else [ps[0].0] + Firsts(ps[1..])
  }

  /** The elements of `xs` without repeats, each where it first occurs. */
  function Dedup(xs: seq<K>): (r: seq<K>)
    ensures forall x :: x in r <==> x in xs
    ensures Distinct(r)
    decreases |xs|
  {
    if xs == [] then []
    else
      var init := xs[..|xs| - 1];
      var d := Dedup(init);
      assert forall x :: x in xs <==> x in init || x == xs[|xs| - 1];
      if xs[|xs| - 1] in d then d else d + [xs[|xs| - 1]]
  }

  /** The value of the last pair of `ps` whose key is `k`: there is one
      exactly when `k` was assigned. `LastValueIsLast` states that it is the
      value of the assignment after which `k` is not assigned again. */
  function LastValue(ps: seq<(K, V)>, k: K): (r: Option<V>)
    ensures r.Some? <==> k in Firsts(ps)
    ensures r.Some? ==> (k, r.value) in ps
    decreases |ps|
  {
    if ps == [] then None
    else
      assert Firsts(ps) == [ps[0].0] + Firsts(ps[1..]);
      var later := LastValue(ps[1..], k);
      if later.Some? then later
      else if ps[0].0 == k then Some(ps[0].1)
      else None
  }

  /** The value under `k` is the one of the last assignment to `k`. */
  lemma {:induction false} LastValueIsLast(ps: seq<(K, V)>, k: K, i: nat)
    requires i < |ps| && ps[i].0 == k
    requires forall j :: i < j < |ps| ==> ps[j].0 != k
    ensures LastValue(ps, k) == Some(ps[i].1)
    decreases |ps|
  {
    if i > 0 {
      assert ps[1..][i - 1] == ps[i];
      forall j | i - 1 < j < |ps| - 1 ensures ps[1..][j].0 != k {
        assert ps[1..][j] == ps[j + 1];
      }
      LastValueIsLast(ps[1..], k, i - 1);
    } else {
      assert k !in Firsts(ps[1..]);
    }
  }

  lemma {:induction false} PutAllAppend(m: seq<Entry>, ps: seq<(K, V)>, qs: seq<(K, V)>)
    ensures PutAll(m, ps + qs) == PutAll(PutAll(m, ps), qs)
    decreases |ps|
  {
    if ps == [] {
      assert ps + qs == qs;
    } else {
      assert (ps + qs)[0] == ps[0];
      assert (ps + qs)[1..] == ps[1..] + qs;
      PutAllAppend(Put(m, ps[0].0, ps[0].1), ps[1..], qs);
    }
  }

  /** Keys of a dict built from the empty dict by assigning `ps` in order:
      each key once, in the order of its first assignment. */
  lemma {:induction false} PutAllKeys(ps: seq<(K, V)>)
    ensures Keys(PutAll([], ps)) == Dedup(Firsts(ps))
    decreases |ps|
  {
    if ps != [] {
      var init := ps[..|ps| - 1];
      var p := ps[|ps| - 1];
      assert ps == init + [p];
      var m := PutAll([], init);
      PutAllSnoc(m, init, p);
      PutAllKeys(init);
      FirstsSnoc(init, p);
      DedupSnoc(Firsts(init), p.0);
    }
  }

  lemma PutAllSnoc(m: seq<Entry>, init: seq<(K, V)>, p: (K, V))
    requires m == PutAll([], init)
    ensures PutAll([], init + [p]) == Put(m, p.0, p.1)
    ensures PutResult(m, p.0, p.1, PutAll([], init + [p]))
  {
    PutSpec(m, p.0, p.1);
    PutAllAppend([], init, [p]);
    assert [p][1..] == [];
  }

  lemma {:induction false} FirstsSnoc(ps: seq<(K, V)>, p: (K, V))
    ensures Firsts(ps + [p]) == Firsts(ps) + [p.0]
    decreases |ps|
  {
    if ps == [] {
      assert ps + [p] == [p];
    } else {
      assert (ps + [p])[1..] == ps[1..] + [p];
      FirstsSnoc(ps[1..], p);
    }
  }

  lemma DedupSnoc(xs: seq<K>, x: K)
    ensures Dedup(xs + [x]) == if x in Dedup(xs) then Dedup(xs) else Dedup(xs) + [x]
  {
    assert (xs + [x])[..|xs|] == xs;
  }

  /** The value under `k` comes from the last assignment to `k`; keys never
      assigned keep the value they had. */
  lemma {:induction false} PutAllGet(m: seq<Entry>, ps: seq<(K, V)>, k: K)
    ensures Get(PutAll(m, ps), k) == if LastValue(ps, k).Some? then LastValue(ps, k) else Get(m, k)
    decreases |ps|
  {
    if ps != [] {
      PutSpec(m, ps[0].0, ps[0].1);
      PutAllGet(Put(m, ps[0].0, ps[0].1), ps[1..], k);
    }
  }

  /** First position of `x` in `xs`. */
  function IndexOf(xs: seq<K>, x: K): (r: nat)
    requires x in xs
    ensures r < |xs| && xs[r] == x && x !in xs[..r]
  {
    if xs[0] == x then 0 else IndexOf(xs[1..], x) + 1
  }

  lemma {:induction false} IndexOfExtend(xs: seq<K>, z: K, x: K)
    requires x in xs
    ensures IndexOf(xs + [z], x) == IndexOf(xs, x)
  {
    if xs[0] != x {
      assert (xs + [z])[1..] == xs[1..] + [z];
      IndexOfExtend(xs[1..], z, x);
    }
  }

  /** `Dedup` lists the elements in the order of their first occurrence. */
  lemma {:induction false} DedupKeepsFirstOccurrenceOrder(xs: seq<K>)
    ensures forall i, j :: 0 <= i < j < |Dedup(xs)| ==>
      IndexOf(xs, Dedup(xs)[i]) < IndexOf(xs, Dedup(xs)[j])
    decreases |xs|
  {
    if xs != [] {
      var init := xs[..|xs| - 1];
      var z := xs[|xs| - 1];
      assert xs == init + [z];
      DedupKeepsFirstOccurrenceOrder(init);
      var d := Dedup(init);
      forall y | y in d ensures IndexOf(xs, y) == IndexOf(init, y) < |init| {
        IndexOfExtend(init, z, y);
      }
      if z !in d {
        assert z !in init;
        assert IndexOf(xs, z) == |init|;
        forall i, j | 0 <= i < j < |Dedup(xs)|
          ensures IndexOf(xs, Dedup(xs)[i]) < IndexOf(xs, Dedup(xs)[j])
        {
          assert Dedup(xs)[i] == d[i];
          if j < |d| {
            assert Dedup(xs)[j] == d[j];
          }
        }
      }
    }
  }
}

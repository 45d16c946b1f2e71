/**
 * `MDCarrier`: the text-map carrier over gRPC metadata, a map from key to the
 * list of values under it. `Set` appends (the key is stored as given, without
 * lower-casing); `ForeachKey` hands every (key, value) pair to a handler and
 * stops at the first handler error.
 */
module MetadataCarrier {
  import opened Wrappers

  /** gRPC's `metadata.MD`. */
  type MD = map<string, seq<string>>

  /** One (key, value) pair, as handed to a `ForeachKey` handler or to `Set`. */
  type Pair = (string, string)

  /** `md[key]` in Go: the list under `key`, or the empty (nil) list. */
  function Get(md: MD, key: string): (r: seq<string>) {
    if key in md then md[key] else []
  }

  /** `MDCarrier.Set`: append `val` to the list under `key`. */
  function Set(md: MD, key: string, val: string): (r: MD)
    ensures r.Keys == md.Keys + {key}
    ensures Get(r, key) == Get(md, key) + [val]
    ensures forall k :: k != key ==> Get(r, k) == Get(md, k)
  {
    md[key := Get(md, key) + [val]]
  }

  /** A sequence of `Set` calls, applied first to last (what a tracer's Inject does). */
  function SetMany(md: MD, ps: seq<Pair>): (r: MD)
    decreases |ps|
  {
    if ps == [] then md else Set(SetMany(md, ps[..|ps|-1]), ps[|ps|-1].0, ps[|ps|-1].1)
  }

  /** The values of the pairs with key `key`, in order. */
  function ValuesOf(ps: seq<Pair>, key: string): (r: seq<string>)
    decreases |ps|
  {
    if ps == [] then []
    else ValuesOf(ps[..|ps|-1], key) + (if ps[|ps|-1].0 == key then [ps[|ps|-1].1] else [])
  }

  /** The keys of a sequence of pairs. */
  function KeysOf(ps: seq<Pair>): (r: set<string>) {
    set n | 0 <= n < |ps| :: ps[n].0
  }

  /** Repeated `Set` calls never overwrite: each key's list is its old list
      followed by the values set under it, in call order; no other key appears. */
  lemma SetManyAccumulates(md: MD, ps: seq<Pair>)
    ensures SetMany(md, ps).Keys == md.Keys + KeysOf(ps)
    ensures forall k :: Get(SetMany(md, ps), k) == Get(md, k) + ValuesOf(ps, k)
  {
    SetManyKeys(md, ps);
    forall k ensures Get(SetMany(md, ps), k) == Get(md, k) + ValuesOf(ps, k) {
      SetManyGet(md, ps, k);
    }
  }

  lemma {:induction false} SetManyGet(md: MD, ps: seq<Pair>, k: string)
    ensures Get(SetMany(md, ps), k) == Get(md, k) + ValuesOf(ps, k)
    decreases |ps|
  {
    if ps == [] {
      assert Get(md, k) + [] == Get(md, k);
    } else {
      var init := ps[..|ps|-1];
      SetManyGet(md, init, k);
      if ps[|ps|-1].0 == k {
        assert Get(md, k) + ValuesOf(init, k) + [ps[|ps|-1].1] == Get(md, k) + (ValuesOf(init, k) + [ps[|ps|-1].1]);
      } else {
        assert ValuesOf(ps, k) == ValuesOf(init, k) + [];
      }
    }
  }

  lemma {:induction false} SetManyKeys(md: MD, ps: seq<Pair>)
    ensures SetMany(md, ps).Keys == md.Keys + KeysOf(ps)
    decreases |ps|
  {
    if ps != [] {
      SetManyKeys(md, ps[..|ps|-1]);
      KeysOfSnoc(ps);
    } else {
      assert KeysOf(ps) == {};
    }
  }

  lemma KeysOfSnoc(ps: seq<Pair>)
    requires ps != []
    ensures KeysOf(ps) == KeysOf(ps[..|ps|-1]) + {ps[|ps|-1].0}
  {
    var init := ps[..|ps|-1];
    forall x | x in KeysOf(ps) ensures x in KeysOf(init) + {ps[|ps|-1].0} {
      var n :| 0 <= n < |ps| && ps[n].0 == x;
      if n < |ps| - 1 { assert init[n] == ps[n]; }
    }
    forall x | x in KeysOf(init) ensures x in KeysOf(ps) {
      var n :| 0 <= n < |init| && init[n].0 == x;
      assert ps[n] == init[n];
    }
  }

  /** The pairs `(key, v)` for each `v` of `vs`, in order. */
  function KeyPairs(key: string, vs: seq<string>): (r: seq<Pair>)
    ensures |r| == |vs|
  {
    seq(|vs|, n requires 0 <= n < |vs| => (key, vs[n]))
  }

  /** Setting the same key repeatedly accumulates the values in call order. */
  lemma SetSameKeyAccumulates(md: MD, key: string, vs: seq<string>)
    ensures Get(SetMany(md, KeyPairs(key, vs)), key) == Get(md, key) + vs
  {
    SetManyAccumulates(md, KeyPairs(key, vs));
    ValuesOfKeyPairs(key, vs, key);
  }

  /** The pairs of one key read back as that key's values, and as nothing for any other key. */
  lemma {:induction false} ValuesOfKeyPairs(key: string, vs: seq<string>, k: string)
    ensures ValuesOf(KeyPairs(key, vs), k) == (if k == key then vs else [])
    decreases |vs|
  {
    if vs != [] {
      var init := vs[..|vs|-1];
      assert KeyPairs(key, vs)[..|vs|-1] == KeyPairs(key, init);
      ValuesOfKeyPairs(key, init, k);
      assert init + [vs[|vs|-1]] == vs;
    }
  }

  lemma {:induction false} ValuesOfAppend(a: seq<Pair>, b: seq<Pair>, k: string)
    ensures ValuesOf(a + b, k) == ValuesOf(a, k) + ValuesOf(b, k)
    decreases |b|
  {
    if b == [] {
      assert a + b == a;
    } else {
      assert (a + b)[..|a + b| - 1] == a + b[..|b|-1];
      ValuesOfAppend(a, b[..|b|-1], k);
    }
  }

  /** No key is listed twice. */
  predicate Distinct(order: seq<string>) {
    forall i, j :: 0 <= i < j < |order| ==> order[i] != order[j]
  }

  /** `order` is one possible Go map iteration order: every key once. */
  predicate IsIterationOrder(md: MD, order: seq<string>) {
    && Distinct(order)
    && (forall k :: k in md ==> k in order)
    && (forall n :: 0 <= n < |order| ==> order[n] in md)
  }

  /** Dropping the last key of a distinct order keeps it distinct, and the last
      key is not among the others. */
  lemma DistinctSnoc(order: seq<string>)
    requires order != [] && Distinct(order)
    ensures Distinct(order[..|order|-1])
    ensures order[|order|-1] !in order[..|order|-1]
  {
    var init := order[..|order|-1];
    forall n | 0 <= n < |init| ensures init[n] != order[|order|-1] {
      assert init[n] == order[n];
    }
  }

  /** All (key, value) pairs of `md`, keys in `order`, each key's values in list order. */
  function Pairs(md: MD, order: seq<string>): (r: seq<Pair>)
    decreases |order|
  {
    if order == [] then []
    else Pairs(md, order[..|order|-1]) + KeyPairs(order[|order|-1], Get(md, order[|order|-1]))
  }

  /** Within one key the pairs carry exactly that key's list, in list order. */
  lemma {:induction false} ValuesOfPairs(md: MD, order: seq<string>, k: string)
    requires Distinct(order)
    ensures ValuesOf(Pairs(md, order), k) == (if k in order then Get(md, k) else [])
    decreases |order|
  {
    if order != [] {
      var init := order[..|order|-1];
      var last := order[|order|-1];
      var before := Pairs(md, init);
      var added := KeyPairs(last, Get(md, last));
      assert Pairs(md, order) == before + added;
      DistinctSnoc(order);
      ValuesOfPairs(md, init, k);
      ValuesOfAppend(before, added, k);
      ValuesOfKeyPairs(last, Get(md, last), k);
      InSnoc(order, k);
      if k == last {
        assert ValuesOf(before, k) == [];
        assert ValuesOf(Pairs(md, order), k) == [] + Get(md, k);
      } else {
        assert ValuesOf(added, k) == [];
        assert ValuesOf(Pairs(md, order), k) == ValuesOf(before, k) + [];
      }
    }
  }

  lemma InSnoc(order: seq<string>, k: string)
    requires order != []
    ensures k in order <==> k in order[..|order|-1] || k == order[|order|-1]
  {
    assert order == order[..|order|-1] + [order[|order|-1]];
  }

  /** Enumerating after a sequence of `Set` calls gives back, under each key, the
      values that key held before followed by those set under it, in order. */
  lemma SetThenEnumerate(md: MD, ps: seq<Pair>, order: seq<string>, k: string)
    requires IsIterationOrder(SetMany(md, ps), order)
    ensures ValuesOf(Pairs(SetMany(md, ps), order), k) == Get(md, k) + ValuesOf(ps, k)
  {
    SetManyAccumulates(md, ps);
    ValuesOfPairs(SetMany(md, ps), order, k);
  }

  /** A pair occurs in a sequence of pairs as often as its value occurs among that key's values. */
  lemma {:induction false} MultiplicityByKey(ps: seq<Pair>, k: string, v: string)
    ensures multiset(ps)[(k, v)] == multiset(ValuesOf(ps, k))[v]
    decreases |ps|
  {
    if ps != [] {
      var init := ps[..|ps|-1];
      MultiplicityByKey(init, k, v);
      assert ps == init + [ps[|ps|-1]];
      assert multiset(ps) == multiset(init) + multiset{ps[|ps|-1]};
    }
  }

  /** Go leaves the key order unspecified, but every iteration order visits the
      same pairs the same number of times: the enumerations are permutations of
      each other, so the handler count never depends on the order. */
  lemma PairsIndependentOfOrder(md: MD, o1: seq<string>, o2: seq<string>)
    requires IsIterationOrder(md, o1) && IsIterationOrder(md, o2)
    ensures multiset(Pairs(md, o1)) == multiset(Pairs(md, o2))
    ensures |Pairs(md, o1)| == |Pairs(md, o2)|
  {
    forall p: Pair ensures multiset(Pairs(md, o1))[p] == multiset(Pairs(md, o2))[p] {
      MultiplicityByKey(Pairs(md, o1), p.0, p.1);
      MultiplicityByKey(Pairs(md, o2), p.0, p.1);
      ValuesOfPairs(md, o1, p.0);
      ValuesOfPairs(md, o2, p.0);
    }
    assert multiset(Pairs(md, o1)) == multiset(Pairs(md, o2));
    assert |multiset(Pairs(md, o1))| == |Pairs(md, o1)|;
    assert |multiset(Pairs(md, o2))| == |Pairs(md, o2)|;
  }

  /** Enumerating a shorter prefix of the key order yields a prefix of the pairs. */
  lemma {:induction false} PairsPrefix(md: MD, order: seq<string>, n: nat)
    requires n <= |order|
    ensures Pairs(md, order[..n]) <= Pairs(md, order)
    decreases |order| - n
  {
    if n < |order| {
      PairsPrefix(md, order, n + 1);
      assert order[..n+1][..n] == order[..n];
    } else {
      assert order[..n] == order;
    }
  }

  /** No pair of `ps` makes the handler fail. */
  predicate AllPass<E>(handler: (string, string) -> Option<E>, ps: seq<Pair>) {
    forall n :: 0 <= n < |ps| ==> handler(ps[n].0, ps[n].1).None?
  }

  /**
   * `MDCarrier.ForeachKey`: call `handler` on each pair, keys in the map's
   * iteration `order`, values in list order; the first error stops the walk and
   * is returned. `calls` is the sequence of handler invocations made.
   */
  method ForeachKey<E>(md: MD, order: seq<string>, handler: (string, string) -> Option<E>)
    returns (err: Option<E>, calls: seq<Pair>)
    requires IsIterationOrder(md, order)
    ensures err.None? ==> calls == Pairs(md, order) && AllPass(handler, calls)
    ensures err.Some? ==>
      && calls <= Pairs(md, order) && |calls| > 0
      && err == handler(calls[|calls|-1].0, calls[|calls|-1].1)
      && AllPass(handler, calls[..|calls|-1])
    ensures err.None? <==> AllPass(handler, Pairs(md, order))
  {
    calls := [];
    var ki := 0;
    while ki < |order|
      invariant 0 <= ki <= |order|
      invariant calls == Pairs(md, order[..ki])
      invariant AllPass(handler, calls)
    {
      var key := order[ki];
      var e, visited := VisitValues(key, Get(md, key), handler);
      if e.Some? {
        EarlyExit(md, order, ki, calls, visited, handler);
        calls := calls + visited;
        err := e;
        return;
      }
      NextKey(md, order, ki, calls, visited, handler);
      calls := calls + visited;
      ki := ki + 1;
    }
    assert order[..ki] == order;
    assert calls == Pairs(md, order);
    err := None;
  }

  /** The inner loop of ForeachKey: the values of one key, in list order, up to
      and including the first one the handler rejects. */
  method VisitValues<E>(key: string, vals: seq<string>, handler: (string, string) -> Option<E>)
    returns (err: Option<E>, calls: seq<Pair>)
    ensures err.None? ==> calls == KeyPairs(key, vals) && AllPass(handler, calls)
    ensures err.Some? ==>
      && calls <= KeyPairs(key, vals) && |calls| > 0
      && err == handler(calls[|calls|-1].0, calls[|calls|-1].1)
      && AllPass(handler, calls[..|calls|-1])
  {
    calls := [];
    var vi := 0;
    while vi < |vals|
      invariant 0 <= vi <= |vals|
      invariant calls == KeyPairs(key, vals[..vi])
      invariant AllPass(handler, calls)
    {
      KeyPairsSnoc(key, vals, vi);
      var e := handler(key, vals[vi]);
      calls := calls + [(key, vals[vi])];
      if e.Some? {
        assert KeyPairs(key, vals[..vi+1]) <= KeyPairs(key, vals);
        assert calls[..|calls|-1] == KeyPairs(key, vals[..vi]);
        return e, calls;
      }
      vi := vi + 1;
    }
    assert vals[..vi] == vals;
    return None, calls;
  }

  /** Stopping inside key `order[ki]` leaves a prefix of the enumeration whose
      calls before the last all passed, and shows the enumeration holds an error. */
  lemma EarlyExit<E>(md: MD, order: seq<string>, ki: nat, prior: seq<Pair>, visited: seq<Pair>,
                     handler: (string, string) -> Option<E>)
    requires ki < |order| && prior == Pairs(md, order[..ki])
    requires AllPass(handler, prior)
    requires visited <= KeyPairs(order[ki], Get(md, order[ki])) && |visited| > 0
    requires AllPass(handler, visited[..|visited|-1])
    requires handler(visited[|visited|-1].0, visited[|visited|-1].1).Some?
    ensures var calls := prior + visited;
      && calls <= Pairs(md, order)
      && calls[|calls|-1] == visited[|visited|-1]
      && AllPass(handler, calls[..|calls|-1])
      && !AllPass(handler, Pairs(md, order))
  {
    var calls := prior + visited;
    PrefixOfPairs(md, order, ki, visited);
    AllPassAppend(handler, prior, visited[..|visited|-1]);
    assert calls[..|calls|-1] == prior + visited[..|visited|-1];
    PrefixErrorSeen(Pairs(md, order), calls, handler);
  }

  /** Finishing key `order[ki]` without an error extends the enumeration by one key. */
  lemma NextKey<E>(md: MD, order: seq<string>, ki: nat, prior: seq<Pair>, visited: seq<Pair>,
                   handler: (string, string) -> Option<E>)
    requires ki < |order| && prior == Pairs(md, order[..ki])
    requires visited == KeyPairs(order[ki], Get(md, order[ki]))
    requires AllPass(handler, prior) && AllPass(handler, visited)
    ensures prior + visited == Pairs(md, order[..ki+1])
    ensures AllPass(handler, prior + visited)
  {
    PairsSnoc(md, order, ki);
    AllPassAppend(handler, prior, visited);
  }

  lemma AllPassAppend<E>(handler: (string, string) -> Option<E>, a: seq<Pair>, b: seq<Pair>)
    requires AllPass(handler, a) && AllPass(handler, b)
    ensures AllPass(handler, a + b)
  {
    forall n | 0 <= n < |a + b| ensures handler((a + b)[n].0, (a + b)[n].1).None? {
      if n < |a| { assert (a + b)[n] == a[n]; } else { assert (a + b)[n] == b[n - |a|]; }
    }
  }

  lemma KeyPairsSnoc(key: string, vals: seq<string>, vi: nat)
    requires vi < |vals|
    ensures KeyPairs(key, vals[..vi+1]) == KeyPairs(key, vals[..vi]) + [(key, vals[vi])]
  {
  }

  lemma PairsSnoc(md: MD, order: seq<string>, ki: nat)
    requires ki < |order|
    ensures Pairs(md, order[..ki+1]) == Pairs(md, order[..ki]) + KeyPairs(order[ki], Get(md, order[ki]))
  {
    assert order[..ki+1][..ki] == order[..ki];
  }

  /** A walk stopped inside key `order[ki]` has produced a prefix of the full enumeration. */
  lemma PrefixOfPairs(md: MD, order: seq<string>, ki: nat, visited: seq<Pair>)
    requires ki < |order| && visited <= KeyPairs(order[ki], Get(md, order[ki]))
    ensures Pairs(md, order[..ki]) + visited <= Pairs(md, order)
  {
    PairsSnoc(md, order, ki);
    PairsPrefix(md, order, ki + 1);
  }

  /** A prefix whose last call errors witnesses an erroring pair of the whole. */
  lemma PrefixErrorSeen<E>(all: seq<Pair>, calls: seq<Pair>, handler: (string, string) -> Option<E>)
    requires calls <= all && |calls| > 0
    requires handler(calls[|calls|-1].0, calls[|calls|-1].1).Some?
    ensures !AllPass(handler, all)
  {
    assert all[|calls|-1] == calls[|calls|-1];
  }
}

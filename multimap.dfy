/** A std::multimap as the model keeps it: the sequence of its (key, value)
    pairs in the order they were inserted. Since C++11 an insert places the
    new pair after every pair with an equal key, so equal_range(k) yields the
    values paired with k oldest first, which is what EqualRange returns. */
module Multimap {

  /** The pairs a loop `for (x : xs) ix.insert(make_pair(x, b))` appends. */
  function Paired<A, B>(xs: seq<A>, b: B): seq<(A, B)>
  {
    if xs == [] then [] else Paired(xs[..|xs| - 1], b) + [(xs[|xs| - 1], b)]
  }

  /** Each element of xs yields exactly one pair, and every pair carries b. */
  lemma {:induction false} PairedCount<A, B>(xs: seq<A>, b: B, a: A, c: B)
    ensures multiset(Paired(xs, b))[(a, c)] == if c == b then multiset(xs)[a] else 0
    decreases |xs|
  {
    if xs != [] {
      var init := xs[..|xs| - 1];
      PairedCount(init, b, a, c);
      assert xs == init + [xs[|xs| - 1]];
    }
  }

  /** The values equal_range(k) visits, in insertion order. */
  function EqualRange<K(==), V(!new)>(ix: seq<(K, V)>, k: K): (r: seq<V>)
    ensures forall v :: multiset(r)[v] == multiset(ix)[(k, v)]
    decreases |ix|
  {
    if ix == [] then []
    else
      var init, last := ix[..|ix| - 1], ix[|ix| - 1];
      assert ix == init + [last];
      EqualRange(init, k) + (if last.0 == k then [last.1] else [])
  }

  /** `for_each` over equal_range(k), pushing each value into a result vector. */
  method CollectEqualRange<K(==), V(!new)>(ix: seq<(K, V)>, k: K) returns (r: seq<V>)
    ensures r == EqualRange(ix, k)
  {
    r := [];
    for i := 0 to |ix|
      invariant r == EqualRange(ix[..i], k)
    {
      assert ix[..i + 1][..i] == ix[..i];
      if ix[i].0 == k {
        r := r + [ix[i].1];
      }
    }
    assert ix[..|ix|] == ix;
  }

  /** The keys of the pairs, one per pair, in insertion order. */
  function KeysOf<K(!new), V(!new)>(ix: seq<(K, V)>): (r: seq<K>)
    ensures forall k :: k in r <==> exists v :: (k, v) in ix
    decreases |ix|
  {
    if ix == [] then []
    else
      var init, last := ix[..|ix| - 1], ix[|ix| - 1];
      assert ix == init + [last];
      assert last == (last.0, last.1);
      KeysOf(init) + [last.0]
  }

  /** ix holds the pairs of base, plus, for each record x of db whose key is
      in done, one pair (a, x) per occurrence of a in attr(db[x]); and
      nothing else. With base empty and done all of db, ix is exactly the
      index that projecting every record of db builds. */
  ghost predicate Rebuilt<A(!new), K(!new), V>(ix: seq<(A, K)>, base: seq<(A, K)>, db: map<K, V>, attr: V -> seq<A>, done: set<K>)
  {
    forall a, x {:trigger Count(ix, a, x)} :: Count(ix, a, x) ==
      Count(base, a, x) + (if x in done && x in db then multiset(attr(db[x]))[a] else 0)
  }

  /** How many times the pair (a, x) occurs in ix. */
  function Count<A(==), K(==)>(ix: seq<(A, K)>, a: A, x: K): nat
  {
    multiset(ix)[(a, x)]
  }

  /** Projecting one more record of db extends the rebuild by that record. */
  lemma RebuiltStep<A(!new), K(!new), V>(ix: seq<(A, K)>, base: seq<(A, K)>, db: map<K, V>, attr: V -> seq<A>, done: set<K>, x: K)
    requires Rebuilt(ix, base, db, attr, done)
    requires x in db && x !in done
    ensures Rebuilt(ix + Paired(attr(db[x]), x), base, db, attr, done + {x})
  {
    forall a, y ensures Count(ix + Paired(attr(db[x]), x), a, y) ==
      Count(base, a, y) + (if y in done + {x} && y in db then multiset(attr(db[y]))[a] else 0)
    {
      PairedCount(attr(db[x]), x, a, y);
      assert Count(ix, a, y) == multiset(ix)[(a, y)];
    }
  }

  /** Storing v under x and projecting it: when x is new the index stays an
      exact projection of the store; when x already held v and v has at
      least one attribute, the index stops being one, the first attribute's
      pair being there twice as often as it should. */
  lemma RebuiltStore<A(!new), K(!new), V>(ix: seq<(A, K)>, db: map<K, V>, attr: V -> seq<A>, x: K, v: V)
    ensures Rebuilt(ix, [], db, attr, db.Keys) && x !in db ==>
      Rebuilt(ix + Paired(attr(v), x), [], db[x := v], attr, db[x := v].Keys)
    ensures Rebuilt(ix, [], db, attr, db.Keys) && x in db && db[x] == v && attr(v) != [] ==>
      !Rebuilt(ix + Paired(attr(v), x), [], db[x := v], attr, db[x := v].Keys)
  {
    if Rebuilt(ix, [], db, attr, db.Keys) && x !in db {
      RebuiltInsert(ix, db, attr, x, v);
    }
    if Rebuilt(ix, [], db, attr, db.Keys) && x in db && db[x] == v && attr(v) != [] {
      assert db[x := v] == db;
      RebuiltDuplicate(ix, db, attr, x);
    }
  }

  lemma RebuiltInsert<A(!new), K(!new), V>(ix: seq<(A, K)>, db: map<K, V>, attr: V -> seq<A>, x: K, v: V)
    requires Rebuilt(ix, [], db, attr, db.Keys)
    requires x !in db
    ensures Rebuilt(ix + Paired(attr(v), x), [], db[x := v], attr, db[x := v].Keys)
  {
    var db' := db[x := v];
    assert Rebuilt(ix, [], db', attr, db.Keys);
    RebuiltStep(ix, [], db', attr, db.Keys, x);
    assert db'.Keys == db.Keys + {x};
  }

  lemma RebuiltDuplicate<A(!new), K(!new), V>(ix: seq<(A, K)>, db: map<K, V>, attr: V -> seq<A>, x: K)
    requires Rebuilt(ix, [], db, attr, db.Keys)
    requires x in db && attr(db[x]) != []
    ensures !Rebuilt(ix + Paired(attr(db[x]), x), [], db, attr, db.Keys)
  {
    var a := attr(db[x])[0];
    PairedCount(attr(db[x]), x, a, x);
    assert multiset(attr(db[x]))[a] > 0;
    assert Count(ix, a, x) == multiset(attr(db[x]))[a];
    assert Count(ix + Paired(attr(db[x]), x), a, x) == 2 * multiset(attr(db[x]))[a];
  }

  /** The pairs of one more element follow those of the ones before it. */
  lemma PairedSnoc<A, B>(xs: seq<A>, x: A, b: B)
    ensures Paired(xs + [x], b) == Paired(xs, b) + [(x, b)]
  {
    assert (xs + [x])[..|xs + [x]| - 1] == xs;
  }

  /** Two indices that both project the same store hold the same pairs, in
      whatever order they were built. */
  lemma RebuiltUnique<A(!new), K(!new), V>(ix1: seq<(A, K)>, ix2: seq<(A, K)>, db: map<K, V>, attr: V -> seq<A>)
    requires Rebuilt(ix1, [], db, attr, db.Keys)
    requires Rebuilt(ix2, [], db, attr, db.Keys)
    ensures multiset(ix1) == multiset(ix2)
  {
    forall p: (A, K) ensures multiset(ix1)[p] == multiset(ix2)[p] {
      assert p == (p.0, p.1);
      assert Count(ix1, p.0, p.1) == Count(ix2, p.0, p.1);
    }
  }
}

/** The distinct-key scan of an ordered multi-container: start at the first
    entry, report its key, then jump to upper_bound(key), the first entry
    whose key sorts strictly after it, until the end is reached. Each
    distinct key is visited once, in ascending order. */
module DistinctScan {
  import opened Wrappers
  import opened StringOrder

  /** x lies strictly after the bound; everything lies after "no bound" (begin()). */
  predicate After(x: string, bound: Option<string>)
  {
    bound.None? || Less(bound.value, x)
  }

  /** The key upper_bound(bound) lands on: the least key of keys strictly
      after bound, or None when that is the end of the container. */
  method UpperBound(keys: seq<string>, bound: Option<string>) returns (r: Option<string>)
    ensures r.None? <==> forall i :: 0 <= i < |keys| ==> !After(keys[i], bound)
    ensures r.Some? ==> r.value in keys && After(r.value, bound)
    ensures r.Some? ==> forall i :: 0 <= i < |keys| && After(keys[i], bound) ==> !Less(keys[i], r.value)
  {
    r := None;
    for i := 0 to |keys|
      invariant r.None? <==> forall j :: 0 <= j < i ==> !After(keys[j], bound)
      invariant r.Some? ==> r.value in keys[..i] && After(r.value, bound)
      invariant r.Some? ==> forall j :: 0 <= j < i && After(keys[j], bound) ==> !Less(keys[j], r.value)
    {
      if After(keys[i], bound) && (r.None? || Less(keys[i], r.value)) {
        ghost var previous := r;
        r := Some(keys[i]);
        forall j | 0 <= j < i && After(keys[j], bound)
          ensures !Less(keys[j], r.value)
        {
          if Less(keys[j], r.value) {
            LessTransitive(keys[j], keys[i], previous.value);
          }
        }
        LessIrreflexive(keys[i]);
      }
    }
  }

  /** The last key reported so far, as the bound of the next step. */
  function LastOf(r: seq<string>): Option<string>
  {
    if r == [] then None else Some(r[|r| - 1])
  }

  /** The keys of the container listed in ascending order, each once. */
  method DistinctAscending(keys: seq<string>) returns (r: seq<string>)
    ensures StrictlyAscending(r)
    ensures forall x :: x in r <==> x in keys
  {
    r := [];
    var next := UpperBound(keys, None);
    while next.Some?
      invariant StrictlyAscending(r)
      invariant forall x :: x in r ==> x in keys
      invariant forall x :: x in keys && x !in r ==> After(x, LastOf(r))
      invariant next.None? ==> forall x :: x in keys ==> !After(x, LastOf(r))
      invariant next.Some? ==> next.value in keys && After(next.value, LastOf(r))
      invariant next.Some? ==> forall x :: x in keys && After(x, LastOf(r)) ==> !Less(x, next.value)
      decreases set x | x in keys && x !in r
    {
      var k := next.value;
      forall i | 0 <= i < |r| ensures Less(r[i], k) {
        if i < |r| - 1 {
          LessTransitive(r[i], r[|r| - 1], k);
        }
      }
      LessIrreflexive(k);
      assert k !in r;
      forall x | x in keys && x !in r + [k] ensures Less(k, x) {
        LessTotal(x, k);
      }
      ghost var before := set x | x in keys && x !in r;
      r := r + [k];
      assert (set x | x in keys && x !in r) == before - {k};
      next := UpperBound(keys, Some(k));
      forall x | x in keys && After(x, LastOf(r)) ensures !Less(x, next.value) || next.None? {
        assert exists i :: 0 <= i < |keys| && keys[i] == x;
      }
    }
  }
}

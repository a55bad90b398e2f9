/** contest_tags_index: a boost ordered_non_unique index of
    contest_tags_index_record keyed by the composite (key, value). The model
    keeps its records in insertion order; what the ordered container adds,
    the distinct-value scan and range queries, is stated over that
    sequence. */
module TagIndex {
  import opened Wrappers
  import opened VoteTypes

  /** The records a loop `for (tag_pair : tags) index.insert({tag_pair.first,
      tag_pair.second, id})` inserts. */
  function TagRecordsOf(tags: seq<(string, string)>, id: Digest): seq<TagRecord>
  {
    if tags == [] then []
    else
      var last := tags[|tags| - 1];
      TagRecordsOf(tags[..|tags| - 1], id) + [TagRecord(last.0, last.1, id)]
  }

  /** Each tag pair yields exactly one record, and every record carries id. */
  lemma {:induction false} TagRecordsCount(tags: seq<(string, string)>, id: Digest, t: TagRecord)
    ensures multiset(TagRecordsOf(tags, id))[t] ==
      if t.contestId == id then multiset(tags)[(t.key, t.value)] else 0
    decreases |tags|
  {
    if tags != [] {
      var init := tags[..|tags| - 1];
      TagRecordsCount(init, id, t);
      assert tags == init + [tags[|tags| - 1]];
    }
  }

  /** ix holds the records of base plus, for each contest x of db whose id is
      in done, one record per tag pair of db[x]; and nothing else. */
  ghost predicate TagsRebuilt(ix: seq<TagRecord>, base: seq<TagRecord>, db: map<Digest, Contest>, done: set<Digest>)
  {
    forall t {:trigger TagCount(ix, t)} :: TagCount(ix, t) == TagCount(base, t) +
      (if t.contestId in done && t.contestId in db then multiset(db[t.contestId].tags)[(t.key, t.value)] else 0)
  }

  /** How many times the record t occurs in ix. */
  function TagCount(ix: seq<TagRecord>, t: TagRecord): nat
  {
    multiset(ix)[t]
  }

  lemma TagsRebuiltStep(ix: seq<TagRecord>, base: seq<TagRecord>, db: map<Digest, Contest>, done: set<Digest>, x: Digest)
    requires TagsRebuilt(ix, base, db, done)
    requires x in db && x !in done
    ensures TagsRebuilt(ix + TagRecordsOf(db[x].tags, x), base, db, done + {x})
  {
    forall t ensures TagCount(ix + TagRecordsOf(db[x].tags, x), t) == TagCount(base, t) +
      (if t.contestId in done + {x} && t.contestId in db then multiset(db[t.contestId].tags)[(t.key, t.value)] else 0)
    {
      TagRecordsCount(db[x].tags, x, t);
      assert TagCount(ix, t) == multiset(ix)[t];
    }
  }

  /** Storing c under x and inserting its tag records: when x is new the
      index stays exact; when x already held c and c has tags, its first tag
      record is then counted twice. */
  lemma TagsRebuiltStore(ix: seq<TagRecord>, db: map<Digest, Contest>, x: Digest, c: Contest)
    ensures TagsRebuilt(ix, [], db, db.Keys) && x !in db ==>
      TagsRebuilt(ix + TagRecordsOf(c.tags, x), [], db[x := c], db[x := c].Keys)
    ensures TagsRebuilt(ix, [], db, db.Keys) && x in db && db[x] == c && c.tags != [] ==>
      !TagsRebuilt(ix + TagRecordsOf(c.tags, x), [], db[x := c], db[x := c].Keys)
  {
    if TagsRebuilt(ix, [], db, db.Keys) && x !in db {
      assert TagsRebuilt(ix, [], db[x := c], db.Keys);
      TagsRebuiltStep(ix, [], db[x := c], db.Keys, x);
      assert db[x := c].Keys == db.Keys + {x};
    }
    if TagsRebuilt(ix, [], db, db.Keys) && x in db && db[x] == c && c.tags != [] {
      assert db[x := c] == db;
      var t := TagRecord(c.tags[0].0, c.tags[0].1, x);
      TagRecordsCount(c.tags, x, t);
      assert multiset(c.tags)[(t.key, t.value)] > 0;
      assert TagCount(ix, t) == multiset(c.tags)[(t.key, t.value)];
      assert TagCount(ix + TagRecordsOf(c.tags, x), t) == 2 * multiset(c.tags)[(t.key, t.value)];
    }
  }

  lemma TagsRebuiltUnique(ix1: seq<TagRecord>, ix2: seq<TagRecord>, db: map<Digest, Contest>)
    requires TagsRebuilt(ix1, [], db, db.Keys)
    requires TagsRebuilt(ix2, [], db, db.Keys)
    ensures multiset(ix1) == multiset(ix2)
  {
    forall t ensures multiset(ix1)[t] == multiset(ix2)[t] {
      assert TagCount(ix1, t) == TagCount(ix2, t);
    }
  }

  /** t lies in equal_range(make_tuple(key)) when value is None, and in
      equal_range(make_tuple(key, value)) otherwise. */
  predicate InRange(t: TagRecord, key: string, value: Option<string>)
  {
    t.key == key && (value.None? || t.value == value.value)
  }

  /** The contest ids of the records in that range, in insertion order. */
  function RangeContests(ix: seq<TagRecord>, key: string, value: Option<string>): seq<Digest>
    decreases |ix|
  {
    if ix == [] then []
    else
      var last := ix[|ix| - 1];
      RangeContests(ix[..|ix| - 1], key, value) + (if InRange(last, key, value) then [last.contestId] else [])
  }

  /** `for_each` over a range, pushing each record's contest id into a result vector. */
  method CollectRange(ix: seq<TagRecord>, key: string, value: Option<string>) returns (r: seq<Digest>)
    ensures r == RangeContests(ix, key, value)
  {
    r := [];
    for i := 0 to |ix|
      invariant r == RangeContests(ix[..i], key, value)
    {
      assert ix[..i + 1][..i] == ix[..i];
      if InRange(ix[i], key, value) {
        r := r + [ix[i].contestId];
      }
    }
    assert ix[..|ix|] == ix;
  }

  lemma RangeContestsAppend(ix: seq<TagRecord>, t: TagRecord, key: string, value: Option<string>)
    ensures RangeContests(ix + [t], key, value) ==
      RangeContests(ix, key, value) + (if InRange(t, key, value) then [t.contestId] else [])
  {
    assert (ix + [t])[..|ix + [t]| - 1] == ix;
  }

  /** A (key, value) range lists a contest once per record (key, value, contest). */
  lemma {:induction false} RangeContestsCount(ix: seq<TagRecord>, key: string, value: string, x: Digest)
    ensures multiset(RangeContests(ix, key, Some(value)))[x] == multiset(ix)[TagRecord(key, value, x)]
    decreases |ix|
  {
    if ix != [] {
      var init, last := ix[..|ix| - 1], ix[|ix| - 1];
      assert ix == init + [last];
      RangeContestsCount(init, key, value, x);
      RangeContestsAppend(init, last, key, Some(value));
    }
  }

  /** A range lists exactly the contests of the records it covers. */
  lemma {:induction false} RangeContestsMembers(ix: seq<TagRecord>, key: string, value: Option<string>, x: Digest)
    ensures x in RangeContests(ix, key, value) <==> exists t :: t in ix && InRange(t, key, value) && t.contestId == x
    decreases |ix|
  {
    if ix != [] {
      var init, last := ix[..|ix| - 1], ix[|ix| - 1];
      assert ix == init + [last];
      RangeContestsMembers(init, key, value, x);
      RangeContestsAppend(init, last, key, value);
      if exists t :: t in ix && InRange(t, key, value) && t.contestId == x {
        var t :| t in ix && InRange(t, key, value) && t.contestId == x;
        assert t in init || t == last;
      }
    }
  }

  /** The values stored under key, one per record, in insertion order. */
  function ValuesUnder(ix: seq<TagRecord>, key: string): seq<string>
    decreases |ix|
  {
    if ix == [] then []
    else
      var last := ix[|ix| - 1];
      ValuesUnder(ix[..|ix| - 1], key) + (if last.key == key then [last.value] else [])
  }

  /** A value is listed under key exactly when some record pairs it with key. */
  lemma {:induction false} ValuesUnderMembers(ix: seq<TagRecord>, key: string, v: string)
    ensures v in ValuesUnder(ix, key) <==> exists t :: t in ix && t.key == key && t.value == v
    decreases |ix|
  {
    if ix != [] {
      var init, last := ix[..|ix| - 1], ix[|ix| - 1];
      assert ix == init + [last];
      ValuesUnderMembers(init, key, v);
      if exists t :: t in ix && t.key == key && t.value == v {
        var t :| t in ix && t.key == key && t.value == v;
        assert t in init || t == last;
      }
    }
  }

  ghost predicate NoRepeats(vs: seq<string>)
  {
    forall i, j :: 0 <= i < j < |vs| ==> vs[i] != vs[j]
  }

  /** The ranges of (key, v) for v in vs, one after the other. */
  function Gather(ix: seq<TagRecord>, key: string, vs: seq<string>): seq<Digest>
    decreases |vs|
  {
    if vs == [] then [] else RangeContests(ix, key, Some(vs[0])) + Gather(ix, key, vs[1..])
  }

  /** One more record adds its contest once to the gathered ranges when its
      value is one of vs, and nothing otherwise. */
  lemma {:induction false} GatherAppend(ix: seq<TagRecord>, t: TagRecord, key: string, vs: seq<string>)
    requires NoRepeats(vs)
    ensures multiset(Gather(ix + [t], key, vs)) ==
      multiset(Gather(ix, key, vs)) + Added(t, key, vs)
    decreases |vs|
  {
    if vs == [] {
      assert Gather(ix + [t], key, vs) == [] && Gather(ix, key, vs) == [];
    } else {
      var rest := vs[1..];
      var ix' := ix + [t];
      HeadNotRepeated(vs);
      GatherAppend(ix, t, key, rest);
      RangeContestsAppend(ix, t, key, Some(vs[0]));
      var head, tail := RangeContests(ix, key, Some(vs[0])), Gather(ix, key, rest);
      assert Gather(ix, key, vs) == head + tail;
      assert Gather(ix', key, vs) == RangeContests(ix', key, Some(vs[0])) + Gather(ix', key, rest);
      assert multiset(RangeContests(ix', key, Some(vs[0]))) == multiset(head) + Added(t, key, [vs[0]]);
      AddedSplits(t, key, vs);
    }
  }

  /** The contest a record t adds to the ranges of vs: once when its value is
      one of them, under key. */
  function Added(t: TagRecord, key: string, vs: seq<string>): multiset<Digest>
  {
    if t.key == key && t.value in vs then multiset{t.contestId} else multiset{}
  }

  lemma AddedSplits(t: TagRecord, key: string, vs: seq<string>)
    requires vs != [] && vs[0] !in vs[1..]
    ensures Added(t, key, vs) == Added(t, key, [vs[0]]) + Added(t, key, vs[1..])
  {
    assert t.value in vs <==> t.value == vs[0] || t.value in vs[1..] by {
      assert vs == [vs[0]] + vs[1..];
    }
  }

  lemma HeadNotRepeated(vs: seq<string>)
    requires NoRepeats(vs) && vs != []
    ensures vs[0] !in vs[1..] && NoRepeats(vs[1..])
    ensures forall v :: v in vs <==> v == vs[0] || v in vs[1..]
  {
    assert vs == [vs[0]] + vs[1..];
    forall i, j | 0 <= i < j < |vs[1..]| ensures vs[1..][i] != vs[1..][j] {
      assert vs[1..][i] == vs[i + 1] && vs[1..][j] == vs[j + 1];
    }
  }

  /** The empty-value sentinel: the key-only range holds exactly the
      contests of the (key, v) ranges taken over the distinct values v stored
      under key, with the same multiplicities. */
  lemma {:induction false} SentinelIsUnion(ix: seq<TagRecord>, key: string, vs: seq<string>)
    requires NoRepeats(vs)
    requires forall v :: v in ValuesUnder(ix, key) ==> v in vs
    ensures multiset(RangeContests(ix, key, None)) == multiset(Gather(ix, key, vs))
    decreases |ix|
  {
    if ix == [] {
      GatherOfEmpty(key, vs);
    } else {
      var init, last := ix[..|ix| - 1], ix[|ix| - 1];
      assert ix == init + [last];
      forall v | v in ValuesUnder(init, key) ensures v in vs {
        ValuesUnderMembers(init, key, v);
        var t :| t in init && t.key == key && t.value == v;
        assert t in ix;
        ValuesUnderMembers(ix, key, v);
      }
      SentinelIsUnion(init, key, vs);
      GatherAppend(init, last, key, vs);
      RangeContestsAppend(init, last, key, None);
      if last.key == key {
        ValuesUnderMembers(ix, key, last.value);
      }
    }
  }

  lemma {:induction false} GatherOfEmpty(key: string, vs: seq<string>)
    ensures Gather([], key, vs) == []
    decreases |vs|
  {
    if vs != [] {
      GatherOfEmpty(key, vs[1..]);
    }
  }
}

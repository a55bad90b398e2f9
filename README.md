# Ballot box

This project models the ballot box of the BitShares voting library
(`bts::vote::ballot_box` and its implementation `detail::ballot_box_impl`).

The box keeps three durable stores, each a key/value database keyed by a digest:

- `decision_db` holds signed voter decisions;
- `ballot_db` holds ballots;
- `contest_db` holds contests.

Beside the stores it keeps five in-memory indices, which it derives from their records:

- the decision index, unique by decision id and searched by voter, by contest and by ballot;
- the write-in index, from a write-in name to a decision;
- the ballot-by-contest index;
- the contest-by-contestant index;
- the contest tag index, holding (key, value, contest) records.

The operations:

- `store_record` writes a record and extends the indices.
- `open` replays every stored record into the indices.
- `clear` empties the stores when the box is open, and empties the indices in any case.
- `close` marks the box closed and clears the indices.
- The queries read the indices.

The model is imperative, as the source is.

- `Detail.BallotBoxImpl` is a class.
  - Its stores are `map` fields.
  - Each `std::multimap` index is a `seq` of (key, value) pairs in insertion order. Since C++11, `equal_range` visits equal keys in that order.
  - The hashed unique decision index is a `map` from id to its index record.
  - Every operation is a method whose contract gives the new state. `open` states it relative to the indices it starts from: their old entries plus the projection of every stored record.
- `Vote.BallotBox` is the public facade, which owns one implementation object.

The central invariant is `Consistent()`: every index holds exactly the projection of its store. It is stated pointwise. For each pair (a, x), the pair occurs as often as `a` occurs in the attribute list of record `x`. The model proves:

- storing a new record keeps the invariant;
- storing again a record that is already there breaks it when the record has at least one write-in name, listed contest, contestant or tag (one with none adds nothing to the multimap indices);
- a closed box has closed stores and empty indices (`ClosedIsEmpty()`), and every operation keeps that;
- so `open` on a closed box establishes the invariant;
- a close followed by an open rebuilds the same indices.

The query results are related to the stores whenever the invariant holds.

The facade's `close` closes only the decision store. This is recorded under Findings.

Modules:

- `Wrappers`: `Option` and `Outcome`. An `Outcome` is `Pass`, or `Fail` with the message of the failed `FC_ASSERT`.
- `VoteTypes`: the records, each reduced to the fields the box reads.
- `StringOrder`: the lexicographic order `std::string` keys sort by.
- `DistinctScan`: the `upper_bound` stepping loop that lists each distinct key once.
- `Multimap`: multimap ranges, and the "index is the projection of a store" predicate.
- `TagIndex`: the composite-key tag index and its key-only range.
- `Detail`: `ballot_box_impl`.
- `Vote`: the `ballot_box` facade.

## Model

| member | source | states |
|---|---|---|
| Multimap.PairedCount | libraries/vote/ballot_box.cpp:114-115 | The pairs an update_index loop inserts hold (a, id) exactly as often as a occurs in the record's list, and no pair with another id. |
| Multimap.EqualRange | libraries/vote/ballot_box.cpp:231-239 | The values equal_range(k) yields occur as often as the pair (k, v) does in the multimap. |
| Multimap.CollectEqualRange | libraries/vote/ballot_box.cpp:233-237 | Pushing each value of the equal range into a vector yields exactly the equal range, in order. |
| Multimap.KeysOf | libraries/vote/ballot_box.cpp:225-228 | A key is listed exactly when some pair of the multimap carries it. |
| Multimap.RebuiltStep | libraries/vote/ballot_box.cpp:154-164 | Inserting the pairs of one more stored record extends the projection to that record. |
| Multimap.RebuiltStore | libraries/vote/ballot_box.cpp:130-148 | Storing and indexing a record under a new id keeps a multimap index an exact projection of its store; re-storing a record already there with a non-empty list breaks it. |
| Multimap.RebuiltUnique | libraries/vote/ballot_box.cpp:150-197 | Two multimap indices that both project the same store hold the same pairs. |
| StringOrder.LessIrreflexive | libraries/vote/ballot_box.cpp:225-227 | No key sorts before itself under the string order the multimap keys use. |
| StringOrder.LessTransitive | libraries/vote/ballot_box.cpp:225-227 | The string key order is transitive. |
| StringOrder.LessTotal | libraries/vote/ballot_box.cpp:225-227 | Any two distinct keys are ordered one way or the other. |
| StringOrder.AscendingHasNoRepeats | libraries/vote/ballot_box.cpp:222-230 | A strictly ascending list of keys holds no key twice. |
| DistinctScan.UpperBound | libraries/vote/ballot_box.cpp:227 | upper_bound(k) lands on the least key strictly after k, or on the end exactly when no key is after k. |
| DistinctScan.DistinctAscending | libraries/vote/ballot_box.cpp:225-228 | The upper_bound stepping loop lists each key of the container once, in strictly ascending order, and nothing else. |
| TagIndex.TagRecordsCount | libraries/vote/ballot_box.cpp:126-127 | A contest's tag loop inserts the record (k, v, id) once per occurrence of (k, v) among its tags, and no record for another id. |
| TagIndex.TagsRebuiltStep | libraries/vote/ballot_box.cpp:162-164 | Inserting one more stored contest's tag records extends the tag projection to that contest. |
| TagIndex.TagsRebuiltStore | libraries/vote/ballot_box.cpp:143-148 | Storing a contest under a new id keeps the tag index exact; re-storing one already there with tags breaks it. |
| TagIndex.TagsRebuiltUnique | libraries/vote/ballot_box.cpp:150-197 | Two tag indices projecting the same store hold the same records. |
| TagIndex.CollectRange | libraries/vote/ballot_box.cpp:263-268 | The for_each over the (key, value) range, or over the key-only range, collects exactly the contests of the records in that range. |
| TagIndex.RangeContestsAppend | libraries/vote/ballot_box.cpp:127 | A record inserted last extends a range by its contest exactly when it lies in that range. |
| TagIndex.RangeContestsCount | libraries/vote/ballot_box.cpp:263 | The (key, value) range lists a contest once per record (key, value, contest). |
| TagIndex.RangeContestsMembers | libraries/vote/ballot_box.cpp:263-265 | A range lists a contest exactly when some record in the range belongs to it. |
| TagIndex.ValuesUnderMembers | libraries/vote/ballot_box.cpp:254-257 | A value is listed under key exactly when some tag record has that key and value. |
| TagIndex.GatherAppend | libraries/vote/ballot_box.cpp:260-270 | Adding a record adds its contest to the union of the per-value ranges exactly when its key matches and its value is among those queried. |
| TagIndex.AddedSplits | libraries/vote/ballot_box.cpp:260-270 | Over distinct values, what a record adds to the union splits into the first value's part and the rest. |
| TagIndex.HeadNotRepeated | libraries/vote/ballot_box.cpp:251-259 | A list without repeats has its head nowhere in its tail, and its tail has no repeats. |
| TagIndex.SentinelIsUnion | libraries/vote/ballot_box.cpp:264-265 | The key-only range holds, up to order, the union of the (key, v) ranges over any repeat-free list covering the values under key. |
| TagIndex.GatherOfEmpty | libraries/vote/ballot_box.cpp:260-270 | An empty tag index yields no contest for any list of values. |
| Detail.BallotBoxImpl.constructor | libraries/vote/ballot_box.cpp:51-109 | A new implementation is closed, with its stores closed and its indices empty, and sees the stores' records. |
| Detail.BallotBoxImpl.IndexRecordFor | libraries/vote/ballot_box.cpp:37-43 | The index record of a stored decision carries its id and write-in names, and is found under the decision's own voter, contest and ballot in each view. |
| Detail.BallotBoxImpl.IndexedInsert | libraries/vote/ballot_box.cpp:113 | Projecting one more decision under a new id adds exactly its index record. |
| Detail.BallotBoxImpl.IndexedReplayStep | libraries/vote/ballot_box.cpp:155-156 | One step of the decision replay leaves the unique index as if that id had been replayed, and an id already held keeps its record. |
| Detail.BallotBoxImpl.IndexDecision | libraries/vote/ballot_box.cpp:111-116 | update_index for a decision: the unique index gains the record unless the id is already held; the write-in index gains one (name, id) pair per write-in name, in order. |
| Detail.BallotBoxImpl.IndexBallot | libraries/vote/ballot_box.cpp:117-121 | update_index for a ballot appends one (contest, id) pair per listed contest. |
| Detail.BallotBoxImpl.IndexContest | libraries/vote/ballot_box.cpp:122-128 | update_index for a contest appends one (name, id) pair per contestant, then one (key, value, id) record per tag. |
| Detail.BallotBoxImpl.StoreDecision | libraries/vote/ballot_box.cpp:130-136 | Requires decision_db open. The decision is stored under its digest and indexed; decision consistency is kept for a new digest and lost when an identical decision with write-ins is stored again. |
| Detail.BallotBoxImpl.StoreBallot | libraries/vote/ballot_box.cpp:137-142 | Requires ballot_db open. The ballot is stored under its id and indexed; ballot consistency is kept for a new id and lost when the same ballot with contests is stored again. |
| Detail.BallotBoxImpl.StoreContest | libraries/vote/ballot_box.cpp:143-148 | Requires contest_db open. The contest is stored under its id and indexed; contest consistency is kept for a new id and lost when the same contest with tags is stored again. |
| Detail.BallotBoxImpl.ReplayDecisions | libraries/vote/ballot_box.cpp:155-156 | Replaying decision_db adds every stored decision's projection to the indices; from empty indices they are exact. |
| Detail.BallotBoxImpl.ReplayBallots | libraries/vote/ballot_box.cpp:159-160 | Replaying ballot_db adds every stored ballot's pairs; from an empty index it is exact. |
| Detail.BallotBoxImpl.ReplayContests | libraries/vote/ballot_box.cpp:163-164 | Replaying contest_db adds every stored contest's pairs and tag records; from empty indices they are exact. |
| Detail.BallotBoxImpl.ReplayAll | libraries/vote/ballot_box.cpp:154-164 | The three replays together add the projection of every stored record to the old entries of each index; started from empty indices, they leave every index exact. |
| Detail.BallotBoxImpl.Open | libraries/vote/ballot_box.cpp:150-167 | Opening an open box fails with the source's message and changes nothing. Otherwise the stores are opened and kept, the box is marked open, and each index becomes its old entries plus the projection of its store; opening a closed box therefore leaves every index exact. |
| Detail.BallotBoxImpl.Clear | libraries/vote/ballot_box.cpp:168-185 | Requires an open box's three stores to be open. When open, every store is emptied; when closed, the stores are untouched; all indices are emptied in either case, and an open box ends consistent. |
| Detail.BallotBoxImpl.Close | libraries/vote/ballot_box.cpp:186-197 | Closing a closed box fails with the source's message and changes nothing; otherwise every store is closed with its records kept, and the indices are emptied. |
| Detail.BallotBoxImpl.GetDecisionsByKey | libraries/vote/ballot_box.cpp:199-208 | Returns each indexed decision matching the key once; with a consistent box, exactly the stored decisions whose projection matches. |
| Detail.BallotBoxImpl.GetDecisionsByVoter | libraries/vote/ballot_box.cpp:209-212 | Returns each decision of the voter once; with a consistent box, exactly the stored decisions signed by that voter. |
| Detail.BallotBoxImpl.GetDecisionsByContest | libraries/vote/ballot_box.cpp:213-216 | Returns each decision on the contest once; with a consistent box, exactly the stored decisions on that contest. |
| Detail.BallotBoxImpl.GetDecisionsByBallot | libraries/vote/ballot_box.cpp:217-220 | Returns each decision on the ballot once; with a consistent box, exactly the stored decisions on that ballot. |
| Detail.BallotBoxImpl.GetAllWriteIns | libraries/vote/ballot_box.cpp:222-230 | Returns the write-in names in strictly ascending order; each is keyed in the index, and with a consistent box each is named by some stored decision. |
| Detail.BallotBoxImpl.GetDecisionsWithWriteIn | libraries/vote/ballot_box.cpp:231-239 | Returns the equal range of the name; with a consistent box, each decision as often as it lists the name. |
| Detail.BallotBoxImpl.GetBallotsByContest | libraries/vote/ballot_box.cpp:241-249 | Returns the equal range of the contest; with a consistent box, each ballot as often as it lists the contest. |
| Detail.BallotBoxImpl.GetValuesByTag | libraries/vote/ballot_box.cpp:251-259 | Returns the values under key in strictly ascending order, each present in the index; with a consistent box, exactly the values some stored contest tags under key. |
| Detail.BallotBoxImpl.GetContestsByTags | libraries/vote/ballot_box.cpp:260-270 | For a non-empty value, each contest as often as it carries the tag (key, value); for an empty value, exactly the contests with some tag under key. |
| Detail.BallotBoxImpl.GetContestsByContestant | libraries/vote/ballot_box.cpp:271-279 | Returns the equal range of the name; with a consistent box, each contest as often as a contestant of it has that name. |
| Detail.WriteInKeysMeaning | libraries/vote/ballot_box.cpp:222-230 | With an exact write-in index, a name is keyed in it exactly when some stored decision lists it. |
| Detail.TagValuesMeaning | libraries/vote/ballot_box.cpp:251-259 | With an exact tag index, a value lies under key exactly when some stored contest carries (key, value). |
| Detail.TagKeyMeaning | libraries/vote/ballot_box.cpp:264-265 | With an exact tag index, a contest has a record under key exactly when it is stored and has a tag under key. |
| Detail.SentinelQueryIsUnion | libraries/vote/ballot_box.cpp:251-270 | The empty-value query returns, up to order, the union of the (key, v) ranges over the values get_values_by_tag lists, which are exactly those under key. For a stored value v that is empty, the (key, v) query itself is the key-only range again, so a contest tagged (key, "") cannot be looked up on its own. |
| Detail.ReopenRebuildsSameIndices | libraries/vote/ballot_box.cpp:150-197 | Closing and reopening a consistent open box keeps the stores and rebuilds the same indices, up to order. |
| Vote.BallotBox.constructor | libraries/vote/ballot_box.cpp:283-286 | A new box owns a fresh, closed implementation with its stores closed and its indices empty, over the given stores. |
| Vote.BallotBox.IsOpen | libraries/vote/ballot_box.cpp:293-296 | Reports the implementation's databases_open flag; the contracts of Open and CloseThenOpenIsRefused are stated through it. |
| Vote.BallotBox.Open | libraries/vote/ballot_box.cpp:288-291 | Forwards open: refused with the source's message when open; otherwise opens the box and its three stores, extends each index by the projection of its store, and leaves a closed box consistent. |
| Vote.BallotBox.Clear | libraries/vote/ballot_box.cpp:298-301 | Forwards clear, under the same requirement that an open box has its three stores open: the stores are emptied when open and kept when closed; the indices are emptied, an open box ends consistent, and the open flags are untouched. |
| Vote.BallotBox.Close | libraries/vote/ballot_box.cpp:303-306 | As written: closes decision_db only. |
| Vote.BallotBox.StoreNewDecision | libraries/vote/ballot_box.cpp:308-311 | Requires decision_db open. The decision can be fetched back under its digest and no other id changes; the unique index gains the decision's record only when its digest is new, and keeps its entry otherwise; a new decision keeps the decision indices exact. |
| Vote.BallotBox.GetDecision | libraries/vote/ballot_box.cpp:313-316 | Returns the stored decision, or None exactly when fetch has nothing under that id. |
| Vote.BallotBox.GetDecisionsByVoter | libraries/vote/ballot_box.cpp:318-321 | With a consistent box, exactly the stored decisions of the voter, each once. |
| Vote.BallotBox.GetDecisionsByContest | libraries/vote/ballot_box.cpp:323-326 | With a consistent box, exactly the stored decisions on the contest, each once. |
| Vote.BallotBox.GetDecisionsByBallot | libraries/vote/ballot_box.cpp:328-331 | With a consistent box, exactly the stored decisions on the ballot, each once. |
| Vote.BallotBox.GetAllWriteIns | libraries/vote/ballot_box.cpp:333-336 | Ascending write-in names, exactly the keys of the write-in index in any state; with a consistent box, exactly those some stored decision lists. |
| Vote.BallotBox.GetDecisionsWithWriteIn | libraries/vote/ballot_box.cpp:338-341 | With a consistent box, each stored decision as often as it lists the name. |
| Vote.BallotBox.GetBallot | libraries/vote/ballot_box.cpp:343-346 | Returns the stored ballot, or None exactly when fetch has nothing under that id. |
| Vote.BallotBox.StoreBallot | libraries/vote/ballot_box.cpp:348-351 | Requires ballot_db open. The ballot can be fetched back under its id, no other id changes, and a new ballot keeps the ballot index exact. |
| Vote.BallotBox.GetBallotsByContest | libraries/vote/ballot_box.cpp:353-356 | With a consistent box, each stored ballot as often as it lists the contest. |
| Vote.BallotBox.GetContest | libraries/vote/ballot_box.cpp:358-361 | Returns the stored contest, or None exactly when fetch has nothing under that id. |
| Vote.BallotBox.StoreContest | libraries/vote/ballot_box.cpp:363-366 | Requires contest_db open. The contest can be fetched back under its id, no other id changes, and a new contest keeps the contest indices exact. |
| Vote.BallotBox.GetValuesByTag | libraries/vote/ballot_box.cpp:368-371 | Ascending values, exactly those some tag record holds under key in any state; with a consistent box, exactly those some stored contest tags under key. |
| Vote.BallotBox.GetContestsByTags | libraries/vote/ballot_box.cpp:373-376 | In any state, the contests of the (key, value) range, or of the key-only range for an empty value, one per tag record; with a consistent box, the contests carrying (key, value) by multiplicity, or those with any tag under key for an empty value. |
| Vote.BallotBox.GetContestsByContestant | libraries/vote/ballot_box.cpp:378-381 | With a consistent box, each stored contest as often as a contestant of it has the name. |
| Vote.CloseThenOpenIsRefused | libraries/vote/ballot_box.cpp:288-306 | After the facade's close the box still reports open, decision_db is closed, the ballot and contest stores keep their open flags, and the stores and all five indices are unchanged, so a following open is refused. |

## Left out

- Level database I/O is not modelled. The stores are maps. The data directory and the store paths under it are not represented: a store's contents while closed are the records it held.
- `level_map::fetch` throwing on a missing key is modelled as `None`.
- Operations on a closed `level_map` are left out. level_map is not part of this model, so what it does on a closed database is unknown here. The store methods therefore require their store to be open, and clear requires an open box to have all three stores open (so clear after the facade's close is not modelled); the facade's `get_*` reads are modelled on the map whether or not the store is open.
- The digest of a decision, the voter address recovered from its signature, `ballot::id()` and `contest::id()` are given functions. Hashing and signature recovery are not part of this model.
- `decision_storage_record`'s converting constructor (line 29) discards its argument. The model instead takes the stored record to be the decision itself, and the index record to be a function of the id and that decision. The serialized layout (`FC_REFLECT_DERIVED`, lines 385-387) is left out with it.
- Records keep only the fields the box reads. Signatures, payloads and the other fields are opaque.
- Decision queries search a hashed index, whose iteration order is unspecified. They are stated as sets of ids, each returned once.
- The tag index's iteration order within a key is not modelled. Tag queries are stated as multisets.
- Detail.BallotBoxImpl.Open: the source's replay walks each store in key order; the model takes the ids in any order. So the order of the multimap entries after open, and of equal_range results over them, is not fixed. Every fact about the indices after open is stated up to order (as multiset counts).
- Detail.BallotBoxImpl.ReplayAll: open marks the three stores open one at a time, each before its own replay. The model marks all three before replaying, because nothing in the replay reads those flags.
- Vote.BallotBox.Close: stated as written. It only closes decision_db; the corrected behaviour is Detail.BallotBoxImpl.Close.
- Detail.BallotBoxImpl.StoreDecision: storing a different decision under an id already in use (a digest collision) is stated only through the new state, not through consistency.
- Exceptions thrown by level_map partway through an operation are not modelled.

## Findings

| source | as written | input that shows it | evidently intended | confidence | as-written member | corrected member |
|---|---|---|---|---|---|---|
| libraries/vote/ballot_box.cpp:303-306 | `ballot_box::close` only closes `decision_db`. It leaves `databases_open` set, the ballot and contest stores open and the indices filled. | Open a box, call `close()`, then `open(dir)`: `is_open()` is still true, and the open is refused with "Refusing to open already-opened ballot box." | Forward to `ballot_box_impl::close()`, which closes all three stores, clears the flag and empties the indices, so a later open rebuilds the same indices. | high, not executed | Vote.CloseThenOpenIsRefused | Detail.ReopenRebuildsSameIndices |

/** detail::ballot_box_impl: three durable stores of decisions, ballots and
    contests, and five in-memory indices derived from them.

    The stores are the records held under the box's data directory; they
    keep their contents while the box is closed. The indices are rebuilt
    from the stores on open, extended by every store operation, and emptied
    by clear and close. */
module Detail {
  import opened Wrappers
  import opened StringOrder
  import opened DistinctScan
  import opened VoteTypes
  import opened Multimap
  import opened TagIndex

  /** The attribute each multimap is keyed by, per record. */
  function WriteIns(d: Decision): seq<string> { d.writeInNames }

  function ContestsOn(b: Ballot): seq<Digest> { b.contests }

  function ContestantNames(c: Contest): seq<string>
  {
    NamesOf(c.contestants)
  }

  function NamesOf(cs: seq<Contestant>): seq<string>
  {
    seq(|cs|, i requires 0 <= i < |cs| => cs[i].name)
  }

  lemma NamesOfAppend(cs: seq<Contestant>, i: nat)
    requires i < |cs|
    ensures NamesOf(cs[..i + 1]) == NamesOf(cs[..i]) + [cs[i].name]
  {
    assert cs[..i + 1][..i] == cs[..i];
  }

  lemma TagRecordsOfAppend(tags: seq<(string, string)>, i: nat, id: Digest)
    requires i < |tags|
    ensures TagRecordsOf(tags[..i + 1], id) == TagRecordsOf(tags[..i], id) + [TagRecord(tags[i].0, tags[i].1, id)]
  {
    assert tags[..i + 1][..i] == tags[..i];
  }

  /** Taking id out of the pending keys adds it to those replayed. */
  lemma DoneGrows<K>(all: set<K>, pending: set<K>, id: K)
    requires id in pending && pending <= all
    ensures all - pending + {id} == all - (pending - {id})
  {
  }

  const AlreadyOpen := "Refusing to open already-opened ballot box."
  const NotOpen := "Cannot close unopened ballot box."

  class BallotBoxImpl {
    /** digest(), the voter address recovered from the signature, ballot::id()
        and contest::id(): given functions, never computed here. */
    const decisionDigest: Decision -> Digest
    const voterOf: Decision -> Address
    const ballotIdOf: Ballot -> Digest
    const contestIdOf: Contest -> Digest

    var decisionDb: map<Digest, Decision>
    /** Unique by id; the voter, contest and ballot views are searched over it. */
    var decisionIndex: map<Digest, DecisionIndexRecord>
    var writeInIndex: seq<(string, Digest)>

    var ballotDb: map<Digest, Ballot>
    var ballotByContestIndex: seq<(Digest, Digest)>

    var contestDb: map<Digest, Contest>
    var contestTagsIndex: seq<TagRecord>
    var contestByContestantIndex: seq<(string, Digest)>

    var databasesOpen: bool
    /** Whether each level_map is open. */
    var decisionDbOpen: bool
    var ballotDbOpen: bool
    var contestDbOpen: bool

    /** A closed box over a data directory holding the given records. */
    constructor (decisionDigest: Decision -> Digest, voterOf: Decision -> Address,
                 ballotIdOf: Ballot -> Digest, contestIdOf: Contest -> Digest,
                 decisions: map<Digest, Decision>, ballots: map<Digest, Ballot>, contests: map<Digest, Contest>)
      ensures this.decisionDigest == decisionDigest && this.voterOf == voterOf
      ensures this.ballotIdOf == ballotIdOf && this.contestIdOf == contestIdOf
      ensures decisionDb == decisions && ballotDb == ballots && contestDb == contests
      ensures IndicesEmpty()
      ensures !databasesOpen && !decisionDbOpen && !ballotDbOpen && !contestDbOpen
      ensures ClosedIsEmpty()
    {
      this.decisionDigest, this.voterOf := decisionDigest, voterOf;
      this.ballotIdOf, this.contestIdOf := ballotIdOf, contestIdOf;
      decisionDb, ballotDb, contestDb := decisions, ballots, contests;
      decisionIndex, writeInIndex := map[], [];
      ballotByContestIndex := [];
      contestTagsIndex, contestByContestantIndex := [], [];
      databasesOpen := false;
      decisionDbOpen, ballotDbOpen, contestDbOpen := false, false, false;
    }

    /** decision_index_record(id, s): the projection of a stored decision. */
    function IndexRecordFor(id: Digest, d: Decision): (r: DecisionIndexRecord)
      ensures r.id == id && r.writeInNames == WriteIns(d)
      ensures Matches(r, ByVoter(voterOf(d))) && Matches(r, ByContest(d.contestId)) && Matches(r, ByBallot(d.ballotId))
    {
      DecisionIndexRecord(id, voterOf(d), d.contestId, d.writeInNames, d.ballotId)
    }

    /** The decision index that projecting every decision of db builds. */
    function IndexedDecisions(db: map<Digest, Decision>): map<Digest, DecisionIndexRecord>
    {
      map id | id in db :: IndexRecordFor(id, db[id])
    }

    /** Projecting one more decision, under an id db did not hold, adds
        exactly its record. */
    lemma IndexedInsert(db: map<Digest, Decision>, id: Digest, d: Decision)
      requires id !in db
      ensures id !in IndexedDecisions(db)
      ensures IndexedDecisions(db)[id := IndexRecordFor(id, d)] == IndexedDecisions(db[id := d])
    {
    }

    /** One step of the replay of decision_db: update_index on a pending id
        leaves the index as if that id had been replayed too; an id the index
        already held keeps its earlier record. */
    lemma IndexedReplayStep(db: map<Digest, Decision>, pending: set<Digest>, id: Digest, base: map<Digest, DecisionIndexRecord>)
      requires id in pending && pending <= db.Keys
      ensures var before := IndexedDecisions(db - pending) + base;
        (if id in before then before else before[id := IndexRecordFor(id, db[id])])
          == IndexedDecisions(db - (pending - {id})) + base
    {
    }

    ghost predicate IndicesEmpty()
      reads this`decisionIndex, this`writeInIndex, this`ballotByContestIndex
      reads this`contestTagsIndex, this`contestByContestantIndex
    {
      && decisionIndex == map[]
      && writeInIndex == []
      && ballotByContestIndex == []
      && contestTagsIndex == []
      && contestByContestantIndex == []
    }

    /** A closed box has its three stores closed and its indices empty:
        only open fills the indices of a closed box, and close empties them
        again. Every operation keeps this. */
    ghost predicate ClosedIsEmpty()
      reads this`databasesOpen, this`decisionDbOpen, this`ballotDbOpen, this`contestDbOpen
      reads this`decisionIndex, this`writeInIndex, this`ballotByContestIndex
      reads this`contestTagsIndex, this`contestByContestantIndex
    {
      !databasesOpen ==> !decisionDbOpen && !ballotDbOpen && !contestDbOpen && IndicesEmpty()
    }

    /** Every index is exactly the projection of its store: one decision
        record per stored decision, one pair per write-in name, listed
        contest and contestant, one record per tag pair, and nothing else. */
    ghost predicate Consistent()
      reads this`decisionDb, this`decisionIndex, this`writeInIndex
      reads this`ballotDb, this`ballotByContestIndex
      reads this`contestDb, this`contestByContestantIndex, this`contestTagsIndex
    {
      DecisionsConsistent() && BallotsConsistent() && ContestsConsistent()
    }

    ghost predicate DecisionsConsistent()
      reads this`decisionDb, this`decisionIndex, this`writeInIndex
    {
      && decisionIndex == IndexedDecisions(decisionDb)
      && Rebuilt(writeInIndex, [], decisionDb, WriteIns, decisionDb.Keys)
    }

    ghost predicate BallotsConsistent()
      reads this`ballotDb, this`ballotByContestIndex
    {
      Rebuilt(ballotByContestIndex, [], ballotDb, ContestsOn, ballotDb.Keys)
    }

    ghost predicate ContestsConsistent()
      reads this`contestDb, this`contestByContestantIndex, this`contestTagsIndex
    {
      && Rebuilt(contestByContestantIndex, [], contestDb, ContestantNames, contestDb.Keys)
      && TagsRebuilt(contestTagsIndex, [], contestDb, contestDb.Keys)
    }

    /** update_index for a decision. The unique id index ignores a record
        whose id it already holds; the write-in pairs are added regardless. */
    method IndexDecision(id: Digest, d: Decision)
      modifies this`decisionIndex, this`writeInIndex
      ensures decisionIndex ==
        if id in old(decisionIndex) then old(decisionIndex) else old(decisionIndex)[id := IndexRecordFor(id, d)]
      ensures writeInIndex == old(writeInIndex) + Paired(d.writeInNames, id)
    {
      if id !in decisionIndex {
        decisionIndex := decisionIndex[id := IndexRecordFor(id, d)];
      }
      for i := 0 to |d.writeInNames|
        invariant writeInIndex == old(writeInIndex) + Paired(d.writeInNames[..i], id)
        modifies this`writeInIndex
      {
        PairedSnoc(d.writeInNames[..i], d.writeInNames[i], id);
        assert d.writeInNames[..i + 1] == d.writeInNames[..i] + [d.writeInNames[i]];
        writeInIndex := writeInIndex + [(d.writeInNames[i], id)];
      }
      assert d.writeInNames[..|d.writeInNames|] == d.writeInNames;
    }

    /** update_index for a ballot: one (contest, ballot) pair per listed contest. */
    method IndexBallot(id: Digest, b: Ballot)
      modifies this`ballotByContestIndex
      ensures ballotByContestIndex == old(ballotByContestIndex) + Paired(b.contests, id)
    {
      for i := 0 to |b.contests|
        invariant ballotByContestIndex == old(ballotByContestIndex) + Paired(b.contests[..i], id)
      {
        PairedSnoc(b.contests[..i], b.contests[i], id);
        assert b.contests[..i + 1] == b.contests[..i] + [b.contests[i]];
        ballotByContestIndex := ballotByContestIndex + [(b.contests[i], id)];
      }
      assert b.contests[..|b.contests|] == b.contests;
    }

    /** update_index for a contest: one (name, contest) pair per contestant,
        then one (key, value, contest) record per tag pair. */
    method IndexContest(id: Digest, c: Contest)
      modifies this`contestByContestantIndex, this`contestTagsIndex
      ensures contestByContestantIndex == old(contestByContestantIndex) + Paired(ContestantNames(c), id)
      ensures contestTagsIndex == old(contestTagsIndex) + TagRecordsOf(c.tags, id)
    {
      for i := 0 to |c.contestants|
        invariant contestByContestantIndex == old(contestByContestantIndex) + Paired(NamesOf(c.contestants[..i]), id)
        modifies this`contestByContestantIndex
      {
        NamesOfAppend(c.contestants, i);
        PairedSnoc(NamesOf(c.contestants[..i]), c.contestants[i].name, id);
        contestByContestantIndex := contestByContestantIndex + [(c.contestants[i].name, id)];
      }
      assert c.contestants[..|c.contestants|] == c.contestants;
      for i := 0 to |c.tags|
        invariant contestTagsIndex == old(contestTagsIndex) + TagRecordsOf(c.tags[..i], id)
        modifies this`contestTagsIndex
      {
        TagRecordsOfAppend(c.tags, i, id);
        contestTagsIndex := contestTagsIndex + [TagRecord(c.tags[i].0, c.tags[i].1, id)];
      }
      assert c.tags[..|c.tags|] == c.tags;
    }

    /** store_record for a decision: written to decision_db under its digest,
        then indexed. Storing a new decision keeps the indices exact;
        storing again a decision that is already there, with write-in names,
        duplicates its write-in pairs. */
    method StoreDecision(decision: Decision)
      requires decisionDbOpen
      modifies this`decisionDb, this`decisionIndex, this`writeInIndex
      ensures old(ClosedIsEmpty()) ==> ClosedIsEmpty()
      ensures var id := decisionDigest(decision);
        && decisionDb == old(decisionDb)[id := decision]
        && decisionIndex == (if id in old(decisionIndex) then old(decisionIndex)
                             else old(decisionIndex)[id := IndexRecordFor(id, decision)])
        && writeInIndex == old(writeInIndex) + Paired(decision.writeInNames, id)
      ensures old(DecisionsConsistent()) && decisionDigest(decision) !in old(decisionDb) ==> DecisionsConsistent()
      ensures var id := decisionDigest(decision);
        (old(DecisionsConsistent()) && id in old(decisionDb) && old(decisionDb)[id] == decision
          && decision.writeInNames != []) ==> !DecisionsConsistent()
    {
      var id := decisionDigest(decision);
      decisionDb := decisionDb[id := decision];
      IndexDecision(id, decision);
      if id !in old(decisionDb) {
        IndexedInsert(old(decisionDb), id, decision);
      }
      RebuiltStore(old(writeInIndex), old(decisionDb), WriteIns, id, decision);
    }

    /** store_record for a ballot. */
    method StoreBallot(ballot: Ballot)
      requires ballotDbOpen
      modifies this`ballotDb, this`ballotByContestIndex
      ensures old(ClosedIsEmpty()) ==> ClosedIsEmpty()
      ensures var id := ballotIdOf(ballot);
        && ballotDb == old(ballotDb)[id := ballot]
        && ballotByContestIndex == old(ballotByContestIndex) + Paired(ballot.contests, id)
      ensures old(BallotsConsistent()) && ballotIdOf(ballot) !in old(ballotDb) ==> BallotsConsistent()
      ensures var id := ballotIdOf(ballot);
        (old(BallotsConsistent()) && id in old(ballotDb) && old(ballotDb)[id] == ballot
          && ballot.contests != []) ==> !BallotsConsistent()
    {
      var id := ballotIdOf(ballot);
      ballotDb := ballotDb[id := ballot];
      IndexBallot(id, ballot);
      RebuiltStore(old(ballotByContestIndex), old(ballotDb), ContestsOn, id, ballot);
    }

    /** store_record for a contest. */
    method StoreContest(contest: Contest)
      requires contestDbOpen
      modifies this`contestDb, this`contestByContestantIndex, this`contestTagsIndex
      ensures old(ClosedIsEmpty()) ==> ClosedIsEmpty()
      ensures var id := contestIdOf(contest);
        && contestDb == old(contestDb)[id := contest]
        && contestByContestantIndex == old(contestByContestantIndex) + Paired(ContestantNames(contest), id)
        && contestTagsIndex == old(contestTagsIndex) + TagRecordsOf(contest.tags, id)
      ensures old(ContestsConsistent()) && contestIdOf(contest) !in old(contestDb) ==> ContestsConsistent()
      ensures var id := contestIdOf(contest);
        (old(ContestsConsistent()) && id in old(contestDb) && old(contestDb)[id] == contest
          && contest.tags != []) ==> !ContestsConsistent()
    {
      var id := contestIdOf(contest);
      contestDb := contestDb[id := contest];
      IndexContest(id, contest);
      RebuiltStore(old(contestByContestantIndex), old(contestDb), ContestantNames, id, contest);
      TagsRebuiltStore(old(contestTagsIndex), old(contestDb), id, contest);
    }

    /** The loop of open over decision_db: every stored decision is passed
        to update_index, in any order. Ids the unique index already held keep
        their record. */
    method ReplayDecisions()
      modifies this`decisionIndex, this`writeInIndex
      ensures decisionIndex == IndexedDecisions(decisionDb) + old(decisionIndex)
      ensures Rebuilt(writeInIndex, old(writeInIndex), decisionDb, WriteIns, decisionDb.Keys)
      ensures old(decisionIndex) == map[] && old(writeInIndex) == [] ==> DecisionsConsistent()
    {
      var pending := decisionDb.Keys;
      while pending != {}
        invariant pending <= decisionDb.Keys
        invariant decisionIndex == IndexedDecisions(decisionDb - pending) + old(decisionIndex)
        invariant Rebuilt(writeInIndex, old(writeInIndex), decisionDb, WriteIns, decisionDb.Keys - pending)
        decreases pending
      {
        var id :| id in pending;
        DoneGrows(decisionDb.Keys, pending, id);
        RebuiltStep(writeInIndex, old(writeInIndex), decisionDb, WriteIns, decisionDb.Keys - pending, id);
        IndexedReplayStep(decisionDb, pending, id, old(decisionIndex));
        IndexDecision(id, decisionDb[id]);
        pending := pending - {id};
      }
      assert decisionDb - {} == decisionDb;
      assert IndexedDecisions(decisionDb) + map[] == IndexedDecisions(decisionDb);
    }

    /** The loop of open over ballot_db. */
    method ReplayBallots()
      modifies this`ballotByContestIndex
      ensures Rebuilt(ballotByContestIndex, old(ballotByContestIndex), ballotDb, ContestsOn, ballotDb.Keys)
      ensures old(ballotByContestIndex) == [] ==> BallotsConsistent()
    {
      var pending := ballotDb.Keys;
      while pending != {}
        invariant pending <= ballotDb.Keys
        invariant Rebuilt(ballotByContestIndex, old(ballotByContestIndex), ballotDb, ContestsOn, ballotDb.Keys - pending)
        decreases pending
      {
        var id :| id in pending;
        DoneGrows(ballotDb.Keys, pending, id);
        RebuiltStep(ballotByContestIndex, old(ballotByContestIndex), ballotDb, ContestsOn, ballotDb.Keys - pending, id);
        IndexBallot(id, ballotDb[id]);
        pending := pending - {id};
      }
    }

    /** The loop of open over contest_db. */
    method ReplayContests()
      modifies this`contestByContestantIndex, this`contestTagsIndex
      ensures Rebuilt(contestByContestantIndex, old(contestByContestantIndex), contestDb, ContestantNames, contestDb.Keys)
      ensures TagsRebuilt(contestTagsIndex, old(contestTagsIndex), contestDb, contestDb.Keys)
      ensures old(contestByContestantIndex) == [] && old(contestTagsIndex) == [] ==> ContestsConsistent()
    {
      var pending := contestDb.Keys;
      while pending != {}
        invariant pending <= contestDb.Keys
        invariant Rebuilt(contestByContestantIndex, old(contestByContestantIndex), contestDb, ContestantNames, contestDb.Keys - pending)
        invariant TagsRebuilt(contestTagsIndex, old(contestTagsIndex), contestDb, contestDb.Keys - pending)
        decreases pending
      {
        var id :| id in pending;
        DoneGrows(contestDb.Keys, pending, id);
        RebuiltStep(contestByContestantIndex, old(contestByContestantIndex), contestDb, ContestantNames, contestDb.Keys - pending, id);
        TagsRebuiltStep(contestTagsIndex, old(contestTagsIndex), contestDb, contestDb.Keys - pending, id);
        IndexContest(id, contestDb[id]);
        pending := pending - {id};
      }
    }

    /** The three loops of open, one store after the other. From empty
        indices, the result is exactly the projection of the stores. */
    method ReplayAll()
      modifies this`decisionIndex, this`writeInIndex, this`ballotByContestIndex
      modifies this`contestTagsIndex, this`contestByContestantIndex
      ensures decisionIndex == IndexedDecisions(decisionDb) + old(decisionIndex)
      ensures Rebuilt(writeInIndex, old(writeInIndex), decisionDb, WriteIns, decisionDb.Keys)
      ensures Rebuilt(ballotByContestIndex, old(ballotByContestIndex), ballotDb, ContestsOn, ballotDb.Keys)
      ensures Rebuilt(contestByContestantIndex, old(contestByContestantIndex), contestDb, ContestantNames, contestDb.Keys)
      ensures TagsRebuilt(contestTagsIndex, old(contestTagsIndex), contestDb, contestDb.Keys)
      ensures old(IndicesEmpty()) ==> Consistent()
    {
      ghost var fromEmpty := IndicesEmpty();
      ReplayDecisions();
      ghost var decisionsDone := fromEmpty ==> DecisionsConsistent();
      ReplayBallots();
      ghost var ballotsDone := fromEmpty ==> BallotsConsistent();
      ReplayContests();
      assert fromEmpty ==> ContestsConsistent();
      assert decisionsDone && ballotsDone;
    }

    /** open: refused when already open. Otherwise opens the three stores,
        replays them through update_index and only then marks the box open.
        From empty indices, the result is exactly the projection of the
        stores. */
    method Open() returns (outcome: Outcome)
      modifies this`databasesOpen, this`decisionDbOpen, this`ballotDbOpen, this`contestDbOpen
      modifies this`decisionIndex, this`writeInIndex, this`ballotByContestIndex
      modifies this`contestTagsIndex, this`contestByContestantIndex
      ensures old(databasesOpen) ==> outcome == Fail(AlreadyOpen) && unchanged(this)
      ensures !old(databasesOpen) ==>
        && outcome == Pass
        && databasesOpen && decisionDbOpen && ballotDbOpen && contestDbOpen
        && decisionDb == old(decisionDb) && ballotDb == old(ballotDb) && contestDb == old(contestDb)
      ensures !old(databasesOpen) ==>
        && decisionIndex == IndexedDecisions(decisionDb) + old(decisionIndex)
        && Rebuilt(writeInIndex, old(writeInIndex), decisionDb, WriteIns, decisionDb.Keys)
        && Rebuilt(ballotByContestIndex, old(ballotByContestIndex), ballotDb, ContestsOn, ballotDb.Keys)
        && Rebuilt(contestByContestantIndex, old(contestByContestantIndex), contestDb, ContestantNames, contestDb.Keys)
        && TagsRebuilt(contestTagsIndex, old(contestTagsIndex), contestDb, contestDb.Keys)
      ensures !old(databasesOpen) && old(IndicesEmpty()) ==> Consistent()
      ensures old(ClosedIsEmpty()) ==> ClosedIsEmpty()
      ensures !old(databasesOpen) && old(ClosedIsEmpty()) ==> Consistent()
    {
      if databasesOpen {
        return Fail(AlreadyOpen);
      }
      decisionDbOpen, ballotDbOpen, contestDbOpen := true, true, true;
      ReplayAll();
      databasesOpen := true;
      outcome := Pass;
    }

    /** clear: when open, removes every record from the three stores; in any
        case empties all five indices. */
    method Clear()
      requires databasesOpen ==> decisionDbOpen && ballotDbOpen && contestDbOpen
      modifies this`decisionDb, this`ballotDb, this`contestDb
      modifies this`decisionIndex, this`writeInIndex, this`ballotByContestIndex
      modifies this`contestTagsIndex, this`contestByContestantIndex
      ensures old(databasesOpen) ==> decisionDb == map[] && ballotDb == map[] && contestDb == map[]
      ensures !old(databasesOpen) ==>
        decisionDb == old(decisionDb) && ballotDb == old(ballotDb) && contestDb == old(contestDb)
      ensures IndicesEmpty()
      ensures old(databasesOpen) ==> Consistent()
      ensures old(ClosedIsEmpty()) ==> ClosedIsEmpty()
    {
      if databasesOpen {
        var keys := decisionDb.Keys;
        while keys != {}
          invariant decisionDb.Keys == keys
          modifies this`decisionDb
          decreases keys
        {
          var key :| key in keys;
          decisionDb := decisionDb - {key};
          keys := keys - {key};
        }
        var ballotKeys := ballotDb.Keys;
        while ballotKeys != {}
          invariant ballotDb.Keys == ballotKeys
          modifies this`ballotDb
          decreases ballotKeys
        {
          var key :| key in ballotKeys;
          ballotDb := ballotDb - {key};
          ballotKeys := ballotKeys - {key};
        }
        var contestKeys := contestDb.Keys;
        while contestKeys != {}
          invariant contestDb.Keys == contestKeys
          modifies this`contestDb
          decreases contestKeys
        {
          var key :| key in contestKeys;
          contestDb := contestDb - {key};
          contestKeys := contestKeys - {key};
        }
        assert decisionDb == map[] && ballotDb == map[] && contestDb == map[];
      }
      decisionIndex := map[];
      writeInIndex := [];
      ballotByContestIndex := [];
      contestByContestantIndex := [];
      contestTagsIndex := [];
    }

    /** close: refused when not open. Otherwise marks the box closed, closes
        the three stores, and clears, which, the box being closed by then,
        leaves the stored records in place and empties the indices. */
    method Close() returns (outcome: Outcome)
      modifies this
      ensures !old(databasesOpen) ==> outcome == Fail(NotOpen) && unchanged(this)
      ensures old(databasesOpen) ==>
        && outcome == Pass
        && !databasesOpen && !decisionDbOpen && !ballotDbOpen && !contestDbOpen
        && decisionDb == old(decisionDb) && ballotDb == old(ballotDb) && contestDb == old(contestDb)
        && IndicesEmpty()
      ensures old(ClosedIsEmpty()) ==> ClosedIsEmpty()
    {
      if !databasesOpen {
        return Fail(NotOpen);
      }
      databasesOpen := false;
      decisionDbOpen := false;
      ballotDbOpen := false;
      contestDbOpen := false;
      Clear();
      outcome := Pass;
    }

    /** get_decisions_by_key: the ids of the index records in the equal
        range of key in the matching view, each once, in hash order. */
    method GetDecisionsByKey(key: DecisionKey) returns (r: seq<Digest>)
      ensures forall x :: x in r <==> x in decisionIndex && Matches(decisionIndex[x], key)
      ensures forall i, j :: 0 <= i < j < |r| ==> r[i] != r[j]
      ensures Consistent() ==>
        forall x :: x in r <==> x in decisionDb && Matches(IndexRecordFor(x, decisionDb[x]), key)
    {
      r := [];
      var pending := decisionIndex.Keys;
      while pending != {}
        invariant pending <= decisionIndex.Keys
        invariant forall x :: x in r <==> x in decisionIndex && x !in pending && Matches(decisionIndex[x], key)
        invariant forall i, j :: 0 <= i < j < |r| ==> r[i] != r[j]
        decreases pending
      {
        var id :| id in pending;
        if Matches(decisionIndex[id], key) {
          r := r + [id];
        }
        pending := pending - {id};
      }
    }

    method GetDecisionsByVoter(voter: Address) returns (r: seq<Digest>)
      ensures forall x :: x in r <==> x in decisionIndex && decisionIndex[x].voter == voter
      ensures forall i, j :: 0 <= i < j < |r| ==> r[i] != r[j]
      ensures Consistent() ==> forall x :: x in r <==> x in decisionDb && voterOf(decisionDb[x]) == voter
    {
      r := GetDecisionsByKey(ByVoter(voter));
    }

    method GetDecisionsByContest(contestId: Digest) returns (r: seq<Digest>)
      ensures forall x :: x in r <==> x in decisionIndex && decisionIndex[x].contestId == contestId
      ensures forall i, j :: 0 <= i < j < |r| ==> r[i] != r[j]
      ensures Consistent() ==> forall x :: x in r <==> x in decisionDb && decisionDb[x].contestId == contestId
    {
      r := GetDecisionsByKey(ByContest(contestId));
    }

    method GetDecisionsByBallot(ballotId: Digest) returns (r: seq<Digest>)
      ensures forall x :: x in r <==> x in decisionIndex && decisionIndex[x].ballotId == ballotId
      ensures forall i, j :: 0 <= i < j < |r| ==> r[i] != r[j]
      ensures Consistent() ==> forall x :: x in r <==> x in decisionDb && decisionDb[x].ballotId == ballotId
    {
      r := GetDecisionsByKey(ByBallot(ballotId));
    }

    /** get_all_write_ins: every name keyed in the write-in index, once each,
        in ascending order. */
    method GetAllWriteIns() returns (r: seq<string>)
      ensures StrictlyAscending(r)
      ensures forall name :: name in r <==> exists x :: (name, x) in writeInIndex
      ensures Consistent() ==>
        forall name :: name in r <==> exists x :: x in decisionDb && name in decisionDb[x].writeInNames
    {
      r := DistinctAscending(KeysOf(writeInIndex));
      if Consistent() {
        forall name ensures name in r <==> exists x :: x in decisionDb && name in decisionDb[x].writeInNames {
          WriteInKeysMeaning(writeInIndex, decisionDb, name);
        }
      }
    }

    /** get_decisions_with_write_in: the decisions paired with the name, one
        entry per pair, oldest first. */
    method GetDecisionsWithWriteIn(name: string) returns (r: seq<Digest>)
      ensures r == EqualRange(writeInIndex, name)
      ensures Consistent() ==> forall x ::
        multiset(r)[x] == if x in decisionDb then multiset(decisionDb[x].writeInNames)[name] else 0
    {
      r := CollectEqualRange(writeInIndex, name);
      if Consistent() {
        forall x ensures multiset(r)[x] == if x in decisionDb then multiset(decisionDb[x].writeInNames)[name] else 0 {
          assert multiset(r)[x] == Count(writeInIndex, name, x);
        }
      }
    }

    /** get_ballots_by_contest. */
    method GetBallotsByContest(contestId: Digest) returns (r: seq<Digest>)
      ensures r == EqualRange(ballotByContestIndex, contestId)
      ensures Consistent() ==> forall x ::
        multiset(r)[x] == if x in ballotDb then multiset(ballotDb[x].contests)[contestId] else 0
    {
      r := CollectEqualRange(ballotByContestIndex, contestId);
      if Consistent() {
        forall x ensures multiset(r)[x] == if x in ballotDb then multiset(ballotDb[x].contests)[contestId] else 0 {
          assert multiset(r)[x] == Count(ballotByContestIndex, contestId, x);
        }
      }
    }

    /** get_values_by_tag: every value stored under key, once each, in
        ascending order, and no value stored only under another key. */
    method GetValuesByTag(key: string) returns (r: seq<string>)
      ensures StrictlyAscending(r)
      ensures forall v :: v in r <==> exists t :: t in contestTagsIndex && t.key == key && t.value == v
      ensures Consistent() ==>
        forall v :: v in r <==> exists x :: x in contestDb && (key, v) in contestDb[x].tags
    {
      r := DistinctAscending(ValuesUnder(contestTagsIndex, key));
      forall v ensures v in r <==> exists t :: t in contestTagsIndex && t.key == key && t.value == v {
        ValuesUnderMembers(contestTagsIndex, key, v);
      }
      if Consistent() {
        forall v ensures v in r <==> exists x :: x in contestDb && (key, v) in contestDb[x].tags {
          TagValuesMeaning(contestTagsIndex, contestDb, key, v);
        }
      }
    }

    /** get_contests_by_tags: the contests of the records matching (key,
        value); an empty value matches every value under key. The order
        of the result is not specified here. */
    method GetContestsByTags(key: string, value: string) returns (r: seq<Digest>)
      ensures multiset(r) == multiset(RangeContests(contestTagsIndex, key, if value == [] then None else Some(value)))
      ensures value != [] ==> forall x :: multiset(r)[x] == multiset(contestTagsIndex)[TagRecord(key, value, x)]
      ensures value == [] ==>
        forall x :: x in r <==> exists t :: t in contestTagsIndex && t.key == key && t.contestId == x
      ensures Consistent() && value != [] ==> forall x ::
        multiset(r)[x] == if x in contestDb then multiset(contestDb[x].tags)[(key, value)] else 0
      ensures Consistent() && value == [] ==> forall x ::
        x in r <==> x in contestDb && exists v :: (key, v) in contestDb[x].tags
    {
      var range := Some(value);
      if value == [] {
        range := None;
      }
      r := CollectRange(contestTagsIndex, key, range);
      forall x ensures value != [] ==> multiset(r)[x] == TagCount(contestTagsIndex, TagRecord(key, value, x)) {
        if value != [] {
          RangeContestsCount(contestTagsIndex, key, value, x);
        }
      }
      forall x ensures x in r <==> exists t :: t in contestTagsIndex && InRange(t, key, range) && t.contestId == x {
        RangeContestsMembers(contestTagsIndex, key, range, x);
      }
      if Consistent() && value == [] {
        forall x ensures x in r <==> x in contestDb && exists v :: (key, v) in contestDb[x].tags {
          TagKeyMeaning(contestTagsIndex, contestDb, key, x);
        }
      }
    }

    /** get_contests_by_contestant. */
    method GetContestsByContestant(name: string) returns (r: seq<Digest>)
      ensures r == EqualRange(contestByContestantIndex, name)
      ensures Consistent() ==> forall x ::
        multiset(r)[x] == if x in contestDb then multiset(ContestantNames(contestDb[x]))[name] else 0
    {
      r := CollectEqualRange(contestByContestantIndex, name);
      if Consistent() {
        forall x ensures multiset(r)[x] == if x in contestDb then multiset(ContestantNames(contestDb[x]))[name] else 0 {
          assert multiset(r)[x] == Count(contestByContestantIndex, name, x);
        }
      }
    }
  }

  /** With an exact write-in index, a name is keyed in it exactly when some
      stored decision lists it. */
  lemma WriteInKeysMeaning(ix: seq<(string, Digest)>, db: map<Digest, Decision>, name: string)
    requires Rebuilt(ix, [], db, WriteIns, db.Keys)
    ensures (exists x :: (name, x) in ix) <==> exists x :: x in db && name in db[x].writeInNames
  {
    if exists x :: (name, x) in ix {
      var x :| (name, x) in ix;
      assert Count(ix, name, x) > 0;
    }
    if exists x :: x in db && name in db[x].writeInNames {
      var x :| x in db && name in db[x].writeInNames;
      assert Count(ix, name, x) > 0;
    }
  }

  /** With an exact tag index, a value is stored under key exactly when some
      stored contest carries the tag pair (key, value). */
  lemma TagValuesMeaning(ix: seq<TagRecord>, db: map<Digest, Contest>, key: string, v: string)
    requires TagsRebuilt(ix, [], db, db.Keys)
    ensures (exists t :: t in ix && t.key == key && t.value == v) <==> exists x :: x in db && (key, v) in db[x].tags
  {
    if exists t :: t in ix && t.key == key && t.value == v {
      var t :| t in ix && t.key == key && t.value == v;
      assert TagCount(ix, t) > 0;
    }
    if exists x :: x in db && (key, v) in db[x].tags {
      var x :| x in db && (key, v) in db[x].tags;
      assert TagCount(ix, TagRecord(key, v, x)) > 0;
    }
  }

  /** With an exact tag index, a contest has a record under key exactly when
      it is stored and carries some tag pair with that key. */
  lemma TagKeyMeaning(ix: seq<TagRecord>, db: map<Digest, Contest>, key: string, x: Digest)
    requires TagsRebuilt(ix, [], db, db.Keys)
    ensures (exists t :: t in ix && t.key == key && t.contestId == x) <==>
      x in db && exists v :: (key, v) in db[x].tags
  {
    if exists t :: t in ix && t.key == key && t.contestId == x {
      var t :| t in ix && t.key == key && t.contestId == x;
      assert TagCount(ix, t) > 0;
      assert (key, t.value) in db[x].tags;
    }
    if x in db && exists v :: (key, v) in db[x].tags {
      var v :| (key, v) in db[x].tags;
      assert TagCount(ix, TagRecord(key, v, x)) > 0;
    }
  }

  /** The empty-value sentinel of get_contests_by_tags returns, up to order,
      the contests of the (key, v) ranges for v among the values
      get_values_by_tag(key) lists: the union over all values under key. */
  method SentinelQueryIsUnion(box: BallotBoxImpl, key: string) returns (all: seq<Digest>, values: seq<string>)
    ensures multiset(all) == multiset(Gather(box.contestTagsIndex, key, values))
    ensures forall v :: v in values <==> exists t :: t in box.contestTagsIndex && t.key == key && t.value == v
  {
    all := box.GetContestsByTags(key, "");
    values := box.GetValuesByTag(key);
    forall i, j | 0 <= i < j < |values| ensures values[i] != values[j] {
      AscendingHasNoRepeats(values, i, j);
    }
    forall v | v in ValuesUnder(box.contestTagsIndex, key) ensures v in values {
      ValuesUnderMembers(box.contestTagsIndex, key, v);
    }
    SentinelIsUnion(box.contestTagsIndex, key, values);
  }

  /** Rebuild equivalence: closing an open box whose indices are exact and
      opening it again gives back the same indices, up to the order of
      entries, which hashed and multi-key containers do not fix. */
  method ReopenRebuildsSameIndices(box: BallotBoxImpl)
    requires box.databasesOpen && box.Consistent()
    modifies box
    ensures box.databasesOpen && box.Consistent()
    ensures box.decisionDb == old(box.decisionDb) && box.ballotDb == old(box.ballotDb) && box.contestDb == old(box.contestDb)
    ensures box.decisionIndex == old(box.decisionIndex)
    ensures multiset(box.writeInIndex) == old(multiset(box.writeInIndex))
    ensures multiset(box.ballotByContestIndex) == old(multiset(box.ballotByContestIndex))
    ensures multiset(box.contestByContestantIndex) == old(multiset(box.contestByContestantIndex))
    ensures multiset(box.contestTagsIndex) == old(multiset(box.contestTagsIndex))
  {
    var closing := box.Close();
    var opening := box.Open();
    RebuiltUnique(box.writeInIndex, old(box.writeInIndex), box.decisionDb, WriteIns);
    RebuiltUnique(box.ballotByContestIndex, old(box.ballotByContestIndex), box.ballotDb, ContestsOn);
    RebuiltUnique(box.contestByContestantIndex, old(box.contestByContestantIndex), box.contestDb, ContestantNames);
    TagsRebuiltUnique(box.contestTagsIndex, old(box.contestTagsIndex), box.contestDb);
  }
}

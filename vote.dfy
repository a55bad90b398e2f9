/** bts::vote::ballot_box: the public face of the ballot box. Every
    operation forwards to the detail::ballot_box_impl it owns, except
    get_decision, get_ballot and get_contest, which read the stores directly,
    and close, which only closes decision_db. */
module Vote {
  import opened Wrappers
  import opened VoteTypes
  import opened Multimap
  import opened TagIndex
  import opened StringOrder
  import opened Detail

  class BallotBox {
    const my: BallotBoxImpl

    /** A closed box, with empty indices, over a data directory holding the
        given records. */
    constructor (decisionDigest: Decision -> Digest, voterOf: Decision -> Address,
                 ballotIdOf: Ballot -> Digest, contestIdOf: Contest -> Digest,
                 decisions: map<Digest, Decision>, ballots: map<Digest, Ballot>, contests: map<Digest, Contest>)
      ensures fresh(my)
      ensures my.decisionDigest == decisionDigest && my.voterOf == voterOf
      ensures my.ballotIdOf == ballotIdOf && my.contestIdOf == contestIdOf
      ensures my.decisionDb == decisions && my.ballotDb == ballots && my.contestDb == contests
      ensures my.IndicesEmpty() && my.ClosedIsEmpty()
      ensures decisions == map[] && ballots == map[] && contests == map[] ==> my.Consistent()
      ensures !IsOpen()
    {
      my := new BallotBoxImpl(decisionDigest, voterOf, ballotIdOf, contestIdOf, decisions, ballots, contests);
    }

    predicate IsOpen()
      reads my
    {
      my.databasesOpen
    }

    method Open() returns (outcome: Outcome)
      modifies my`databasesOpen, my`decisionDbOpen, my`ballotDbOpen, my`contestDbOpen
      modifies my`decisionIndex, my`writeInIndex, my`ballotByContestIndex
      modifies my`contestTagsIndex, my`contestByContestantIndex
      ensures old(IsOpen()) ==> outcome == Fail(AlreadyOpen) && unchanged(my)
      ensures !old(IsOpen()) ==>
        && outcome == Pass
        && IsOpen() && my.decisionDbOpen && my.ballotDbOpen && my.contestDbOpen
      ensures my.decisionDb == old(my.decisionDb) && my.ballotDb == old(my.ballotDb) && my.contestDb == old(my.contestDb)
      ensures !old(IsOpen()) ==>
        && my.decisionIndex == my.IndexedDecisions(my.decisionDb) + old(my.decisionIndex)
        && Rebuilt(my.writeInIndex, old(my.writeInIndex), my.decisionDb, WriteIns, my.decisionDb.Keys)
        && Rebuilt(my.ballotByContestIndex, old(my.ballotByContestIndex), my.ballotDb, ContestsOn, my.ballotDb.Keys)
        && Rebuilt(my.contestByContestantIndex, old(my.contestByContestantIndex), my.contestDb, ContestantNames, my.contestDb.Keys)
        && TagsRebuilt(my.contestTagsIndex, old(my.contestTagsIndex), my.contestDb, my.contestDb.Keys)
      ensures !old(IsOpen()) && old(my.IndicesEmpty()) ==> my.Consistent()
      ensures old(my.ClosedIsEmpty()) ==> my.ClosedIsEmpty()
      ensures !old(IsOpen()) && old(my.ClosedIsEmpty()) ==> my.Consistent()
    {
      outcome := my.Open();
    }

    method Clear()
      requires IsOpen() ==> my.decisionDbOpen && my.ballotDbOpen && my.contestDbOpen
      modifies my`decisionDb, my`ballotDb, my`contestDb
      modifies my`decisionIndex, my`writeInIndex, my`ballotByContestIndex
      modifies my`contestTagsIndex, my`contestByContestantIndex
      ensures old(IsOpen()) ==> my.decisionDb == map[] && my.ballotDb == map[] && my.contestDb == map[]
      ensures !old(IsOpen()) ==>
        my.decisionDb == old(my.decisionDb) && my.ballotDb == old(my.ballotDb) && my.contestDb == old(my.contestDb)
      ensures my.IndicesEmpty() && IsOpen() == old(IsOpen())
      ensures old(IsOpen()) ==> my.Consistent()
      ensures old(my.ClosedIsEmpty()) ==> my.ClosedIsEmpty()
    {
      my.Clear();
    }

    /** close as the wrapper writes it: only decision_db is closed. The flag
        stays set and the indices keep their entries. */
    method Close()
      modifies my`decisionDbOpen
      ensures !my.decisionDbOpen
      ensures old(my.ClosedIsEmpty()) ==> my.ClosedIsEmpty()
    {
      my.decisionDbOpen := false;
    }

    method StoreNewDecision(decision: Decision)
      requires my.decisionDbOpen
      modifies my`decisionDb, my`decisionIndex, my`writeInIndex
      ensures GetDecision(my.decisionDigest(decision)) == Some(decision)
      ensures forall id :: id != my.decisionDigest(decision) ==> GetDecision(id) == old(GetDecision(id))
      ensures var id := my.decisionDigest(decision);
        my.decisionIndex == if id in old(my.decisionIndex) then old(my.decisionIndex)
                            else old(my.decisionIndex)[id := my.IndexRecordFor(id, decision)]
      ensures my.writeInIndex == old(my.writeInIndex) + Paired(decision.writeInNames, my.decisionDigest(decision))
      ensures old(my.DecisionsConsistent()) && my.decisionDigest(decision) !in old(my.decisionDb) ==> my.DecisionsConsistent()
      ensures old(my.ClosedIsEmpty()) ==> my.ClosedIsEmpty()
    {
      my.StoreDecision(decision);
    }

    /** level_map::fetch: the stored record, or None where fetch throws. */
    function GetDecision(id: Digest): (r: Option<Decision>)
      reads my
      ensures r.Some? <==> id in my.decisionDb
      ensures r.Some? ==> r.value == my.decisionDb[id]
    {
      if id in my.decisionDb then Some(my.decisionDb[id]) else None
    }

    method GetDecisionsByVoter(voter: Address) returns (r: seq<Digest>)
      ensures forall x :: x in r <==> x in my.decisionIndex && my.decisionIndex[x].voter == voter
      ensures forall i, j :: 0 <= i < j < |r| ==> r[i] != r[j]
      ensures my.Consistent() ==> forall x :: x in r <==> x in my.decisionDb && my.voterOf(my.decisionDb[x]) == voter
    {
      r := my.GetDecisionsByVoter(voter);
    }

    method GetDecisionsByContest(contestId: Digest) returns (r: seq<Digest>)
      ensures forall x :: x in r <==> x in my.decisionIndex && my.decisionIndex[x].contestId == contestId
      ensures forall i, j :: 0 <= i < j < |r| ==> r[i] != r[j]
      ensures my.Consistent() ==> forall x :: x in r <==> x in my.decisionDb && my.decisionDb[x].contestId == contestId
    {
      r := my.GetDecisionsByContest(contestId);
    }

    method GetDecisionsByBallot(ballotId: Digest) returns (r: seq<Digest>)
      ensures forall x :: x in r <==> x in my.decisionIndex && my.decisionIndex[x].ballotId == ballotId
      ensures forall i, j :: 0 <= i < j < |r| ==> r[i] != r[j]
      ensures my.Consistent() ==> forall x :: x in r <==> x in my.decisionDb && my.decisionDb[x].ballotId == ballotId
    {
      r := my.GetDecisionsByBallot(ballotId);
    }

    method GetAllWriteIns() returns (r: seq<string>)
      ensures StrictlyAscending(r)
      ensures forall name :: name in r <==> exists x :: (name, x) in my.writeInIndex
      ensures my.Consistent() ==>
        forall name :: name in r <==> exists x :: x in my.decisionDb && name in my.decisionDb[x].writeInNames
    {
      r := my.GetAllWriteIns();
    }

    method GetDecisionsWithWriteIn(name: string) returns (r: seq<Digest>)
      ensures r == EqualRange(my.writeInIndex, name)
      ensures my.Consistent() ==> forall x ::
        multiset(r)[x] == if x in my.decisionDb then multiset(my.decisionDb[x].writeInNames)[name] else 0
    {
      r := my.GetDecisionsWithWriteIn(name);
    }

    function GetBallot(id: Digest): (r: Option<Ballot>)
      reads my
      ensures r.Some? <==> id in my.ballotDb
      ensures r.Some? ==> r.value == my.ballotDb[id]
    {
      if id in my.ballotDb then Some(my.ballotDb[id]) else None
    }

    method StoreBallot(ballot: Ballot)
      requires my.ballotDbOpen
      modifies my`ballotDb, my`ballotByContestIndex
      ensures GetBallot(my.ballotIdOf(ballot)) == Some(ballot)
      ensures forall id :: id != my.ballotIdOf(ballot) ==> GetBallot(id) == old(GetBallot(id))
      ensures my.ballotByContestIndex == old(my.ballotByContestIndex) + Paired(ballot.contests, my.ballotIdOf(ballot))
      ensures old(my.BallotsConsistent()) && my.ballotIdOf(ballot) !in old(my.ballotDb) ==> my.BallotsConsistent()
      ensures old(my.ClosedIsEmpty()) ==> my.ClosedIsEmpty()
    {
      my.StoreBallot(ballot);
    }

    method GetBallotsByContest(contestId: Digest) returns (r: seq<Digest>)
      ensures r == EqualRange(my.ballotByContestIndex, contestId)
      ensures my.Consistent() ==> forall x ::
        multiset(r)[x] == if x in my.ballotDb then multiset(my.ballotDb[x].contests)[contestId] else 0
    {
      r := my.GetBallotsByContest(contestId);
    }

    function GetContest(id: Digest): (r: Option<Contest>)
      reads my
      ensures r.Some? <==> id in my.contestDb
      ensures r.Some? ==> r.value == my.contestDb[id]
    {
      if id in my.contestDb then Some(my.contestDb[id]) else None
    }

    method StoreContest(contest: Contest)
      requires my.contestDbOpen
      modifies my`contestDb, my`contestByContestantIndex, my`contestTagsIndex
      ensures GetContest(my.contestIdOf(contest)) == Some(contest)
      ensures forall id :: id != my.contestIdOf(contest) ==> GetContest(id) == old(GetContest(id))
      ensures my.contestByContestantIndex ==
        old(my.contestByContestantIndex) + Paired(ContestantNames(contest), my.contestIdOf(contest))
      ensures my.contestTagsIndex == old(my.contestTagsIndex) + TagRecordsOf(contest.tags, my.contestIdOf(contest))
      ensures old(my.ContestsConsistent()) && my.contestIdOf(contest) !in old(my.contestDb) ==> my.ContestsConsistent()
      ensures old(my.ClosedIsEmpty()) ==> my.ClosedIsEmpty()
    {
      my.StoreContest(contest);
    }

    method GetValuesByTag(key: string) returns (r: seq<string>)
      ensures StrictlyAscending(r)
      ensures forall v :: v in r <==> exists t :: t in my.contestTagsIndex && t.key == key && t.value == v
      ensures my.Consistent() ==>
        forall v :: v in r <==> exists x :: x in my.contestDb && (key, v) in my.contestDb[x].tags
    {
      r := my.GetValuesByTag(key);
    }

    method GetContestsByTags(key: string, value: string) returns (r: seq<Digest>)
      ensures multiset(r) == multiset(RangeContests(my.contestTagsIndex, key, if value == [] then None else Some(value)))
      ensures value != [] ==> forall x :: multiset(r)[x] == multiset(my.contestTagsIndex)[TagRecord(key, value, x)]
      ensures value == [] ==>
        forall x :: x in r <==> exists t :: t in my.contestTagsIndex && t.key == key && t.contestId == x
      ensures my.Consistent() && value != [] ==> forall x ::
        multiset(r)[x] == if x in my.contestDb then multiset(my.contestDb[x].tags)[(key, value)] else 0
      ensures my.Consistent() && value == [] ==> forall x ::
        x in r <==> x in my.contestDb && exists v :: (key, v) in my.contestDb[x].tags
    {
      r := my.GetContestsByTags(key, value);
    }

    method GetContestsByContestant(name: string) returns (r: seq<Digest>)
      ensures r == EqualRange(my.contestByContestantIndex, name)
      ensures my.Consistent() ==> forall x ::
        multiset(r)[x] == if x in my.contestDb then multiset(ContestantNames(my.contestDb[x]))[name] else 0
    {
      r := my.GetContestsByContestant(name);
    }
  }

  /** The wrapper's close leaves the box marked open with its indices
      intact, so an open that follows is refused. */
  method CloseThenOpenIsRefused(box: BallotBox) returns (outcome: Outcome)
    requires box.IsOpen()
    modifies box.my
    ensures box.IsOpen() && !box.my.decisionDbOpen
    ensures box.my.ballotDbOpen == old(box.my.ballotDbOpen) && box.my.contestDbOpen == old(box.my.contestDbOpen)
    ensures box.my.decisionIndex == old(box.my.decisionIndex) && box.my.writeInIndex == old(box.my.writeInIndex)
    ensures box.my.ballotByContestIndex == old(box.my.ballotByContestIndex)
    ensures box.my.contestByContestantIndex == old(box.my.contestByContestantIndex)
    ensures box.my.contestTagsIndex == old(box.my.contestTagsIndex)
    ensures box.my.decisionDb == old(box.my.decisionDb) && box.my.ballotDb == old(box.my.ballotDb)
    ensures box.my.contestDb == old(box.my.contestDb)
    ensures outcome == Fail(AlreadyOpen)
  {
    box.Close();
    outcome := box.Open();
  }
}

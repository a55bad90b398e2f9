/** The entities the ballot box stores and the index records derived from
    them. Only the attributes the indices read are spelled out; every other
    field of a record is carried as an opaque payload. */
module VoteTypes {

  /** digest_type: a content-derived identifier. */
  datatype Digest = Digest(bytes: seq<bv8>)

  /** address: the voter's address, derived from the voter's public key. */
  datatype Address = Address(bytes: seq<bv8>)

  /** signed_voter_decision. */
  datatype Decision = Decision(
    contestId: Digest,
    ballotId: Digest,
    writeInNames: seq<string>,
    payload: seq<bv8>)

  /** ballot: the contests that appear on it. */
  datatype Ballot = Ballot(contests: seq<Digest>, payload: seq<bv8>)

  datatype Contestant = Contestant(name: string, payload: seq<bv8>)

  /** contest: its contestants and its (key, value) tag pairs; a key may
      occur in several pairs. */
  datatype Contest = Contest(
    contestants: seq<Contestant>,
    tags: seq<(string, string)>,
    payload: seq<bv8>)

  /** decision_index_record: the projection of a stored decision that the
      decision index holds. */
  datatype DecisionIndexRecord = DecisionIndexRecord(
    id: Digest,
    voter: Address,
    contestId: Digest,
    writeInNames: seq<string>,
    ballotId: Digest)

  /** contest_tags_index_record. */
  datatype TagRecord = TagRecord(key: string, value: string, contestId: Digest)

  /** The three non-unique views of the decision index, with the key each is
      searched by. */
  datatype DecisionKey =
    | ByVoter(voter: Address)
    | ByContest(contestId: Digest)
    | ByBallot(ballotId: Digest)

  /** rec falls in the equal_range of key in the matching view. */
  predicate Matches(rec: DecisionIndexRecord, key: DecisionKey)
  {
    match key
    case ByVoter(v) => rec.voter == v
    case ByContest(c) => rec.contestId == c
    case ByBallot(b) => rec.ballotId == b
  }
}

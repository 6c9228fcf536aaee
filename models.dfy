/** Polls and votes (src/models.rs): a poll's metadata, the vote validator
    and the in-place append of an accepted vote. */
module Models {
  import opened Base

  /** A ballot: one score per candidate, in candidate order. */
  type Vote = seq<u8>

  datatype PollMetadata = PollMetadata(
    id: nat,
    candidates: seq<string>,
    minScore: u8,
    maxScore: u8)

  datatype VotingError = OutsideScoreRangeError | InvalidVoteLengthError

  /** The value a poll holds at one moment: what `Poll` stores in its fields. */
  datatype PollRecord = PollRecord(metadata: PollMetadata, votes: seq<Vote>)

  /** Reference definition of an acceptable vote for a poll. */
  ghost predicate WellFormed(m: PollMetadata, vote: Vote)
  {
    && |vote| == |m.candidates|
    && forall i :: 0 <= i < |vote| ==> m.minScore <= vote[i] <= m.maxScore
  }

  predicate OutsideRange(m: PollMetadata, score: u8)
  {
    score < m.minScore || score > m.maxScore
  }

  /** `vote.iter().any(..)`: scans the scores left to right for one outside
      the poll's range; it finds one exactly when some position holds one. */
  predicate AnyOutsideRange(m: PollMetadata, vote: Vote)
    ensures AnyOutsideRange(m, vote) <==> exists i :: 0 <= i < |vote| && OutsideRange(m, vote[i])
  {
    if vote == [] then false
    else
      assert forall i :: 0 < i < |vote| ==> vote[i] == vote[1..][i - 1];
      OutsideRange(m, vote[0]) || AnyOutsideRange(m, vote[1..])
  }

  /** The two guards of `Poll::add_vote`, in source order: the length check
      first, then the score range check. */
  function CheckVote(m: PollMetadata, vote: Vote): (r: Result<(), VotingError>)
    ensures r.Success? <==> WellFormed(m, vote)
    ensures r == Failure(InvalidVoteLengthError) <==> |vote| != |m.candidates|
    ensures r == Failure(OutsideScoreRangeError) <==>
      |vote| == |m.candidates| && exists i :: 0 <= i < |vote| && OutsideRange(m, vote[i])
  {
    if |vote| != |m.candidates| then Failure(InvalidVoteLengthError)
    else if AnyOutsideRange(m, vote) then Failure(OutsideScoreRangeError)
    else Success(())
  }

  /** A poll whose score range is empty accepts no vote at all, as soon as it
      has a candidate. */
  lemma InvertedRangeRejectsEveryVote(m: PollMetadata, vote: Vote)
    requires m.minScore > m.maxScore && |m.candidates| > 0
    ensures CheckVote(m, vote).Failure?
  {
    if |vote| == |m.candidates| {
      assert OutsideRange(m, vote[0]);
    }
  }

  /** A poll with scores 0..5 and three candidates. */
  lemma ScoreRangeExamples(cs: seq<string>)
    requires |cs| == 3
    ensures CheckVote(PollMetadata(0, cs, 0, 5), [0, 5]) == Failure(InvalidVoteLengthError)
    ensures CheckVote(PollMetadata(0, cs, 0, 5), [0, 6, 1]) == Failure(OutsideScoreRangeError)
    ensures CheckVote(PollMetadata(0, cs, 0, 5), [0, 5, 1]) == Success(())
  {
    var m := PollMetadata(0, cs, 0, 5);
    var bad: Vote := [0, 6, 1];
    assert OutsideRange(m, bad[1]);
  }

  /** `Poll`: its metadata and the votes accepted so far. */
  class Poll {
    var metadata: PollMetadata
    var votes: seq<Vote>

    /** Every stored vote is one the validator accepts. */
    ghost predicate Valid()
      reads this
    {
      forall v :: v in votes ==> WellFormed(metadata, v)
    }

    function Record(): PollRecord
      reads this
    {
      PollRecord(metadata, votes)
    }

    /** `Poll::new`. */
    constructor (id: nat, candidates: seq<string>, minScore: u8, maxScore: u8)
      ensures metadata == PollMetadata(id, candidates, minScore, maxScore)
      ensures votes == []
      ensures Valid()
    {
      metadata := PollMetadata(id, candidates, minScore, maxScore);
      votes := [];
    }

    /** `Poll::add_vote`: the vote is pushed only when both guards pass. */
    method AddVote(vote: Vote) returns (r: Result<(), VotingError>)
      modifies this
      ensures metadata == old(metadata)
      ensures r == CheckVote(metadata, vote)
      ensures votes == if r.Success? then old(votes) + [vote] else old(votes)
      ensures old(Valid()) ==> Valid()
    {
      if |vote| != |metadata.candidates| {
        r := Failure(InvalidVoteLengthError);
      } else if AnyOutsideRange(metadata, vote) {
        r := Failure(OutsideScoreRangeError);
      } else {
        votes := votes + [vote];
        r := Success(());
      }
    }
  }
}

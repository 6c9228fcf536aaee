/** The poll handlers of src/main.rs with the HTTP layer removed: each is one
    atomic step on the shared state and returns a value or an error tag. */
module Handlers {
  import opened Base
  import opened Models
  import opened State

  /** The body of a `POST /polls` request. */
  datatype PollCreationRequest = PollCreationRequest(
    candidates: seq<string>,
    minScore: u8,
    maxScore: u8)

  /** The status of an error response: `NOT_FOUND`, or
      `UNPROCESSABLE_ENTITY` carrying the validator's reason. */
  datatype ApiError = NotFound | UnprocessableEntity(cause: VotingError)

  /** `get_new_id`: increment the counter through the reference and return
      its new value. */
  method GetNewId(counter: Counter) returns (id: nat)
    modifies counter
    ensures counter.value == old(counter.value) + 1
    ensures id == counter.value
  {
    counter.value := counter.value + 1;
    id := counter.value;
  }

  /** `create_poll`: a fresh id, then a new empty poll stored under it. The
      new id exceeds every key, so no existing poll is overwritten. */
  method CreatePoll(state: AppState, request: PollCreationRequest)
    requires state.Valid()
    modifies state, state.pollCounter
    ensures state.Valid()
    ensures state.pollCounter.value == old(state.pollCounter.value) + 1
    ensures state.issuedIds == old(state.issuedIds) + [state.pollCounter.value]
    ensures state.pollCounter.value !in old(state.PollsView())
    ensures state.PollsView() == old(state.PollsView())[state.pollCounter.value :=
      PollRecord(PollMetadata(state.pollCounter.value, request.candidates,
                              request.minScore, request.maxScore), [])]
    ensures state.pollCounter.value in state.polls && fresh(state.polls[state.pollCounter.value])
    ensures forall k :: k in old(state.polls) ==> k in state.polls && state.polls[k] == old(state.polls[k])
    ensures state.polls.Values == old(state.polls.Values) + {state.polls[state.pollCounter.value]}
    ensures state.userSessions == old(state.userSessions) && state.users == old(state.users)
  {
    var id := GetNewId(state.pollCounter);
    state.issuedIds := state.issuedIds + [id];
    var poll := new Poll(id, request.candidates, request.minScore, request.maxScore);
    state.polls := state.polls[id := poll];
    assert state.PollsView() == old(state.PollsView())[id := poll.Record()];
  }

  /** `get_poll`: the stored metadata, or `NOT_FOUND`. */
  method GetPoll(state: AppState, id: nat) returns (r: Result<PollMetadata, ApiError>)
    ensures r.Success? <==> id in state.polls
    ensures r.Success? ==> r.value == state.polls[id].metadata
    ensures r.Failure? ==> r.error == NotFound
  {
    if id in state.polls {
      r := Success(state.polls[id].metadata);
    } else {
      r := Failure(NotFound);
    }
  }

  /** `delete_poll`: removes exactly that entry, or reports `NOT_FOUND`. */
  method DeletePoll(state: AppState, id: nat) returns (r: Result<(), ApiError>)
    requires state.Valid()
    modifies state
    ensures state.Valid()
    ensures r.Success? <==> id in old(state.PollsView())
    ensures r.Failure? ==> r.error == NotFound
    ensures state.PollsView() == old(state.PollsView()) - {id}
    ensures state.polls == old(state.polls) - {id}
    ensures state.issuedIds == old(state.issuedIds)
    ensures state.userSessions == old(state.userSessions) && state.users == old(state.users)
  {
    if id in state.polls {
      state.polls := state.polls - {id};
      r := Success(());
    } else {
      r := Failure(NotFound);
    }
    assert state.PollsView() == old(state.PollsView()) - {id};
  }

  /** `add_vote`: look the poll up, then let `Poll::add_vote` decide; each
      validation error becomes `UNPROCESSABLE_ENTITY`. */
  method AddVote(state: AppState, id: nat, vote: Vote) returns (r: Result<(), ApiError>)
    requires state.Valid()
    modifies state.polls.Values
    ensures state.Valid()
    ensures id !in old(state.PollsView()) ==>
      r == Failure(NotFound) && state.PollsView() == old(state.PollsView())
    ensures id in old(state.PollsView()) ==>
      var before := old(state.PollsView())[id];
      match CheckVote(before.metadata, vote)
      case Success(_) =>
        && r == Success(())
        && state.PollsView() == old(state.PollsView())[id := PollRecord(before.metadata, before.votes + [vote])]
      case Failure(e) =>
        && r == Failure(UnprocessableEntity(e))
        && state.PollsView() == old(state.PollsView())
  {
    if id in state.polls {
      var poll := state.polls[id];
      var outcome := poll.AddVote(vote);
      match outcome {
        case Success(_) =>
          r := Success(());
        case Failure(e) =>
          r := Failure(UnprocessableEntity(e));
      }
      assert state.PollsView() == old(state.PollsView())[id := poll.Record()];
    } else {
      r := Failure(NotFound);
      assert state.PollsView() == old(state.PollsView());
    }
  }

  /** `list_polls`: the metadata of every poll, one entry per poll, in no
      particular order. */
  method ListPolls(state: AppState) returns (r: seq<PollMetadata>)
    requires state.Valid()
    ensures |r| == |state.polls|
    ensures forall id :: id in state.polls ==> state.polls[id].metadata in r
    ensures forall k :: 0 <= k < |r| ==> r[k].id in state.polls && state.polls[r[k].id].metadata == r[k]
    ensures forall j, k :: 0 <= j < k < |r| ==> r[j].id != r[k].id
  {
    var remaining := state.polls.Keys;
    r := [];
    while remaining != {}
      invariant remaining <= state.polls.Keys
      invariant |r| + |remaining| == |state.polls|
      invariant forall id :: id in state.polls && id !in remaining ==> state.polls[id].metadata in r
      invariant forall k :: 0 <= k < |r| ==>
        r[k].id in state.polls && r[k].id !in remaining && state.polls[r[k].id].metadata == r[k]
      invariant forall j, k :: 0 <= j < k < |r| ==> r[j].id != r[k].id
    {
      var id :| id in remaining;
      r := r + [state.polls[id].metadata];
      remaining := remaining - {id};
    }
  }
}

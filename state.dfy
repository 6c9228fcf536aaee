/** The shared application state (src/state.rs, and the `AppState` of
    src/main.rs): the poll table, the poll id counter, and the session and
    user tables the authentication extractor reads. Each `Arc<Mutex<..>>`
    is a field of one object; every operation is one atomic step. */
module State {
  import opened Models
  import opened Auth

  /** A session: the user it belongs to and when it stops being valid. */
  datatype UserSession = UserSession(username: string, expiration: int)

  /** `Mutex<usize>`: the poll id counter cell. */
  class Counter {
    var value: nat

    constructor (value: nat)
      ensures this.value == value
    {
      this.value := value;
    }
  }

  ghost predicate StrictlyIncreasing(s: seq<nat>)
  {
    forall i, j :: 0 <= i < j < |s| ==> s[i] < s[j]
  }

  class AppState {
    var polls: map<nat, Poll>
    const pollCounter: Counter
    var userSessions: map<string, UserSession>
    var users: map<string, User>
    /** Every id `get_new_id` has handed out, oldest first. */
    ghost var issuedIds: seq<nat>

    ghost predicate Valid()
      reads this, pollCounter, polls.Values
    {
      && (forall id :: id in polls ==>
            && polls[id].metadata.id == id
            && id <= pollCounter.value
            && polls[id].Valid())
      && (forall i, j :: i in polls && j in polls && i != j ==> polls[i] != polls[j])
      && StrictlyIncreasing(issuedIds)
      && (forall k :: 0 <= k < |issuedIds| ==> issuedIds[k] <= pollCounter.value)
      && (forall t :: t in userSessions ==> userSessions[t].username in users)
    }

    /** The poll table as values. */
    ghost function PollsView(): map<nat, PollRecord>
      reads this, polls.Values
    {
      map id | id in polls :: polls[id].Record()
    }

    /** The fallback of `initialize_state` when no saved state loads. */
    constructor Fresh()
      ensures Valid() && fresh(pollCounter)
      ensures pollCounter.value == 0 && issuedIds == []
      ensures polls == map[] && userSessions == map[] && users == map[]
    {
      polls := map[];
      pollCounter := new Counter(0);
      userSessions := map[];
      users := map[];
      issuedIds := [];
    }

    /** `AppState::get_new_id`: increment the counter, return its new value. */
    method GetNewId() returns (id: nat)
      requires Valid()
      modifies this`issuedIds, pollCounter
      ensures Valid()
      ensures pollCounter.value == old(pollCounter.value) + 1 && id == pollCounter.value
      ensures issuedIds == old(issuedIds) + [id]
      ensures forall k :: 0 <= k < |old(issuedIds)| ==> old(issuedIds)[k] < id
    {
      pollCounter.value := pollCounter.value + 1;
      id := pollCounter.value;
      issuedIds := issuedIds + [id];
    }
  }

  /** The first id issued after the fallback start is 1. */
  method FirstIdAfterFallback() returns (id: nat)
    ensures id == 1
  {
    var s := new AppState.Fresh();
    id := s.GetNewId();
  }
}

# poll-server-rs: a Dafny model of the poll bookkeeping and session check

poll-server-rs is a small HTTP service for score-voting polls. A poll has a
list of candidates and an inclusive score range. A vote holds one score per
candidate. This project models the sequential logic behind the handlers:

- `Models` (src/models.rs): `PollMetadata`, the vote validator of
  `Poll::add_vote` and the `Poll` object that appends accepted votes in place.
  Its invariant is that every stored vote has one score per candidate, each
  within `[min_score, max_score]`.
- `Auth` (src/auth.rs): `User`, `UserRole`, `SALT_LENGTH`, the layout of the
  digest input (salt, then the UTF-8 bytes of the password), `User::new` and
  `User::authenticate`. SHA-512 is a function-typed parameter `sha512`: any
  deterministic function on byte strings. The random generator is a parameter
  `rng`: the byte stream that fills the salt.
- `State` (src/state.rs): the shared `AppState`. It holds the poll table, the
  id counter cell, and the session and user tables. It also has the fallback
  state used when no saved state loads, and `AppState::get_new_id`. A ghost
  history of issued ids records that ids are strictly increasing.
- `Extractors` (src/extractors.rs): the decision made by
  `AuthenticatedUser::from_request_parts`. The steps are cookie, then session,
  then role, then expiration. It is a pure function of the verified cookie
  token, the two tables and the current time `now`, given as an integer.
  Being a function, it cannot add, refresh or purge a session.
- `Handlers` (src/main.rs): `get_new_id` on the counter cell, and
  `create_poll`, `get_poll`, `delete_poll`, `add_vote` and `list_polls`. Each
  is one atomic step on `AppState`. Its result is a value or an error tag:
  `NotFound`, or `UnprocessableEntity` carrying the validator's reason.

`AppState` combines the two snapshots of the source. src/main.rs and
src/state.rs declare only the poll table and the counter. src/extractors.rs
reads `user_sessions` and `users` from the same state. The model keeps all
four tables in one object. `AppState.Valid()` states the invariant that the
handlers preserve:

- each poll is stored under its own id;
- every key is at most the counter;
- every stored vote is well formed;
- distinct keys hold distinct poll objects, as Rust's ownership guarantees;
- the issued ids are strictly increasing and at most the counter;
- every session belongs to a known user.

## Model

| member | source | states |
|---|---|---|
| `Models.CheckVote` | src/models.rs:39-43 | accepts exactly the well-formed votes; a wrong length gives `InvalidVoteLengthError` whatever the scores (the length check comes first); a right-length vote with some score outside `[min_score, max_score]` gives `OutsideScoreRangeError` |
| `Models.AnyOutsideRange` | src/models.rs:42 | the left-to-right `any` scan finds an out-of-range score iff some position holds one |
| `Models.InvertedRangeRejectsEveryVote` | src/models.rs:40-43 | with `min_score > max_score` and at least one candidate, every vote is rejected |
| `Models.ScoreRangeExamples` | src/models.rs:39-48 | with scores 0..5 and three candidates: `[0,5]` is rejected for length, `[0,6,1]` for range, and `[0,5,1]` is accepted |
| `Models.Poll.constructor` | src/models.rs:19-29 | the metadata equals the arguments (id, candidates, min and max score); the vote list is empty; the poll is valid |
| `Models.Poll.AddVote` | src/models.rs:39-48 | returns the validator's verdict; on success `votes` becomes the old votes plus the vote, otherwise it is unchanged; `metadata` never changes; validity is preserved |
| `Auth.Utf8` | src/auth.rs:49 | the bytes of a password (`as_bytes`, UTF-8) take between one and four bytes per character |
| `Auth.Utf8Ascii` | src/auth.rs:49 | an ASCII password is encoded as its character codes, one byte each |
| `Auth.DecodeEncodeChar` | src/auth.rs:49 | decoding the UTF-8 bytes of one character gives back its code point |
| `Auth.Utf8Injective` | src/auth.rs:49 | the byte encoding of passwords (`as_bytes`, UTF-8) is injective |
| `Auth.SaltedInput` | src/auth.rs:47-49 | the digest input is the salt followed by the password's bytes; its length is the salt's plus the bytes' |
| `Auth.SaltedInputInjective` | src/auth.rs:47-49 | for salts of one length, the digest input determines both the salt and the password |
| `Auth.GetSaltedHash` | src/auth.rs:47-52 | the result is the digest of the salt followed by the password's bytes |
| `Auth.FillSalt` | src/auth.rs:29-31 | the salt has exactly `SALT_LENGTH` (16) bytes, those the generator yields |
| `Auth.NewUser` | src/auth.rs:28-41 | the username and role are stored unchanged; the salt has 16 bytes; the stored hash is the digest of salt followed by the password's bytes |
| `Auth.Authenticate` | src/auth.rs:43-45 | true iff the stored hash equals the digest of the stored salt followed by the given password's bytes |
| `Auth.NewThenAuthenticate` | src/auth.rs:28-45 | a user just created authenticates with its own password, for every salt and every digest function |
| `Auth.OnlyOwnPasswordAuthenticates` | src/auth.rs:43-52 | if the digest has no collisions, a created user authenticates with no other password |
| `State.AppState.Fresh` | src/state.rs:31-40 | the fallback state has counter 0, an empty poll table and no issued ids, and it is valid |
| `State.AppState.GetNewId` | src/state.rs:17-21 | the counter becomes old + 1 and that value is returned; it exceeds every id issued before and is appended to the history; the poll table is untouched |
| `State.FirstIdAfterFallback` | src/state.rs:17-40 | the first id issued from the fallback state is 1 |
| `Extractors.FromRequestParts` | src/extractors.rs:24-47 | success iff the cookie is present, its session exists and its expiration is strictly after `now`; then the username is the session's and the role is that user's; each rejection tag iff its condition: no cookie gives `NotSignedIn`, an unknown token gives `InvalidSessionCookie`, `expiration <= now` gives `SessionExpired` (the texts of these tags are `Extractors.Message`) |
| `Extractors.MessagesDistinct` | src/extractors.rs:39-45 | the three rejection texts ("session expired", "not a valid session cookie", "you are not signed in") are pairwise different |
| `Extractors.ExpiryIsPermanent` | src/extractors.rs:32-40 | a session accepted at some time was accepted at every earlier time; one expired stays expired at every later time |
| `Extractors.ValidStateHasRoles` | src/extractors.rs:29-31 | on a valid state the role lookup succeeds for any cookie, expired sessions included |
| `Handlers.GetNewId` | src/main.rs:42-45 | the counter becomes old + 1 and the new value is returned |
| `Handlers.CreatePoll` | src/main.rs:72-84 | stores, under `id = old counter + 1`, a poll whose metadata carries `id` and the request's fields and which has no votes; that id was not a key before, so nothing is overwritten; the new poll object is fresh and every other key keeps the same poll object, so the table's objects are the old ones plus the new one; the invariant is preserved |
| `Handlers.GetPoll` | src/main.rs:87-97 | returns the stored metadata when the id is a key, `NotFound` otherwise; nothing changes |
| `Handlers.DeletePoll` | src/main.rs:100-110 | removes exactly that key (and its poll object) when present; otherwise returns `NotFound` with the table unchanged; every other key keeps its poll object; the invariant is preserved |
| `Handlers.AddVote` | src/main.rs:113-134 | on an absent id returns `NotFound` with the table unchanged; on a present id only that poll may change, exactly as `Poll::add_vote` decides, and each validation error becomes `UnprocessableEntity` with its reason |
| `Handlers.ListPolls` | src/main.rs:62-69 | returns one metadata per poll: the result has as many entries as the table, contains every poll's metadata, only stored metadata, and no id twice |

## Left out

- HTTP layer: routing, the `main` function, the TCP listener, status codes beyond an error tag, and the formatted error messages of src/main.rs (src/main.rs:95, 108, 125, 128, 132, 151-170).
- JSON persistence: `load_state_from_file`, `save_state_to_file` and the `save_state` handler (src/state.rs:24-29, 49-53; src/main.rs:23-28, 47-59). These are file I/O. Of `initialize_state`, only the fallback value is modelled. A state loaded from a file is not proved to satisfy `AppState.Valid()`.
- src/main.rs declares its own `AppState` and `initialize_state` (src/main.rs:17-40). They match those of src/state.rs and are modelled once, as `State.AppState` and `State.AppState.Fresh`.
- `list_votes` (src/main.rs:136-149): it calls `Poll::list_votes`, which src/models.rs does not define.
- `PollCreationRequest` and `Vote` are not defined in src/models.rs. They are modelled from their uses: the fields read at src/main.rs:80-82, and `Vec<u8>` at src/models.rs:39.
- Locking: every `Arc<Mutex<..>>` and `.lock().unwrap()` is dropped. Each handler is one atomic step; concurrency is not modelled.
- SHA-512 and `rand::thread_rng` are foreign libraries. They are the parameters `sha512` and `rng`. Nothing is claimed about collision resistance or salt uniqueness. The comparison in `authenticate` is plain equality; timing is not modelled.
- The signed cookie jar is a library: `SignedCookieJar::from_request_parts`, its error at src/extractors.rs:26, and signature checking are not part of this model. The decision starts from the token of an already verified cookie, or `None`.
- `Utc::now` is the integer parameter `now`; expirations are integers.
- The role lookup at src/extractors.rs:31 unwraps. `Extractors.FromRequestParts` therefore requires that a session the cookie names belongs to a known user. That is exactly the case in which the code would otherwise panic.
- The fallback state (src/state.rs:31-40) has no session or user tables; the model starts them empty. src/main.rs, src/state.rs and src/auth.rs contain no login handler and insert no session: `LoginRequest` (src/auth.rs:21-25) is declared but not handled there, and `User::new` is not called there. `SESSION_COOKIE` and the `user_sessions` table that src/extractors.rs:6 and 28 use are defined elsewhere and are not part of this model. Login and session issuance are therefore not modelled.
- Handlers.GetNewId: the counter is a `nat`; the `usize` wrap-around after 2^64 - 1 ids is not modelled.
- State.AppState.GetNewId: the counter is a `nat`; the `usize` wrap-around after 2^64 - 1 ids is not modelled.

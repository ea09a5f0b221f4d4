# Collaborative playlist lists: a Dafny model

This project models the list controller of a collaborative playlist backend.
A list has a queue of pending `songs`, an optional `currentSong`, a
most-recent-first `history`, a list of member `users`, a privacy flag, a
name, a unique short `code` and an admin-password hash. Participants add
songs. The admin, proving the password, removes queued songs, advances,
rewinds or jumps to a specific song. A private list is readable only by its
members.

Every HTTP handler is modelled as a pure function over the store of lists.
The store is a `seq<List>`. The handler finds the list by code (or by name),
applies the gate, runs a transition on the list and saves it back in place.
A failed request returns an error and no store, so nothing is persisted.
Password verification is the function parameter `verify(hash, password)`.
Hashing is the parameter `hash(password)`. The fresh list code and the fresh
song id are arguments.

Modules:

- `Results`: `Option` and `Result`.
- `Errors`: the failure taxonomy and the HTTP status each failure answers with.
- `Schema`: the song and list documents, required fields, defaults and validity.
- `SongSeq`: the array operations the controller uses. These are `slice(0, n)`, `findIndex` by id, `splice(i, 1)` and the array `pull` by id.
- `Playlist`: the queue and playback transitions on one list.
- `PlaylistLaws`: round trips, song conservation, invariants, and repeated advances.
- `Access`: the membership gate (`CanView`, join, view).
- `Directory`: lookup by code and by name, insertion under the unique code, and in-place save.
- `Controller`: the ten handlers.
- `Session`: runs of requests, and the store invariant they keep.
- `Scenarios`: concrete runs.

Some of the code's behaviour may be unexpected:

- `deleteSong` uses the array `pull`, so it removes every queued song with the id, not just the first.
- Only `addSong`, `deleteSong` and `playSpecificSong` broadcast. `playNextSong` and `playPreviousSong` save without emitting. The `broadcast` flag of `Controller.Updated` records this.
- A song that `addSong` promotes on a list with nothing playing also stays at the tail of the queue. So the next advance archives it and then plays it again from the queue. Two consequences follow. Enqueue A, enqueue B, then advance leaves A current and B queued, not B current. Adding one song and advancing leaves that song current, not nothing. `Scenarios` proves both runs.
- `getHistory` has no membership gate, even for a private list.

## Model

| member | source | states |
|---|---|---|
| Errors.Status | src/modules/Lists/controller.js:25-222 | forbidden answers are 403, missing list or song 404, failed create/add 500, an empty history 400 |
| Schema.MakeSong | src/modules/Lists/schema.js:3-10 | a song is accepted iff title, url and addedBy are non-empty. A missing artist becomes "Desconocido". The thumbnail is kept only when it is a non-empty string |
| Schema.NewList | src/modules/Lists/schema.js:12-22 | a new list is private unless told otherwise, with nothing playing and empty queue, members and history. It is valid iff name, hash and code are non-empty |
| SongSeq.Take | src/modules/Lists/controller.js:147 | `slice(0, n)` yields a prefix whose length is the smaller of n and the input length |
| SongSeq.TakeOfAppendTake | src/modules/Lists/controller.js:146-147 | cutting an older tail before a later cut to the same length changes nothing |
| SongSeq.IndexOf | src/modules/Lists/controller.js:214-222 | `findIndex` gives -1 iff no song has the id, otherwise the first position holding it |
| SongSeq.RemoveAt | src/modules/Lists/controller.js:218-224 | `splice(i, 1)` drops exactly the element at i and keeps the others in order, so the multiset loses that one element |
| SongSeq.Pull | src/modules/Lists/controller.js:100 | `pull` leaves no song with the id and keeps every other song with its multiplicity |
| SongSeq.PullAppend | src/modules/Lists/controller.js:100 | `pull` keeps the relative order of the songs it keeps |
| SongSeq.PullAbsent | src/modules/Lists/controller.js:100 | pulling an id that no song has leaves the queue exactly as it was |
| Playlist.Archive | src/modules/Lists/controller.js:145-148 | a playing song goes to the front of the history. The old history follows as a prefix, and the length is capped at 25 |
| Playlist.AddSong | src/modules/Lists/controller.js:61-71 | the song is appended at the tail and earlier entries and history are unchanged. If nothing was playing it also becomes current, otherwise current is untouched |
| Playlist.DeleteSong | src/modules/Lists/controller.js:100 | only queue entries with the id disappear. The current song, the history and every other queued song stay, in their order (the queue is the array pull, which distributes over concatenation) |
| Playlist.PlayNext | src/modules/Lists/controller.js:145-154 | the playing song is archived and the queue head becomes current with the rest queued. With an empty queue nothing plays |
| Playlist.PlayPrevious | src/modules/Lists/controller.js:178-186 | fails with NoPreviousSongs iff the history is empty. Otherwise the playing song goes to the front of the queue and the history head becomes current |
| Playlist.PlaySpecific | src/modules/Lists/controller.js:213-234 | fails iff the chosen sequence lacks the id. Otherwise the first song with the id is cut from that sequence only and becomes current, and the old current song is archived |
| PlaylistLaws.NextThenPrevious | src/modules/Lists/controller.js:145-186 | with a song playing and history shorter than 25, advance then rewind restores the list exactly |
| PlaylistLaws.PreviousThenNext | src/modules/Lists/controller.js:145-186 | with a song playing and a non-empty history of at most 25, rewind then advance restores the list exactly |
| PlaylistLaws.PreviousThenNextWithoutCurrent | src/modules/Lists/controller.js:145-186 | with nothing playing, rewind then advance plays the queue head instead of returning |
| PlaylistLaws.SpecificHeadIsNext | src/modules/Lists/controller.js:145-234 | jumping to the queue head's id is the same transition as advancing |
| PlaylistLaws.AddSongContents | src/modules/Lists/controller.js:66-71 | adding a song adds one reference to it, or two when it is promoted while staying queued |
| PlaylistLaws.DeleteSongContents | src/modules/Lists/controller.js:100 | deleting removes exactly the queued copies of the id from everything the list holds |
| PlaylistLaws.NextConserves | src/modules/Lists/controller.js:145-154 | advancing moves songs without loss unless the history was already full |
| PlaylistLaws.PreviousConserves | src/modules/Lists/controller.js:178-186 | rewinding never loses or duplicates a song |
| PlaylistLaws.SpecificConserves | src/modules/Lists/controller.js:213-234 | a jump conserves every song unless the archived history overflows |
| PlaylistLaws.AddSongSound | src/modules/Lists/controller.js:61-73 | adding a valid song keeps the list schema-valid and its history within 25 |
| PlaylistLaws.DeleteSongSound | src/modules/Lists/controller.js:100-101 | deleting keeps the list schema-valid and its history within 25 |
| PlaylistLaws.NextSound | src/modules/Lists/controller.js:145-156 | advancing keeps the list schema-valid and its history within 25 |
| PlaylistLaws.PreviousSound | src/modules/Lists/controller.js:178-188 | rewinding keeps the list schema-valid and its history within 25 |
| PlaylistLaws.SpecificSound | src/modules/Lists/controller.js:213-236 | jumping keeps the list schema-valid and its history within 25 |
| PlaylistLaws.NextTimesHistory | src/modules/Lists/controller.js:145-154 | after n advances the history is the n played songs, most recent first, ahead of the old history and cut to 25. So the oldest entry falls out at the 26th push |
| PlaylistLaws.PushThenPlayed | src/modules/Lists/controller.js:146-147 | one capped push followed by later capped pushes equals all the pushes capped once |
| Access.Join | src/modules/Lists/controller.js:39-44 | a non-member of a private list gets "awaiting approval" and nothing changes. Anyone else is appended to the members, duplicates included |
| Access.View | src/modules/Lists/controller.js:122-125 | the list is returned iff it is public or the reader is a member, otherwise NotOnList |
| Access.JoinKeepsAccess | src/modules/Lists/controller.js:39-44 | joining never changes whether anyone can read the list |
| Access.RejoinDuplicates | src/modules/Lists/controller.js:42 | a member who joins again is listed one more time |
| Directory.FindByCode | src/modules/Lists/controller.js:34 | finds a list with the code iff one exists |
| Directory.FindByName | src/modules/Lists/controller.js:266 | finds the first list with the name iff one exists |
| Directory.FindByCodeUnique | src/modules/Lists/schema.js:16 | with unique codes, a lookup by code finds the one list carrying it |
| Directory.Insert | src/modules/Lists/schema.js:16 | insertion fails iff the code is taken. Otherwise the list is appended and codes stay unique |
| Directory.Save | src/modules/Lists/controller.js:156 | saving replaces only the loaded document and keeps codes unique |
| Controller.Admit | src/modules/Lists/controller.js:135-143 | list not found comes first, then a bad password is forbidden. Passing means both checks succeeded |
| Controller.CreateList | src/modules/Lists/controller.js:9-27 | creation fails iff the name, hash or code is empty or the code is taken. Otherwise the new list is appended and codes stay unique |
| Controller.JoinList | src/modules/Lists/controller.js:30-49 | not found iff no list has the code. A pending join stores nothing, a real join saves the appended member |
| Controller.GetList | src/modules/Lists/controller.js:112-129 | not found, then NotOnList iff a private list is read by a non-member. Otherwise it succeeds with exactly the stored list |
| Controller.GetHistory | src/modules/Lists/controller.js:247-260 | the history of the list with the code, with no membership gate |
| Controller.AccessList | src/modules/Lists/controller.js:262-280 | the first list with the name yields its code iff the password verifies |
| Controller.AddSong | src/modules/Lists/controller.js:52-83 | no password is needed. It succeeds iff the list exists and the song has its required fields; then the song is added and the list is saved and broadcast |
| Controller.DeleteSong | src/modules/Lists/controller.js:86-110 | forbidden before any change iff the password fails. Otherwise the id is pulled from the queue and the list is saved and broadcast |
| Controller.PlayNextSong | src/modules/Lists/controller.js:131-162 | forbidden before any change iff the password fails. Otherwise the list advances and is saved without a broadcast |
| Controller.PlayPreviousSong | src/modules/Lists/controller.js:164-194 | the password is checked before the empty-history refusal. It succeeds iff the password verifies and the history is non-empty; then the list rewinds and is saved without a broadcast |
| Controller.PlaySpecificSong | src/modules/Lists/controller.js:196-245 | the password is checked before song-not-found, which is a 404 naming the history or the queue. Otherwise the list jumps and is saved and broadcast |
| Session.SaveConsistent | src/modules/Lists/controller.js:156 | saving a sound list over the same code keeps the store consistent |
| Session.CreateConsistent | src/modules/Lists/controller.js:9-27 | creation keeps codes unique and every list sound, and only appends |
| Session.JoinConsistent | src/modules/Lists/controller.js:39-44 | joining keeps the store consistent and list headers fixed |
| Session.UpdateConsistent | src/modules/Lists/controller.js:156 | saving a transition result keeps the store consistent and headers fixed |
| Session.AddConsistent | src/modules/Lists/controller.js:52-83 | a song request keeps the store consistent |
| Session.DeleteConsistent | src/modules/Lists/controller.js:86-110 | a delete request keeps the store consistent |
| Session.NextConsistent | src/modules/Lists/controller.js:131-162 | an advance keeps the store consistent |
| Session.PreviousConsistent | src/modules/Lists/controller.js:164-194 | a rewind keeps the store consistent |
| Session.SpecificConsistent | src/modules/Lists/controller.js:196-245 | a jump keeps the store consistent |
| Session.HandleConsistent | src/modules/Lists/controller.js:9-245 | any single request keeps the store consistent and never rewrites a list's code, name, hash or privacy |
| Session.ServeConsistent | src/modules/Lists/controller.js:145-234 | after any run of requests codes are unique, every list is schema-valid, every history is at most 25, and headers are fixed |
| Scenarios.PartyScenario | src/modules/Lists/controller.js:9-162 | create, pending join, refused read, add and advance. The added song ends both archived and current |
| Scenarios.EnqueueAdvanceRewind | src/modules/Lists/controller.js:61-186 | enqueue A and B, advance, then rewind. A is replayed from the queue and ends at the queue front |

## Left out

- HTTP transport, the route table, CORS and middleware, and the socket server are not modelled. The room broadcast appears only as the `broadcast` flag of a successful update.
- Database I/O is not modelled. Storage failures and the 500 answers they cause are left out. So are the 400 answer `getList` gives on an unexpected exception, and Mongoose casting of malformed ids or non-string request values. The exceptions are the two failures that follow from the code itself: a song missing a required field, and a duplicate code on creation.
- argon2 hashing and verification are foreign cryptography. They are the parameters `hash` and `verify`. A verification that throws, which the source answers with 500, is not modelled.
- `createList` hashes the password before its error handling, so a missing password rejects outside it. The model always receives a password string.
- Code generation from a random UUID is not modelled. The code is an argument, and there is no retry on collision, as in the source.
- Song `_id`s are an argument of `addSong`. The source hands the same plain object to the queue and to `currentSong`, and each of the two casts gives it a fresh automatic `_id`. The model uses one `Song` value for both. A visible consequence: after a song is promoted and then advanced, a history jump using the queued copy's id answers 404 in the source but succeeds in the model.
- The `addedAt` and `createdAt` time stamps and the success/failure envelope are not modelled.
- Concurrent requests and lost updates are not modelled. Requests are applied one at a time.
- Saves in the handlers other than `addSong` and `createList` are modelled as always succeeding. `Session.ServeConsistent` shows every stored list stays schema-valid, so validation cannot reject those saves.
- `fromHistory` is a boolean and the `getList` username is a string. JavaScript truthiness and absent query parameters are not modelled.

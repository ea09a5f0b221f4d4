/**
 Sequences of requests against the store. Whatever the requests, every
 stored list keeps its code, name, password hash and privacy flag, no two
 lists ever share a code, every list satisfies the schema, and no history
 grows beyond the controller's bound.
 */
module Session {
  import opened Results
  import opened Schema
  import opened Directory
  import opened PlaylistLaws
  import Playlist
  import Access
  import Controller

  /** The requests that can change the store; reads change nothing and are left out here. */
  datatype Request =
    | Create(name: Option<string>, adminPassword: string, isPrivate: Option<bool>, code: string)
    | Join(code: string, user: string)
    | Add(code: string, song: SongRequest, id: SongId)
    | Delete(code: string, songId: SongId, password: string)
    | Next(code: string, password: string)
    | Previous(code: string, password: string)
    | Specific(code: string, songId: SongId, password: string, fromHistory: bool)

  /** The state every reachable store is in. */
  predicate Consistent(store: Store) {
    UniqueCodes(store) && forall k :: 0 <= k < |store| ==> Sound(store[k])
  }

  /** The fields fixed at creation. */
  predicate SameHeader(a: List, b: List) {
    a.name == b.name && a.adminPassword == b.adminPassword && a.isPrivate == b.isPrivate && a.code == b.code
  }

  /** Every list already stored is still there, at the same place, with the same header. */
  predicate Extends(before: Store, after: Store) {
    |before| <= |after| && forall k :: 0 <= k < |before| ==> SameHeader(before[k], after[k])
  }

  /** The store after one request: unchanged when the request fails. */
  function Handle(store: Store, req: Request, verify: Controller.Verifier, hash: string -> string): Store {
    match req
    case Create(name, pw, priv, code) =>
      (match Controller.CreateList(store, name, pw, priv, code, hash)
       case Ok(c) => c.store case Err(_) => store)
    case Join(code, user) =>
      (match Controller.JoinList(store, code, user)
       case Ok(j) => j.store case Err(_) => store)
    case Add(code, song, id) =>
      (match Controller.AddSong(store, code, song, id)
       case Ok(u) => u.store case Err(_) => store)
    case Delete(code, songId, pw) =>
      (match Controller.DeleteSong(store, code, songId, pw, verify)
       case Ok(u) => u.store case Err(_) => store)
    case Next(code, pw) =>
      (match Controller.PlayNextSong(store, code, pw, verify)
       case Ok(u) => u.store case Err(_) => store)
    case Previous(code, pw) =>
      (match Controller.PlayPreviousSong(store, code, pw, verify)
       case Ok(u) => u.store case Err(_) => store)
    case Specific(code, songId, pw, fromHistory) =>
      (match Controller.PlaySpecificSong(store, code, songId, pw, fromHistory, verify)
       case Ok(u) => u.store case Err(_) => store)
  }

  /** The store after a run of requests, in order. */
  function Serve(store: Store, reqs: seq<Request>, verify: Controller.Verifier, hash: string -> string): Store
    decreases |reqs|
  {
    if reqs == [] then store else Serve(Handle(store, reqs[0], verify, hash), reqs[1..], verify, hash)
  }

  /** Saving a sound list over the one with the same code keeps the store consistent. */
  lemma SaveConsistent(store: Store, i: nat, l: List)
    requires Consistent(store) && i < |store| && l.code == store[i].code && Sound(l)
    ensures Consistent(store[i := l])
    ensures SameHeader(store[i], l) ==> Extends(store, store[i := l])
  {
  }

  /** Creating a list keeps a consistent store consistent and only appends to it. */
  lemma CreateConsistent(store: Store, name: Option<string>, pw: string, priv: Option<bool>, code: string,
                         hash: string -> string)
    requires Consistent(store)
    ensures var r := Controller.CreateList(store, name, pw, priv, code, hash);
            r.Ok? ==> Consistent(r.value.store) && Extends(store, r.value.store)
  {
    var r := Controller.CreateList(store, name, pw, priv, code, hash);
    if r.Ok? {
      var s := r.value.store;
      assert s[|store|].history == [];
      assert forall k :: 0 <= k < |store| ==> s[k] == store[k];
    }
  }

  /** Joining keeps a consistent store consistent; only the member list can change. */
  lemma JoinConsistent(store: Store, code: string, user: string)
    requires Consistent(store)
    ensures var r := Controller.JoinList(store, code, user);
            r.Ok? ==> Consistent(r.value.store) && Extends(store, r.value.store)
  {
    var r := Controller.JoinList(store, code, user);
    if r.Ok? && r.value.outcome == Access.Joined {
      var i := FindByCode(store, code).value;
      SaveConsistent(store, i, Access.Join(store[i], user).list);
    }
  }

  /** Saving the result of a playlist transition keeps a consistent store consistent. */
  lemma UpdateConsistent(store: Store, code: string, u: Controller.Updated)
    requires Consistent(store) && FindByCode(store, code).Some?
    requires var i := FindByCode(store, code).value;
             u.store == store[i := u.list] && Sound(u.list) && Playlist.SameIdentity(store[i], u.list)
    ensures Consistent(u.store) && Extends(store, u.store)
  {
    SaveConsistent(store, FindByCode(store, code).value, u.list);
  }

  /** Adding a song keeps a consistent store consistent. */
  lemma AddConsistent(store: Store, code: string, song: SongRequest, id: SongId)
    requires Consistent(store)
    ensures var r := Controller.AddSong(store, code, song, id);
            r.Ok? ==> Consistent(r.value.store) && Extends(store, r.value.store)
  {
    var r := Controller.AddSong(store, code, song, id);
    if r.Ok? {
      var i := FindByCode(store, code).value;
      AddSongSound(store[i], MakeSong(id, song).value);
      UpdateConsistent(store, code, r.value);
    }
  }

  /** Deleting a song keeps a consistent store consistent. */
  lemma DeleteConsistent(store: Store, code: string, songId: SongId, pw: string, verify: Controller.Verifier)
    requires Consistent(store)
    ensures var r := Controller.DeleteSong(store, code, songId, pw, verify);
            r.Ok? ==> Consistent(r.value.store) && Extends(store, r.value.store)
  {
    var r := Controller.DeleteSong(store, code, songId, pw, verify);
    if r.Ok? {
      DeleteSongSound(store[FindByCode(store, code).value], songId);
      UpdateConsistent(store, code, r.value);
    }
  }

  /** Advancing keeps a consistent store consistent. */
  lemma NextConsistent(store: Store, code: string, pw: string, verify: Controller.Verifier)
    requires Consistent(store)
    ensures var r := Controller.PlayNextSong(store, code, pw, verify);
            r.Ok? ==> Consistent(r.value.store) && Extends(store, r.value.store)
  {
    var r := Controller.PlayNextSong(store, code, pw, verify);
    if r.Ok? {
      NextSound(store[FindByCode(store, code).value]);
      UpdateConsistent(store, code, r.value);
    }
  }

  /** Rewinding keeps a consistent store consistent. */
  lemma PreviousConsistent(store: Store, code: string, pw: string, verify: Controller.Verifier)
    requires Consistent(store)
    ensures var r := Controller.PlayPreviousSong(store, code, pw, verify);
            r.Ok? ==> Consistent(r.value.store) && Extends(store, r.value.store)
  {
    var r := Controller.PlayPreviousSong(store, code, pw, verify);
    if r.Ok? {
      PreviousSound(store[FindByCode(store, code).value]);
      UpdateConsistent(store, code, r.value);
    }
  }

  /** Jumping keeps a consistent store consistent. */
  lemma SpecificConsistent(store: Store, code: string, songId: SongId, pw: string, fromHistory: bool,
                           verify: Controller.Verifier)
    requires Consistent(store)
    ensures var r := Controller.PlaySpecificSong(store, code, songId, pw, fromHistory, verify);
            r.Ok? ==> Consistent(r.value.store) && Extends(store, r.value.store)
  {
    var r := Controller.PlaySpecificSong(store, code, songId, pw, fromHistory, verify);
    if r.Ok? {
      SpecificSound(store[FindByCode(store, code).value], songId, fromHistory);
      UpdateConsistent(store, code, r.value);
    }
  }

  /** One request keeps a consistent store consistent and never rewrites a stored header. */
  lemma HandleConsistent(store: Store, req: Request, verify: Controller.Verifier, hash: string -> string)
    requires Consistent(store)
    ensures Consistent(Handle(store, req, verify, hash))
    ensures Extends(store, Handle(store, req, verify, hash))
  {
    match req
    case Create(name, pw, priv, code) => CreateConsistent(store, name, pw, priv, code, hash);
    case Join(code, user) => JoinConsistent(store, code, user);
    case Add(code, song, id) => AddConsistent(store, code, song, id);
    case Delete(code, songId, pw) => DeleteConsistent(store, code, songId, pw, verify);
    case Next(code, pw) => NextConsistent(store, code, pw, verify);
    case Previous(code, pw) => PreviousConsistent(store, code, pw, verify);
    case Specific(code, songId, pw, fromHistory) => SpecificConsistent(store, code, songId, pw, fromHistory, verify);
  }

  /**
   Any run of requests from a consistent store (the empty store is one) ends
   in a consistent store: codes stay unique, every list satisfies the schema,
   every history holds at most 25 songs, and no stored header ever changes.
   */
  lemma {:induction false} ServeConsistent(store: Store, reqs: seq<Request>, verify: Controller.Verifier,
                                           hash: string -> string)
    requires Consistent(store)
    decreases |reqs|
    ensures Consistent(Serve(store, reqs, verify, hash))
    ensures Extends(store, Serve(store, reqs, verify, hash))
    ensures forall k :: 0 <= k < |Serve(store, reqs, verify, hash)| ==>
              |Serve(store, reqs, verify, hash)[k].history| <= SongSeq.HistoryLimit
  {
    if reqs != [] {
      var next := Handle(store, reqs[0], verify, hash);
      HandleConsistent(store, reqs[0], verify, hash);
      ServeConsistent(next, reqs[1..], verify, hash);
      var last := Serve(next, reqs[1..], verify, hash);
      assert forall k :: 0 <= k < |store| ==> SameHeader(store[k], next[k]) && SameHeader(next[k], last[k]);
    }
  }
}

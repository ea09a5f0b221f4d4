/**
 The list controller's handlers over the whole store. Each handler looks the
 list up, applies the admin-password or membership gate, runs the playlist
 transition and saves the list back. A failure never carries a store, so a
 failed request persists nothing. The password hash check is the parameter
 `verify(hash, password)`; hashing is the parameter `hash(password)`; fresh
 codes and song ids come in as arguments.
 */
module Controller {
  import opened Results
  import opened Errors
  import opened Schema
  import opened Directory
  import Access
  import Playlist

  /** `argon2.verify(hash, password)`. */
  type Verifier = (string, string) -> bool

  /** A successful mutation: the saved store, the list sent back, and whether it is broadcast to the room. */
  datatype Updated = Updated(store: Store, list: List, broadcast: bool)

  datatype Created = Created(store: Store, code: string)

  datatype Joined = Joined(store: Store, outcome: Access.JoinOutcome)

  /** The steps every admin handler starts with: find the list by code, then check the password. */
  function Admit(store: Store, code: string, password: string, verify: Verifier): (r: Result<nat, Error>)
    ensures FindByCode(store, code).None? <==> r == Err(ListNotFound)
    ensures r == Err(InvalidPassword) <==>
              FindByCode(store, code).Some? && !verify(store[FindByCode(store, code).value].adminPassword, password)
    ensures r.Ok? <==> FindByCode(store, code).Some?
                       && verify(store[FindByCode(store, code).value].adminPassword, password)
    ensures r.Ok? ==> r.value == FindByCode(store, code).value
  {
    match FindByCode(store, code)
    case None => Err(ListNotFound)
    case Some(i) =>
      if verify(store[i].adminPassword, password) then Ok(i) else Err(InvalidPassword)
  }

  /**
   createList: a list with the hashed password and the given code; refused
   when a required field is empty or the code is already taken.
   */
  function CreateList(store: Store, name: Option<string>, adminPassword: string, isPrivate: Option<bool>,
                      code: string, hash: string -> string): (r: Result<Created, Error>)
    ensures r.Err? ==> r.error == CreateFailed
    ensures r.Ok? <==> Present(name) && |hash(adminPassword)| > 0 && |code| > 0
                       && forall k :: 0 <= k < |store| ==> store[k].code != code
    ensures r.Ok? ==> r.value.code == code
                      && r.value.store == store + [NewList(name.value, hash(adminPassword), isPrivate, code)]
    ensures r.Ok? && UniqueCodes(store) ==> UniqueCodes(r.value.store)
  {
    if !Present(name) then Err(CreateFailed)
    else
      var l := NewList(name.value, hash(adminPassword), isPrivate, code);
      if !ValidList(l) then Err(CreateFailed)
      else
        match Insert(store, l)
        case Err(e) => Err(e)
        case Ok(s) => Ok(Created(s, code))
  }

  /** joinList: the membership outcome, with the store saved only when the user was appended. */
  function JoinList(store: Store, code: string, user: string): (r: Result<Joined, Error>)
    ensures r.Err? <==> FindByCode(store, code).None?
    ensures r.Err? ==> r.error == ListNotFound
    ensures r.Ok? ==>
              var i := FindByCode(store, code).value;
              && r.value.outcome == Access.Join(store[i], user).outcome
              && (r.value.outcome == Access.AwaitingApproval ==> r.value.store == store)
              && (r.value.outcome == Access.Joined ==> r.value.store == store[i := Access.Join(store[i], user).list])
  {
    match FindByCode(store, code)
    case None => Err(ListNotFound)
    case Some(i) =>
      var j := Access.Join(store[i], user);
      if j.outcome == Access.AwaitingApproval then Ok(Joined(store, j.outcome))
      else Ok(Joined(Save(store, i, j.list), j.outcome))
  }

  /** getList: the list, for a reader the membership gate lets through. */
  function GetList(store: Store, code: string, user: string): (r: Result<List, Error>)
    ensures FindByCode(store, code).None? <==> r == Err(ListNotFound)
    ensures r == Err(NotOnList) <==>
              FindByCode(store, code).Some? && !Access.CanView(store[FindByCode(store, code).value], user)
    ensures r.Ok? <==> FindByCode(store, code).Some? && Access.CanView(store[FindByCode(store, code).value], user)
    ensures r.Ok? ==> r.value == store[FindByCode(store, code).value] && r.value.code == code
  {
    match FindByCode(store, code)
    case None => Err(ListNotFound)
    case Some(i) => Access.View(store[i], user)
  }

  /** getHistory: no gate at all, private or not. */
  function GetHistory(store: Store, code: string): (r: Result<seq<Song>, Error>)
    ensures r.Err? <==> FindByCode(store, code).None?
    ensures r.Err? ==> r.error == ListNotFound
    ensures r.Ok? ==> r.value == store[FindByCode(store, code).value].history
  {
    match FindByCode(store, code)
    case None => Err(ListNotFound)
    case Some(i) => Ok(store[i].history)
  }

  /** accessList: the code of the first list with the name, for its admin only. */
  function AccessList(store: Store, name: string, password: string, verify: Verifier): (r: Result<string, Error>)
    ensures FindByName(store, name).None? <==> r == Err(ListNotFound)
    ensures r == Err(InvalidPassword) <==>
              FindByName(store, name).Some? && !verify(store[FindByName(store, name).value].adminPassword, password)
    ensures r.Ok? <==> FindByName(store, name).Some?
                       && verify(store[FindByName(store, name).value].adminPassword, password)
    ensures r.Ok? ==> r.value == store[FindByName(store, name).value].code
  {
    match FindByName(store, name)
    case None => Err(ListNotFound)
    case Some(i) =>
      if verify(store[i].adminPassword, password) then Ok(store[i].code) else Err(InvalidPassword)
  }

  /**
   addSong: no password needed; a song missing a required field makes the
   save fail, otherwise the list gains the song and is broadcast.
   */
  function AddSong(store: Store, code: string, req: SongRequest, id: SongId): (r: Result<Updated, Error>)
    ensures FindByCode(store, code).None? <==> r == Err(ListNotFound)
    ensures r == Err(AddFailed) <==> FindByCode(store, code).Some? && MakeSong(id, req).None?
    ensures r.Ok? <==> FindByCode(store, code).Some? && MakeSong(id, req).Some?
    ensures r.Ok? ==>
              var i := FindByCode(store, code).value;
              && r.value.list == Playlist.AddSong(store[i], MakeSong(id, req).value)
              && r.value.store == store[i := r.value.list]
              && r.value.broadcast
  {
    match FindByCode(store, code)
    case None => Err(ListNotFound)
    case Some(i) =>
      match MakeSong(id, req)
      case None => Err(AddFailed)
      case Some(s) =>
        var l := Playlist.AddSong(store[i], s);
        Ok(Updated(Save(store, i, l), l, true))
  }

  /** deleteSong: admin only; pulls the id from the queue and broadcasts. */
  function DeleteSong(store: Store, code: string, songId: SongId, password: string, verify: Verifier): (r: Result<Updated, Error>)
    ensures r.Err? <==> Admit(store, code, password, verify).Err?
    ensures r.Err? ==> r.error == Admit(store, code, password, verify).error
    ensures r == Err(ListNotFound) <==> FindByCode(store, code).None?
    ensures r == Err(InvalidPassword) <==>
              FindByCode(store, code).Some? && !verify(store[FindByCode(store, code).value].adminPassword, password)
    ensures r.Ok? ==>
              var i := FindByCode(store, code).value;
              && verify(store[i].adminPassword, password)
              && r.value.list == Playlist.DeleteSong(store[i], songId)
              && r.value.store == store[i := r.value.list]
              && r.value.broadcast
  {
    match Admit(store, code, password, verify)
    case Err(e) => Err(e)
    case Ok(i) =>
      var l := Playlist.DeleteSong(store[i], songId);
      Ok(Updated(Save(store, i, l), l, true))
  }

  /** playNextSong: admin only; advances; not broadcast. */
  function PlayNextSong(store: Store, code: string, password: string, verify: Verifier): (r: Result<Updated, Error>)
    ensures r.Err? <==> Admit(store, code, password, verify).Err?
    ensures r.Err? ==> r.error == Admit(store, code, password, verify).error
    ensures r == Err(ListNotFound) <==> FindByCode(store, code).None?
    ensures r == Err(InvalidPassword) <==>
              FindByCode(store, code).Some? && !verify(store[FindByCode(store, code).value].adminPassword, password)
    ensures r.Ok? ==>
              var i := FindByCode(store, code).value;
              && verify(store[i].adminPassword, password)
              && r.value.list == Playlist.PlayNext(store[i])
              && r.value.store == store[i := r.value.list]
              && !r.value.broadcast
  {
    match Admit(store, code, password, verify)
    case Err(e) => Err(e)
    case Ok(i) =>
      var l := Playlist.PlayNext(store[i]);
      Ok(Updated(Save(store, i, l), l, false))
  }

  /** playPreviousSong: admin only, then the empty-history refusal; rewinds; not broadcast. */
  function PlayPreviousSong(store: Store, code: string, password: string, verify: Verifier): (r: Result<Updated, Error>)
    ensures r == Err(InvalidPassword) <==>
              FindByCode(store, code).Some? && !verify(store[FindByCode(store, code).value].adminPassword, password)
    ensures r == Err(ListNotFound) <==> FindByCode(store, code).None?
    ensures r == Err(NoPreviousSongs) <==>
              Admit(store, code, password, verify).Ok? && |store[FindByCode(store, code).value].history| == 0
    ensures r.Ok? <==>
              Admit(store, code, password, verify).Ok? && |store[FindByCode(store, code).value].history| > 0
    ensures r.Ok? ==>
              var i := FindByCode(store, code).value;
              && verify(store[i].adminPassword, password)
              && Playlist.PlayPrevious(store[i]) == Ok(r.value.list)
              && r.value.store == store[i := r.value.list]
              && !r.value.broadcast
  {
    match Admit(store, code, password, verify)
    case Err(e) => Err(e)
    case Ok(i) =>
      match Playlist.PlayPrevious(store[i])
      case Err(e) => Err(e)
      case Ok(l) => Ok(Updated(Save(store, i, l), l, false))
  }

  /** playSpecificSong: admin only, then the not-found refusal; jumps and broadcasts. */
  function PlaySpecificSong(store: Store, code: string, songId: SongId, password: string, fromHistory: bool,
                            verify: Verifier): (r: Result<Updated, Error>)
    ensures r == Err(InvalidPassword) <==>
              FindByCode(store, code).Some? && !verify(store[FindByCode(store, code).value].adminPassword, password)
    ensures r == Err(ListNotFound) <==> FindByCode(store, code).None?
    ensures Admit(store, code, password, verify).Ok? ==>
              var l := store[FindByCode(store, code).value];
              (r.Err? <==> forall k :: 0 <= k < |Playlist.Source(l, fromHistory)| ==> Playlist.Source(l, fromHistory)[k].id != songId)
    ensures Admit(store, code, password, verify).Ok? && r.Err? ==>
              r.error == (if fromHistory then SongNotInHistory else SongNotInList)
    ensures r.Ok? ==>
              var i := FindByCode(store, code).value;
              && verify(store[i].adminPassword, password)
              && Playlist.PlaySpecific(store[i], songId, fromHistory) == Ok(r.value.list)
              && r.value.store == store[i := r.value.list]
              && r.value.broadcast
  {
    match Admit(store, code, password, verify)
    case Err(e) => Err(e)
    case Ok(i) =>
      match Playlist.PlaySpecific(store[i], songId, fromHistory)
      case Err(e) => Err(e)
      case Ok(l) => Ok(Updated(Save(store, i, l), l, true))
  }
}

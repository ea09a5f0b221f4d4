/**
 The document shapes of the list collection: a song sub-document and the list
 document that embeds the queue, the current song and the history. Required
 String fields follow the document mapper's rule: a missing, null or empty
 string is rejected. Time stamps (`addedAt`, `createdAt`) are not modelled.
 */
module Schema {
  import opened Results

  type SongId = string

  /** The artist stored when the request names none. */
  const DefaultArtist: string := "Desconocido"

  datatype Song = Song(
    id: SongId,
    title: string,
    artist: string,
    url: string,
    thumbnail: Option<string>,
    addedBy: string)

  /** A list document. `adminPassword` holds the password hash, never the password. */
  datatype List = List(
    name: string,
    adminPassword: string,
    isPrivate: bool,
    code: string,
    songs: seq<Song>,
    currentSong: Option<Song>,
    users: seq<string>,
    history: seq<Song>)

  /** The song fields as they arrive in a request body; `None` is an absent field. */
  datatype SongRequest = SongRequest(
    title: Option<string>,
    artist: Option<string>,
    url: Option<string>,
    thumbnail: Option<string>,
    addedBy: Option<string>)

  /** A value the `required: true` validator accepts. */
  predicate Present(field: Option<string>) {
    field.Some? && |field.value| > 0
  }

  predicate ValidSong(s: Song) {
    |s.title| > 0 && |s.url| > 0 && |s.addedBy| > 0
  }

  predicate AllValid(songs: seq<Song>) {
    forall s :: s in songs ==> ValidSong(s)
  }

  /** Every field the list schema requires is filled, and so is every embedded song's. */
  predicate ValidList(l: List) {
    && |l.name| > 0
    && |l.adminPassword| > 0
    && |l.code| > 0
    && AllValid(l.songs)
    && AllValid(l.history)
    && (l.currentSong.Some? ==> ValidSong(l.currentSong.value))
  }

  /**
   The song the controller builds from a request: `None` when a required field
   is missing, so that saving it would fail. The artist falls back to the
   default, and a thumbnail is kept only when it is a non-empty string.
   */
  function MakeSong(id: SongId, req: SongRequest): (r: Option<Song>)
    ensures r.Some? <==> Present(req.title) && Present(req.url) && Present(req.addedBy)
    ensures r.Some? ==> ValidSong(r.value) && r.value.id == id
    ensures r.Some? ==> r.value.title == req.title.value && r.value.url == req.url.value
                        && r.value.addedBy == req.addedBy.value
    ensures r.Some? && req.artist.None? ==> r.value.artist == DefaultArtist
    ensures r.Some? && req.artist.Some? ==> r.value.artist == req.artist.value
    ensures r.Some? ==> (r.value.thumbnail.Some? <==> Present(req.thumbnail))
    ensures r.Some? && Present(req.thumbnail) ==> r.value.thumbnail == req.thumbnail
  {
    if Present(req.title) && Present(req.url) && Present(req.addedBy) then
      var artist := match req.artist case Some(a) => a case None => DefaultArtist;
      var thumbnail := if Present(req.thumbnail) then req.thumbnail else None;
      Some(Song(id, req.title.value, artist, req.url.value, thumbnail, req.addedBy.value))
    else
      None
  }

  /**
   A freshly created list: private unless the request says otherwise, nothing
   playing, and empty queue, membership and history.
   */
  function NewList(name: string, passwordHash: string, isPrivate: Option<bool>, code: string): (l: List)
    ensures l.name == name && l.adminPassword == passwordHash && l.code == code
    ensures isPrivate.None? ==> l.isPrivate
    ensures isPrivate.Some? ==> l.isPrivate == isPrivate.value
    ensures l.currentSong.None?
    ensures l.songs == [] && l.users == [] && l.history == []
    ensures ValidList(l) <==> |name| > 0 && |passwordHash| > 0 && |code| > 0
  {
    var priv := match isPrivate case Some(p) => p case None => true;
    List(name, passwordHash, priv, code, [], None, [], [])
  }
}

/**
 The playlist state machine: each queue or playback handler of the list
 controller, once the document load, the password check, the save and the
 room broadcast are stripped away, as a pure transition on one list.
 The state is the queue `songs`, the optional `currentSong` and the
 most-recent-first `history`.
 */
module Playlist {
  import opened Results
  import opened Errors
  import opened Schema
  import opened SongSeq

  /** The fields no queue or playback transition touches. */
  predicate SameIdentity(a: List, b: List) {
    && a.name == b.name
    && a.adminPassword == b.adminPassword
    && a.isPrivate == b.isPrivate
    && a.code == b.code
    && a.users == b.users
  }

  /** Every song reference the list holds, counted with multiplicity. */
  function Contents(l: List): multiset<Song> {
    multiset(l.songs) + multiset(l.history)
      + (match l.currentSong case Some(c) => multiset{c} case None => multiset{})
  }

  /** The controller's bound on the history; nothing in the schema enforces it. */
  predicate HistoryBounded(l: List) {
    |l.history| <= HistoryLimit
  }

  /**
   Archiving the playing song: when there is one it is pushed onto the front of
   the history, and the history is cut back to its 25 most recent entries.
   */
  function Archive(h: seq<Song>, current: Option<Song>): (r: seq<Song>)
    ensures current.None? ==> r == h
    ensures current.Some? ==> |r| == (if |h| < HistoryLimit then |h| + 1 else HistoryLimit)
    ensures current.Some? ==> r[0] == current.value && r[1..] <= h
    ensures forall x :: x in r ==> x in h || current == Some(x)
  {
    match current
    case None => h
    case Some(c) =>
      var r := Take([c] + h, HistoryLimit);
      assert r[1..] <= ([c] + h)[1..];
      assert ([c] + h)[1..] == h;
      r
  }

  /**
   addSong: the song joins the tail of the queue; when nothing is playing it
   also becomes the current song, while staying in the queue.
   */
  function AddSong(l: List, s: Song): (r: List)
    ensures SameIdentity(l, r)
    ensures |r.songs| == |l.songs| + 1 && l.songs <= r.songs && r.songs[|l.songs|] == s
    ensures r.history == l.history
    ensures l.currentSong.None? ==> r.currentSong == Some(s)
    ensures l.currentSong.Some? ==> r.currentSong == l.currentSong
  {
    var songs := l.songs + [s];
    if l.currentSong.None? then l.(songs := songs, currentSong := Some(s))
    else l.(songs := songs)
  }

  /**
   deleteSong: every queued song with the id is removed; the current song and
   the history are not looked at, even when they carry the same id.
   */
  function DeleteSong(l: List, id: SongId): (r: List)
    ensures SameIdentity(l, r)
    ensures r.currentSong == l.currentSong && r.history == l.history
    ensures r.songs == Pull(l.songs, id)
    ensures forall x :: multiset(r.songs)[x] == (if x.id == id then 0 else multiset(l.songs)[x])
  {
    l.(songs := Pull(l.songs, id))
  }

  /**
   playNextSong: the playing song, if any, is archived; the head of the queue
   becomes the current song, or nothing plays when the queue is empty.
   */
  function PlayNext(l: List): (r: List)
    ensures SameIdentity(l, r)
    ensures r.history == Archive(l.history, l.currentSong)
    ensures |l.songs| > 0 ==> r.currentSong == Some(l.songs[0]) && r.songs == l.songs[1..]
    ensures |l.songs| == 0 ==> r.currentSong.None? && r.songs == []
    ensures l.currentSong.Some? ==> HistoryBounded(r)
  {
    var history := Archive(l.history, l.currentSong);
    if |l.songs| > 0 then l.(history := history, currentSong := Some(l.songs[0]), songs := l.songs[1..])
    else l.(history := history, currentSong := None)
  }

  /**
   playPreviousSong: fails when the history is empty; otherwise the playing
   song, if any, goes back to the FRONT of the queue and the most recent
   history entry becomes the current song.
   */
  function PlayPrevious(l: List): (r: Result<List, Error>)
    ensures r.Err? <==> |l.history| == 0
    ensures r.Err? ==> r.error == NoPreviousSongs
    ensures r.Ok? ==> SameIdentity(l, r.value)
    ensures r.Ok? ==> r.value.currentSong == Some(l.history[0]) && r.value.history == l.history[1..]
    ensures r.Ok? && l.currentSong.Some? ==>
              |r.value.songs| == |l.songs| + 1 && r.value.songs[0] == l.currentSong.value
              && r.value.songs[1..] == l.songs
    ensures r.Ok? && l.currentSong.None? ==> r.value.songs == l.songs
  {
    if |l.history| == 0 then Err(NoPreviousSongs)
    else
      var songs := match l.currentSong case Some(c) => [c] + l.songs case None => l.songs;
      Ok(l.(songs := songs, currentSong := Some(l.history[0]), history := l.history[1..]))
  }

  /** The sequence a jump searches: the history or the queue. */
  function Source(l: List, fromHistory: bool): seq<Song> {
    if fromHistory then l.history else l.songs
  }

  /**
   playSpecificSong: the first song with the id is cut out of the chosen
   sequence and becomes the current song; the song playing before, if any, is
   archived. An id the chosen sequence lacks is reported and nothing changes.
   */
  function PlaySpecific(l: List, id: SongId, fromHistory: bool): (r: Result<List, Error>)
    ensures r.Err? <==> forall k :: 0 <= k < |Source(l, fromHistory)| ==> Source(l, fromHistory)[k].id != id
    ensures r.Err? ==> r.error == (if fromHistory then SongNotInHistory else SongNotInList)
    ensures r.Ok? ==> SameIdentity(l, r.value)
    ensures r.Ok? ==>
              var i := IndexOf(Source(l, fromHistory), id);
              0 <= i && r.value.currentSong == Some(Source(l, fromHistory)[i])
              && r.value.currentSong.value.id == id
    ensures r.Ok? && fromHistory ==>
              r.value.songs == l.songs
              && r.value.history == Archive(RemoveAt(l.history, IndexOf(l.history, id)), l.currentSong)
    ensures r.Ok? && !fromHistory ==>
              r.value.songs == RemoveAt(l.songs, IndexOf(l.songs, id))
              && r.value.history == Archive(l.history, l.currentSong)
  {
    var src := Source(l, fromHistory);
    var i := IndexOf(src, id);
    if i == -1 then
      Err(if fromHistory then SongNotInHistory else SongNotInList)
    else
      var target := src[i];
      var songs := if fromHistory then l.songs else RemoveAt(l.songs, i);
      var history := if fromHistory then RemoveAt(l.history, i) else l.history;
      Ok(l.(songs := songs, history := Archive(history, l.currentSong), currentSong := Some(target)))
  }
}

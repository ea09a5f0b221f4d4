/**
 Concrete runs of the handlers. They show the controller's actual behaviour
 where it differs from what one might expect: a song promoted on an empty
 list also stays queued, so the next advance plays it a second time.
 */
module Scenarios {
  import opened Results
  import opened Errors
  import opened Schema
  import Access
  import Directory
  import Playlist
  import Controller

  /**
   Create a private list, have a non-member ask to join, add one song and
   advance: the join is only pending, the reader is refused, the song is
   current and queued, and the advance archives it and plays it again.
   */
  lemma PartyScenario(hash: string -> string, verify: Controller.Verifier)
    requires |hash("sesame")| > 0 && verify(hash("sesame"), "sesame")
    ensures var c := Controller.CreateList([], Some("Party"), "sesame", Some(true), "C0", hash);
            && c.Ok? && c.value.code == "C0"
            && var j := Controller.JoinList(c.value.store, "C0", "alice");
            && j.Ok? && j.value.outcome == Access.AwaitingApproval && j.value.store == c.value.store
            && Controller.GetList(j.value.store, "C0", "alice") == Err(NotOnList)
            && var req := SongRequest(Some("Song1"), None, Some("https://song1"), None, Some("bob"));
            && var a := Controller.AddSong(j.value.store, "C0", req, "s1");
            && var song1 := Song("s1", "Song1", DefaultArtist, "https://song1", None, "bob");
            && a.Ok? && a.value.list.currentSong == Some(song1) && a.value.list.songs == [song1]
            && var n := Controller.PlayNextSong(a.value.store, "C0", "sesame", verify);
            && n.Ok? && n.value.list.currentSong == Some(song1)
            && n.value.list.history == [song1] && n.value.list.songs == []
  {
  }

  /**
   Enqueue A then B on an empty list, advance, rewind: A was current, so the
   advance plays A again from the queue, and the rewind puts A back in front.
   */
  lemma EnqueueAdvanceRewind(l: List, a: Song, b: Song)
    requires l.songs == [] && l.currentSong.None? && l.history == []
    ensures var two := Playlist.AddSong(Playlist.AddSong(l, a), b);
            && two.currentSong == Some(a) && two.songs == [a, b]
            && var next := Playlist.PlayNext(two);
            && next.currentSong == Some(a) && next.history == [a] && next.songs == [b]
            && var prev := Playlist.PlayPrevious(next);
            && prev.Ok? && prev.value.currentSong == Some(a) && prev.value.songs == [a, b]
            && prev.value.history == []
  {
  }
}

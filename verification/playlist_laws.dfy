/**
 Laws of the playlist transitions: the rewind/advance round trips, what each
 transition does to the multiset of songs the list holds, the history bound
 and schema validity as invariants, and the effect of repeated advances.
 */
module PlaylistLaws {
  import opened Results
  import opened Schema
  import opened SongSeq
  import opened Playlist

  /** The state every stored list is in: the schema is satisfied and the history is within its bound. */
  predicate Sound(l: List) {
    ValidList(l) && HistoryBounded(l)
  }

  /** Advancing and then rewinding restores the list exactly, as long as the advance dropped nothing. */
  lemma NextThenPrevious(l: List)
    requires l.currentSong.Some? && |l.history| < HistoryLimit
    ensures PlayPrevious(PlayNext(l)) == Ok(l)
  {
    var n := PlayNext(l);
    if |l.songs| > 0 {
      assert [l.songs[0]] + l.songs[1..] == l.songs;
    }
    assert n.history[1..] == l.history;
  }

  /** Rewinding and then advancing restores the list exactly when a song was playing. */
  lemma PreviousThenNext(l: List)
    requires l.currentSong.Some? && 0 < |l.history| <= HistoryLimit
    ensures PlayPrevious(l).Ok?
    ensures PlayNext(PlayPrevious(l).value) == l
  {
  }

  /** Without a playing song, rewinding then advancing does not come back: the queue head plays instead. */
  lemma PreviousThenNextWithoutCurrent(l: List)
    requires l.currentSong.None? && 0 < |l.history| && 0 < |l.songs|
    ensures PlayPrevious(l).Ok?
    ensures PlayNext(PlayPrevious(l).value).currentSong == Some(l.songs[0])
    ensures PlayNext(PlayPrevious(l).value).history[0] == l.history[0]
  {
  }

  /** Jumping to the queue head is the same as advancing. */
  lemma SpecificHeadIsNext(l: List)
    requires |l.songs| > 0
    ensures PlaySpecific(l, l.songs[0].id, false) == Ok(PlayNext(l))
  {
    assert IndexOf(l.songs, l.songs[0].id) == 0;
    assert RemoveAt(l.songs, 0) == l.songs[1..];
  }

  /** Adding a song adds it once, or twice when it is promoted while also staying queued. */
  lemma AddSongContents(l: List, s: Song)
    ensures l.currentSong.Some? ==> Contents(AddSong(l, s)) == Contents(l) + multiset{s}
    ensures l.currentSong.None? ==> Contents(AddSong(l, s)) == Contents(l) + multiset{s, s}
  {
  }

  /** Deleting removes exactly the queued copies of the id and nothing else. */
  lemma DeleteSongContents(l: List, id: SongId)
    ensures forall x :: Contents(DeleteSong(l, id))[x]
              == Contents(l)[x] - (if x.id == id then multiset(l.songs)[x] else 0)
  {
  }

  /** Advancing moves songs between queue, current slot and history without loss, unless the history overflows. */
  lemma NextConserves(l: List)
    requires l.currentSong.None? || |l.history| < HistoryLimit
    ensures Contents(PlayNext(l)) == Contents(l)
  {
    var r := PlayNext(l);
    if |l.songs| > 0 {
      assert l.songs == [l.songs[0]] + l.songs[1..];
    }
    if l.currentSong.Some? {
      assert r.history == [l.currentSong.value] + l.history by {
        assert r.history[1..] == l.history;
        assert r.history == [r.history[0]] + r.history[1..];
      }
    }
  }

  /** Rewinding never loses a song. */
  lemma PreviousConserves(l: List)
    requires |l.history| > 0
    ensures Contents(PlayPrevious(l).value) == Contents(l)
  {
    var r := PlayPrevious(l).value;
    assert l.history == [l.history[0]] + l.history[1..];
    if l.currentSong.Some? {
      assert r.songs == [l.currentSong.value] + l.songs;
    }
  }

  /**
   A jump conserves every song when the archived history does not overflow:
   always for a jump into the history, and for a jump into the queue when the
   history has room for the song that was playing.
   */
  lemma SpecificConserves(l: List, id: SongId, fromHistory: bool)
    requires PlaySpecific(l, id, fromHistory).Ok?
    requires l.currentSong.None? || |l.history| < HistoryLimit + (if fromHistory then 1 else 0)
    ensures Contents(PlaySpecific(l, id, fromHistory).value) == Contents(l)
  {
  }

  /** Adding a valid song keeps a sound list sound. */
  lemma AddSongSound(l: List, s: Song)
    requires Sound(l) && ValidSong(s)
    ensures Sound(AddSong(l, s))
  {
  }

  /** Deleting keeps a sound list sound. */
  lemma DeleteSongSound(l: List, id: SongId)
    requires Sound(l)
    ensures Sound(DeleteSong(l, id))
  {
  }

  /** Advancing keeps a sound list sound. */
  lemma NextSound(l: List)
    requires Sound(l)
    ensures Sound(PlayNext(l))
  {
  }

  /** Rewinding keeps a sound list sound. */
  lemma PreviousSound(l: List)
    requires Sound(l) && |l.history| > 0
    ensures Sound(PlayPrevious(l).value)
  {
  }

  /** Jumping keeps a sound list sound. */
  lemma SpecificSound(l: List, id: SongId, fromHistory: bool)
    requires Sound(l) && PlaySpecific(l, id, fromHistory).Ok?
    ensures Sound(PlaySpecific(l, id, fromHistory).value)
  {
  }

  /** `n` advances in a row. */
  function NextTimes(l: List, n: nat): List
    decreases n
  {
    if n == 0 then l else NextTimes(PlayNext(l), n - 1)
  }

  /**
   After `n` advances through a queue of at least `n` songs, the history is
   the songs played, most recent first, in front of the old history, cut to
   its 25 most recent entries; so the 26th advance pushes out the oldest one.
   */
  lemma {:induction false} NextTimesHistory(l: List, n: nat)
    requires l.currentSong.Some? && n <= |l.songs| && HistoryBounded(l)
    decreases n
    ensures NextTimes(l, n).songs == l.songs[n..]
    ensures n > 0 ==> NextTimes(l, n).currentSong == Some(l.songs[n - 1])
    ensures NextTimes(l, n).history
              == Take(Reverse(([l.currentSong.value] + l.songs)[..n]) + l.history, HistoryLimit)
  {
    var c, songs, h := l.currentSong.value, l.songs, l.history;
    if n == 0 {
      assert ([c] + songs)[..0] == [];
      assert Reverse<Song>([]) + h == h;
    } else {
      var l1 := PlayNext(l);
      assert NextTimes(l, n) == NextTimes(l1, n - 1);
      assert l1.currentSong == Some(songs[0]);
      assert HistoryBounded(l1);
      assert n - 1 <= |l1.songs|;
      NextTimesHistory(l1, n - 1);
      var played := songs[..n - 1];
      assert l1.songs == songs[1..];
      assert l1.history == Take([c] + h, HistoryLimit);
      assert ([songs[0]] + l1.songs)[..n - 1] == played by {
        assert [songs[0]] + l1.songs == songs;
      }
      assert ([c] + songs)[..n] == [c] + played;
      PushThenPlayed(c, played, h);
    }
  }

  /** One push followed by the later pushes equals all the pushes at once. */
  lemma PushThenPlayed(c: Song, played: seq<Song>, h: seq<Song>)
    ensures Take(Reverse(played) + Take([c] + h, HistoryLimit), HistoryLimit)
            == Take(Reverse([c] + played) + h, HistoryLimit)
  {
  }
}

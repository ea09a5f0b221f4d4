/**
 The sequence operations the controller performs on the song arrays:
 `slice(0, n)`, `findIndex` by id, `splice(i, 1)` and the array `pull` by id.
 */
module SongSeq {
  import opened Schema

  /** The history length the controller keeps after every push. */
  const HistoryLimit: nat := 25

  /** `s.slice(0, n)`: the first `n` elements, or all of them when there are fewer. */
  function Take<T>(s: seq<T>, n: nat): (r: seq<T>)
    ensures |r| == (if |s| <= n then |s| else n)
    ensures r <= s
  {
    if |s| <= n then s else s[..n]
  }

  /** A prefix of a prefix: cutting the tail first changes nothing once the front is cut again. */
  lemma TakeOfAppendTake<T>(x: seq<T>, y: seq<T>, n: nat)
    ensures Take(x + Take(y, n), n) == Take(x + y, n)
  {
  }

  /** Elements in reverse order. */
  function Reverse<T>(s: seq<T>): (r: seq<T>)
    ensures |r| == |s|
  {
    if s == [] then [] else Reverse(s[1..]) + [s[0]]
  }

  /**
   `findIndex(song => song._id == id)`: the position of the first song with
   that id, or -1 when none has it.
   */
  function IndexOf(s: seq<Song>, id: SongId): (r: int)
    ensures -1 <= r < |s|
    ensures r == -1 <==> forall k :: 0 <= k < |s| ==> s[k].id != id
    ensures 0 <= r ==> s[r].id == id && forall k :: 0 <= k < r ==> s[k].id != id
  {
    if |s| == 0 then -1
    else if s[0].id == id then 0
    else
      var k := IndexOf(s[1..], id);
      if k == -1 then -1 else k + 1
  }

  /** `splice(i, 1)`: the sequence without its element at position `i`, the others in order. */
  function RemoveAt<T>(s: seq<T>, i: nat): (r: seq<T>)
    requires i < |s|
    ensures |r| == |s| - 1
    ensures forall k :: 0 <= k < i ==> r[k] == s[k]
    ensures forall k :: i <= k < |r| ==> r[k] == s[k + 1]
    ensures multiset(r) + multiset{s[i]} == multiset(s)
    ensures forall x :: x in r ==> x in s
  {
    assert s == s[..i] + [s[i]] + s[i + 1..];
    s[..i] + s[i + 1..]
  }

  /**
   Mongoose's `pull({ _id: id })` on a song array: every song carrying the id
   is gone, every other song keeps its multiplicity.
   */
  function Pull(s: seq<Song>, id: SongId): (r: seq<Song>)
    ensures |r| <= |s|
    ensures forall x :: multiset(r)[x] == (if x.id == id then 0 else multiset(s)[x])
  {
    if s == [] then []
    else
      assert s == [s[0]] + s[1..];
      var rest := Pull(s[1..], id);
      if s[0].id == id then rest else [s[0]] + rest
  }

  /** Pull keeps the relative order of what it keeps: it distributes over concatenation. */
  lemma {:induction false} PullAppend(a: seq<Song>, b: seq<Song>, id: SongId)
    ensures Pull(a + b, id) == Pull(a, id) + Pull(b, id)
  {
    if a == [] {
      assert a + b == b;
    } else {
      assert (a + b)[1..] == a[1..] + b;
      PullAppend(a[1..], b, id);
    }
  }

  /** Pulling an id nobody carries leaves the sequence exactly as it was. */
  lemma {:induction false} PullAbsent(s: seq<Song>, id: SongId)
    requires forall k :: 0 <= k < |s| ==> s[k].id != id
    ensures Pull(s, id) == s
  {
    if s != [] {
      PullAbsent(s[1..], id);
      assert s == [s[0]] + s[1..];
    }
  }
}

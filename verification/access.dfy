/**
 The membership gate of a list: who may read it, and what joining does.
 A private list can be read only by its members, and joining it as a
 non-member only reports that approval is pending; no approval step exists.
 */
module Access {
  import opened Results
  import opened Errors
  import opened Schema

  /** A public list can be read by anyone, a private one by its members. */
  predicate CanView(l: List, user: string) {
    !l.isPrivate || user in l.users
  }

  datatype JoinOutcome = AwaitingApproval | Joined

  datatype Joining = Joining(outcome: JoinOutcome, list: List)

  /**
   joinList on a found list: a non-member of a private list is told to wait
   and nothing changes; anyone else is appended to the members, even when
   already one of them.
   */
  function Join(l: List, user: string): (r: Joining)
    ensures r.outcome == AwaitingApproval <==> l.isPrivate && user !in l.users
    ensures r.outcome == AwaitingApproval ==> r.list == l
    ensures r.outcome == Joined ==>
              && r.list == l.(users := r.list.users)
              && |r.list.users| == |l.users| + 1 && l.users <= r.list.users
              && r.list.users[|l.users|] == user
  {
    if l.isPrivate && user !in l.users then Joining(AwaitingApproval, l)
    else Joining(Joined, l.(users := l.users + [user]))
  }

  /** getList on a found list: the whole list for a reader who may see it, forbidden otherwise. */
  function View(l: List, user: string): (r: Result<List, Error>)
    ensures r.Ok? <==> !l.isPrivate || user in l.users
    ensures r.Ok? ==> r.value == l
    ensures r.Err? ==> r.error == NotOnList
  {
    if CanView(l, user) then Ok(l) else Err(NotOnList)
  }

  /**
   Joining never changes who can read the list: on a public list everyone
   already can, and on a private one only an existing member gets appended.
   */
  lemma JoinKeepsAccess(l: List, user: string, reader: string)
    ensures CanView(Join(l, user).list, reader) <==> CanView(l, reader)
  {
  }

  /** Duplicates are not prevented: a member who joins again is listed once more. */
  lemma RejoinDuplicates(l: List, user: string)
    requires user in l.users
    ensures Join(l, user).outcome == Joined
    ensures multiset(Join(l, user).list.users)[user] == multiset(l.users)[user] + 1
  {
  }
}

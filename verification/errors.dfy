/** The failures the list controller reports, each with the HTTP status it answers with. */
module Errors {

  datatype Error =
    | ListNotFound      // no list has the requested code (or name)
    | InvalidPassword   // the admin password does not verify against the stored hash
    | NotOnList         // a private list read by someone who is not a member
    | NoPreviousSongs   // rewind with an empty history
    | SongNotInHistory  // jump to an id that the history does not hold
    | SongNotInList     // jump to an id that the queue does not hold
    | AddFailed         // the new song fails the schema's required fields
    | CreateFailed      // the new list fails the schema, or its code is taken

  /** The HTTP status code each failure is answered with. */
  function Status(e: Error): (code: nat)
    ensures 400 <= code < 600
    ensures code == 403 <==> e == InvalidPassword || e == NotOnList
    ensures code == 404 <==> e in {ListNotFound, SongNotInHistory, SongNotInList}
    ensures code == 500 <==> e == AddFailed || e == CreateFailed
    ensures code == 400 <==> e == NoPreviousSongs
  {
    match e
    case ListNotFound => 404
    case InvalidPassword => 403
    case NotOnList => 403
    case NoPreviousSongs => 400
    case SongNotInHistory => 404
    case SongNotInList => 404
    case AddFailed => 500
    case CreateFailed => 500
  }
}

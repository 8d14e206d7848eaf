/** The friend record of `Friend.swift`: one document of a user's `friends`
    sub-collection, describing the other party from the owner's point of
    view. */
module FriendModel {
  import opened Common

  /** Relationship state from the owner's point of view. */
  datatype FriendshipStatus =
    | Accepted  // mutual friends
    | Pending   // incoming request
    | Sent      // outgoing request

  function StatusRaw(s: FriendshipStatus): string
  {
    match s
    case Accepted => "accepted"
    case Pending => "pending"
    case Sent => "sent"
  }

  /** Decoding the stored status string: exactly the three raw values decode. */
  function StatusFromRaw(s: string): (r: Option<FriendshipStatus>)
    ensures r.Some? ==> StatusRaw(r.value) == s
    ensures r.None? ==> forall st :: StatusRaw(st) != s
  {
    if s == "accepted" then Some(Accepted)
    else if s == "pending" then Some(Pending)
    else if s == "sent" then Some(Sent)
    else None
  }

  /** The status enumeration has three cases with pairwise distinct raw
      strings, and decoding inverts encoding. */
  lemma StatusRawValues()
    ensures StatusRaw(Accepted) == "accepted" && StatusRaw(Pending) == "pending" && StatusRaw(Sent) == "sent"
    ensures StatusRaw(Accepted) != StatusRaw(Pending) && StatusRaw(Pending) != StatusRaw(Sent) && StatusRaw(Sent) != StatusRaw(Accepted)
    ensures forall st: FriendshipStatus :: StatusFromRaw(StatusRaw(st)) == Some(st)
  {
  }

  /** A point in time (Foundation's `Date`), kept abstract. */
  type Date = int

  /** One friend document. `status` is a free-form presence string
      ("Online", "Offline", ...) unrelated to `friendshipStatus`;
      `dateAdded` is set when a request is accepted. */
  datatype Friend = Friend(
    id: Option<string>,
    username: string,
    pfp: string,
    email: string,
    status: Option<string>,
    dateAdded: Option<Date>,
    friendshipStatus: FriendshipStatus,
    isFavorite: bool)

  /** The memberwise initializer with its default arguments. */
  function NewFriend(
    username: string, pfp: string, email: string,
    id: Option<string> := None, status: Option<string> := None, dateAdded: Option<Date> := None,
    friendshipStatus: FriendshipStatus := Accepted, isFavorite: bool := false): Friend
  {
    Friend(id, username, pfp, email, status, dateAdded, friendshipStatus, isFavorite)
  }

  /** Omitted arguments default to an accepted, non-favourite friend with no
      id, presence or date; given arguments land in their own fields only. */
  lemma {:induction false} InitializerDefaults(username: string, pfp: string, email: string, presence: string, st: FriendshipStatus,
                                               id: Option<string>, status: Option<string>, dateAdded: Option<Date>, isFavorite: bool)
    ensures NewFriend(username, pfp, email) == Friend(None, username, pfp, email, None, None, Accepted, false)
    ensures NewFriend(username, pfp, email, id, status, dateAdded, st, isFavorite)
         == Friend(id, username, pfp, email, status, dateAdded, st, isFavorite)
    ensures NewFriend(username, pfp, email, status := Some(presence), friendshipStatus := st)
         == NewFriend(username, pfp, email).(status := Some(presence), friendshipStatus := st)
  {
  }
}

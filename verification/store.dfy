/** The hosted document database, as an in-memory value: `users/{id}`,
    `users/{owner}/friends/{other}` and the flat `userCollection`. Each
    network call's fate is an explicit `Reply`. */
module Store {
  import opened Common
  import opened FriendModel

  /** A `users/{id}` document, as written at registration. */
  datatype UserDoc = UserDoc(userId: string, email: string, username: string, pfp: string)

  /** A `users` document decoded as the app's `User` type; `id` is the
      document id, which the decoder may leave unset. */
  datatype UserRecord = UserRecord(id: Option<string>, username: string, pfp: string, email: string)

  /** One `userCollection` row: one owned copy of a catalog card. */
  datatype OwnedCard = OwnedCard(userId: string, cardId: string)

  /** The card ids of one user's `userCollection` rows, in row order. */
  function OwnedIds(rows: seq<OwnedCard>, userId: string): seq<string>
  {
    if rows == [] then []
    else OwnedIds(rows[..|rows| - 1], userId) + (if rows[|rows| - 1].userId == userId then [rows[|rows| - 1].cardId] else [])
  }

  datatype Store = Store(
    users: map<string, UserDoc>,
    friends: map<(string, string), Friend>,  // keyed by (owner, other)
    userCollection: seq<OwnedCard>)

  /** What the backend answered to one call. */
  datatype Reply = Done | Failed(description: string)

  /** The answer to a `whereField(...).getDocuments` query on `users`:
      an error, or the matching documents each decoded as a `User`
      (`None` when decoding failed). */
  datatype Lookup = LookupFailed(description: string) | Matches(docs: seq<Option<UserRecord>>)

  /** A `users` lookup resolved to a usable user: the first document
      decoded and carries an id. */
  predicate Resolves(lookup: Lookup)
  {
    lookup.Matches? && |lookup.docs| > 0 && lookup.docs[0].Some? && lookup.docs[0].value.id.Some?
  }

  function Resolved(lookup: Lookup): UserRecord
    requires Resolves(lookup)
  {
    lookup.docs[0].value
  }

  /** How a `setData(from:)` call ends: written, silently rejected by the
      backend after being queued (the call has no completion handler), or
      thrown synchronously while encoding. */
  datatype SetFate = Stored | Rejected | Throws(description: string)

  /** The effect of a `setData(from:)` on the friends map. */
  function SetFriend(friends: map<(string, string), Friend>, key: (string, string), doc: Friend, fate: SetFate): map<(string, string), Friend>
  {
    if fate.Stored? then friends[key := doc] else friends
  }

  /** The backend's error for `updateData` on a document that does not exist. */
  const NoDocumentToUpdate := "No document to update"

  /** Outcome of one write: the new friends map and the error, if any. */
  datatype FriendsWrite = FriendsWrite(friends: map<(string, string), Friend>, error: Option<string>)

  /** `updateData` on a friend document: fails when the reply is an error or
      the document is absent, and then changes nothing. */
  function UpdateFriend(friends: map<(string, string), Friend>, key: (string, string), reply: Reply, change: Friend -> Friend): (w: FriendsWrite)
    ensures w.error.None? <==> reply.Done? && key in friends
    ensures w.error.None? ==> w.friends == friends[key := change(friends[key])]
    ensures w.error.Some? ==> w.friends == friends
    ensures reply.Failed? ==> w.error == Some(reply.description)
    ensures reply.Done? && key !in friends ==> w.error == Some(NoDocumentToUpdate)
  {
    if reply.Failed? then FriendsWrite(friends, Some(reply.description))
    else if key !in friends then FriendsWrite(friends, Some(NoDocumentToUpdate))
    else FriendsWrite(friends[key := change(friends[key])], None)
  }

  /** `delete` of a friend document: removing an absent document succeeds. */
  function DeleteFriend(friends: map<(string, string), Friend>, key: (string, string), reply: Reply): (w: FriendsWrite)
    ensures w.error.None? <==> reply.Done?
    ensures reply.Done? ==> key !in w.friends && forall k :: k != key ==> (k in w.friends <==> k in friends)
    ensures reply.Done? ==> forall k :: k in w.friends ==> w.friends[k] == friends[k]
    ensures reply.Failed? ==> w.friends == friends && w.error == Some(reply.description)
  {
    if reply.Failed? then FriendsWrite(friends, Some(reply.description))
    else FriendsWrite(friends - {key}, None)
  }

  /** Statuses the two mirror documents of one pair may carry together. */
  predicate Paired(mine: FriendshipStatus, theirs: FriendshipStatus)
  {
    (mine == Sent && theirs == Pending) || (mine == Pending && theirs == Sent) || (mine == Accepted && theirs == Accepted)
  }

  /** Both mirror documents of the pair (a, b) exist and agree. */
  predicate Mirrored(friends: map<(string, string), Friend>, a: string, b: string)
  {
    (a, b) in friends && (b, a) in friends && Paired(friends[(a, b)].friendshipStatus, friends[(b, a)].friendshipStatus)
  }

  /** Neither mirror document of the pair (a, b) exists. */
  predicate Unrelated(friends: map<(string, string), Friend>, a: string, b: string)
  {
    (a, b) !in friends && (b, a) !in friends
  }
}

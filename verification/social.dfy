/** `SocialViewModel` of `model/SocialViewModel.swift`: the signed-in user's
    friend list, its four tabs and search, favourites, and the mirrored
    friend-request writes (`sent` on the actor's side, `pending` on the
    target's, `accepted` on both once accepted). */
module Social {
  import opened Common
  import opened Store
  import FM = FriendModel

  /** The four tabs of the friends screen. */
  datatype FriendFilter = All | Pending | Sent | Favorites

  /** The tab a friend entry belongs to: `All` lists accepted friends only. */
  predicate InTab(x: FM.Friend, filter: FriendFilter)
  {
    match filter
    case All => x.friendshipStatus == FM.Accepted
    case Pending => x.friendshipStatus == FM.Pending
    case Sent => x.friendshipStatus == FM.Sent
    case Favorites => x.friendshipStatus == FM.Accepted && x.isFavorite
  }

  /** Case-insensitive username search. */
  predicate MatchesSearch(x: FM.Friend, searchText: string)
  {
    Contains(Lower(x.username), Lower(searchText))
  }

  /** Whether an entry is displayed: in the tab and, when a search text is
      given, matching it. */
  predicate Shown(x: FM.Friend, filter: FriendFilter, searchText: string)
  {
    InTab(x, filter) && (searchText == [] || MatchesSearch(x, searchText))
  }

  /** `filterFriends`: the tab filter, then the search filter when the search
      text is not empty. The result is exactly the displayed entries, in
      list order. */
  function Filtered(friends: seq<FM.Friend>, filter: FriendFilter, searchText: string): (r: seq<FM.Friend>)
    ensures r == Keep(friends, x => Shown(x, filter, searchText))
    ensures IsSubsequence(r, friends)
    ensures forall x :: x in r <==> x in friends && InTab(x, filter) && (searchText == [] || MatchesSearch(x, searchText))
  {
    var byTab := Keep(friends, x => InTab(x, filter));
    if searchText == [] then
      KeepCongruent(friends, x => InTab(x, filter), x => Shown(x, filter, searchText));
      byTab
    else
      TabThenSearch(friends, filter, searchText);
      Keep(byTab, x => MatchesSearch(x, searchText))
  }

  /** Searching within a tab shows the same entries as one combined filter. */
  lemma {:induction false} TabThenSearch(friends: seq<FM.Friend>, filter: FriendFilter, searchText: string)
    requires searchText != []
    ensures Keep(Keep(friends, x => InTab(x, filter)), x => MatchesSearch(x, searchText))
         == Keep(friends, x => Shown(x, filter, searchText))
  {
    if friends != [] {
      TabThenSearch(friends[1..], filter, searchText);
    }
  }

  /** An empty search shows the whole tab. */
  lemma EmptySearchShowsTab(friends: seq<FM.Friend>, filter: FriendFilter)
    ensures Filtered(friends, filter, "") == Keep(friends, x => InTab(x, filter))
  {
    KeepCongruent(friends, x => InTab(x, filter), x => Shown(x, filter, ""));
  }

  /** The search ignores the case of the search text. */
  lemma SearchIgnoresCase(friends: seq<FM.Friend>, filter: FriendFilter, searchText: string)
    ensures Filtered(friends, filter, searchText) == Filtered(friends, filter, Lower(searchText))
  {
    LowerIdempotent(searchText);
    KeepCongruent(friends, x => Shown(x, filter, searchText), x => Shown(x, filter, Lower(searchText)));
  }

  /** `getCount(for:)`: the tab badge equals the length of the tab's list
      with no search text. */
  function GetCount(friends: seq<FM.Friend>, filter: FriendFilter): (n: nat)
    ensures n == |Filtered(friends, filter, "")|
  {
    EmptySearchShowsTab(friends, filter);
    CountWhere(friends, x => InTab(x, filter))
  }

  /** Some entry of the list has the given id. */
  predicate Listed(friends: seq<FM.Friend>, id: string)
  {
    exists j :: 0 <= j < |friends| && friends[j].id == Some(id)
  }

  /** `firstIndex(where: { $0.id == id })`. */
  function FirstIndexWithId(friends: seq<FM.Friend>, id: string): (r: Option<nat>)
    ensures r.Some? ==> r.value < |friends| && friends[r.value].id == Some(id)
    ensures r.Some? ==> forall j :: 0 <= j < r.value ==> friends[j].id != Some(id)
    ensures r.None? <==> !Listed(friends, id)
  {
    if friends == [] then None
    else if friends[0].id == Some(id) then Some(0)
    else
      match FirstIndexWithId(friends[1..], id)
      case None => None
      case Some(i) => Some(i + 1)
  }

  /** The first matching index depends only on the entries' ids. */
  lemma {:induction false} FirstIndexDependsOnIds(a: seq<FM.Friend>, b: seq<FM.Friend>, id: string)
    requires |a| == |b|
    requires forall j :: 0 <= j < |a| ==> a[j].id == b[j].id
    ensures FirstIndexWithId(a, id) == FirstIndexWithId(b, id)
  {
    if a != [] {
      FirstIndexDependsOnIds(a[1..], b[1..], id);
    }
  }

  /** The view model's published state. */
  datatype ViewModel = ViewModel(
    friends: seq<FM.Friend>,
    filteredFriends: seq<FM.Friend>,
    searchText: string,
    isLoading: bool,
    errorMessage: Option<string>,
    selectedFilter: FriendFilter)

  /** The `(Bool, String)` passed to a completion handler. */
  datatype Completion = Completion(success: bool, message: string)

  /** The state after an operation and its callbacks have run; `completion`
      is `None` when the handler is never called. */
  datatype Outcome = Outcome(vm: ViewModel, store: Store, completion: Option<Completion>)

  function Flip(x: FM.Friend): FM.Friend
  {
    x.(isFavorite := !x.isFavorite)
  }

  /** `toggleFavorite(for:)`: flips the favourite flag of the first local
      entry with the friend's id, re-filters, and writes the new flag to the
      actor's own document (a failed write is only logged). Nothing happens
      without a signed-in user, a friend id, or a matching entry. */
  function ToggleFavorite(vm: ViewModel, store: Store, currentUser: Option<string>, friend: FM.Friend, reply: Reply): (r: Outcome)
    ensures r.completion.None?
    ensures r.vm.searchText == vm.searchText && r.vm.selectedFilter == vm.selectedFilter
    ensures r.vm.isLoading == vm.isLoading && r.vm.errorMessage == vm.errorMessage
    ensures r.store.users == store.users && r.store.userCollection == store.userCollection
    ensures currentUser.None? || friend.id.None? || !Listed(vm.friends, friend.id.value) ==> r == Outcome(vm, store, None)
    ensures currentUser.Some? && friend.id.Some? && Listed(vm.friends, friend.id.value) ==>
      var i := FirstIndexWithId(vm.friends, friend.id.value).value;
      var key := (currentUser.value, friend.id.value);
      && |r.vm.friends| == |vm.friends|
      && r.vm.friends[i] == vm.friends[i].(isFavorite := !vm.friends[i].isFavorite)
      && (forall j :: 0 <= j < |vm.friends| && j != i ==> r.vm.friends[j] == vm.friends[j])
      && r.vm.filteredFriends == Filtered(r.vm.friends, vm.selectedFilter, vm.searchText)
      && (reply.Done? && key in store.friends ==>
            r.store.friends == store.friends[key := store.friends[key].(isFavorite := r.vm.friends[i].isFavorite)])
      && (reply.Failed? || key !in store.friends ==> r.store == store)
  {
    if currentUser.None? || friend.id.None? then Outcome(vm, store, None)
    else
      match FirstIndexWithId(vm.friends, friend.id.value)
      case None => Outcome(vm, store, None)
      case Some(i) =>
        var friends := vm.friends[i := Flip(vm.friends[i])];
        var favorite := friends[i].isFavorite;
        var write := UpdateFriend(store.friends, (currentUser.value, friend.id.value), reply, (x: FM.Friend) => x.(isFavorite := favorite));
        Outcome(vm.(friends := friends, filteredFriends := Filtered(friends, vm.selectedFilter, vm.searchText)),
                store.(friends := write.friends), None)
  }

  /** Toggling the same friend twice restores the local list. */
  lemma ToggleTwiceRestores(vm: ViewModel, store: Store, currentUser: Option<string>, friend: FM.Friend, reply1: Reply, reply2: Reply)
    ensures
      var once := ToggleFavorite(vm, store, currentUser, friend, reply1);
      ToggleFavorite(once.vm, once.store, currentUser, friend, reply2).vm.friends == vm.friends
  {
    var once := ToggleFavorite(vm, store, currentUser, friend, reply1);
    if currentUser.Some? && friend.id.Some? && Listed(vm.friends, friend.id.value) {
      FirstIndexDependsOnIds(vm.friends, once.vm.friends, friend.id.value);
      var twice := ToggleFavorite(once.vm, once.store, currentUser, friend, reply2);
      assert twice.vm.friends == vm.friends;
    }
  }

  /** The entry written when a request is accepted. */
  function AcceptedAt(at: FM.Date): FM.Friend -> FM.Friend
  {
    (x: FM.Friend) => x.(friendshipStatus := FM.Accepted, dateAdded := Some(at))
  }

  /** `acceptFriendRequest(friend:)`: marks the actor's document accepted
      and, only once that succeeded, issues the same update on the other
      party's document without waiting for it. The prior status is not
      checked. */
  function AcceptFriendRequest(vm: ViewModel, store: Store, currentUser: Option<string>, friend: FM.Friend,
                               reply: Reply, mirrorReply: Reply, acceptedAt: FM.Date, mirrorAcceptedAt: FM.Date): (r: Outcome)
    ensures r.vm == vm && r.store.users == store.users && r.store.userCollection == store.userCollection
    ensures r.completion.Some?
    ensures currentUser.None? || friend.id.None? ==> r.completion.value == Completion(false, "Invalid user data")
    ensures r.completion.value.success <==> currentUser.Some? && friend.id.Some? && reply.Done? && (currentUser.value, friend.id.value) in store.friends
    ensures !r.completion.value.success ==> r.store == store
    ensures r.completion.value.success ==> r.completion.value.message == "Friend request accepted!"
    ensures currentUser.Some? && friend.id.Some? && reply.Failed? ==>
      r.completion.value.message == "Error accepting friend request: " + reply.description
    ensures currentUser.Some? && friend.id.Some? && reply.Done? && (currentUser.value, friend.id.value) !in store.friends ==>
      r.completion.value.message == "Error accepting friend request: " + NoDocumentToUpdate
    ensures r.completion.value.success && currentUser.value == friend.id.value ==>
      var mine := (currentUser.value, friend.id.value);
      r.store.friends == store.friends[mine := store.friends[mine].(friendshipStatus := FM.Accepted,
                                         dateAdded := Some(if mirrorReply.Done? then mirrorAcceptedAt else acceptedAt))]
    ensures r.completion.value.success && currentUser.value != friend.id.value ==>
      var mine := (currentUser.value, friend.id.value);
      var theirs := (friend.id.value, currentUser.value);
      && mine in r.store.friends
      && r.store.friends[mine] == store.friends[mine].(friendshipStatus := FM.Accepted, dateAdded := Some(acceptedAt))
      && (mirrorReply.Done? && theirs in store.friends ==>
            r.store.friends == store.friends[mine := r.store.friends[mine]]
                                            [theirs := store.friends[theirs].(friendshipStatus := FM.Accepted, dateAdded := Some(mirrorAcceptedAt))])
      && (mirrorReply.Failed? || theirs !in store.friends ==> r.store.friends == store.friends[mine := r.store.friends[mine]])
  {
    if currentUser.None? || friend.id.None? then Outcome(vm, store, Some(Completion(false, "Invalid user data")))
    else
      var uid := currentUser.value;
      var fid := friend.id.value;
      var mine := UpdateFriend(store.friends, (uid, fid), reply, AcceptedAt(acceptedAt));
      if mine.error.Some? then
        Outcome(vm, store, Some(Completion(false, "Error accepting friend request: " + mine.error.value)))
      else
        var theirs := UpdateFriend(mine.friends, (fid, uid), mirrorReply, AcceptedAt(mirrorAcceptedAt));
        Outcome(vm, store.(friends := theirs.friends), Some(Completion(true, "Friend request accepted!")))
  }

  /** `removeFriend(friendId:)`: deletes the actor's document and, only if
      that succeeded, the other party's, without waiting for the second
      delete. Success is reported on the first delete alone. */
  function RemoveFriend(vm: ViewModel, store: Store, currentUser: Option<string>, friendId: string, reply: Reply, mirrorReply: Reply): (r: Outcome)
    ensures r.vm == vm && r.store.users == store.users && r.store.userCollection == store.userCollection
    ensures r.completion.Some?
    ensures currentUser.None? ==> r.completion.value == Completion(false, "User not authenticated")
    ensures currentUser.Some? && reply.Failed? ==> r.completion.value == Completion(false, "Error removing friend: " + reply.description)
    ensures r.completion.value.success <==> currentUser.Some? && reply.Done?
    ensures !r.completion.value.success ==> r.store == store
    ensures r.completion.value.success ==>
      var mine := (currentUser.value, friendId);
      var theirs := (friendId, currentUser.value);
      && r.completion.value.message == "Friend removed successfully"
      && mine !in r.store.friends
      && (mirrorReply.Done? ==> r.store.friends == store.friends - {mine, theirs})
      && (mirrorReply.Failed? ==> r.store.friends == store.friends - {mine})
  {
    if currentUser.None? then Outcome(vm, store, Some(Completion(false, "User not authenticated")))
    else
      var uid := currentUser.value;
      var mine := DeleteFriend(store.friends, (uid, friendId), reply);
      if mine.error.Some? then
        Outcome(vm, store, Some(Completion(false, "Error removing friend: " + mine.error.value)))
      else
        var theirs := DeleteFriend(mine.friends, (friendId, uid), mirrorReply);
        Outcome(vm, store.(friends := theirs.friends), Some(Completion(true, "Friend removed successfully")))
  }

  /** `declineFriendRequest(friend:)`: removal of the friend by id, once a
      user is signed in and the friend has an id. */
  function DeclineFriendRequest(vm: ViewModel, store: Store, currentUser: Option<string>, friend: FM.Friend, reply: Reply, mirrorReply: Reply): (r: Outcome)
    ensures currentUser.None? || friend.id.None? ==> r == Outcome(vm, store, Some(Completion(false, "Invalid user data")))
    ensures currentUser.Some? && friend.id.Some? ==> r == RemoveFriend(vm, store, currentUser, friend.id.value, reply, mirrorReply)
  {
    if currentUser.None? || friend.id.None? then Outcome(vm, store, Some(Completion(false, "Invalid user data")))
    else RemoveFriend(vm, store, currentUser, friend.id.value, reply, mirrorReply)
  }

  /** Every check `addFriend(username:)` makes before writing passes. */
  predicate AddFriendAllowed(vm: ViewModel, store: Store, currentUser: Option<string>, username: string, lookup: Lookup, selfRead: Reply)
  {
    && currentUser.Some?
    && username != []
    && Resolves(lookup)
    && Resolved(lookup).id.value != currentUser.value
    && !Listed(vm.friends, Resolved(lookup).id.value)
    && selfRead.Done?
    && currentUser.value in store.users
  }

  /** The request document the actor keeps for the target. */
  function SentRequest(target: UserRecord, targetId: string): FM.Friend
  {
    FM.NewFriend(target.username, target.pfp, target.email, id := Some(targetId), status := Some("Offline"),
                 friendshipStatus := FM.Sent, isFavorite := false)
  }

  /** The request document the target receives for the actor. */
  function PendingRequest(me: UserDoc, myId: string): FM.Friend
  {
    FM.NewFriend(me.username, me.pfp, me.email, id := Some(myId), status := Some("Offline"),
                 friendshipStatus := FM.Pending, isFavorite := false)
  }

  /** `addFriend(username:)`. Checks, in order: a signed-in user, a
      non-empty username, the lookup, a decodable first match with an id,
      not the actor, no existing entry for the target, the actor's own user
      document; then writes the `sent` document and the `pending` mirror. The
      `isLoading` flag raised for the lookup is lowered by its callback. */
  function AddFriend(vm: ViewModel, store: Store, currentUser: Option<string>, username: string,
                     lookup: Lookup, selfRead: Reply, sentFate: SetFate, pendingFate: SetFate): (r: Outcome)
    ensures r.completion.Some?
    ensures r.store.users == store.users && r.store.userCollection == store.userCollection
    ensures r.vm == if currentUser.None? || username == [] then vm else vm.(isLoading := false)
    ensures currentUser.None? ==> r.completion.value == Completion(false, "User not authenticated") && r.vm == vm
    ensures currentUser.Some? && username == [] ==> r.completion.value == Completion(false, "Please enter a username") && r.vm == vm
    ensures currentUser.Some? && username != [] && lookup.LookupFailed? ==>
      r.completion.value == Completion(false, "Error finding user: " + lookup.description)
    ensures currentUser.Some? && username != [] && lookup.Matches? && lookup.docs == [] ==>
      r.completion.value == Completion(false, "No user found with username '" + username + "'")
    ensures currentUser.Some? && username != [] && lookup.Matches? && lookup.docs != [] && !Resolves(lookup) ==>
      r.completion.value == Completion(false, "Invalid user data")
    ensures currentUser.Some? && username != [] && Resolves(lookup) && Resolved(lookup).id.value == currentUser.value ==>
      r.completion.value == Completion(false, "You cannot add yourself as a friend")
    ensures currentUser.Some? && username != [] && Resolves(lookup) && Resolved(lookup).id.value != currentUser.value
            && Listed(vm.friends, Resolved(lookup).id.value) ==>
      r.completion.value == Completion(false, "Friend request already exists or already friends")
    ensures currentUser.Some? && username != [] && Resolves(lookup) && Resolved(lookup).id.value != currentUser.value
            && !Listed(vm.friends, Resolved(lookup).id.value) && (selfRead.Failed? || currentUser.value !in store.users) ==>
      r.completion.value == Completion(false, "Could not load your user data")
    ensures AddFriendAllowed(vm, store, currentUser, username, lookup, selfRead) && sentFate.Throws? ==>
      r.completion.value == Completion(false, "Error sending friend request: " + sentFate.description)
    ensures AddFriendAllowed(vm, store, currentUser, username, lookup, selfRead) && !sentFate.Throws? && pendingFate.Throws? ==>
      && r.completion.value == Completion(false, "Error sending friend request: " + pendingFate.description)
      && r.store.friends == SetFriend(store.friends, (currentUser.value, Resolved(lookup).id.value),
                                      SentRequest(Resolved(lookup), Resolved(lookup).id.value), sentFate)
    ensures r.completion.value.success <==> AddFriendAllowed(vm, store, currentUser, username, lookup, selfRead) && !sentFate.Throws? && !pendingFate.Throws?
    ensures !AddFriendAllowed(vm, store, currentUser, username, lookup, selfRead) || sentFate.Throws? ==> r.store == store
    ensures r.completion.value.success ==>
      var uid := currentUser.value;
      var target := Resolved(lookup);
      var fid := target.id.value;
      && r.completion.value.message == "Friend request sent to " + target.username + "!"
      && r.store.friends == SetFriend(SetFriend(store.friends, (uid, fid), SentRequest(target, fid), sentFate),
                                      (fid, uid), PendingRequest(store.users[uid], uid), pendingFate)
  {
    if currentUser.None? then Outcome(vm, store, Some(Completion(false, "User not authenticated")))
    else if username == [] then Outcome(vm, store, Some(Completion(false, "Please enter a username")))
    else
      var uid := currentUser.value;
      var vm' := vm.(isLoading := false);
      match lookup
      case LookupFailed(d) => Outcome(vm', store, Some(Completion(false, "Error finding user: " + d)))
      case Matches(docs) =>
        if docs == [] then
          Outcome(vm', store, Some(Completion(false, "No user found with username '" + username + "'")))
        else if docs[0].None? || docs[0].value.id.None? then
          Outcome(vm', store, Some(Completion(false, "Invalid user data")))
        else
          var target := docs[0].value;
          var fid := target.id.value;
          if fid == uid then
            Outcome(vm', store, Some(Completion(false, "You cannot add yourself as a friend")))
          else if FirstIndexWithId(vm.friends, fid).Some? then
            Outcome(vm', store, Some(Completion(false, "Friend request already exists or already friends")))
          else if selfRead.Failed? || uid !in store.users then
            Outcome(vm', store, Some(Completion(false, "Could not load your user data")))
          else if sentFate.Throws? then
            Outcome(vm', store, Some(Completion(false, "Error sending friend request: " + sentFate.description)))
          else
            var friends := SetFriend(store.friends, (uid, fid), SentRequest(target, fid), sentFate);
            if pendingFate.Throws? then
              Outcome(vm', store.(friends := friends), Some(Completion(false, "Error sending friend request: " + pendingFate.description)))
            else
              var friends' := SetFriend(friends, (fid, uid), PendingRequest(store.users[uid], uid), pendingFate);
              Outcome(vm', store.(friends := friends'), Some(Completion(true, "Friend request sent to " + target.username + "!")))
  }

  /** A request whose two writes both reach the backend leaves the pair
      mirrored: `sent` on the actor's side, `pending` on the target's, both
      non-favourite with presence "Offline", each describing the other party. */
  lemma AddFriendMirrors(vm: ViewModel, store: Store, currentUser: Option<string>, username: string, lookup: Lookup, selfRead: Reply)
    requires AddFriendAllowed(vm, store, currentUser, username, lookup, selfRead)
    ensures
      var r := AddFriend(vm, store, currentUser, username, lookup, selfRead, Stored, Stored);
      var uid := currentUser.value;
      var target := Resolved(lookup);
      var fid := target.id.value;
      && r.completion.value.success
      && Mirrored(r.store.friends, uid, fid)
      && r.store.friends[(uid, fid)].friendshipStatus == FM.Sent
      && r.store.friends[(fid, uid)].friendshipStatus == FM.Pending
      && r.store.friends[(uid, fid)] == FM.Friend(Some(fid), target.username, target.pfp, target.email, Some("Offline"), None, FM.Sent, false)
      && r.store.friends[(fid, uid)].id == Some(uid)
      && r.store.friends[(fid, uid)].username == store.users[uid].username
      && !r.store.friends[(fid, uid)].isFavorite && r.store.friends[(fid, uid)].status == Some("Offline")
  {
  }

  /** If the second write of a request is lost, the pair is left half
      written: the actor sees a sent request the target never receives. */
  lemma AddFriendLostMirror(vm: ViewModel, store: Store, currentUser: Option<string>, username: string, lookup: Lookup, selfRead: Reply)
    requires AddFriendAllowed(vm, store, currentUser, username, lookup, selfRead)
    requires Unrelated(store.friends, currentUser.value, Resolved(lookup).id.value)
    ensures
      var r := AddFriend(vm, store, currentUser, username, lookup, selfRead, Stored, Rejected);
      var uid := currentUser.value;
      var fid := Resolved(lookup).id.value;
      && r.completion.value.success
      && (uid, fid) in r.store.friends && (fid, uid) !in r.store.friends
      && !Mirrored(r.store.friends, uid, fid)
  {
  }

  /** Accepting a mirrored incoming request with both writes succeeding
      leaves both documents `accepted`. */
  lemma AcceptMirrors(vm: ViewModel, store: Store, uid: string, friend: FM.Friend, acceptedAt: FM.Date, mirrorAcceptedAt: FM.Date)
    requires friend.id.Some? && friend.id.value != uid
    requires Mirrored(store.friends, uid, friend.id.value)
    requires store.friends[(uid, friend.id.value)].friendshipStatus == FM.Pending
    ensures
      var r := AcceptFriendRequest(vm, store, Some(uid), friend, Done, Done, acceptedAt, mirrorAcceptedAt);
      var fid := friend.id.value;
      && r.completion.value.success
      && Mirrored(r.store.friends, uid, fid)
      && r.store.friends[(uid, fid)].friendshipStatus == FM.Accepted
      && r.store.friends[(fid, uid)].friendshipStatus == FM.Accepted
      && r.store.friends[(uid, fid)].dateAdded == Some(acceptedAt)
  {
  }

  /** A failed counterpart update is not reported: the caller sees success
      while the pair has diverged (accepted on one side, sent on the other). */
  lemma AcceptPartialFailureDiverges(vm: ViewModel, store: Store, uid: string, friend: FM.Friend, why: string, acceptedAt: FM.Date, mirrorAcceptedAt: FM.Date)
    requires friend.id.Some? && friend.id.value != uid
    requires Mirrored(store.friends, uid, friend.id.value)
    requires store.friends[(uid, friend.id.value)].friendshipStatus == FM.Pending
    ensures
      var r := AcceptFriendRequest(vm, store, Some(uid), friend, Done, Failed(why), acceptedAt, mirrorAcceptedAt);
      r.completion.value.success && !Mirrored(r.store.friends, uid, friend.id.value)
  {
  }

  /** Accept does not look at the prior status: the sender of a request can
      "accept" their own outgoing request. */
  lemma AcceptIgnoresPriorStatus(vm: ViewModel, store: Store, uid: string, friend: FM.Friend, acceptedAt: FM.Date, mirrorAcceptedAt: FM.Date)
    requires friend.id.Some? && friend.id.value != uid
    requires (uid, friend.id.value) in store.friends
    requires store.friends[(uid, friend.id.value)].friendshipStatus == FM.Sent
    ensures
      var r := AcceptFriendRequest(vm, store, Some(uid), friend, Done, Done, acceptedAt, mirrorAcceptedAt);
      r.completion.value.success && r.store.friends[(uid, friend.id.value)].friendshipStatus == FM.Accepted
  {
  }

  /** Removal undoes a request: sending a request from an unrelated pair and
      then removing the friend, with every write succeeding, gives back the
      original friend documents. */
  lemma AddThenRemoveRestores(vm: ViewModel, store: Store, currentUser: Option<string>, username: string, lookup: Lookup, selfRead: Reply)
    requires AddFriendAllowed(vm, store, currentUser, username, lookup, selfRead)
    requires Unrelated(store.friends, currentUser.value, Resolved(lookup).id.value)
    ensures
      var added := AddFriend(vm, store, currentUser, username, lookup, selfRead, Stored, Stored);
      var removed := RemoveFriend(added.vm, added.store, currentUser, Resolved(lookup).id.value, Done, Done);
      removed.completion.value.success && removed.store == store
  {
    var uid := currentUser.value;
    var fid := Resolved(lookup).id.value;
    var added := AddFriend(vm, store, currentUser, username, lookup, selfRead, Stored, Stored);
    assert added.store.friends == store.friends[(uid, fid) := SentRequest(Resolved(lookup), fid)][(fid, uid) := PendingRequest(store.users[uid], uid)];
    var removed := RemoveFriend(added.vm, added.store, currentUser, fid, Done, Done);
    assert removed.store.friends == store.friends;
  }
}

/** The older `SocialViewModel` of `view/SocialViewModel.swift` (same class
    name, different file): a search-only filter, adding a friend by email
    as an immediately accepted friendship, and removal. */
module SocialLegacy {
  import opened Common
  import opened Store
  import FM = FriendModel
  import Social

  datatype ViewModel = ViewModel(
    friends: seq<FM.Friend>,
    filteredFriends: seq<FM.Friend>,
    searchText: string,
    isLoading: bool,
    errorMessage: Option<string>)

  datatype Outcome = Outcome(vm: ViewModel, store: Store, completion: Option<Social.Completion>)

  /** `filterFriends`: all friends for an empty search, otherwise exactly
      those whose username contains the search text ignoring case, in list
      order. */
  function FilterFriends(friends: seq<FM.Friend>, searchText: string): (r: seq<FM.Friend>)
    ensures searchText == [] ==> r == friends
    ensures IsSubsequence(r, friends)
    ensures searchText != [] ==> |r| == CountWhere(friends, x => Social.MatchesSearch(x, searchText))
    ensures searchText != [] ==> forall x :: x in r <==> x in friends && Social.MatchesSearch(x, searchText)
  {
    if searchText == [] then
      assert IsSubsequence(friends, friends) by { SubsequenceReflexive(friends); }
      friends
    else Keep(friends, x => Social.MatchesSearch(x, searchText))
  }

  /** On a list of accepted friends only, the old search-only filter and the
      newer "All" tab agree. */
  lemma FilterAgreesWithAllTab(friends: seq<FM.Friend>, searchText: string)
    requires forall j :: 0 <= j < |friends| ==> friends[j].friendshipStatus == FM.Accepted
    ensures FilterFriends(friends, searchText) == Social.Filtered(friends, Social.All, searchText)
  {
    KeepCongruent(friends, x => Social.Shown(x, Social.All, searchText), x => searchText == [] || Social.MatchesSearch(x, searchText));
    if searchText == [] {
      KeepAll(friends, x => searchText == [] || Social.MatchesSearch(x, searchText));
    } else {
      KeepCongruent(friends, x => searchText == [] || Social.MatchesSearch(x, searchText), x => Social.MatchesSearch(x, searchText));
    }
  }

  /** Which document the mutual entry is built from. */
  datatype MutualSource =
    | MirrorDocument   // `users/{friendId}/friends/{currentUserId}`, as the code reads it
    | OwnUserDocument  // `users/{currentUserId}`, the actor's profile

  /** The profile the mutual entry is built from, when the read succeeds
      and the document exists. */
  function MutualProfile(source: MutualSource, store: Store, friends: map<(string, string), FM.Friend>,
                         uid: string, fid: string, read: Reply): Option<UserRecord>
  {
    if read.Failed? then None
    else match source
      case MirrorDocument =>
        if (fid, uid) in friends then
          var doc := friends[(fid, uid)];
          Some(UserRecord(Some(uid), doc.username, doc.pfp, doc.email))
        else None
      case OwnUserDocument =>
        if uid in store.users then
          var doc := store.users[uid];
          Some(UserRecord(Some(uid), doc.username, doc.pfp, doc.email))
        else None
  }

  /** The accepted friend entry written for a profile. */
  function AcceptedEntry(profile: UserRecord, id: string, at: FM.Date): FM.Friend
  {
    FM.NewFriend(profile.username, profile.pfp, profile.email, id := Some(id), status := Some("Offline"), dateAdded := Some(at))
  }

  /** The shared flow of `addFriend(email:)`, parameterised by where the
      mutual entry's profile is read from. */
  function AddFriendVia(source: MutualSource, vm: ViewModel, store: Store, currentUser: Option<string>, email: string,
                        lookup: Lookup, fate: SetFate, mirrorRead: Reply, mirrorFate: SetFate,
                        now: FM.Date, mirrorNow: FM.Date): (r: Outcome)
    ensures r.completion.Some? && r.vm == if currentUser.None? then vm else vm.(isLoading := false)
    ensures r.completion.value.success <==> AddAllowed(vm, currentUser, lookup) && !fate.Throws?
    ensures !r.completion.value.success ==> r.store == store
    ensures r.completion.value.success ==>
      var uid := currentUser.value;
      var fid := Resolved(lookup).id.value;
      var friends := SetFriend(store.friends, (uid, fid), AcceptedEntry(Resolved(lookup), fid, now), fate);
      && r.store == store.(friends := r.store.friends)
      && (MutualProfile(source, store, friends, uid, fid, mirrorRead).None? ==> r.store.friends == friends)
      && (MutualProfile(source, store, friends, uid, fid, mirrorRead).Some? ==>
            r.store.friends == SetFriend(friends, (fid, uid), AcceptedEntry(MutualProfile(source, store, friends, uid, fid, mirrorRead).value, uid, mirrorNow), mirrorFate))
  {
    if currentUser.None? then Outcome(vm, store, Some(Social.Completion(false, "User not authenticated")))
    else
      var uid := currentUser.value;
      var vm' := vm.(isLoading := false);
      match lookup
      case LookupFailed(d) => Outcome(vm', store, Some(Social.Completion(false, "Error finding user: " + d)))
      case Matches(docs) =>
        if docs == [] then
          Outcome(vm', store, Some(Social.Completion(false, "No user found with that email")))
        else if docs[0].None? || docs[0].value.id.None? then
          Outcome(vm', store, Some(Social.Completion(false, "Invalid user data")))
        else
          var target := docs[0].value;
          var fid := target.id.value;
          if Social.FirstIndexWithId(vm.friends, fid).Some? then
            Outcome(vm', store, Some(Social.Completion(false, "Already friends with this user")))
          else if fate.Throws? then
            Outcome(vm', store, Some(Social.Completion(false, "Error adding friend: " + fate.description)))
          else
            var friends := SetFriend(store.friends, (uid, fid), AcceptedEntry(target, fid, now), fate);
            var friends' :=
              match MutualProfile(source, store, friends, uid, fid, mirrorRead)
              case None => friends
              case Some(profile) => SetFriend(friends, (fid, uid), AcceptedEntry(profile, uid, mirrorNow), mirrorFate);
            Outcome(vm', store.(friends := friends'), Some(Social.Completion(true, "Friend added successfully!")))
  }

  /** Every check of `addFriend(email:)` passes. There is no self check. */
  predicate AddAllowed(vm: ViewModel, currentUser: Option<string>, lookup: Lookup)
  {
    currentUser.Some? && Resolves(lookup) && !Social.Listed(vm.friends, Resolved(lookup).id.value)
  }

  /** `addFriend(email:)` as written. Fails with the first of: no signed-in
      user, lookup error, no match, undecodable match, already listed,
      encoding error; otherwise writes the actor's entry as an accepted
      friendship dated `now` and reports success before the mutual write. */
  function AddFriendByEmail(vm: ViewModel, store: Store, currentUser: Option<string>, email: string,
                            lookup: Lookup, fate: SetFate, mirrorRead: Reply, mirrorFate: SetFate,
                            now: FM.Date, mirrorNow: FM.Date): (r: Outcome)
    ensures r.completion.Some? && r.vm == if currentUser.None? then vm else vm.(isLoading := false)
    ensures r.store.users == store.users && r.store.userCollection == store.userCollection
    ensures currentUser.None? ==> r.completion.value == Social.Completion(false, "User not authenticated") && r.store == store
    ensures currentUser.Some? && lookup.LookupFailed? ==>
      r.completion.value == Social.Completion(false, "Error finding user: " + lookup.description)
    ensures currentUser.Some? && lookup.Matches? && lookup.docs == [] ==>
      r.completion.value == Social.Completion(false, "No user found with that email")
    ensures currentUser.Some? && lookup.Matches? && lookup.docs != [] && !Resolves(lookup) ==>
      r.completion.value == Social.Completion(false, "Invalid user data")
    ensures currentUser.Some? && Resolves(lookup) && Social.Listed(vm.friends, Resolved(lookup).id.value) ==>
      r.completion.value == Social.Completion(false, "Already friends with this user")
    ensures AddAllowed(vm, currentUser, lookup) && fate.Throws? ==>
      r.completion.value == Social.Completion(false, "Error adding friend: " + fate.description)
    ensures r.completion.value.success <==> AddAllowed(vm, currentUser, lookup) && !fate.Throws?
    ensures r.completion.value.success ==> r.completion.value.message == "Friend added successfully!"
    ensures !r.completion.value.success ==> r.store == store
    ensures r.completion.value.success ==>
      var uid := currentUser.value;
      var fid := Resolved(lookup).id.value;
      var friends := SetFriend(store.friends, (uid, fid), AcceptedEntry(Resolved(lookup), fid, now), fate);
      && r.store.friends == (if mirrorRead.Done? && (fid, uid) in friends
                             then SetFriend(friends, (fid, uid), AcceptedEntry(UserRecord(Some(uid), friends[(fid, uid)].username,
                                                                                          friends[(fid, uid)].pfp, friends[(fid, uid)].email), uid, mirrorNow), mirrorFate)
                             else friends)
    ensures r.completion.value.success && fate.Stored? && Resolved(lookup).id.value != currentUser.value ==>
      var fid := Resolved(lookup).id.value;
      && (currentUser.value, fid) in r.store.friends
      && r.store.friends[(currentUser.value, fid)] == AcceptedEntry(Resolved(lookup), fid, now)
      && r.store.friends[(currentUser.value, fid)].friendshipStatus == FM.Accepted
      && r.store.friends[(currentUser.value, fid)].dateAdded == Some(now)
      && !r.store.friends[(currentUser.value, fid)].isFavorite
  {
    AddFriendVia(MirrorDocument, vm, store, currentUser, email, lookup, fate, mirrorRead, mirrorFate, now, mirrorNow)
  }

  /** Unlike the newer variant, adding yourself is not rejected. */
  lemma AddByEmailAllowsSelf(vm: ViewModel, store: Store, uid: string, email: string, lookup: Lookup,
                             mirrorRead: Reply, mirrorFate: SetFate, now: FM.Date, mirrorNow: FM.Date)
    requires Resolves(lookup) && Resolved(lookup).id.value == uid
    requires !Social.Listed(vm.friends, uid)
    ensures
      var r := AddFriendByEmail(vm, store, Some(uid), email, lookup, Stored, mirrorRead, mirrorFate, now, mirrorNow);
      r.completion.value.success && (uid, uid) in r.store.friends
  {
  }

  /** The defect, exhibited: for a pair with no documents yet, a fully
      successful add never creates the friend's entry for the actor,
      because the mutual entry is built from the very document it would
      create. */
  lemma AddByEmailNeverMirrorsNewPair(vm: ViewModel, store: Store, uid: string, email: string, lookup: Lookup,
                                      now: FM.Date, mirrorNow: FM.Date)
    requires Resolves(lookup) && Resolved(lookup).id.value != uid
    requires !Social.Listed(vm.friends, Resolved(lookup).id.value)
    requires Unrelated(store.friends, uid, Resolved(lookup).id.value)
    ensures
      var r := AddFriendByEmail(vm, store, Some(uid), email, lookup, Stored, Done, Stored, now, mirrorNow);
      var fid := Resolved(lookup).id.value;
      && r.completion.value.success
      && (uid, fid) in r.store.friends
      && (fid, uid) !in r.store.friends
      && !Mirrored(r.store.friends, uid, fid)
  {
  }

  /** `addFriend(email:)` with the mutual entry built from the actor's own
      user document, as the comment in the code describes ("add current user
      to friend's friends collection"). When every read and write succeeds
      the friendship is mirrored and accepted on both sides. */
  function AddFriendByEmailCorrected(vm: ViewModel, store: Store, currentUser: Option<string>, email: string,
                                     lookup: Lookup, fate: SetFate, selfRead: Reply, mirrorFate: SetFate,
                                     now: FM.Date, mirrorNow: FM.Date): (r: Outcome)
    ensures r.completion.Some? && r.vm == if currentUser.None? then vm else vm.(isLoading := false)
    ensures r.completion.value.success <==> AddAllowed(vm, currentUser, lookup) && !fate.Throws?
    ensures !r.completion.value.success ==> r.store == store
    ensures r.store.users == store.users && r.store.userCollection == store.userCollection
    ensures r.completion.value.success ==>
      var uid := currentUser.value;
      var fid := Resolved(lookup).id.value;
      var friends := SetFriend(store.friends, (uid, fid), AcceptedEntry(Resolved(lookup), fid, now), fate);
      && r.store.friends == (if selfRead.Done? && uid in store.users
                             then SetFriend(friends, (fid, uid), AcceptedEntry(UserRecord(Some(uid), store.users[uid].username,
                                                                                          store.users[uid].pfp, store.users[uid].email), uid, mirrorNow), mirrorFate)
                             else friends)
    ensures r.completion.value.success && fate.Stored? && selfRead.Done? && mirrorFate.Stored?
            && currentUser.value in store.users && Resolved(lookup).id.value != currentUser.value ==>
      var uid := currentUser.value;
      var fid := Resolved(lookup).id.value;
      && Mirrored(r.store.friends, uid, fid)
      && r.store.friends[(uid, fid)].friendshipStatus == FM.Accepted
      && r.store.friends[(fid, uid)].friendshipStatus == FM.Accepted
      && r.store.friends[(fid, uid)].username == store.users[uid].username
      && r.store.friends[(fid, uid)].email == store.users[uid].email
  {
    AddFriendVia(OwnUserDocument, vm, store, currentUser, email, lookup, fate, selfRead, mirrorFate, now, mirrorNow)
  }

  /** `removeFriend(friendId:)` of this variant: delete the actor's entry,
      then, only if that succeeded, the friend's entry, reporting success on
      the first delete alone. */
  function RemoveFriend(vm: ViewModel, store: Store, currentUser: Option<string>, friendId: string, reply: Reply, mirrorReply: Reply): (r: Outcome)
    ensures r.vm == vm && r.completion.Some?
    ensures currentUser.None? ==> r.completion.value == Social.Completion(false, "User not authenticated")
    ensures currentUser.Some? && reply.Failed? ==> r.completion.value == Social.Completion(false, "Error removing friend: " + reply.description)
    ensures r.completion.value.success ==> r.completion.value.message == "Friend removed successfully"
    ensures r.completion.value.success <==> currentUser.Some? && reply.Done?
    ensures !r.completion.value.success ==> r.store == store
    ensures r.completion.value.success ==> (currentUser.value, friendId) !in r.store.friends
    ensures r.completion.value.success && mirrorReply.Done? ==> Unrelated(r.store.friends, currentUser.value, friendId)
  {
    if currentUser.None? then Outcome(vm, store, Some(Social.Completion(false, "User not authenticated")))
    else
      var uid := currentUser.value;
      var mine := DeleteFriend(store.friends, (uid, friendId), reply);
      if mine.error.Some? then
        Outcome(vm, store, Some(Social.Completion(false, "Error removing friend: " + mine.error.value)))
      else
        var theirs := DeleteFriend(mine.friends, (friendId, uid), mirrorReply);
        Outcome(vm, store.(friends := theirs.friends), Some(Social.Completion(true, "Friend removed successfully")))
  }

  /** Both variants remove a friend identically. */
  lemma RemoveAgreesWithNewerVariant(vm: ViewModel, newer: Social.ViewModel, store: Store, currentUser: Option<string>,
                                     friendId: string, reply: Reply, mirrorReply: Reply)
    ensures
      var older := RemoveFriend(vm, store, currentUser, friendId, reply, mirrorReply);
      var newest := Social.RemoveFriend(newer, store, currentUser, friendId, reply, mirrorReply);
      older.store == newest.store && older.completion == newest.completion
  {
  }
}

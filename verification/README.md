# prjTradingCard in Dafny

A model of the sequential logic of prjTradingCard, a SwiftUI card-collecting
app backed by a hosted document database and an identity provider. It covers:

- the friend relation between users, as two mirrored documents
  `users/{owner}/friends/{other}`, with its tabbed, searchable list, its
  favourite toggle, and the request / accept / decline / remove flows
  (`Social`);
- the older friends view model, with its search-only list, its add-by-email
  flow and its remove (`SocialLegacy`);
- the rarity-weighted card draw and the recording of a drawn card
  (`CardDraw`);
- the collection screen's aggregation: counting owned-card rows, joining the
  counts to catalog cards, and sorting legendary-first, then by name
  (`Collection`, `CollectionViews`);
- registration, login, logout and the profile-picture update (`AuthManager`),
  and the sign-up and login screens' ordered field checks (`SignUpForm`,
  `LoginForm`);
- the pack carousel's selection rule (`PackCarousel`).

The backend is a value: `Store.Store` holds the `users` documents, the friend
documents keyed by `(owner, other)`, and the `userCollection` rows. Every
network answer is a parameter:

- `Reply` is success or an error description;
- `SetFate` is stored, silently rejected, or thrown while encoding;
- `Lookup`, `RecordQuery` and `CardQuery` are the query results;
- `ProviderReply` is the identity provider's answer.

The random roll and the random choices of the card draw are parameters too.
Updating a missing document fails with the backend's "No document to update".
Deleting a missing document succeeds. Each operation returns the new view
state, the new store and the argument its completion handler receives
(`None` when the handler is never called).

Files:

- `common.dfy`: `Option`, order-preserving filtering, ASCII lower-casing,
  substring search, string order.
- `theme.dfy`: card types and rarities.
- `friend.dfy`: the `Friend` record.
- `store.dfy`: the store and its writes.
- `social.dfy`: the current friends view model.
- `social_legacy.dfy`: the older friends view model.
- `cards.dfy`: catalog cards and collection rows, shared by the card draw and
  the collection screens.
- `card_draw.dfy`: the card draw.
- `collection.dfy`: the collection view model.
- `collection_views.dfy`: the collection screens.
- `auth.dfy`: the account manager.
- `forms.dfy`: the sign-up and login screens.
- `pack_carousel.dfy`: the pack carousel.

## Model

| member | source | states |
|---|---|---|
| Theme.TypeFromRaw | prjTradingCard/model/Theme.swift:11-13 | decoding a raw card-type string gives the case with that raw value, or nothing when no case has it |
| Theme.CardTypeCases | prjTradingCard/model/Theme.swift:11-13 | there are exactly eight card types, all distinct, and each decodes back from its raw string |
| Theme.RarityFromRaw | prjTradingCard/model/Theme.swift:15-19 | an integer decodes to a rarity exactly when it is 0, 1 or 2, and the decoded rarity has that raw value |
| Theme.RarityRawOrder | prjTradingCard/model/Theme.swift:15-19 | common = 0 < rare = 1 < legendary = 2, and each rarity decodes back from its raw value |
| Theme.ColorTablesTotal | prjTradingCard/model/Theme.swift:21-36 | the type colour table has an entry for every card type, and the rarity colour table for every rarity |
| FriendModel.StatusFromRaw | prjTradingCard/model/Friend.swift:11-15 | decoding a raw status string gives the status with that raw value, or nothing when none has it |
| FriendModel.StatusRawValues | prjTradingCard/model/Friend.swift:11-15 | the three statuses are "accepted", "pending" and "sent", pairwise distinct, each decoding back to itself |
| FriendModel.InitializerDefaults | prjTradingCard/model/Friend.swift:17-36 | the initializer leaves id, presence and date unset, defaults to an accepted, non-favourite friendship, and, with all eight arguments given, stores each one in its own field |
| Store.UpdateFriend | prjTradingCard/model/SocialViewModel.swift:133-142 | a document update succeeds exactly when the backend answers and the document exists; it then changes only that document, and on failure nothing changes |
| Store.DeleteFriend | prjTradingCard/model/SocialViewModel.swift:267-279 | a delete succeeds exactly when the backend answers; it then removes that document and keeps every other one, and on failure nothing changes |
| Social.Filtered | prjTradingCard/model/SocialViewModel.swift:67-88 | the list shows exactly the entries in the tab (All: accepted; Pending; Sent; Favorites: accepted and favourite) whose lower-cased username contains the lower-cased search text when there is one, in list order |
| Social.EmptySearchShowsTab | prjTradingCard/model/SocialViewModel.swift:82-87 | an empty search shows the whole tab |
| Social.SearchIgnoresCase | prjTradingCard/model/SocialViewModel.swift:83-85 | the shown list does not depend on the case of the search text |
| Social.GetCount | prjTradingCard/model/SocialViewModel.swift:90-101 | each tab's badge equals the length of that tab's list with an empty search |
| Social.FirstIndexWithId | prjTradingCard/model/SocialViewModel.swift:107 | the index found holds the id and no earlier entry does; none is found exactly when no entry has the id |
| Social.ToggleFavorite | prjTradingCard/model/SocialViewModel.swift:103-122 | only the first local entry with the friend's id has its favourite flag flipped, the shown list is recomputed, and the actor's document gets the new flag when that write succeeds; the loading flag, the error message, the user documents and the owned-card rows never change; with no user, no id or no such entry nothing changes |
| Social.ToggleTwiceRestores | prjTradingCard/model/SocialViewModel.swift:103-122 | toggling the same friend twice gives back the original local list |
| Social.AcceptFriendRequest | prjTradingCard/model/SocialViewModel.swift:125-154 | success is reported exactly when the actor's document was updated to accepted with its date; only then is the counterpart updated, and its failure is not reported; accepting one's own id updates the single document twice, the second date winning when that write lands; missing ids give "Invalid user data"; a failed update of the actor's document reports "Error accepting friend request: " followed by the backend's error, or by "No document to update" when the document is missing |
| Social.AcceptMirrors | prjTradingCard/model/SocialViewModel.swift:125-154 | accepting a mirrored incoming request with both writes succeeding leaves both documents accepted |
| Social.AcceptPartialFailureDiverges | prjTradingCard/model/SocialViewModel.swift:142-152 | when the counterpart update fails, success is still reported while the pair is no longer mirrored |
| Social.AcceptIgnoresPriorStatus | prjTradingCard/model/SocialViewModel.swift:132-137 | the prior status is not checked: the sender of a request can accept it on their own side |
| Social.RemoveFriend | prjTradingCard/model/SocialViewModel.swift:261-280 | the actor's document is deleted, and only if that succeeded the counterpart's; success is reported on the first delete alone; a failed first delete reports "Error removing friend: " followed by the backend's error |
| Social.DeclineFriendRequest | prjTradingCard/model/SocialViewModel.swift:157-165 | declining is removal by the friend's id; a missing user or id gives "Invalid user data" |
| Social.AddFriend | prjTradingCard/model/SocialViewModel.swift:167-259 | the first failing check gives its message, in this order: not signed in, empty username, lookup error, no match, undecodable match, self, already listed, own document unreadable; otherwise the sent and pending documents are written and the message names the user; once the lookup is under way only the loading flag of the view changes, to off |
| Social.AddFriendMirrors | prjTradingCard/model/SocialViewModel.swift:223-251 | a request whose two writes both land leaves the pair mirrored: sent for the actor, pending for the target, both non-favourite and "Offline", each describing the other party |
| Social.AddFriendLostMirror | prjTradingCard/model/SocialViewModel.swift:244-256 | a lost second write is reported as success with only the actor's side written |
| Social.AddThenRemoveRestores | prjTradingCard/model/SocialViewModel.swift:167-280 | sending a request to an unrelated user and then removing them, with every write succeeding, restores the original friend documents |
| SocialLegacy.FilterFriends | prjTradingCard/view/SocialViewModel.swift:59-67 | an empty search shows all friends; otherwise exactly the friends whose username contains the search text ignoring case, in list order |
| SocialLegacy.FilterAgreesWithAllTab | prjTradingCard/view/SocialViewModel.swift:59-67 | on a list of accepted friends the old filter and the newer "All" tab show the same list |
| SocialLegacy.AddFriendVia | prjTradingCard/view/SocialViewModel.swift:69-142 | success exactly when every check passes and the first entry encodes; failure changes no document; on success the actor's accepted entry is set, then the mutual entry is set from the read profile when there is one, and nothing but friend documents changes; the view only has its loading flag lowered once a user is signed in |
| SocialLegacy.AddFriendByEmail | prjTradingCard/view/SocialViewModel.swift:69-142 | the first failing check gives its message, in this order: not signed in, lookup error, no match, undecodable match, already listed, encoding error; otherwise the actor's entry is written accepted, dated and non-favourite, and the friend documents become exactly that write followed, when the read finds `users/{friendId}/friends/{currentUserId}`, by the mutual entry built from it; the view only has its loading flag lowered once a user is signed in |
| SocialLegacy.AddByEmailAllowsSelf | prjTradingCard/view/SocialViewModel.swift:93-104 | there is no self check: a user can add themselves |
| SocialLegacy.AddByEmailNeverMirrorsNewPair | prjTradingCard/view/SocialViewModel.swift:121-134 | for a pair with no documents yet, a fully successful add never writes the friend's entry for the actor |
| SocialLegacy.AddFriendByEmailCorrected | prjTradingCard/view/SocialViewModel.swift:119-134 | built from the actor's own user document, a fully successful add leaves the pair mirrored and accepted on both sides, with the actor's profile on the friend's side; the friend documents become exactly the actor's entry followed by that mutual entry whenever the actor's document is read; the view only has its loading flag lowered once a user is signed in |
| SocialLegacy.RemoveFriend | prjTradingCard/view/SocialViewModel.swift:144-163 | the actor's entry is deleted, then the friend's only if the first delete succeeded; success is reported on the first delete alone, with "Friend removed successfully"; no user gives "User not authenticated", and a failed first delete "Error removing friend: " followed by the backend's error |
| SocialLegacy.RemoveAgreesWithNewerVariant | prjTradingCard/view/SocialViewModel.swift:144-163 | both view models remove a friend with the same store effect and the same completion |
| CardDraw.RarityForRoll | prjTradingCard/view/CardViewModel.swift:46-55 | a roll of at most 70 gives common, 71 to 95 rare, 96 and above legendary |
| CardDraw.RollDistribution | prjTradingCard/view/CardViewModel.swift:46-55 | of the rolls 1 to 100, 70 give common, 25 rare and 5 legendary |
| CardDraw.PullRandomCard | prjTradingCard/view/CardViewModel.swift:40-65 | nothing is drawn exactly when the catalog is empty; a drawn card is in the catalog, and it has the rolled rarity whenever the catalog has a card of that rarity |
| CardDraw.EveryCandidateDrawable | prjTradingCard/view/CardViewModel.swift:57-64 | every card of the rolled rarity can be drawn, and when that rarity has no card every catalog card can |
| CardDraw.SaveCardToUserCollection | prjTradingCard/view/CardViewModel.swift:67-95 | no user: the completion gets false; no card id: no write and no completion; otherwise the completion gets true exactly when one `{userId, cardId}` row was appended, and nothing changes otherwise |
| CardDraw.SaveAddsOneCopy | prjTradingCard/view/CardViewModel.swift:67-95 | a successful save appends exactly the card's id to the user's owned ids (one more copy in the multiset), leaves every other user's ids alone, and any other outcome changes nobody's ids |
| Collection.TotalCards | prjTradingCard/view/CollectionViewModel.swift:18-20 | the total is the left fold of the counts (the last row's count added to the total of the others), and never negative when no count is |
| Collection.UniqueCards | prjTradingCard/view/CollectionViewModel.swift:22-24 | the number of rows, which is the number of distinct cards whenever no card has two rows |
| Collection.UniqueAtMostTotal | prjTradingCard/view/CollectionViewModel.swift:18-24 | when every row holds at least one copy, the number of rows is at most the total of the counts |
| Collection.CountCardIds | prjTradingCard/view/CollectionViewModel.swift:51-55 | the counted ids are exactly the fetched ids, each mapped to its number of occurrences |
| Collection.CountsSumToRecords | prjTradingCard/view/CollectionViewModel.swift:51-55 | the counts over the distinct ids add up to the number of fetched rows |
| Collection.FriendCountAgrees | prjTradingCard/view/CollectionViewModel.swift:82-83 | the friend screen's dictionary with summed duplicate keys equals the occurrence count |
| Collection.Join | prjTradingCard/view/CollectionViewModel.swift:113-124 | the join fails exactly when some card lacks an id; otherwise it is exactly the catalog cards whose id was counted, in catalog order, each paired with its count |
| Collection.InOrderTotal | prjTradingCard/view/CollectionViewModel.swift:127-132 | any two rows can be ordered by the comparator one way or the other |
| Collection.BeforeIrreflexive | prjTradingCard/view/CollectionViewModel.swift:127-132 | the comparator never puts a row strictly before itself, as a sort comparator must not |
| Collection.InOrderTransitive | prjTradingCard/view/CollectionViewModel.swift:127-132 | the comparator's order is transitive |
| Collection.SortCollection | prjTradingCard/view/CollectionViewModel.swift:127-132 | the result is a permutation of the rows with higher rarity first and, within a rarity, names in ascending order |
| Collection.SortKeepsTotal | prjTradingCard/view/CollectionViewModel.swift:127-132 | sorting keeps the total number of copies |
| Collection.FetchCardDetails | prjTradingCard/view/CollectionViewModel.swift:87-136 | no ids: the list is emptied and loading ends; a failed query only ends loading; a card without an id abandons the update and leaves loading on; otherwise the list is a sorted permutation of the decoded, counted cards with their counts, each appearing as often as in the catalog |
| Collection.FetchUserCollection | prjTradingCard/view/CollectionViewModel.swift:26-60 | nothing happens without a user; a failed record or catalog query only ends loading; otherwise the list is a sorted permutation of the catalog cards the user owns, each holding as many copies as the user has rows for that card |
| Collection.SavedCardCounted | prjTradingCard/view/CollectionViewModel.swift:26-60 | when the records query is read from the stored rows, a successful save of a card raises that card's count by exactly one and leaves every other card's count as it was |
| Collection.FetchFriendCollection | prjTradingCard/view/CollectionViewModel.swift:62-85 | with documents, the friend's collection loads exactly as the user's own would; a failed query or a missing snapshot only ends loading |
| Collection.NoSnapshotPathsDiffer | prjTradingCard/view/CollectionViewModel.swift:47-77 | on a missing snapshot the user's screen is emptied while the friend's keeps its rows |
| Collection.LoadedUniqueAtMostTotal | prjTradingCard/view/CollectionViewModel.swift:18-24 | a loaded collection never has more rows than copies |
| CollectionViews.FilteredCards | prjTradingCard/view/UserCollectionView.swift:14-19 | no chip: every row; a chip: exactly the rows of that card type, in order and as many as there are; always a subsequence of the rows |
| CollectionViews.ChipsPartition | prjTradingCard/view/FriendCollectionView.swift:16-21 | each row appears under the chip of its own type and under no other |
| CollectionViews.RarityName | prjTradingCard/view/UserCollectionView.swift:246-252 | each rarity's label is one of "Common", "Rare" and "Legendary" |
| CollectionViews.RarityNamesDistinct | prjTradingCard/view/UserCollectionView.swift:246-252 | common, rare and legendary are labelled "Common", "Rare" and "Legendary", and distinct rarities get distinct labels |
| CollectionViews.FriendOnAppear | prjTradingCard/view/FriendCollectionView.swift:168-172 | the friend's collection is fetched only when the friend has an id |
| AuthManager.ErrorDescriptions | prjTradingCard/view/AuthManager.swift:158-173 | each error has its fixed message and no two errors share one |
| AuthManager.CheckUsernameAvailable | prjTradingCard/view/AuthManager.swift:78-90 | a name is available exactly when the query succeeds and no document holds its lower-cased form; a query error counts as taken |
| AuthManager.CreateUserDocument | prjTradingCard/view/AuthManager.swift:93-104 | on success the user's document holds the id, the email, the lower-cased username and the picture "tcgpfp", and no other document changes |
| AuthManager.Register | prjTradingCard/view/AuthManager.swift:24-52 | a taken name fails with "already exists" before any account is made; provider errors and document errors are passed on; the user is set only when both the account and the document were created |
| AuthManager.RegisteredNameTaken | prjTradingCard/view/AuthManager.swift:27-33 | after a successful registration, every spelling of the username with the same lower-case form is reported taken |
| AuthManager.RegisterKeepsNamesUnique | prjTradingCard/view/AuthManager.swift:24-104 | if no two user documents shared a username before a registration, none do after it |
| AuthManager.Login | prjTradingCard/view/AuthManager.swift:55-64 | success sets the user, an error leaves everything unchanged, no answer calls nothing |
| AuthManager.Logout | prjTradingCard/view/AuthManager.swift:67-74 | a successful sign-out clears the user; a failed one changes nothing |
| AuthManager.LoginThenLogout | prjTradingCard/view/AuthManager.swift:55-74 | logging in and then out leaves nobody signed in and nothing else changed |
| AuthManager.UpdateProfilePfp | prjTradingCard/view/AuthManager.swift:125-136 | with nobody signed in the error is "empty fields" and nothing is written; otherwise only the picture of the user's document changes, and the update fails when that document is missing; the completion then gets the backend's error, or "No document to update" for a missing document |
| AuthManager.PfpUpdateKeepsNames | prjTradingCard/view/AuthManager.swift:125-136 | a picture update keeps the same user documents with the same usernames, so no name becomes more or less available |
| AuthManager.PfpUpdateKeepsNamesUnique | prjTradingCard/view/AuthManager.swift:125-136 | distinct usernames stay distinct across a picture update |
| SignUpForm.SignUpError | prjTradingCard/view/SignUp.swift:141-156 | the first failing check wins: any empty field, then a username under three characters, then an email without "@" |
| SignUpForm.ValidSignUp | prjTradingCard/view/SignUp.swift:141-156 | the form passes exactly when all fields are filled, the username has at least three characters and the email contains "@"; three characters are enough |
| SignUpForm.HandleSignUp | prjTradingCard/view/SignUp.swift:141-170 | a failing check shows its message and registers nothing; otherwise the message is cleared, registration runs with the fields as typed, success dismisses and failure shows the error |
| SignUpForm.RejectedFormTouchesNothing | prjTradingCard/view/SignUp.swift:141-156 | a rejected form creates no account or document and does not dismiss |
| LoginForm.HandleLogin | prjTradingCard/view/LoginView.swift:119-137 | an empty email or password shows its message and attempts nothing; otherwise the message is cleared, success sets the logged-in flag, failure shows the error and keeps the flag |
| LoginForm.LoggedInIffSignedIn | prjTradingCard/view/LoginView.swift:119-137 | starting logged out, the screen is logged in exactly when the fields were filled and the provider signed the user in |
| PackCarousel.DragChanged | prjTradingCard/view/PackOpeningView.swift:82-84 | during a drag only the offset follows the finger; the selection stays |
| PackCarousel.DragChangedThenEnded | prjTradingCard/view/PackOpeningView.swift:82-94 | where a drag ends depends only on the selection and the final width, not on the offsets shown on the way |
| PackCarousel.DragEnded | prjTradingCard/view/PackOpeningView.swift:85-94 | a drag past -50 selects the next pack unless at the last, past 50 the previous unless at the first; otherwise nothing moves; the selection moves at most one step and the offset returns to 0 |
| PackCarousel.Tap | prjTradingCard/view/PackOpeningView.swift:72-76 | tapping a pack selects it |
| PackCarousel.RunStaysInBounds | prjTradingCard/view/PackOpeningView.swift:72-94 | no sequence of drags and taps takes an in-bounds selection out of bounds |
| PackCarousel.InitialInBounds | prjTradingCard/view/PackOpeningView.swift:13-21 | starting on the middle of three packs, the selection always names a pack |
| PackCarousel.DragsMoveOneStepEach | prjTradingCard/view/PackOpeningView.swift:85-94 | n drag-ends move the selection at most n packs |
| PackCarousel.ExactlyOneHighlighted | prjTradingCard/view/PackOpeningView.swift:135-141 | exactly one page indicator is lit, the one at the selected index |

## Left out

- Live updates: `loadFriends` in both friends view models and `fetchCards` of the card view model subscribe to database listeners or fetch the catalog. The model takes the friend list and the catalog as inputs.
- The `userCollection` query of the collection screens is an input (`RecordQuery`); nothing forces it to agree with `Store.userCollection`. `Collection.RecordsOf` gives the answer read from stored rows, and `Collection.SavedCardCounted` connects a save to the next count only through it.
- Thread hops, `[weak self]` guards, completion timing and `asyncAfter` delays are not modelled. Each operation is treated as finishing with all of its callbacks run.
- Logging with `print` is not modelled.
- Common.Lower: lower-cases ASCII letters only. Swift's `lowercased()` follows full Unicode case mapping.
- Character counts are code-point counts, not Swift's grapheme clusters. This affects the three-character username rule.
- Common.LexLess: compares character codes. This is Swift's `<` on strings only up to Unicode canonical equivalence.
- Collection.SortCollection: promises only a sorted permutation. Swift's `sorted(by:)` is not stable, so the order of rows that tie is left open.
- CardDraw.PullRandomCard: takes the random choices as indices reduced modulo the number of candidates. The probabilities themselves are not modelled; only the count of rolls per rarity is.
- Dates are integers. The two `Date()` calls of an accept are separate parameters.
- The database's limits on `in` filters are not modelled. A query rejected by the backend is an ordinary query error.
- Social.AddFriend: the lookup result is a parameter, so the query is not computed. Usernames are stored lower-cased (prjTradingCard/view/AuthManager.swift:97), but `addFriend(username:)` queries the typed text as is (prjTradingCard/model/SocialViewModel.swift:181). Typing "Alice" therefore never finds "alice".
- AuthManager.RegisterKeepsNamesUnique: uniqueness holds for one registration at a time only. The availability check and the document write are separate asynchronous round trips, so two concurrent sign-ups with the same name can both pass the check.
- `getUsername` and `getUserPfp` are not part of this model: they are plain reads with no logic of their own.
- The password is handled by the identity provider and is not modelled. Its answer is the `ProviderReply` parameter.
- `CGFloat` drag widths are modelled as reals, so floating-point rounding is not modelled. Layout, animation, audio and every other screen are not part of this model.
- `model/Card.swift` and `model/User.swift` disagree with how cards and users are used in the code. `Cards.Card` and `Store.UserRecord` follow the uses instead.

## Findings

| source | as written | input that shows it | evidently intended | confidence | as-written member | corrected member |
|---|---|---|---|---|---|---|
| prjTradingCard/view/SocialViewModel.swift:121-134 | the mutual entry is built by reading `users/{friendId}/friends/{currentUserId}`, the very document the step is meant to create | two users with no friend documents between them; the actor adds the other by email and every read and write succeeds | read the actor's own `users/{currentUserId}` document, as the code's comment says, so that the friend's side gets an accepted entry for the actor | high, not executed | SocialLegacy.AddByEmailNeverMirrorsNewPair | SocialLegacy.AddFriendByEmailCorrected |

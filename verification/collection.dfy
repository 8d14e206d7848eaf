/** `CollectionViewModel` of `view/CollectionViewModel.swift`: counting the
    owned-card rows of a user, joining the counts onto catalog cards, and
    ordering the result legendary-first, then by name. */
module Collection {
  import opened Common
  import opened Theme
  import opened Cards
  import Store
  import CardDraw

  datatype CollectionViewModel = CollectionViewModel(userCards: seq<Entry>, isLoading: bool)

  /** `totalCards`: copies owned, summed over the rows. The source folds
      from the left; the sum is the same taken from the right, and it is
      never negative when no row is. */
  function TotalCards(userCards: seq<Entry>): (n: int)
    ensures userCards != [] ==> n == TotalCards(userCards[..|userCards| - 1]) + userCards[|userCards| - 1].count
    ensures (forall i :: 0 <= i < |userCards| ==> userCards[i].count >= 0) ==> n >= 0
  {
    if userCards == [] then 0
    else
      var rest := userCards[1..];
      assert rest != [] ==> userCards[..|userCards| - 1][1..] == rest[..|rest| - 1];
      assert rest == [] ==> userCards[..|userCards| - 1] == [];
      userCards[0].count + TotalCards(rest)
  }

  /** The cards the rows are for. */
  function CardsOf(userCards: seq<Entry>): set<Card>
  {
    set e | e in userCards :: e.card
  }

  /** `uniqueCards`: the number of rows, which is the number of distinct
      cards whenever no card has two rows. */
  function UniqueCards(userCards: seq<Entry>): (n: nat)
    ensures (forall i, j :: 0 <= i < j < |userCards| ==> userCards[i].card != userCards[j].card) ==> n == |CardsOf(userCards)|
    ensures n <= |userCards|
  {
    DistinctRowsCount(userCards);
    |userCards|
  }

  lemma {:induction false} DistinctRowsCount(userCards: seq<Entry>)
    ensures (forall i, j :: 0 <= i < j < |userCards| ==> userCards[i].card != userCards[j].card) ==>
      |CardsOf(userCards)| == |userCards|
  {
    if userCards != [] && forall i, j :: 0 <= i < j < |userCards| ==> userCards[i].card != userCards[j].card {
      var rest := userCards[1..];
      DistinctRowsCount(rest);
      assert CardsOf(userCards) == {userCards[0].card} + CardsOf(rest) by {
        forall c ensures c in CardsOf(userCards) <==> c in {userCards[0].card} + CardsOf(rest) {
          if c in CardsOf(userCards) {
            var e :| e in userCards && e.card == c;
            var k :| 0 <= k < |userCards| && userCards[k] == e;
            if k > 0 { assert rest[k - 1] == e; }
          }
          if c in CardsOf(rest) {
            var e :| e in rest && e.card == c;
            assert e in userCards;
          }
        }
      }
      assert userCards[0].card !in CardsOf(rest);
    }
  }

  /** When every row holds at least one copy there are no more distinct
      cards than copies. */
  lemma {:induction false} UniqueAtMostTotal(userCards: seq<Entry>)
    requires forall i :: 0 <= i < |userCards| ==> userCards[i].count >= 1
    ensures UniqueCards(userCards) <= TotalCards(userCards)
  {
    if userCards != [] {
      UniqueAtMostTotal(userCards[1..]);
    }
  }

  // ---------------------------------------------------------------------
  // Counting card ids

  /** Reference count map: each id of the list mapped to its number of
      occurrences. */
  function Tally(ids: seq<string>): map<string, int>
  {
    map k | k in ids :: multiset(ids)[k]
  }

  lemma TallySnoc(ids: seq<string>, x: string)
    ensures Tally(ids + [x]) == Tally(ids)[x := multiset(ids)[x] + 1]
  {
    assert multiset(ids + [x]) == multiset(ids) + multiset{x};
    assert forall k :: k in ids + [x] <==> k in ids || k == x;
  }

  /** The loop of `fetchUserCollection`:
      `cardCounts[cardId, default: 0] += 1` for every id. */
  method CountCardIds(cardIds: seq<string>) returns (cardCounts: map<string, int>)
    ensures forall id :: id in cardCounts <==> id in cardIds
    ensures forall id :: id in cardCounts ==> cardCounts[id] == multiset(cardIds)[id]
  {
    cardCounts := map[];
    for i := 0 to |cardIds|
      invariant cardCounts == Tally(cardIds[..i])
    {
      var id := cardIds[i];
      assert cardIds[..i + 1] == cardIds[..i] + [id];
      TallySnoc(cardIds[..i], id);
      cardCounts := cardCounts[id := (if id in cardCounts then cardCounts[id] else 0) + 1];
    }
    assert cardIds[..|cardIds|] == cardIds;
  }

  /** `Dictionary(pairs, uniquingKeysWith: +)`: pairs inserted in order, a
      repeated key adding its value to the one already stored. */
  function UniquingKeysWithSum(pairs: seq<(string, int)>): map<string, int>
  {
    if pairs == [] then map[]
    else
      var m := UniquingKeysWithSum(pairs[..|pairs| - 1]);
      var (k, v) := pairs[|pairs| - 1];
      if k in m then m[k := m[k] + v] else m[k := v]
  }

  /** `cardIds.map { ($0, 1) }`. */
  function PairsWithOne(ids: seq<string>): (pairs: seq<(string, int)>)
    ensures |pairs| == |ids|
    ensures forall i :: 0 <= i < |ids| ==> pairs[i] == (ids[i], 1)
  {
    if ids == [] then [] else PairsWithOne(ids[..|ids| - 1]) + [(ids[|ids| - 1], 1)]
  }

  /** Adding one more id to the pairs adds one to its entry. */
  lemma UniquingSnoc(ids: seq<string>, x: string)
    ensures
      var m := UniquingKeysWithSum(PairsWithOne(ids));
      UniquingKeysWithSum(PairsWithOne(ids + [x])) == if x in m then m[x := m[x] + 1] else m[x := 1]
  {
    var pairs := PairsWithOne(ids + [x]);
    assert pairs[..|pairs| - 1] == PairsWithOne(ids);
    assert pairs[|pairs| - 1] == (x, 1);
  }

  /** The friend screen's `Dictionary(..., uniquingKeysWith: +)` count is
      the same map as the loop-built count of the user screen. */
  lemma {:induction false} FriendCountAgrees(ids: seq<string>)
    ensures UniquingKeysWithSum(PairsWithOne(ids)) == Tally(ids)
  {
    if ids != [] {
      var init := ids[..|ids| - 1];
      var x := ids[|ids| - 1];
      assert ids == init + [x];
      FriendCountAgrees(init);
      UniquingSnoc(init, x);
      TallySnoc(init, x);
      TallyBump(init, x);
    }
  }

  /** Bumping an id's entry of the count map, present or not, gives its
      occurrence count plus one. */
  lemma TallyBump(ids: seq<string>, x: string)
    ensures
      var t := Tally(ids);
      (if x in t then t[x := t[x] + 1] else t[x := 1]) == t[x := multiset(ids)[x] + 1]
  {
    var t := Tally(ids);
    assert x !in t ==> multiset(ids)[x] == 0;
  }

  /** The distinct ids of a list, in order of first occurrence. */
  function Distinct(ids: seq<string>): seq<string>
  {
    if ids == [] then []
    else
      var d := Distinct(ids[..|ids| - 1]);
      if ids[|ids| - 1] in ids[..|ids| - 1] then d else d + [ids[|ids| - 1]]
  }

  predicate NoDuplicates(s: seq<string>)
  {
    forall i, j :: 0 <= i < j < |s| ==> s[i] != s[j]
  }

  lemma {:induction false} DistinctProperties(ids: seq<string>)
    ensures forall x :: x in Distinct(ids) <==> x in ids
    ensures NoDuplicates(Distinct(ids))
  {
    if ids != [] {
      var init := ids[..|ids| - 1];
      DistinctProperties(init);
      assert ids == init + [ids[|ids| - 1]];
    }
  }

  /** Sum of the map's values over a list of keys (absent keys count 0). */
  function SumOver(keys: seq<string>, m: map<string, int>): int
  {
    if keys == [] then 0
    else SumOver(keys[..|keys| - 1], m) + (if keys[|keys| - 1] in m then m[keys[|keys| - 1]] else 0)
  }

  lemma {:induction false} SumOverUnchanged(keys: seq<string>, m: map<string, int>, x: string, v: int)
    requires x !in keys
    ensures SumOver(keys, m[x := v]) == SumOver(keys, m)
  {
    if keys != [] {
      SumOverUnchanged(keys[..|keys| - 1], m, x, v);
    }
  }

  lemma {:induction false} SumOverBump(keys: seq<string>, m: map<string, int>, x: string, v: int)
    requires NoDuplicates(keys) && x in keys
    requires x in m ==> v == m[x] + 1
    requires x !in m ==> v == 1
    ensures SumOver(keys, m[x := v]) == SumOver(keys, m) + 1
  {
    var init := keys[..|keys| - 1];
    if keys[|keys| - 1] == x {
      assert x !in init;
      SumOverUnchanged(init, m, x, v);
    } else {
      assert x in init;
      SumOverBump(init, m, x, v);
    }
  }

  /** The counts add up to the number of owned-card rows. */
  lemma {:induction false} CountsSumToRecords(ids: seq<string>)
    ensures SumOver(Distinct(ids), Tally(ids)) == |ids|
  {
    if ids != [] {
      var init := ids[..|ids| - 1];
      var x := ids[|ids| - 1];
      assert ids == init + [x];
      CountsSumToRecords(init);
      TallySnoc(init, x);
      CountsSumStep(init, x);
    }
  }

  /** One more id adds one to the sum of the counts over the distinct ids. */
  lemma CountsSumStep(init: seq<string>, x: string)
    ensures SumOver(Distinct(init + [x]), Tally(init)[x := multiset(init)[x] + 1]) == SumOver(Distinct(init), Tally(init)) + 1
  {
    var ids := init + [x];
    assert ids[..|ids| - 1] == init;
    var d := Distinct(init);
    var t := Tally(init);
    var v := multiset(init)[x] + 1;
    DistinctProperties(init);
    if x in init {
      assert Distinct(ids) == d;
      assert x in d;
      assert x in t && t[x] == multiset(init)[x];
      SumOverBump(d, t, x, v);
      assert SumOver(d, t[x := v]) == SumOver(d, t) + 1;
    } else {
      assert Distinct(ids) == d + [x];
      assert x !in d;
      assert v == 1;
      SumOverAppendNew(d, t, x, v);
      assert SumOver(d + [x], t[x := v]) == SumOver(d, t) + 1;
    }
  }

  /** Summing over one more key that was absent from the list adds its new
      value. */
  lemma SumOverAppendNew(keys: seq<string>, m: map<string, int>, x: string, v: int)
    requires x !in keys
    ensures SumOver(keys + [x], m[x := v]) == SumOver(keys, m) + v
  {
    var ks := keys + [x];
    assert ks[..|ks| - 1] == keys;
    SumOverUnchanged(keys, m, x, v);
  }

  // ---------------------------------------------------------------------
  // Joining counts onto catalog cards

  /** `compactMap` over decode results: the documents that decoded. */
  function Decoded(docs: seq<Option<Card>>): (cards: seq<Card>)
    ensures forall c :: c in cards <==> Some(c) in docs
  {
    if docs == [] then []
    else (if docs[0].Some? then [docs[0].value] else []) + Decoded(docs[1..])
  }

  /** A catalog card whose id was counted. */
  function CountedBy(cardCounts: map<string, int>): Card -> bool
  {
    (c: Card) => c.id.Some? && c.id.value in cardCounts
  }

  /** Reference join: the counted catalog cards, kept in catalog order,
      each paired with its count. */
  function Counted(cards: seq<Card>, cardCounts: map<string, int>): seq<Entry>
  {
    var kept := Keep(cards, CountedBy(cardCounts));
    seq(|kept|, k requires 0 <= k < |kept| => assert kept[k] in kept; Entry(kept[k], cardCounts[kept[k].id.value]))
  }

  lemma CountedCons(cards: seq<Card>, cardCounts: map<string, int>)
    requires cards != []
    ensures Counted(cards, cardCounts) ==
      if CountedBy(cardCounts)(cards[0]) then [Entry(cards[0], cardCounts[cards[0].id.value])] + Counted(cards[1..], cardCounts)
      else Counted(cards[1..], cardCounts)
  {
    var p := CountedBy(cardCounts);
    var kept, tail := Keep(cards, p), Keep(cards[1..], p);
    assert kept == if p(cards[0]) then [cards[0]] + tail else tail;
    var whole, rest := Counted(cards, cardCounts), Counted(cards[1..], cardCounts);
    if p(cards[0]) {
      assert whole[0] == Entry(cards[0], cardCounts[cards[0].id.value]);
      forall k | 0 <= k < |rest| ensures whole[k + 1] == rest[k] {
        assert kept[k + 1] == tail[k];
      }
      assert whole == [Entry(cards[0], cardCounts[cards[0].id.value])] + rest;
    } else {
      assert whole == rest;
    }
  }

  /** The loop of `fetchCardDetails`: each card whose id was counted,
      paired with its count, in catalog order; `None` when any card lacks an
      id, which abandons the whole update. */
  function Join(cards: seq<Card>, cardCounts: map<string, int>): (r: Option<seq<Entry>>)
    ensures r.None? <==> exists i :: 0 <= i < |cards| && cards[i].id.None?
    ensures r.Some? ==> r.value == Counted(cards, cardCounts)
    ensures r.Some? ==> |r.value| <= |cards|
    ensures r.Some? ==> forall e :: e in r.value <==>
      e.card in cards && e.card.id.Some? && e.card.id.value in cardCounts && e.count == cardCounts[e.card.id.value]
  {
    if cards == [] then Some([])
    else if cards[0].id.None? then None
    else
      match Join(cards[1..], cardCounts)
      case None => None
      case Some(rest) =>
        CountedCons(cards, cardCounts);
        var id := cards[0].id.value;
        if id in cardCounts then Some([Entry(cards[0], cardCounts[id])] + rest) else Some(rest)
  }

  // ---------------------------------------------------------------------
  // Ordering

  /** The sort comparator: higher rarity first, then names in ascending
      order. */
  predicate Before(a: Entry, b: Entry)
  {
    if RarityRaw(a.card.cardRarity) != RarityRaw(b.card.cardRarity) then
      RarityRaw(a.card.cardRarity) > RarityRaw(b.card.cardRarity)
    else LexLess(a.card.cardName, b.card.cardName)
  }

  /** `a` may precede `b`: the comparator does not put `b` strictly first. */
  predicate InOrder(a: Entry, b: Entry)
  {
    !Before(b, a)
  }

  lemma InOrderTotal(a: Entry, b: Entry)
    ensures InOrder(a, b) || InOrder(b, a)
  {
    LexLessTrichotomy(a.card.cardName, b.card.cardName);
  }

  /** The comparator is a strict order: no row goes strictly before
      itself, so every row is in order with itself. */
  lemma BeforeIrreflexive(a: Entry)
    ensures !Before(a, a) && InOrder(a, a)
  {
    LexLessIrreflexive(a.card.cardName);
  }

  lemma InOrderTransitive(a: Entry, b: Entry, c: Entry)
    requires InOrder(a, b) && InOrder(b, c)
    ensures InOrder(a, c)
  {
    var na, nb, nc := a.card.cardName, b.card.cardName, c.card.cardName;
    if RarityRaw(a.card.cardRarity) == RarityRaw(b.card.cardRarity) == RarityRaw(c.card.cardRarity) && LexLess(nc, na) {
      LexLessTrichotomy(na, nb);
      LexLessTrichotomy(nb, nc);
      if na != nb && nb != nc {
        LexLessTransitive(na, nb, nc);
        LexLessTrichotomy(na, nc);
      } else if na == nb {
        LexLessTrichotomy(nb, nc);
      }
    }
  }

  /** No row is placed after a row the comparator wants after it. */
  predicate Sorted(s: seq<Entry>)
  {
    forall i, j :: 0 <= i < j < |s| ==> InOrder(s[i], s[j])
  }

  function Insert(x: Entry, s: seq<Entry>): (r: seq<Entry>)
    requires Sorted(s)
    ensures Sorted(r)
    ensures multiset(r) == multiset(s) + multiset{x}
  {
    if s == [] then [x]
    else if InOrder(x, s[0]) then
      BeforeSortedHead(x, s);
      PrependSorted(x, s);
      [x] + s
    else
      InOrderTotal(x, s[0]);
      var rest := Insert(x, s[1..]);
      HeadBeforeRest(s, x);
      PrependSorted(s[0], rest);
      assert s == [s[0]] + s[1..];
      [s[0]] + rest
  }

  /** A row in order with every row of a sorted list can lead it. */
  lemma PrependSorted(h: Entry, t: seq<Entry>)
    requires Sorted(t)
    requires forall e :: e in multiset(t) ==> InOrder(h, e)
    ensures Sorted([h] + t)
  {
    var s := [h] + t;
    forall i, j | 0 <= i < j < |s| ensures InOrder(s[i], s[j]) {
      assert s[j] == t[j - 1];
      if i == 0 {
        assert t[j - 1] in multiset(t);
      } else {
        assert s[i] == t[i - 1];
      }
    }
  }

  /** A row in order with the head of a sorted list is in order with all
      of it. */
  lemma BeforeSortedHead(x: Entry, s: seq<Entry>)
    requires Sorted(s) && s != [] && InOrder(x, s[0])
    ensures forall e :: e in multiset(s) ==> InOrder(x, e)
  {
    forall e | e in multiset(s) ensures InOrder(x, e) {
      var j :| 0 <= j < |s| && s[j] == e;
      if j > 0 {
        InOrderTransitive(x, s[0], s[j]);
      }
    }
  }

  /** The head of a sorted list is in order with the rest of it and with
      any row that may follow it. */
  lemma HeadBeforeRest(s: seq<Entry>, x: Entry)
    requires Sorted(s) && s != [] && InOrder(s[0], x)
    ensures forall e :: e in multiset(s[1..]) + multiset{x} ==> InOrder(s[0], e)
  {
    forall e | e in multiset(s[1..]) + multiset{x} ensures InOrder(s[0], e) {
      if e != x {
        var j :| 0 <= j < |s[1..]| && s[1..][j] == e;
        assert s[j + 1] == e;
      }
    }
  }

  /** The rows sorted by the comparator: a permutation of the input in
      which no row follows one it should precede. Swift's sort is not
      stable, so rows the comparator ties may come in any order. */
  function SortCollection(s: seq<Entry>): (r: seq<Entry>)
    ensures Sorted(r)
    ensures multiset(r) == multiset(s)
  {
    if s == [] then []
    else
      assert s == [s[0]] + s[1..];
      Insert(s[0], SortCollection(s[1..]))
  }

  lemma {:induction false} InsertAddsCount(x: Entry, s: seq<Entry>)
    requires Sorted(s)
    ensures TotalCards(Insert(x, s)) == x.count + TotalCards(s)
  {
    if s != [] && !InOrder(x, s[0]) {
      InsertAddsCount(x, s[1..]);
    }
  }

  /** Sorting does not change the total number of copies. */
  lemma {:induction false} SortKeepsTotal(s: seq<Entry>)
    ensures TotalCards(SortCollection(s)) == TotalCards(s)
  {
    if s != [] {
      SortKeepsTotal(s[1..]);
      InsertAddsCount(s[0], SortCollection(s[1..]));
    }
  }

  // ---------------------------------------------------------------------
  // Fetching

  /** The answer to the catalog query: an error, or the documents with
      their decode results. */
  datatype CardQuery = CardQueryFailed(description: string) | CardDocs(docs: seq<Option<Card>>)

  /** Every decoded catalog card carries an id. */
  predicate AllIdentified(query: CardQuery)
  {
    query.CardDocs? && forall c :: c in Decoded(query.docs) ==> c.id.Some?
  }

  /** `fetchCardDetails(cardCounts:)`. No ids: the list is emptied and
      loading ends. A failed query ends loading. A decoded card without an id
      abandons the update, leaving the list and the loading flag as they
      were. Otherwise the list becomes the joined, sorted rows. */
  function FetchCardDetails(vm: CollectionViewModel, cardCounts: map<string, int>, query: CardQuery): (r: CollectionViewModel)
    ensures |cardCounts| == 0 ==> r == CollectionViewModel([], false)
    ensures |cardCounts| > 0 && query.CardQueryFailed? ==> r == vm.(isLoading := false)
    ensures |cardCounts| > 0 && query.CardDocs? && !AllIdentified(query) ==> r == vm
    ensures |cardCounts| > 0 && AllIdentified(query) ==>
      && !r.isLoading
      && Sorted(r.userCards)
      && |r.userCards| <= |Decoded(query.docs)|
      && multiset(r.userCards) == multiset(Counted(Decoded(query.docs), cardCounts))
      && forall e :: e in r.userCards <==>
           e.card in Decoded(query.docs) && e.card.id.Some? && e.card.id.value in cardCounts && e.count == cardCounts[e.card.id.value]
  {
    if |cardCounts| == 0 then CollectionViewModel([], false)
    else
      match query
      case CardQueryFailed(_) => vm.(isLoading := false)
      case CardDocs(docs) =>
        match Join(Decoded(docs), cardCounts)
        case None => vm
        case Some(rows) =>
          var sorted := SortCollection(rows);
          assert forall e :: e in sorted <==> e in rows by {
            forall e ensures e in sorted <==> e in rows {
              assert e in sorted <==> e in multiset(sorted);
              assert e in rows <==> e in multiset(rows);
            }
          }
          assert |sorted| == |multiset(sorted)| == |multiset(rows)| == |rows|;
          CollectionViewModel(sorted, false)
  }

  /** The answer to the `userCollection` query for one user: an error, no
      snapshot, or the documents' `cardId` fields (`None` when not a string). */
  datatype RecordQuery = RecordsFailed(description: string) | NoSnapshot | RecordDocs(cardIdFields: seq<Option<string>>)

  /** The card ids the query yields; no snapshot yields none. */
  function RecordIds(query: RecordQuery): (ids: seq<string>)
    ensures query.RecordDocs? ==> forall id :: id in ids <==> Some(id) in query.cardIdFields
    ensures !query.RecordDocs? ==> ids == []
  {
    if query.RecordDocs? then CompactIds(query.cardIdFields) else []
  }

  function CompactIds(fields: seq<Option<string>>): (ids: seq<string>)
    ensures forall id :: id in ids <==> Some(id) in fields
  {
    if fields == [] then []
    else (if fields[0].Some? then [fields[0].value] else []) + CompactIds(fields[1..])
  }

  /** The answer of the `userCollection` query for one user when it is
      read from the stored rows: the `cardId` of each of that user's rows. */
  function RecordsOf(rows: seq<Store.OwnedCard>, userId: string): RecordQuery
  {
    var ids := Store.OwnedIds(rows, userId);
    RecordDocs(seq(|ids|, k requires 0 <= k < |ids| => Some(ids[k])))
  }

  /** Reading the stored rows yields exactly the user's card ids. */
  lemma {:induction false} RecordsOfYieldsOwnedIds(rows: seq<Store.OwnedCard>, userId: string)
    ensures RecordIds(RecordsOf(rows, userId)) == Store.OwnedIds(rows, userId)
  {
    CompactAll(Store.OwnedIds(rows, userId));
  }

  lemma {:induction false} CompactAll(ids: seq<string>)
    ensures CompactIds(seq(|ids|, k requires 0 <= k < |ids| => Some(ids[k]))) == ids
  {
    if ids != [] {
      var fs := seq(|ids|, k requires 0 <= k < |ids| => Some(ids[k]));
      CompactAll(ids[1..]);
      assert fs[1..] == seq(|ids[1..]|, k requires 0 <= k < |ids[1..]| => Some(ids[1..][k]));
    }
  }

  /** A card saved to the user's collection is counted once more when the
      user's rows are next read and tallied; no other card's count
      changes. */
  lemma SavedCardCounted(rows: seq<Store.OwnedCard>, uid: string, card: Card, reply: Store.Reply, other: string)
    ensures
      var r := CardDraw.SaveCardToUserCollection(rows, Some(uid), card, reply);
      var before := Tally(RecordIds(RecordsOf(rows, uid)));
      var after := Tally(RecordIds(RecordsOf(r.userCollection, uid)));
      r.completion == Some(true) ==>
        && card.id.value in after
        && after[card.id.value] == (if card.id.value in before then before[card.id.value] else 0) + 1
        && (other != card.id.value ==> (other in after <==> other in before) && (other in before ==> after[other] == before[other]))
  {
    var r := CardDraw.SaveCardToUserCollection(rows, Some(uid), card, reply);
    if r.completion == Some(true) {
      var ids := Store.OwnedIds(rows, uid);
      CardDraw.SaveAddsOneCopy(rows, uid, card, reply, uid);
      RecordsOfYieldsOwnedIds(rows, uid);
      RecordsOfYieldsOwnedIds(r.userCollection, uid);
      TallySnoc(ids, card.id.value);
      TallyBump(ids, card.id.value);
    }
  }

  /** `fetchUserCollection()`: nothing without a signed-in user; otherwise
      loading starts, a failed query only ends it, and the ids' counts are
      joined by `FetchCardDetails`. Each loaded row holds as many copies as
      the user has rows for that card. */
  function FetchUserCollection(vm: CollectionViewModel, currentUser: Option<string>, records: RecordQuery, cards: CardQuery): (r: CollectionViewModel)
    ensures currentUser.None? ==> r == vm
    ensures currentUser.Some? && records.RecordsFailed? ==> r == vm.(isLoading := false)
    ensures currentUser.Some? && !records.RecordsFailed? && RecordIds(records) == [] ==> r == CollectionViewModel([], false)
    ensures currentUser.Some? && !records.RecordsFailed? && RecordIds(records) != [] && cards.CardDocs? && !AllIdentified(cards) ==>
      r == vm.(isLoading := true)
    ensures currentUser.Some? && !records.RecordsFailed? && RecordIds(records) != [] && cards.CardQueryFailed? ==>
      r == vm.(isLoading := false)
    ensures currentUser.Some? && !records.RecordsFailed? && RecordIds(records) != [] && AllIdentified(cards) ==>
      var ids := RecordIds(records);
      && !r.isLoading
      && Sorted(r.userCards)
      && multiset(r.userCards) == multiset(Counted(Decoded(cards.docs), Tally(ids)))
      && forall e :: e in r.userCards <==>
           e.card in Decoded(cards.docs) && e.card.id.Some? && e.card.id.value in ids && e.count == multiset(ids)[e.card.id.value]
  {
    if currentUser.None? then vm
    else
      var loading := vm.(isLoading := true);
      if records.RecordsFailed? then loading.(isLoading := false)
      else
        var ids := RecordIds(records);
        assert ids != [] ==> ids[0] in Tally(ids);
        FetchCardDetails(loading, Tally(ids), cards)
  }

  /** `fetchFriendCollection(userId:)`: like the user's own collection but
      for any user id, counting with `Dictionary(uniquingKeysWith:)`, and a
      missing snapshot only ends loading. */
  function FetchFriendCollection(vm: CollectionViewModel, userId: string, records: RecordQuery, cards: CardQuery): (r: CollectionViewModel)
    ensures records.RecordsFailed? || records.NoSnapshot? ==> r == vm.(isLoading := false)
    ensures records.RecordDocs? ==> r == FetchUserCollection(vm, Some(userId), records, cards)
  {
    var loading := vm.(isLoading := true);
    match records
    case RecordsFailed(_) => loading.(isLoading := false)
    case NoSnapshot => loading.(isLoading := false)
    case RecordDocs(fields) =>
      FriendCountAgrees(CompactIds(fields));
      FetchCardDetails(loading, UniquingKeysWithSum(PairsWithOne(CompactIds(fields))), cards)
  }

  /** The two paths differ on a missing snapshot: the user's screen is
      emptied, the friend's keeps its previous rows. */
  lemma NoSnapshotPathsDiffer(vm: CollectionViewModel, userId: string, cards: CardQuery)
    ensures FetchUserCollection(vm, Some(userId), NoSnapshot, cards).userCards == []
    ensures FetchFriendCollection(vm, userId, NoSnapshot, cards).userCards == vm.userCards
  {
  }

  /** A loaded collection holds at least one copy per row, so it never shows
      more distinct cards than copies. */
  lemma LoadedUniqueAtMostTotal(vm: CollectionViewModel, currentUser: Option<string>, records: RecordQuery, cards: CardQuery)
    requires currentUser.Some? && records.RecordDocs? && RecordIds(records) != [] && AllIdentified(cards)
    ensures
      var r := FetchUserCollection(vm, currentUser, records, cards);
      UniqueCards(r.userCards) <= TotalCards(r.userCards)
  {
    var r := FetchUserCollection(vm, currentUser, records, cards);
    var ids := RecordIds(records);
    forall i | 0 <= i < |r.userCards|
      ensures r.userCards[i].count >= 1
    {
      var e := r.userCards[i];
      assert e in r.userCards;
      assert e.card.id.value in ids;
    }
    UniqueAtMostTotal(r.userCards);
  }
}

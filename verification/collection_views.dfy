/** The collection screens' own logic (`view/UserCollectionView.swift`,
    `view/FriendCollectionView.swift`): the card-type filter chips, the
    rarity labels and the friend screen's load on appearance. */
module CollectionViews {
  import opened Common
  import opened Theme
  import opened Cards
  import opened Collection

  /** `filteredCards`: every row without a chip selected, else the rows of
      the chosen card type, in the same order. Both screens compute it the
      same way. */
  function FilteredCards(userCards: seq<Entry>, selectedFilter: Option<CardType>): (r: seq<Entry>)
    ensures selectedFilter.None? ==> r == userCards
    ensures selectedFilter.Some? ==> forall e :: e in r <==> e in userCards && e.card.cardType == selectedFilter.value
    ensures selectedFilter.Some? ==> |r| == CountWhere(userCards, (e: Entry) => e.card.cardType == selectedFilter.value)
    ensures IsSubsequence(r, userCards)
  {
    match selectedFilter
    case None => SubsequenceReflexive(userCards); userCards
    case Some(filter) => Keep(userCards, (e: Entry) => e.card.cardType == filter)
  }

  /** The chips partition the collection: each row is shown under exactly
      the chip of its own card type. */
  lemma ChipsPartition(userCards: seq<Entry>, e: Entry)
    requires e in userCards
    ensures e in FilteredCards(userCards, Some(e.card.cardType))
    ensures forall t :: t != e.card.cardType ==> e !in FilteredCards(userCards, Some(t))
  {
  }

  /** `rarityName(_:)`: the label shown for each rarity. */
  function RarityName(rarity: CardRarity): (name: string)
    ensures name in ["Common", "Rare", "Legendary"]
  {
    match rarity
    case Common => "Common"
    case Rare => "Rare"
    case Legendary => "Legendary"
  }

  /** Each rarity has its own label, and distinct rarities get distinct
      labels. */
  lemma RarityNamesDistinct(a: CardRarity, b: CardRarity)
    ensures RarityName(Common) == "Common" && RarityName(Rare) == "Rare" && RarityName(Legendary) == "Legendary"
    ensures RarityName(a) == RarityName(b) <==> a == b
  {
  }

  /** `onAppear` of the friend's screen: the friend's collection is fetched
      only when the friend has an id. */
  function FriendOnAppear(friendId: Option<string>, vm: CollectionViewModel, records: RecordQuery, cards: CardQuery): (r: CollectionViewModel)
    ensures friendId.None? ==> r == vm
    ensures friendId.Some? && records.RecordDocs? ==> r == FetchUserCollection(vm, friendId, records, cards)
    ensures friendId.Some? && !records.RecordDocs? ==> r == vm.(isLoading := false)
  {
    if friendId.None? then vm else FetchFriendCollection(vm, friendId.value, records, cards)
  }
}

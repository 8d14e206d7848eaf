/** `CardViewModel` of `view/CardViewModel.swift`: the rarity-weighted draw
    and the recording of a drawn card. The roll `Int.random(in: 1...100)`
    and the choices of `randomElement()` are parameters. */
module CardDraw {
  import opened Common
  import opened Theme
  import opened Cards
  import opened Store

  /** The rarity a roll selects: 1-70 common, 71-95 rare, 96-100 legendary. */
  function RarityForRoll(roll: int): (r: CardRarity)
    ensures r == Common <==> roll <= 70
    ensures r == Rare <==> 71 <= roll <= 95
    ensures r == Legendary <==> roll >= 96
  {
    if roll <= 70 then Common
    else if roll <= 95 then Rare
    else Legendary
  }

  /** Number of rolls in 1..n that select the rarity. */
  function RollsFor(rarity: CardRarity, n: int): nat
    decreases n
  {
    if n <= 0 then 0 else RollsFor(rarity, n - 1) + (if RarityForRoll(n) == rarity then 1 else 0)
  }

  lemma {:induction false} RollsForPrefix(rarity: CardRarity, n: int)
    requires 0 <= n <= 100
    ensures rarity == Common ==> RollsFor(rarity, n) == (if n <= 70 then n else 70)
    ensures rarity == Rare ==> RollsFor(rarity, n) == (if n <= 70 then 0 else if n <= 95 then n - 70 else 25)
    ensures rarity == Legendary ==> RollsFor(rarity, n) == (if n <= 95 then 0 else n - 95)
  {
    if n > 0 {
      RollsForPrefix(rarity, n - 1);
    }
  }

  /** Of the hundred equally likely rolls, 70 select common, 25 rare and 5
      legendary: the 70% / 25% / 5% weighting. */
  lemma RollDistribution()
    ensures RollsFor(Common, 100) == 70
    ensures RollsFor(Rare, 100) == 25
    ensures RollsFor(Legendary, 100) == 5
  {
    RollsForPrefix(Common, 100);
    RollsForPrefix(Rare, 100);
    RollsForPrefix(Legendary, 100);
  }

  /** The catalog cards of one rarity, in catalog order. */
  function OfRarity(allCards: seq<Card>, rarity: CardRarity): seq<Card>
  {
    Keep(allCards, (c: Card) => c.cardRarity == rarity)
  }

  /** `pullRandomCard()`: nothing from an empty catalog; otherwise a card of
      the rolled rarity, or any card when that rarity has none. `pick` and
      `fallbackPick` are the random choices, taken modulo the number of
      candidates. */
  function PullRandomCard(allCards: seq<Card>, roll: int, pick: nat, fallbackPick: nat): (r: Option<Card>)
    ensures allCards == [] <==> r.None?
    ensures r.Some? ==> r.value in allCards
    ensures (exists c :: c in allCards && c.cardRarity == RarityForRoll(roll)) ==>
              r.Some? && r.value.cardRarity == RarityForRoll(roll)
  {
    if allCards == [] then None
    else
      var filtered := OfRarity(allCards, RarityForRoll(roll));
      if filtered != [] then Some(filtered[pick % |filtered|])
      else Some(allCards[fallbackPick % |allCards|])
  }

  /** Every card of the rolled rarity can be drawn, and when the rarity has
      no card every catalog card can: the choice ranges over all candidates. */
  lemma EveryCandidateDrawable(allCards: seq<Card>, roll: int, c: Card)
    requires c in allCards
    ensures c.cardRarity == RarityForRoll(roll) ==>
              exists pick: nat :: PullRandomCard(allCards, roll, pick, 0) == Some(c)
    ensures OfRarity(allCards, RarityForRoll(roll)) == [] ==>
              exists pick: nat :: PullRandomCard(allCards, roll, 0, pick) == Some(c)
  {
    if c.cardRarity == RarityForRoll(roll) {
      var i := DrawnAt(allCards, roll, c);
      assert PullRandomCard(allCards, roll, i, 0) == Some(c);
    }
    if OfRarity(allCards, RarityForRoll(roll)) == [] {
      var i := FallbackAt(allCards, roll, c);
      assert PullRandomCard(allCards, roll, 0, i) == Some(c);
    }
  }

  /** The pick that draws a given card of the rolled rarity. */
  lemma DrawnAt(allCards: seq<Card>, roll: int, c: Card) returns (i: nat)
    requires c in allCards && c.cardRarity == RarityForRoll(roll)
    ensures PullRandomCard(allCards, roll, i, 0) == Some(c)
  {
    var filtered := OfRarity(allCards, RarityForRoll(roll));
    assert c in filtered;
    var k :| 0 <= k < |filtered| && filtered[k] == c;
    SmallRemainder(k, |filtered|);
    i := k;
  }

  /** The fallback pick that draws a given card when the rolled rarity has
      none. */
  lemma FallbackAt(allCards: seq<Card>, roll: int, c: Card) returns (i: nat)
    requires c in allCards && OfRarity(allCards, RarityForRoll(roll)) == []
    ensures PullRandomCard(allCards, roll, 0, i) == Some(c)
  {
    var k :| 0 <= k < |allCards| && allCards[k] == c;
    SmallRemainder(k, |allCards|);
    i := k;
  }

  lemma SmallRemainder(k: nat, n: nat)
    requires k < n
    ensures k % n == k
  {
  }

  /** `saveCardToUserCollection(card:)`: `None` when the completion handler
      is never called. */
  datatype SaveOutcome = SaveOutcome(userCollection: seq<OwnedCard>, completion: Option<bool>)

  /** Without a signed-in user the completion gets `false`; a card without
      an id returns silently; otherwise one `{userId, cardId}` row is added
      and the completion reports whether that write succeeded. */
  function SaveCardToUserCollection(userCollection: seq<OwnedCard>, currentUser: Option<string>, card: Card, reply: Reply): (r: SaveOutcome)
    ensures currentUser.None? ==> r == SaveOutcome(userCollection, Some(false))
    ensures currentUser.Some? && card.id.None? ==> r == SaveOutcome(userCollection, None)
    ensures currentUser.Some? && card.id.Some? ==> r.completion == Some(reply.Done?)
    ensures r.completion == Some(true) ==> r.userCollection == userCollection + [OwnedCard(currentUser.value, card.id.value)]
    ensures r.completion != Some(true) ==> r.userCollection == userCollection
  {
    if currentUser.None? then SaveOutcome(userCollection, Some(false))
    else if card.id.None? then SaveOutcome(userCollection, None)
    else if reply.Failed? then SaveOutcome(userCollection, Some(false))
    else SaveOutcome(userCollection + [OwnedCard(currentUser.value, card.id.value)], Some(true))
  }

  /** A successful save appends exactly one copy of the card's id to the
      user's rows and leaves every other user's rows as they were; any other
      outcome changes nobody's rows. */
  lemma {:induction false} SaveAddsOneCopy(userCollection: seq<OwnedCard>, uid: string, card: Card, reply: Reply, other: string)
    ensures
      var r := SaveCardToUserCollection(userCollection, Some(uid), card, reply);
      && (r.completion == Some(true) ==>
            && OwnedIds(r.userCollection, uid) == OwnedIds(userCollection, uid) + [card.id.value]
            && multiset(OwnedIds(r.userCollection, uid)) == multiset(OwnedIds(userCollection, uid)) + multiset{card.id.value}
            && (other != uid ==> OwnedIds(r.userCollection, other) == OwnedIds(userCollection, other)))
      && (r.completion != Some(true) ==> OwnedIds(r.userCollection, other) == OwnedIds(userCollection, other))
  {
    var r := SaveCardToUserCollection(userCollection, Some(uid), card, reply);
    if r.completion == Some(true) {
      var rows := r.userCollection;
      assert rows[..|rows| - 1] == userCollection;
    }
  }
}

/** The card vocabulary of `Theme.swift`: the eight elemental types, the
    three rarities with their integer raw values (which order the
    collection), and the two colour tables keyed by them. */
module Theme {
  import opened Common

  datatype CardType = Fire | Water | Grass | Electric | Psychic | Rock | Dragon | Normal

  /** Every card type, in declaration order. */
  const AllCardTypes: seq<CardType> := [Fire, Water, Grass, Electric, Psychic, Rock, Dragon, Normal]

  /** The string raw value a card type is stored under. */
  function TypeRaw(t: CardType): string
  {
    match t
    case Fire => "fire"
    case Water => "water"
    case Grass => "grass"
    case Electric => "electric"
    case Psychic => "psychic"
    case Rock => "rock"
    case Dragon => "dragon"
    case Normal => "normal"
  }

  /** Decoding a stored type name: only the eight raw values decode. */
  function TypeFromRaw(s: string): (r: Option<CardType>)
    ensures r.Some? ==> TypeRaw(r.value) == s
    ensures r.None? ==> forall t :: TypeRaw(t) != s
  {
    if s == "fire" then Some(Fire)
    else if s == "water" then Some(Water)
    else if s == "grass" then Some(Grass)
    else if s == "electric" then Some(Electric)
    else if s == "psychic" then Some(Psychic)
    else if s == "rock" then Some(Rock)
    else if s == "dragon" then Some(Dragon)
    else if s == "normal" then Some(Normal)
    else None
  }

  /** The type enumeration has exactly eight distinct cases, and decoding
      inverts encoding on each of them. */
  lemma CardTypeCases()
    ensures |AllCardTypes| == 8
    ensures forall t: CardType :: t in AllCardTypes
    ensures forall i, j :: 0 <= i < j < |AllCardTypes| ==> AllCardTypes[i] != AllCardTypes[j]
    ensures forall t: CardType :: TypeFromRaw(TypeRaw(t)) == Some(t)
  {
    forall t: CardType
      ensures t in AllCardTypes
    {
      match t
      case Fire => assert AllCardTypes[0] == t;
      case Water => assert AllCardTypes[1] == t;
      case Grass => assert AllCardTypes[2] == t;
      case Electric => assert AllCardTypes[3] == t;
      case Psychic => assert AllCardTypes[4] == t;
      case Rock => assert AllCardTypes[5] == t;
      case Dragon => assert AllCardTypes[6] == t;
      case Normal => assert AllCardTypes[7] == t;
    }
  }

  datatype CardRarity = Common | Rare | Legendary

  /** The `Int` raw value of a rarity. */
  function RarityRaw(r: CardRarity): int
  {
    match r
    case Common => 0
    case Rare => 1
    case Legendary => 2
  }

  /** `CardRarity(rawValue:)`: defined exactly on 0, 1 and 2. */
  function RarityFromRaw(n: int): (r: Option<CardRarity>)
    ensures r.Some? <==> 0 <= n <= 2
    ensures r.Some? ==> RarityRaw(r.value) == n
  {
    if n == 0 then Some(Common) else if n == 1 then Some(Rare) else if n == 2 then Some(Legendary) else None
  }

  /** Raw values are 0, 1, 2 and strictly increasing with rarity, so
      comparing raw values compares rarities; the encoding is invertible. */
  lemma RarityRawOrder()
    ensures RarityRaw(Common) == 0 && RarityRaw(Rare) == 1 && RarityRaw(Legendary) == 2
    ensures RarityRaw(Common) < RarityRaw(Rare) < RarityRaw(Legendary)
    ensures forall r: CardRarity :: RarityFromRaw(RarityRaw(r)) == Some(r)
  {
  }

  /** SwiftUI colours, by name. */
  datatype Color = Red | Blue | Green | Yellow | Purple | Brown | Orange | Gray

  const TypeColors: map<CardType, Color> :=
    map[Fire := Red, Water := Blue, Grass := Green, Electric := Yellow,
        Psychic := Purple, Rock := Brown, Dragon := Orange, Normal := Gray]

  const RarityColors: map<CardRarity, Color> :=
    map[Common := Gray, Rare := Blue, Legendary := Orange]

  /** Both colour tables have an entry for every key of their enumeration,
      so a lookup never falls back to a default. */
  lemma ColorTablesTotal()
    ensures forall t: CardType :: t in TypeColors
    ensures forall r: CardRarity :: r in RarityColors
  {
    forall t: CardType
      ensures t in TypeColors
    {
      match t
      case Fire => case Water => case Grass => case Electric =>
      case Psychic => case Rock => case Dragon => case Normal =>
    }
    forall r: CardRarity
      ensures r in RarityColors
    {
      match r
      case Common => case Rare => case Legendary =>
    }
  }
}

/** Catalog cards as the app decodes them. */
module Cards {
  import opened Common
  import opened Theme

  /** A `Cards/{id}` document; `id` is the document id, which the decoder
      may leave unset. */
  datatype Card = Card(
    id: Option<string>,
    cardName: string,
    cardRarity: CardRarity,
    cardType: CardType,
    cardImage: string,
    cardDescription: string)

  /** One row of a collection screen: a card and how many copies are owned. */
  datatype Entry = Entry(card: Card, count: int)
}

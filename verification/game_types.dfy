/**
  The records the game service transforms: a game holds its players keyed by
  colour, the shared playground and the deal configuration.
 */
module GameTypes {

  /** A card identifier; what a card is belongs to the rules engine. */
  type Card = string

  /** Player colour, the unique key of a player within one game. */
  type Color = string

  /** A pile of cards that can be shown face down. */
  datatype Deck = Deck(cards: seq<Card>, isHidden: bool)

  /**
    A player. `otherFields` stands for the fields of the player record other
    than its colour and its three piles; the game service copies them
    through untouched.
   */
  datatype Player = Player(
    color: Color,
    cards: seq<Card>,
    stackDeck: Deck,
    stackOpenDeck: Deck,
    otherFields: map<string, string>)

  datatype Playground = Playground(decks: seq<Deck>)

  datatype Config = Config(cardsCount: int)

  datatype Game = Game(players: map<Color, Player>, playground: Playground, config: Config)

  /** An empty pile that is face up. */
  const OpenEmptyDeck: Deck := Deck([], false)

  /** Every key of the players map is the colour of the player stored under it. */
  predicate KeyedByColor(players: map<Color, Player>)
  {
    forall c :: c in players ==> players[c].color == c
  }

  /** The player holds no cards: hand empty, both stacks empty and face up. */
  predicate IsReset(p: Player)
  {
    && p.cards == []
    && p.stackDeck == OpenEmptyDeck
    && p.stackOpenDeck == OpenEmptyDeck
  }

  /** `p` and `q` agree on every field that is not a pile of cards. */
  predicate SameIdentity(p: Player, q: Player)
  {
    p.color == q.color && p.otherFields == q.otherFields
  }
}

/** Value types of the Five Crowns engine: suits, ranks, cards, combinations,
    game status and players. */
module GameTypes {

  /** The five suits of the deck. */
  datatype Suit = Stars | Hearts | Clubs | Spades | Diamonds

  /** Rank of the joker: the enum puts it at 0, below every real rank. */
  const Joker: int := 0
  const Three: int := 3
  const King: int := 13

  /** A card value is one of the ranks THREE..KING (3..13) or JOKER (0). */
  type CardValue = v: int | v == 0 || 3 <= v <= 13 witness 3

  /** Distinct tags standing for the two id formats of the source
      (suit/value/running index for ranked cards, a counter for jokers). */
  datatype CardId = RankedId(suit: Suit, value: int, index: nat) | JokerId(index: nat)

  /** A card. Cards are compared for membership and removal by `id` only. */
  datatype Card = Card(id: CardId, suit: Suit, value: CardValue, isJoker: bool)

  /** The shape every card the deck builds has: a joker has value JOKER,
      any other card a real rank. */
  predicate WellFormedCard(c: Card)
  {
    if c.isJoker then c.value == Joker else Three <= c.value <= King
  }

  /** No two cards of a sequence share an id. */
  predicate DistinctIds(s: seq<Card>)
  {
    forall i, j :: 0 <= i < j < |s| ==> s[i].id != s[j].id
  }

  datatype CombinationType = Run | Set

  /** The tag as the source spells it in error messages. */
  function TypeName(t: CombinationType): (r: string)
    ensures r == "run" <==> t == Run
  {
    match t
    case Run => "run"
    case Set => "set"
  }

  datatype Combination = Combination(kind: CombinationType, cards: seq<Card>)

  datatype GameStatus = Waiting | InProgress | Completed | Abandoned

  type PlayerId = string

  /** A player as the engine sees it (display metadata is not modelled). */
  datatype GamePlayer = GamePlayer(
    id: PlayerId,
    isAI: bool,
    hand: seq<Card>,
    score: int,
    hasFinishedRound: bool)

  /** The shared game state: round, turn, piles and players (the game id and
      the timestamps are not modelled). */
  datatype GameState = GameState(
    roundNumber: int,
    currentPlayerId: PlayerId,
    deck: seq<Card>,
    discardPile: seq<Card>,
    players: seq<GamePlayer>,
    wildCard: CardValue)

  datatype Option<T> = None | Some(value: T)

  datatype Result<T> = Ok(value: T) | Err(message: string)
}

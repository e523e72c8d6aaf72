/** The rule constants and lookup tables of the game. */
module GameRules {
  import opened GameTypes

  const MinPlayers: nat := 2
  const MaxPlayers: nat := 8
  const TotalRounds: nat := 11
  const MinCombinationSize: nat := 3
  const TotalCards: nat := 116
  const JokerPoints: nat := 50
  const WildCardPoints: nat := 20
  const DefaultTimerDuration: nat := 30

  /** Rounds are numbered 1..TotalRounds; the per-round tables have no other keys. */
  predicate ValidRound(round: int)
  {
    1 <= round <= TotalRounds
  }

  /** SUITS, in table order. */
  const Suits: seq<Suit> := [Stars, Hearts, Clubs, Spades, Diamonds]

  /** CARD_VALUES: the ranks without the joker, ascending. */
  const CardValues: seq<CardValue> := [3, 4, 5, 6, 7, 8, 9, 10, 11, 12, 13]

  /** CARD_POINTS, keyed by card value. */
  const CardPointsTable: map<CardValue, nat> :=
    map[3 := 3, 4 := 4, 5 := 5, 6 := 6, 7 := 7, 8 := 8, 9 := 9, 10 := 10,
        11 := 11, 12 := 12, 13 := 13, 0 := 50]

  /** CARDS_PER_ROUND, entry k for round k + 1. */
  const CardsPerRoundTable: seq<nat> := [3, 4, 5, 6, 7, 8, 9, 10, 11, 12, 13]

  /** WILD_CARD_PER_ROUND, entry k for round k + 1. */
  const WildCardPerRoundTable: seq<CardValue> := [3, 4, 5, 6, 7, 8, 9, 10, 11, 12, 13]

  /** The table lookup CARD_POINTS[v]; the table has a key for every card value. */
  function CardPoints(v: CardValue): (r: nat)
    ensures v in CardPointsTable && r == CardPointsTable[v]
  {
    CardPointsTable[v]
  }

  /** CARDS_PER_ROUND[round]. */
  function CardsPerRound(round: int): (r: nat)
    requires ValidRound(round)
    ensures r == CardsPerRoundTable[round - 1]
  {
    CardsPerRoundTable[round - 1]
  }

  /** WILD_CARD_PER_ROUND[round]. */
  function WildCardPerRound(round: int): (r: CardValue)
    requires ValidRound(round)
    ensures r == WildCardPerRoundTable[round - 1]
  {
    WildCardPerRoundTable[round - 1]
  }

  /** Round r deals r + 2 cards to each player. */
  lemma CardsPerRoundIsRoundPlusTwo(round: int)
    requires ValidRound(round)
    ensures CardsPerRound(round) == round + 2
  {
  }

  /** Round r makes rank r + 2 wild: THREE in round 1 up to KING in round 11. */
  lemma WildCardPerRoundIsRoundPlusTwo(round: int)
    requires ValidRound(round)
    ensures WildCardPerRound(round) == round + 2
    ensures Three <= WildCardPerRound(round) <= King
  {
  }

  /** A rank scores its own number; the joker rank scores 50. */
  lemma CardPointsAreRanks(v: CardValue)
    ensures v == Joker ==> CardPoints(v) == JokerPoints
    ensures v != Joker ==> CardPoints(v) == v && Three <= v <= King
  {
  }

  /** TOTAL_CARDS agrees with two copies of SUITS x CARD_VALUES plus six jokers. */
  lemma TotalCardsIsTwoDecksPlusJokers()
    ensures TotalCards == |Suits| * |CardValues| * 2 + 6
  {
  }

  /** SUITS lists five distinct suits, every suit; CARD_VALUES lists 3..13
      ascending and leaves JOKER out. */
  lemma TablesAreComplete()
    ensures |Suits| == 5
    ensures forall i, j :: 0 <= i < j < |Suits| ==> Suits[i] != Suits[j]
    ensures forall s: Suit :: s in Suits
    ensures |CardValues| == 11
    ensures forall k :: 0 <= k < |CardValues| ==> CardValues[k] == k + 3
    ensures Joker !in CardValues
  {
    forall s: Suit ensures s in Suits {
      match s
      case Stars => assert Suits[0] == s;
      case Hearts => assert Suits[1] == s;
      case Clubs => assert Suits[2] == s;
      case Spades => assert Suits[3] == s;
      case Diamonds => assert Suits[4] == s;
    }
  }

  /** The CardValue enum: every value other than JOKER is a rank 3..13, and
      JOKER (0) lies outside that range. */
  lemma CardValueEnum(v: CardValue)
    ensures v != Joker <==> Three <= v <= King
    ensures v in CardValues <==> v != Joker
  {
  }
}

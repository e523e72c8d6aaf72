/** Deck construction, Fisher-Yates shuffle and dealing. */
module Deck {
  import opened GameTypes
  import opened GameRules

  function RankedCard(suit: Suit, value: CardValue, index: nat): Card
  {
    Card(RankedId(suit, value, index), suit, value, false)
  }

  /** Jokers carry an arbitrary suit (STARS) and the JOKER rank. */
  function JokerCard(index: nat): Card
  {
    Card(JokerId(index), Stars, Joker, true)
  }

  // ---------------------------------------------------------------------------
  // The deck as a specification, position by position.

  /** Number of ranked cards: two sweeps of SUITS x CARD_VALUES. */
  const RankedCards: nat := 110

  /** The card createDeck puts at position k: the ranked cards run through
      deck number (k / 55), suit (k % 55 / 11) and value (k % 11), each
      carrying its position as running index; the six jokers follow. */
  function DeckCard(k: nat): Card
    requires k < TotalCards
  {
    if k < RankedCards then RankedCard(Suits[k % 55 / 11], CardValues[k % 11], k)
    else JokerCard(k - RankedCards)
  }

  function FullDeck(): seq<Card>
  {
    seq(TotalCards, k requires 0 <= k < TotalCards => DeckCard(k))
  }

  /** Position of a suit in SUITS. */
  function SuitIndex(s: Suit): (i: nat)
    ensures i < |Suits| && Suits[i] == s
  {
    match s
    case Stars => 0
    case Hearts => 1
    case Clubs => 2
    case Spades => 3
    case Diamonds => 4
  }

  /** The non-joker card of the given suit and value. */
  predicate IsFace(c: Card, suit: Suit, v: int)
  {
    !c.isJoker && c.suit == suit && c.value == v
  }

  /** Position of the first copy of a face; the second is 55 further on. */
  function FacePosition(s: Suit, v: int): nat
    requires Three <= v <= King
  {
    11 * SuitIndex(s) + (v - Three)
  }

  /** The nested loops push card (deckNum, si, vi) at this position. */
  lemma LoopPosition(deckNum: nat, si: nat, vi: nat)
    requires deckNum < 2 && si < |Suits| && vi < |CardValues|
    ensures var k := 55 * deckNum + 11 * si + vi;
      k < RankedCards && k % 55 / 11 == si && k % 11 == vi
  {
    TablesAreComplete();
    var r := 11 * si + vi;
    DivMod55(55 * deckNum + r, deckNum, r);
    DivMod11(r, si, vi);
    DivMod11(55 * deckNum + r, 5 * deckNum + si, vi);
  }

  /** k = 55 q + r with 0 <= r < 55 fixes the remainder. */
  lemma DivMod55(k: int, q: int, r: int)
    requires 0 <= r < 55 && k == 55 * q + r
    ensures k % 55 == r
  {
    var q', r' := k / 55, k % 55;
    assert k == 55 * q' + r' && 0 <= r' < 55;
    assert 55 * (q' - q) == r - r';
  }

  /** k = 11 q + r with 0 <= r < 11 fixes the quotient and the remainder. */
  lemma DivMod11(k: int, q: int, r: int)
    requires 0 <= r < 11 && k == 11 * q + r
    ensures k / 11 == q && k % 11 == r
  {
    var q', r' := k / 11, k % 11;
    assert k == 11 * q' + r' && 0 <= r' < 11;
    assert 11 * (q' - q) == r - r';
  }

  /** Builds the 116-card deck: two sweeps of SUITS x CARD_VALUES with a running
      card index, then six permanent jokers. */
  method CreateDeck() returns (deck: seq<Card>)
    ensures deck == FullDeck()
    ensures |deck| == TotalCards && DistinctIds(deck)
    ensures forall k :: 0 <= k < |deck| ==> (deck[k].isJoker <==> k >= RankedCards)
    ensures forall s: Suit, v: int, k :: Three <= v <= King && 0 <= k < |deck| ==>
      (IsFace(deck[k], s, v) <==> k == FacePosition(s, v) || k == FacePosition(s, v) + 55)
    ensures forall c :: c in deck ==> WellFormedCard(c)
  {
    deck := [];
    var cardIndex := 0;
    for deckNum := 0 to 2
      invariant |deck| == 55 * deckNum && cardIndex == |deck|
      invariant forall k :: 0 <= k < |deck| ==> deck[k] == DeckCard(k)
    {
      for si := 0 to |Suits|
        invariant |deck| == 55 * deckNum + 11 * si && cardIndex == |deck|
        invariant forall k :: 0 <= k < |deck| ==> deck[k] == DeckCard(k)
      {
        for vi := 0 to |CardValues|
          invariant |deck| == 55 * deckNum + 11 * si + vi && cardIndex == |deck|
          invariant forall k :: 0 <= k < |deck| ==> deck[k] == DeckCard(k)
        {
          LoopPosition(deckNum, si, vi);
          deck := deck + [RankedCard(Suits[si], CardValues[vi], cardIndex)];
          cardIndex := cardIndex + 1;
        }
      }
    }
    for i := 0 to 6
      invariant |deck| == RankedCards + i
      invariant forall k :: 0 <= k < |deck| ==> deck[k] == DeckCard(k)
    {
      deck := deck + [JokerCard(i)];
    }
    FullDeckProperties();
  }

  // ---------------------------------------------------------------------------
  // Identity.

  /** A face found at a ranked position sits at one of its two positions. */
  lemma FaceAt(s: Suit, v: int, k: nat)
    requires Three <= v <= King && k < RankedCards
    requires IsFace(DeckCard(k), s, v)
    ensures k == FacePosition(s, v) || k == FacePosition(s, v) + 55
  {
    TablesAreComplete();
    var d, r := k / 55, k % 55;
    var si, vi := r / 11, r % 11;
    assert k == 55 * d + r && r == 11 * si + vi;
    DivMod11(k, 5 * d + si, vi);
    assert Suits[si] == Suits[SuitIndex(s)];
    assert vi == v - Three;
    assert d == 0 || d == 1;
  }

  /** Where each face of SUITS x CARD_VALUES sits among the ranked cards. */
  lemma FacePositions(s: Suit, v: int, k: nat)
    requires Three <= v <= King && k < TotalCards
    ensures IsFace(DeckCard(k), s, v) <==> k == FacePosition(s, v) || k == FacePosition(s, v) + 55
  {
    var p := FacePosition(s, v);
    if k < RankedCards && IsFace(DeckCard(k), s, v) {
      FaceAt(s, v, k);
    } else if k == p || k == p + 55 {
      TablesAreComplete();
      LoopPosition(k / 55, SuitIndex(s), v - Three);
    }
  }

  /** createDeck's promises: 116 cards with pairwise distinct ids, the six
      jokers last, every (suit, rank) of SUITS x CARD_VALUES at exactly two
      positions, and every card well formed. */
  lemma FullDeckProperties()
    ensures |FullDeck()| == TotalCards && DistinctIds(FullDeck())
    ensures forall k :: 0 <= k < TotalCards ==> (FullDeck()[k].isJoker <==> k >= RankedCards)
    ensures forall s: Suit, v: int, k :: Three <= v <= King && 0 <= k < TotalCards ==>
      (IsFace(FullDeck()[k], s, v) <==> k == FacePosition(s, v) || k == FacePosition(s, v) + 55)
    ensures forall c :: c in FullDeck() ==> WellFormedCard(c)
  {
    TablesAreComplete();
    var deck := FullDeck();
    forall s: Suit, v: int, k | Three <= v <= King && 0 <= k < TotalCards
      ensures IsFace(deck[k], s, v) <==> k == FacePosition(s, v) || k == FacePosition(s, v) + 55
    {
      FacePositions(s, v, k);
    }
    forall c | c in deck ensures WellFormedCard(c) {
      var k :| 0 <= k < |deck| && deck[k] == c;
      if k < RankedCards {
        assert c.value == CardValues[k % 11];
      }
    }
  }

  // ---------------------------------------------------------------------------
  // Fisher-Yates shuffle with the random draws supplied by the caller.

  lemma ScaleBelow(r: real, n: real)
    requires 0.0 <= r < 1.0 && n > 0.0
    ensures 0.0 <= r * n < n
  {
    assert n - r * n == (1.0 - r) * n;
  }

  /** Math.floor(Math.random() * (i + 1)) for a draw r in [0, 1): an index in 0..i. */
  function SwapIndex(r: real, i: nat): (j: nat)
    requires 0.0 <= r < 1.0
    ensures j <= i
  {
    var x := r * (i + 1) as real;
    ScaleBelow(r, (i + 1) as real);
    x.Floor
  }

  /** Exchanges positions i and j. */
  function Swap(s: seq<Card>, i: nat, j: nat): seq<Card>
    requires i < |s| && j < |s|
  {
    s[i := s[j]][j := s[i]]
  }

  lemma SwapPermutes(s: seq<Card>, i: nat, j: nat)
    requires i < |s| && j < |s|
    ensures multiset(Swap(s, i, j)) == multiset(s)
  {
  }

  predicate ValidDraws(draws: seq<real>)
  {
    forall k :: 0 <= k < |draws| ==> 0.0 <= draws[k] < 1.0
  }

  /** Swap partners: entry k is the index position k is swapped with. */
  predicate ValidSwaps(js: seq<nat>)
  {
    forall k :: 0 <= k < |js| ==> js[k] <= k
  }

  /** The swap partner computed from each draw (entry 0 is never used). */
  function SwapIndices(draws: seq<real>): (js: seq<nat>)
    requires ValidDraws(draws)
    ensures |js| == |draws| && ValidSwaps(js)
    ensures forall k :: 0 <= k < |draws| ==> js[k] == SwapIndex(draws[k], k)
  {
    seq(|draws|, k requires 0 <= k < |draws| => SwapIndex(draws[k], k))
  }

  /** The swaps for positions i, i - 1, ..., 1. */
  function ShuffleSteps(s: seq<Card>, js: seq<nat>, i: nat): (r: seq<Card>)
    requires i < |s| && |js| == |s| && ValidSwaps(js)
    ensures |r| == |s|
    decreases i
  {
    if i == 0 then s else ShuffleSteps(Swap(s, i, js[i]), js, i - 1)
  }

  function Shuffled(s: seq<Card>, draws: seq<real>): (r: seq<Card>)
    requires |draws| == |s| && ValidDraws(draws)
    ensures |r| == |s|
  {
    if |s| == 0 then s else ShuffleSteps(s, SwapIndices(draws), |s| - 1)
  }

  lemma {:induction false} ShuffleStepsPermutes(s: seq<Card>, js: seq<nat>, i: nat)
    requires i < |s| && |js| == |s| && ValidSwaps(js)
    ensures multiset(ShuffleSteps(s, js, i)) == multiset(s)
    decreases i
  {
    if i > 0 {
      var t := Swap(s, i, js[i]);
      SwapPermutes(s, i, js[i]);
      ShuffleStepsPermutes(t, js, i - 1);
      assert ShuffleSteps(s, js, i) == ShuffleSteps(t, js, i - 1);
    }
  }

  lemma ShuffleStepUnfold(s: seq<Card>, js: seq<nat>, i: nat, t: seq<Card>)
    requires 0 < i < |s| && |js| == |s| && ValidSwaps(js)
    requires |t| == |s| && t[i] == s[js[i]] && t[js[i]] == s[i]
    requires forall k :: 0 <= k < |s| && k != i && k != js[i] ==> t[k] == s[k]
    ensures ShuffleSteps(s, js, i) == ShuffleSteps(t, js, i - 1)
  {
    assert t == Swap(s, i, js[i]);
  }

  /** The Fisher-Yates shuffle yields a permutation of its input. */
  lemma ShuffledPermutes(s: seq<Card>, draws: seq<real>)
    requires |draws| == |s| && ValidDraws(draws)
    ensures |Shuffled(s, draws)| == |s| && multiset(Shuffled(s, draws)) == multiset(s)
  {
    if |s| > 0 {
      ShuffleStepsPermutes(s, SwapIndices(draws), |s| - 1);
      assert |multiset(Shuffled(s, draws))| == |s|;
    }
  }

  /** shuffleDeck: Fisher-Yates on a copy, position i (from the last down to 1)
      swapped with floor(draws[i] * (i + 1)). The input, a value, is untouched. */
  method ShuffleDeck(deck: seq<Card>, draws: seq<real>) returns (shuffled: seq<Card>)
    requires |draws| == |deck| && ValidDraws(draws)
    ensures shuffled == Shuffled(deck, draws)
    ensures |shuffled| == |deck| && multiset(shuffled) == multiset(deck)
  {
    var a := new Card[|deck|](k requires 0 <= k < |deck| => deck[k]);
    ghost var js := SwapIndices(draws);
    ghost var cur := deck;
    assert a[..] == cur;
    var i := a.Length - 1;
    while i > 0
      invariant a.Length == |deck| && a[..] == cur
      invariant |deck| == 0 ==> i == -1
      invariant |deck| > 0 ==> 0 <= i < |deck|
      invariant |deck| > 0 ==> ShuffleSteps(cur, js, i) == ShuffleSteps(deck, js, |deck| - 1)
    {
      var j := SwapIndex(draws[i], i);
      a[i], a[j] := a[j], a[i];
      ShuffleStepUnfold(cur, js, i, a[..]);
      cur := a[..];
      i := i - 1;
    }
    shuffled := a[..];
    ShuffledPermutes(deck, draws);
  }

  // ---------------------------------------------------------------------------
  // Dealing.

  datatype Dealt = Dealt(playerHands: seq<seq<Card>>, remainingDeck: seq<Card>, discardPile: seq<Card>)

  const NotEnoughCards: string := "Pas assez de cartes dans le deck"

  function Concat(hands: seq<seq<Card>>): seq<Card>
  {
    if hands == [] then [] else Concat(hands[..|hands| - 1]) + hands[|hands| - 1]
  }

  /** Slices the deck front to back: `numPlayers` hands of CARDS_PER_ROUND[round]
      cards, one card for the discard pile, and the rest as the new deck; fails
      when the deck is shorter than that. */
  method DealCards(deck: seq<Card>, numPlayers: nat, round: int) returns (r: Result<Dealt>)
    requires ValidRound(round)
    ensures r.Err? <==> |deck| < CardsPerRound(round) * numPlayers + 1
    ensures r.Err? ==> r.message == NotEnoughCards
    ensures r.Ok? ==> |r.value.playerHands| == numPlayers
    ensures r.Ok? ==> forall i :: 0 <= i < numPlayers ==> |r.value.playerHands[i]| == CardsPerRound(round)
    ensures r.Ok? ==> |r.value.discardPile| == 1
    ensures r.Ok? ==> Concat(r.value.playerHands) + r.value.discardPile + r.value.remainingDeck == deck
  {
    var cardsPerPlayer := CardsPerRound(round);
    var totalCardsNeeded := cardsPerPlayer * numPlayers + 1;
    if |deck| < totalCardsNeeded {
      return Err(NotEnoughCards);
    }
    var playerHands: seq<seq<Card>> := [];
    var currentIndex := 0;
    for i := 0 to numPlayers
      invariant |playerHands| == i && currentIndex == cardsPerPlayer * i
      invariant forall k :: 0 <= k < i ==> |playerHands[k]| == cardsPerPlayer
      invariant Concat(playerHands) == deck[..currentIndex]
    {
      assert currentIndex + cardsPerPlayer <= |deck| by {
        assert cardsPerPlayer * (i + 1) <= cardsPerPlayer * numPlayers;
      }
      var hand := deck[currentIndex..currentIndex + cardsPerPlayer];
      assert Concat(playerHands + [hand]) == Concat(playerHands) + hand by {
        assert (playerHands + [hand])[..|playerHands|] == playerHands;
      }
      assert deck[..currentIndex] + hand == deck[..currentIndex + cardsPerPlayer];
      playerHands := playerHands + [hand];
      currentIndex := currentIndex + cardsPerPlayer;
    }
    var discardPile := [deck[currentIndex]];
    currentIndex := currentIndex + 1;
    var remainingDeck := deck[currentIndex..];
    assert deck[..currentIndex - 1] + discardPile + remainingDeck == deck by {
      assert deck[..currentIndex - 1] + discardPile == deck[..currentIndex];
    }
    r := Ok(Dealt(playerHands, remainingDeck, discardPile));
  }
}

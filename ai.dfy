/** The computer player: its decision procedure and the random action played
    when the turn timer runs out. */
module Ai {
  import opened GameTypes
  import opened GameRules
  import opened Validation
  import opened Scoring
  import opened Solver

  /** The actions a decision can name. */
  datatype Action =
    | ActDrawFromDeck
    | ActDrawFromDiscard
    | ActDiscard(cardId: CardId)
    | ActFinishRound(combinations: seq<Combination>)

  // ---------------------------------------------------------------------------
  // The first card holding the highest score: the head of a stable sort by
  // descending score.

  /** xs[i] is the largest entry and no entry before it is as large. */
  predicate IsFirstMax(xs: seq<int>, i: int)
  {
    0 <= i < |xs| &&
    (forall k :: 0 <= k < |xs| ==> xs[k] <= xs[i]) &&
    (forall k :: 0 <= k < i ==> xs[k] < xs[i])
  }

  function FirstMax(xs: seq<int>): (i: nat)
    requires |xs| > 0
    ensures IsFirstMax(xs, i)
    decreases |xs|
  {
    if |xs| == 1 then 0
    else
      var j := FirstMax(xs[..|xs| - 1]);
      if xs[|xs| - 1] > xs[j] then |xs| - 1 else j
  }

  /** At most one index is the first maximum. */
  lemma FirstMaxUnique(xs: seq<int>, i: int, j: int)
    requires IsFirstMax(xs, i) && IsFirstMax(xs, j)
    ensures i == j
  {
    assert xs[i] == xs[j];
  }

  /** getCardPoints of each card, in order. */
  function PointsOf(cards: seq<Card>, round: int): (r: seq<int>)
    requires ValidRound(round)
    ensures |r| == |cards| && forall k :: 0 <= k < |cards| ==> r[k] == GetCardPoints(cards[k], round)
  {
    seq(|cards|, k requires 0 <= k < |cards| => GetCardPoints(cards[k], round))
  }

  /** CARD_POINTS of each card's value (the wild rank scores its rank here). */
  function RankPointsOf(cards: seq<Card>): (r: seq<int>)
    ensures |r| == |cards| && forall k :: 0 <= k < |cards| ==> r[k] == CardPoints(cards[k].value)
  {
    seq(|cards|, k requires 0 <= k < |cards| => CardPoints(cards[k].value))
  }

  // ---------------------------------------------------------------------------
  // Counting cards laid down.

  /** `combinations.reduce((total, c) => total + c.cards.length, 0)`. */
  function CardCount(combos: seq<Combination>): nat
  {
    if combos == [] then 0 else CardCount(combos[..|combos| - 1]) + |combos[|combos| - 1].cards|
  }

  /** Counting cards is counting their ids. */
  lemma {:induction false} CardCountIsIds(combos: seq<Combination>)
    ensures CardCount(combos) == |AllIds(combos)|
    decreases |combos|
  {
    if combos != [] {
      CardCountIsIds(combos[..|combos| - 1]);
    }
  }

  /** Every id laid down is the id of a card of the hand. */
  lemma {:induction false} AllIdsFromHand(combos: seq<Combination>, hand: seq<Card>)
    requires FromHand(combos, hand)
    ensures forall x :: x in AllIds(combos) ==> x in IdSet(hand)
    decreases |combos|
  {
    if combos != [] {
      var init := combos[..|combos| - 1];
      var last := combos[|combos| - 1];
      assert FromHand(init, hand) by {
        forall k, c | 0 <= k < |init| && c in init[k].cards ensures c in hand {
          assert init[k] == combos[k];
        }
      }
      AllIdsFromHand(init, hand);
      forall x | x in CardIds(last.cards) ensures x in IdSet(hand) {
        DistinctIdsMeaning(last.cards);
        var c :| c in last.cards && c.id == x;
        assert c in hand;
      }
    }
  }

  /** A sequence without repeats has as many distinct elements as entries. */
  lemma {:induction false} DistinctSetSize<T>(s: seq<T>)
    requires Distinct(s)
    ensures |set x | x in s| == |s|
    decreases |s|
  {
    if s != [] {
      var init := s[..|s| - 1];
      var last := s[|s| - 1];
      assert Distinct(init) by {
        forall i, j | 0 <= i < j < |init| ensures init[i] != init[j] {
          assert init[i] == s[i] && init[j] == s[j];
        }
      }
      DistinctSetSize(init);
      assert last !in init by {
        forall i | 0 <= i < |init| ensures init[i] != last {
          assert init[i] == s[i];
        }
      }
      assert s == init + [last];
      assert (set x | x in s) == (set x | x in init) + {last};
    }
  }

  /** With distinct ids in the hand, combinations from the hand that repeat
      no id and lay down as many cards as the hand holds use every hand card. */
  lemma CountCoversHand(combos: seq<Combination>, hand: seq<Card>)
    requires DistinctIds(hand) && FromHand(combos, hand) && Distinct(AllIds(combos))
    requires CardCount(combos) == |hand|
    ensures HandCovered(hand, AllIds(combos))
  {
    CardCountIsIds(combos);
    AllIdsFromHand(combos, hand);
    DistinctSetSize(AllIds(combos));
    DistinctIdsMeaning(hand);
    DistinctSetSize(CardIds(hand));
    var laid := set x | x in AllIds(combos);
    var held := IdSet(hand);
    assert held == set x | x in CardIds(hand);
    SubsetOfSameSize(laid, held);
    forall c | c in hand ensures c.id in AllIds(combos) {
      assert c.id in held;
    }
  }

  /** A subset as large as its superset is all of it. */
  lemma SubsetOfSameSize<T>(a: set<T>, b: set<T>)
    requires a <= b && |a| == |b|
    ensures a == b
  {
    if y :| y in b && y !in a {
      SubsetSize(a, b - {y});
    }
  }

  lemma {:induction false} SubsetSize<T>(a: set<T>, b: set<T>)
    requires a <= b
    ensures |a| <= |b|
    decreases |a|
  {
    if x :| x in a {
      SubsetSize(a - {x}, b - {x});
    }
  }

  /** The solver's answer, when it lays down as many cards as the hand holds
      and the hand's ids are distinct, is accepted by validateAllCombinations. */
  lemma FinishIsAccepted(combos: seq<Combination>, hand: seq<Card>, round: int)
    requires ValidRound(round) && DistinctIds(hand) && FromHand(combos, hand)
    requires Distinct(AllIds(combos)) && forall k :: 0 <= k < |combos| ==> CombinationValid(combos[k], round)
    requires CardCount(combos) == |hand|
    ensures LayDownVerdict(combos, hand, round) == Valid
  {
    CountCoversHand(combos, hand);
    LayDownValidIff(combos, hand, round);
  }

  // ---------------------------------------------------------------------------
  // Decisions.

  /** Two cards carrying key k put at least two cards in the selection. */
  lemma {:induction false} TwoWithKeyIf<K>(cards: seq<Card>, key: Card -> K, k: K, i: nat, j: nat)
    requires i < j < |cards| && key(cards[i]) == k && key(cards[j]) == k
    ensures |Select(cards, key, k)| >= 2
    decreases |cards|
  {
    var init := cards[..|cards| - 1];
    if j < |cards| - 1 {
      assert init[i] == cards[i] && init[j] == cards[j];
      TwoWithKeyIf(init, key, k, i, j);
    } else {
      SelectFacts(init, key, k);
      assert init[i] == cards[i] && init[i] in Select(init, key, k);
    }
  }

  /** At least two cards in the selection come from two positions carrying k. */
  lemma {:induction false} TwoWithKeyOnlyIf<K>(cards: seq<Card>, key: Card -> K, k: K)
    requires |Select(cards, key, k)| >= 2
    ensures exists i, j :: 0 <= i < j < |cards| && key(cards[i]) == k && key(cards[j]) == k
    decreases |cards|
  {
    var init := cards[..|cards| - 1];
    var n := |cards| - 1;
    if |Select(init, key, k)| < 2 {
      SelectFacts(init, key, k);
      var s := Select(init, key, k);
      assert |s| == 1 && key(cards[n]) == k;
      assert s[0] in init;
      var i :| 0 <= i < n && init[i] == s[0];
      assert cards[i] == init[i];
    } else {
      TwoWithKeyOnlyIf(init, key, k);
      var i, j :| 0 <= i < j < n && key(init[i]) == k && key(init[j]) == k;
      assert init[i] == cards[i] && init[j] == cards[j];
    }
  }

  /** At least two hand cards carry key k. */
  lemma TwoWithKey<K>(cards: seq<Card>, key: Card -> K, k: K)
    ensures |Select(cards, key, k)| >= 2 <==>
      exists i, j :: 0 <= i < j < |cards| && key(cards[i]) == k && key(cards[j]) == k
  {
    if exists i, j :: 0 <= i < j < |cards| && key(cards[i]) == k && key(cards[j]) == k {
      var i, j :| 0 <= i < j < |cards| && key(cards[i]) == k && key(cards[j]) == k;
      TwoWithKeyIf(cards, key, k, i, j);
    }
    if |Select(cards, key, k)| >= 2 {
      TwoWithKeyOnlyIf(cards, key, k);
    }
  }

  /** A top discard worth taking: not wild, and two hand cards share its value
      or two share its suit. */
  predicate UsefulTop(hand: seq<Card>, top: Card, round: int)
    requires ValidRound(round)
  {
    !IsWildCard(top, round) &&
    (|Select(hand, ValueOf, top.value)| >= 2 || |Select(hand, SuitOf, top.suit)| >= 2)
  }

  /** The draw half of aiMakeDecision. */
  function DrawChoice(hand: seq<Card>, discardPile: seq<Card>, round: int): (a: Action)
    requires ValidRound(round)
    ensures a == ActDrawFromDeck || a == ActDrawFromDiscard
    ensures a == ActDrawFromDiscard ==> |discardPile| > 0 && !IsWildCard(discardPile[|discardPile| - 1], round)
  {
    if |discardPile| > 0 && UsefulTop(hand, discardPile[|discardPile| - 1], round) then ActDrawFromDiscard
    else ActDrawFromDeck
  }

  /** The AI takes the discard exactly when the pile is not empty, its top card
      is not wild, and the hand holds two cards of its value or two of its suit. */
  lemma DrawChoiceMeaning(hand: seq<Card>, discardPile: seq<Card>, round: int)
    requires ValidRound(round) && |discardPile| > 0
    ensures var top := discardPile[|discardPile| - 1];
      DrawChoice(hand, discardPile, round) == ActDrawFromDiscard <==>
        !IsWildCard(top, round) &&
        ((exists i, j :: 0 <= i < j < |hand| && hand[i].value == top.value && hand[j].value == top.value) ||
         (exists i, j :: 0 <= i < j < |hand| && hand[i].suit == top.suit && hand[j].suit == top.suit))
  {
    var top := discardPile[|discardPile| - 1];
    TwoWithKey(hand, ValueOf, top.value);
    TwoWithKey(hand, SuitOf, top.suit);
  }

  /** The discard half of aiMakeDecision: the first non-wild card of highest
      points, or the first card when all are wild. */
  function DiscardChoice(hand: seq<Card>, round: int): (id: CardId)
    requires ValidRound(round) && |hand| > 0
    ensures exists c :: c in hand && c.id == id
    ensures Normals(hand, round) != [] ==>
      exists i :: IsFirstMax(PointsOf(Normals(hand, round), round), i) && id == Normals(hand, round)[i].id
    ensures Normals(hand, round) == [] ==> id == hand[0].id
  {
    FilterMembers(hand, round);
    var nonWildcards := Normals(hand, round);
    if |nonWildcards| > 0 then
      var i := FirstMax(PointsOf(nonWildcards, round));
      assert nonWildcards[i] in hand;
      nonWildcards[i].id
    else
      assert hand[0] in hand;
      hand[0].id
  }

  /** aiMakeDecision as a function of the hand, the discard pile, the round
      and whether the player has drawn. */
  function AiDecision(hand: seq<Card>, discardPile: seq<Card>, round: int, hasDrawn: bool): Action
    requires ValidRound(round) && (hasDrawn ==> |hand| > 0)
  {
    if !hasDrawn then DrawChoice(hand, discardPile, round)
    else
      var combos := Solve(hand, round);
      if |combos| > 0 && CardCount(combos) == |hand| then ActFinishRound(combos)
      else ActDiscard(DiscardChoice(hand, round))
  }

  /** aiMakeDecision. Before drawing it chooses a pile; after drawing it
      finishes the round exactly when the solver lays down every card, and
      otherwise discards the first non-wild card of highest points, or the
      first card when all are wild. With no card after drawing the source
      fails on `hand[0].id`, so that case is excluded. */
  method AiMakeDecision(hand: seq<Card>, discardPile: seq<Card>, round: int, hasDrawn: bool) returns (a: Action)
    requires ValidRound(round)
    requires hasDrawn ==> |hand| > 0
    ensures a == AiDecision(hand, discardPile, round, hasDrawn)
    ensures !hasDrawn ==> a == DrawChoice(hand, discardPile, round)
    ensures hasDrawn ==> a.ActDiscard? || a.ActFinishRound?
    ensures hasDrawn ==>
      (a.ActFinishRound? <==> Solve(hand, round) != [] && CardCount(Solve(hand, round)) == |hand|)
    ensures a.ActFinishRound? ==> a.combinations == Solve(hand, round)
    ensures a.ActFinishRound? ==> |a.combinations| > 0 && CardCount(a.combinations) == |hand| && FromHand(a.combinations, hand)
    ensures a.ActFinishRound? && DistinctIds(hand) ==> LayDownVerdict(a.combinations, hand, round) == Valid
    ensures a.ActDiscard? ==> exists c :: c in hand && c.id == a.cardId
    ensures a.ActDiscard? && Normals(hand, round) != [] ==>
      (exists i :: IsFirstMax(PointsOf(Normals(hand, round), round), i) && a.cardId == Normals(hand, round)[i].id)
    ensures a.ActDiscard? && Normals(hand, round) == [] ==> a.cardId == hand[0].id
  {
    if !hasDrawn {
      return DrawChoice(hand, discardPile, round);
    }
    var combinations := TryFormCombinations(hand, round);
    if |combinations| > 0 {
      var allCardsUsed := CardCount(combinations);
      if allCardsUsed == |hand| {
        if DistinctIds(hand) {
          FinishIsAccepted(combinations, hand, round);
        }
        return ActFinishRound(combinations);
      }
    }
    var nonWildcards := Normals(hand, round);
    FilterMembers(hand, round);
    if |nonWildcards| > 0 {
      var i := FirstMax(PointsOf(nonWildcards, round));
      assert nonWildcards[i] in hand;
      return ActDiscard(nonWildcards[i].id);
    }
    assert hand[0] in hand;
    return ActDiscard(hand[0].id);
  }

  /** An AI that has drawn and holds three or more natural cards of one
      value finishes the round with them as one SET. */
  lemma AiFinishesWithSet(hand: seq<Card>, discardPile: seq<Card>, round: int, v: int)
    requires ValidRound(round) && |hand| >= MinCombinationSize
    requires forall c :: c in hand ==> !IsWildCard(c, round) && c.value == v
    ensures AiDecision(hand, discardPile, round, true) == ActFinishRound([Combination(Set, hand)])
  {
    SolveSameValue(hand, round, v);
    assert CardCount([Combination(Set, hand)]) == CardCount([]) + |hand|;
  }

  /** An AI that has drawn and holds three or more natural cards of one suit
      whose values follow on one by one finishes the round with them as one
      RUN. */
  lemma AiFinishesWithRun(hand: seq<Card>, discardPile: seq<Card>, round: int, suit: Suit)
    requires ValidRound(round) && |hand| >= MinCombinationSize
    requires forall c :: c in hand ==> !IsWildCard(c, round) && c.suit == suit
    requires forall k :: 0 < k < |hand| ==> hand[k].value == hand[k - 1].value + 1
    ensures AiDecision(hand, discardPile, round, true) == ActFinishRound([Combination(Run, hand)])
  {
    SolveConsecutive(hand, round, suit);
    assert CardCount([Combination(Run, hand)]) == CardCount([]) + |hand|;
  }

  /** generateRandomAction, with `r` standing for Math.random(). Before
      drawing it takes the discard with probability 0.3 when there is one;
      after drawing it discards the first card of highest CARD_POINTS. With
      no card after drawing the source fails on `sortedHand[0].id`, so that
      case is excluded. */
  function GenerateRandomAction(hand: seq<Card>, discardPile: seq<Card>, hasDrawn: bool, r: real): (a: Action)
    requires 0.0 <= r < 1.0
    requires hasDrawn ==> |hand| > 0
    ensures !hasDrawn ==> (a == ActDrawFromDiscard <==> r < 0.3 && |discardPile| > 0)
    ensures !hasDrawn ==> a == ActDrawFromDeck || a == ActDrawFromDiscard
    ensures hasDrawn ==>
              a.ActDiscard? && (exists i :: IsFirstMax(RankPointsOf(hand), i) && a.cardId == hand[i].id)
  {
    if !hasDrawn then
      if r < 0.3 && |discardPile| > 0 then ActDrawFromDiscard else ActDrawFromDeck
    else
      ActDiscard(hand[FirstMax(RankPointsOf(hand))].id)
  }

  /** After drawing, the random action discards a joker whenever the hand
      holds one, since a joker outscores every rank. */
  lemma RandomDiscardPrefersJokers(hand: seq<Card>, discardPile: seq<Card>, r: real, j: nat)
    requires 0.0 <= r < 1.0 && j < |hand| && hand[j].value == Joker
    ensures exists i :: (0 <= i < |hand| && hand[i].value == Joker &&
                         GenerateRandomAction(hand, discardPile, true, r) == ActDiscard(hand[i].id))
  {
    var xs := RankPointsOf(hand);
    var i := FirstMax(xs);
    CardPointsAreRanks(hand[j].value);
    CardPointsAreRanks(hand[i].value);
    assert xs[j] == 50 && xs[i] >= xs[j];
  }
}

# Five Crowns engine — a Dafny model

This project models the engine of a Five Crowns rummy game written in
TypeScript and proves properties of it:

- **The rule tables.** GAME_RULES, CARD_POINTS, CARDS_PER_ROUND,
  WILD_CARD_PER_ROUND, SUITS and CARD_VALUES.
- **The value types.** Suits, ranks, cards, combinations, the game status,
  players and the game state.
- **The card library.** Deck creation, the Fisher–Yates shuffle and the deal.
  The wildcard test and card points. The set, run and lay-down validators.
  Hand and round scoring and the winner. The greedy combination solver. The
  computer player's decision and the random action played when the turn timer
  runs out.
- **The game store.** One mutable object holding the round, the current
  player, the draw and discard piles, the seats, the round's wild rank, the
  turn timer, the per-turn draw flag and the game status. Its actions follow
  the source: setting up and starting a game, starting a round, drawing,
  discarding, passing the turn, laying down, scoring a round, ending the game,
  the timer tick and the computer player's turn.

The modules follow the program's structure, one file each:

| module | file | models |
|---|---|---|
| GameTypes | types.dfy | the enums and records of the types file |
| GameRules | rules.dfy | the rule constants and lookup tables |
| Deck | deck.dfy | createDeck, shuffleDeck, dealCards |
| Validation | validation.dfy | isWildCard, validateSet, validateRun, validateCombination, validateAllCombinations |
| Scoring | scoring.dfy | getCardPoints, calculateHandScore, calculateRoundScores, determineWinner |
| Solver | solver.dfy | tryFormCombinations |
| Ai | ai.dfy | aiMakeDecision, generateRandomAction |
| Store | store.dfy | the store's state (class GameStore) and all its actions |

How the model is shaped:

- **Loops stay loops.** Code that changes state step by step is a `method`
  proved against a specification function. createDeck, the in-place shuffle
  over an `array`, the deal cursor, validateRun, the used-id set of
  validateAllCombinations, the score map and the running minimum are loops
  with invariants. So are the solver's passes with their `usedCards` set and
  `current` buffer. Each pass is proved equal to a reference function (`SetsPass`,
  `Finalize`, `Walk`, `SuitPass`, `Solve`), and the AI's decision is stated as
  the function `AiDecision` over `Solve`.
- **The store is a class.** GameStore's fields are the store's state, and its
  actions are `modifies this` methods. Each method's postcondition names a
  two-state predicate that states the whole new state. Alongside that it
  proves the invariant `Valid()` and the conservation of every card in play.
- **Randomness is an argument.** Each `Math.random()` draw becomes a real in
  [0, 1) supplied by the caller: `draws` for a shuffle, `r` for passTurn and
  for the timeout action. Only the range is assumed.
- **Scheduled calls become host steps.** A `setTimeout`-scheduled call is
  returned as a `Host` value naming the next step: `AITurnLater(id)`,
  `NextRoundLater` or `StartRoundLater(round)`. `Idle` means nothing is
  scheduled.
- **Throws change nothing.** A call that throws in the source, such as a
  TypeError on `undefined` or dealCards' error, leaves the state as it was in
  the model, unless the source had already written it.

## Model

| member | source | states |
|---|---|---|
| GameTypes.TypeName | shadcn-ui/src/types/game.types.ts:33-36 | the tag spells "run" exactly for RUN; the datatype has exactly the two tags RUN and SET |
| GameRules.CardsPerRoundIsRoundPlusTwo | shadcn-ui/src/constants/gameRule.ts:32-44 | CARDS_PER_ROUND[r] is r + 2 for every round 1..11 |
| GameRules.WildCardPerRoundIsRoundPlusTwo | shadcn-ui/src/constants/gameRule.ts:47-59 | WILD_CARD_PER_ROUND[r] is r + 2, a rank from THREE to KING, for every round 1..11 |
| GameRules.CardPointsAreRanks | shadcn-ui/src/constants/gameRule.ts:16-29 | CARD_POINTS is 50 for JOKER and the rank itself, within 3..13, for every other value |
| GameRules.TotalCardsIsTwoDecksPlusJokers | shadcn-ui/src/constants/gameRule.ts:9 | TOTAL_CARDS (116) is 5 suits × 11 values × 2 + 6 |
| GameRules.TablesAreComplete | shadcn-ui/src/constants/gameRule.ts:62-83 | SUITS lists five distinct suits, every suit among them; CARD_VALUES is 3..13 ascending, without JOKER |
| GameRules.CardValueEnum | shadcn-ui/src/types/game.types.ts:11-24 | a card value other than JOKER (0) is exactly a rank in 3..13, and those are exactly the CARD_VALUES |
| Deck.CreateDeck | shadcn-ui/src/lib/gameLogic.ts:24-53 | the nested push loops build TOTAL_CARDS cards with pairwise distinct ids; exactly the last 6 are jokers; each (suit, rank) appears at exactly two positions; every card is well formed (a joker has value JOKER) |
| Deck.FullDeckProperties | shadcn-ui/src/lib/gameLogic.ts:24-53 | the closed-form deck the loops are proved to build has those same four properties |
| Deck.FacePositions | shadcn-ui/src/lib/gameLogic.ts:28-41 | a ranked card of suit s and rank v sits exactly at its position in the first copy or 55 places later |
| Deck.SwapIndex | shadcn-ui/src/lib/gameLogic.ts:58-59 | the swap partner floor(r·(i+1)) of position i is at most i |
| Deck.SwapIndices | shadcn-ui/src/lib/gameLogic.ts:57-61 | one swap partner per position, each within range |
| Deck.ShuffledPermutes | shadcn-ui/src/lib/gameLogic.ts:56-63 | the Fisher–Yates result has the input's length and the same cards (a permutation) |
| Deck.ShuffleDeck | shadcn-ui/src/lib/gameLogic.ts:56-63 | the swap loop on an array copy computes the reference shuffle, so it returns a permutation of the input of the same length; the input, a value, is untouched |
| Deck.DealCards | shadcn-ui/src/lib/gameLogic.ts:66-100 | the deal fails with the source's message exactly when the deck has fewer than CARDS_PER_ROUND[round]·n + 1 cards; otherwise it yields n hands of CARDS_PER_ROUND[round] cards and a one-card discard pile, and hands + pile + remainder is the input deck |
| Validation.WildCardOfRound | shadcn-ui/src/lib/gameLogic.ts:103-107 | a card is wild exactly when it is a joker or has rank round + 2 |
| Validation.FilterMembers | shadcn-ui/src/lib/gameLogic.ts:111-112 | the wild and non-wild filters keep exactly the wild, resp. non-wild, cards |
| Validation.FiltersPartition | shadcn-ui/src/lib/gameLogic.ts:111-112 | the two filters split the cards: their sizes add up to the whole |
| Validation.SortSorts | shadcn-ui/src/lib/gameLogic.ts:121 | the ascending value sort returns the same values, sorted |
| Validation.SortedUnique | shadcn-ui/src/lib/gameLogic.ts:121 | two ascending orderings of the same values are equal, so the sort is determined by its result |
| Validation.ValidateSetMeaning | shadcn-ui/src/lib/gameLogic.ts:148-160 | validateSet holds exactly for at least 3 cards with at least one natural card and all natural cards of one value |
| Validation.SetWildcardsUncapped | shadcn-ui/src/lib/gameLogic.ts:148-160 | one natural card with any number (≥ 2) of wildcards is a valid set: there is no cap on wildcards |
| Validation.ValidateRun | shadcn-ui/src/lib/gameLogic.ts:110-145 | the expectedValue/wildcardsUsed loop returns true exactly when the closed form RunValid holds (at least 3 cards, natural cards of one suit, every gap fitting the wildcards) |
| Validation.RunNeedsOneSuit | shadcn-ui/src/lib/gameLogic.ts:115-118 | two natural cards of different suits make the run invalid |
| Validation.StrictRunValid | shadcn-ui/src/lib/gameLogic.ts:120-144 | with strictly increasing natural ranks, a run is valid exactly when its span minus its length fits the wildcards |
| Validation.RunSpanFits | shadcn-ui/src/lib/gameLogic.ts:120-144 | a valid run spans at most as many ranks as it has cards |
| Validation.AllWildRunValid | shadcn-ui/src/lib/gameLogic.ts:120-144 | three or more wildcards alone are a valid run |
| Validation.DuplicateRankRunValid | shadcn-ui/src/lib/gameLogic.ts:120-144 | a run in one suit with a repeated rank (5,5,6) is accepted |
| Validation.ValidateCombination | shadcn-ui/src/lib/gameLogic.ts:163-170 | it returns validateRun for RUN and validateSet for SET |
| Validation.FirstInvalid | shadcn-ui/src/lib/gameLogic.ts:196-203 | the index of the first combination that fails validation, every earlier one passing |
| Validation.CollectUsedIds | shadcn-ui/src/lib/gameLogic.ts:178-189 | the growing used-id set reports a repeat exactly when an id is laid down twice; otherwise it holds exactly the ids laid down |
| Validation.ValidateAllCombinations | shadcn-ui/src/lib/gameLogic.ts:173-207 | the checks run in the source's order (a repeated id, a hand card not laid down, the first invalid combination) and give the reference verdict LayDownVerdict |
| Validation.LayDownValidIff | shadcn-ui/src/lib/gameLogic.ts:173-207 | a lay-down is accepted exactly when no id repeats, every hand card is laid down and every combination is valid |
| Validation.ForeignCardsAccepted | shadcn-ui/src/lib/gameLogic.ts:173-207 | a valid set made of cards outside the hand is accepted against an empty hand: foreign cards are never rejected |
| Scoring.CardPointsMeaning | shadcn-ui/src/lib/gameLogic.ts:210-214 | getCardPoints is 50 for a joker, 20 for another card of the wild rank, and the rank otherwise; a card is wild exactly when it costs 20 or more |
| Scoring.CardPointsBounds | shadcn-ui/src/lib/gameLogic.ts:210-214 | every card costs between 3 and 50 points |
| Scoring.HandScoreAppend | shadcn-ui/src/lib/gameLogic.ts:217-219 | the hand score of two hands laid end to end is the sum of their scores |
| Scoring.HandScoreBounds | shadcn-ui/src/lib/gameLogic.ts:217-219 | a hand of n cards scores between 3n and 50n, so only the empty hand scores 0 |
| Scoring.CalculateRoundScores | shadcn-ui/src/lib/gameLogic.ts:222-239 | the map has an entry for exactly the players' ids; the entry of an id is the round score (0 once finished, else the hand score) of the last player with that id |
| Scoring.RoundScoresOfFinished | shadcn-ui/src/lib/gameLogic.ts:222-239 | a finished player scores 0; an unfinished player holding cards scores at least 3 |
| Scoring.DetermineWinner | shadcn-ui/src/lib/gameLogic.ts:242-254 | the winner is the first player with the lowest score: no one scores lower and everyone before scores strictly higher |
| Solver.TakeWildcardsFacts | shadcn-ui/src/lib/gameLogic.ts:345-349 | takeWildcards gives pool cards with unused ids, max(0, count) of them or all that remain, with distinct ids when the pool has them |
| Solver.Clamp | shadcn-ui/src/lib/gameLogic.ts:346 | slice(0, max(0, count)) on a list of n keeps min(n, max(0, count)) items |
| Solver.KeysFacts | shadcn-ui/src/lib/gameLogic.ts:352-361 | the Map's keys, in first-occurrence order, list each key once and exactly the keys of the cards |
| Solver.SelectFacts | shadcn-ui/src/lib/gameLogic.ts:352-361 | a group holds exactly the cards with its key, in hand order, with distinct ids when the hand has them |
| Solver.GroupBy | shadcn-ui/src/lib/gameLogic.ts:352-361 | the Map-building loop yields the first-occurrence key list and, for every key, its group |
| Solver.SortByValueFacts | shadcn-ui/src/lib/gameLogic.ts:393 | the comparator sort returns a permutation of the cards (same multiset), ascending by value, stable (the cards of each value keep their hand order), keeping distinct ids |
| Solver.SetShapeValid | shadcn-ui/src/lib/gameLogic.ts:363-377 | a set of the solver's shape (one value's natural cards plus max(0, 3 − n) wildcards) passes validateSet |
| Solver.RunShapeValid | shadcn-ui/src/lib/gameLogic.ts:392-440 | a run of the solver's shape (at least 3 cards, one suit, strictly increasing, gaps filled) passes validateRun |
| Solver.FormSets | shadcn-ui/src/lib/gameLogic.ts:351-377 | the loop's combinations and `usedCards` are those of the reference pass `SetsPass`: for each value in first-occurrence order, skipped if one of its natural cards is used, else one SET of its natural cards plus max(0, 3 − n) unused wildcards when there are n ≥ 1 natural cards and n plus the unused wildcards reach 3; sets only, from hand cards, `usedCards` equal to the ids emitted; with distinct hand ids each set has the solver's shape and no id repeats |
| Solver.SolveSameValue | shadcn-ui/src/lib/gameLogic.ts:339-443 | a hand of three or more natural cards of one value is laid down as exactly one SET of the whole hand |
| Solver.SolveConsecutive | shadcn-ui/src/lib/gameLogic.ts:339-443 | a hand of three or more natural cards of one suit whose values follow on one by one is laid down as exactly one RUN of the whole hand |
| Solver.BufferPush | shadcn-ui/src/lib/gameLogic.ts:412-431 | pushing wildcards for the gap and then the card keeps the buffer one suit, strictly increasing, with every gap filled |
| Solver.BufferToRun | shadcn-ui/src/lib/gameLogic.ts:396-410 | a non-empty buffer padded with wildcards to 3 or more cards is a run of the solver's shape |
| Solver.FinalizeEmits | shadcn-ui/src/lib/gameLogic.ts:396-410 | finalizing emits one RUN exactly when the buffer is not empty and it plus the unused wildcards reach 3 cards; that RUN starts with the buffer and has max(3, buffer length) cards; otherwise combinations and used ids are unchanged; the buffer ends empty |
| Solver.FinalizeCurrent | shadcn-ui/src/lib/gameLogic.ts:396-410 | the new combinations and used ids are those of the reference `Finalize` (whose cases `FinalizeEmits` states); the run added, if any, is from the hand, and the id bookkeeping holds with an empty buffer |
| Solver.WalkCard | shadcn-ui/src/lib/gameLogic.ts:412-436 | one step of the walk equals the reference step `Walk`: start or extend the buffer when the card follows on, fill a fillable gap, else finalize and restart; the walk invariant is kept and the buffer ends with the card |
| Solver.WalkFill | shadcn-ui/src/lib/gameLogic.ts:424-431 | for a gap of g values with at least g unused wildcards, the new buffer is the old one, then the first g unused wildcards, then the card; those wildcards' ids are added to the used ids and no combination is emitted |
| Solver.WalkBreak | shadcn-ui/src/lib/gameLogic.ts:433-435 | when the card can neither follow on nor fill its gap, the buffer is finalized as `Finalize` says and the new buffer is the card alone |
| Solver.RunsOfSuit | shadcn-ui/src/lib/gameLogic.ts:392-440 | the walk of one suit, its cards sorted by value, equals the reference `SuitPass`: every card stepped as `Walk` says, then one last finalize; it only appends runs from the hand and keeps ids apart |
| Solver.FormRuns | shadcn-ui/src/lib/gameLogic.ts:379-440 | pass 2 equals the reference `RunsPass`: the unused natural cards grouped by suit in first-occurrence order, each group sorted by value and walked into runs with the shared wildcard pool; the sets are kept in front, everything after them is a run from the hand, and with distinct hand ids no id repeats and every emitted id is marked used |
| Solver.TryFormCombinations | shadcn-ui/src/lib/gameLogic.ts:339-443 | the result is the reference solver `Solve`: pass 1 over values, then pass 2 over the suits of the remaining natural cards with the same wildcard pool; only hand cards are used and all sets precede all runs; every run has the run shape (one suit, strictly increasing, at least 3 cards); with distinct hand ids every set has the set shape, no id is laid down twice and every combination passes validateCombination |
| Ai.FirstMax | shadcn-ui/src/lib/gameLogic.ts:273-276 | the head of the stable descending sort is the first index holding the maximum |
| Ai.FirstMaxUnique | shadcn-ui/src/lib/gameLogic.ts:326-330 | there is only one first maximum, so the card discarded is determined |
| Ai.CardCountIsIds | shadcn-ui/src/lib/gameLogic.ts:315-318 | the reduce over combination lengths counts the ids laid down |
| Ai.CountCoversHand | shadcn-ui/src/lib/gameLogic.ts:314-321 | hand cards with no repeated id, as many as the hand holds, cover the hand |
| Ai.FinishIsAccepted | shadcn-ui/src/lib/gameLogic.ts:312-321 | when the solver's cards number as many as the hand (distinct ids), validateAllCombinations accepts the lay-down |
| Ai.TwoWithKey | shadcn-ui/src/lib/gameLogic.ts:301-304 | a filter by value or suit has at least 2 cards exactly when two hand positions carry that key |
| Ai.DrawChoice | shadcn-ui/src/lib/gameLogic.ts:295-310 | before drawing the AI draws from the deck or the pile, and from the pile only when it is not empty and its top is not wild |
| Ai.DrawChoiceMeaning | shadcn-ui/src/lib/gameLogic.ts:295-310 | the AI takes the discard exactly when the top card is not wild and two hand cards share its value or two share its suit |
| Ai.DiscardChoice | shadcn-ui/src/lib/gameLogic.ts:323-335 | the discard is a hand card: the first natural card of highest points when there is one, else the first card of the hand |
| Ai.AiMakeDecision | shadcn-ui/src/lib/gameLogic.ts:285-336 | before drawing it makes the draw choice; after drawing it finishes exactly when the solver's combinations are not empty and count as many cards as the hand, laying down those combinations (from the hand, accepted when ids are distinct), and otherwise discards the `DiscardChoice` card |
| Ai.AiFinishesWithSet | shadcn-ui/src/lib/gameLogic.ts:312-322 | after drawing, a hand of three or more natural cards of one value is laid down as one SET |
| Ai.AiFinishesWithRun | shadcn-ui/src/lib/gameLogic.ts:312-322 | after drawing, a hand of three or more natural cards of one suit with consecutive values is laid down as one RUN |
| Ai.GenerateRandomAction | shadcn-ui/src/lib/gameLogic.ts:257-282 | before drawing it takes the discard pile exactly when r < 0.3 and the pile is not empty, else the deck; after drawing it discards the first card of highest CARD_POINTS, wildness ignored |
| Ai.RandomDiscardPrefersJokers | shadcn-ui/src/lib/gameLogic.ts:271-281 | after drawing, a hand holding a joker discards a joker |
| Store.PlayerIndex | shadcn-ui/src/stores/gameStore.ts:228 | findIndex: the first seat with the id, or -1 when none has it |
| Store.PlayerById | shadcn-ui/src/stores/gameStore.ts:447-449 | getPlayerById: none exactly when no seat has the id, else the first seat with it |
| Store.CardIndex | shadcn-ui/src/stores/gameStore.ts:214 | find on the hand: the first card with the id, or -1 exactly when no card has it |
| Store.NextSeat | shadcn-ui/src/stores/gameStore.ts:228-230 | (i + 1) % n is the following seat, wrapping from the last to the first |
| Store.AfterTurnPassed | shadcn-ui/src/stores/gameStore.ts:244-250 | an AI turn is scheduled exactly when the next seat is an AI |
| Store.RandomIndex | shadcn-ui/src/stores/gameStore.ts:263 | floor(r·n) is an index into the hand |
| Store.SeatedOnceOfDistinct | shadcn-ui/src/stores/gameStore.ts:159-167 | with distinct player ids, a present id is seated exactly once |
| Store.GiveCardCards | shadcn-ui/src/stores/gameStore.ts:159-167 | the map that appends the card to the current id's hand adds exactly that card to the hands, when the id is seated once |
| Store.TakeCardCards | shadcn-ui/src/stores/gameStore.ts:217-225 | the filter on the current id's hand removes exactly the discarded card, when its ids are distinct |
| Store.FinishPlayerCards | shadcn-ui/src/stores/gameStore.ts:290-299 | emptying the finishing seat's hand removes exactly that hand's cards |
| Store.WithoutOnlyCard | shadcn-ui/src/stores/gameStore.ts:221 | filtering out the id of a card whose id is unique removes just that card |
| Store.DrawFromDeckKeepsCards | shadcn-ui/src/stores/gameStore.ts:150-175 | drawing the top of the deck into the current hand keeps every card in play |
| Store.DrawFromDiscardKeepsCards | shadcn-ui/src/stores/gameStore.ts:178-203 | drawing the top of the discard pile keeps every card in play |
| Store.DiscardKeepsCards | shadcn-ui/src/stores/gameStore.ts:206-239 | moving a hand card onto the discard pile keeps every card in play |
| Store.FinishKeepsCards | shadcn-ui/src/stores/gameStore.ts:289-304 | laying down takes exactly the finishing hand out of play |
| Store.DealKeepsCards | shadcn-ui/src/stores/gameStore.ts:115-136 | the seats' new hands, the discard and the draw pile are the shuffled deck, card for card |
| Store.AddRoundScoresOfRound | shadcn-ui/src/stores/gameStore.ts:343-349 | adding the score map's entries (0 when missing) to each seat is ScoredSeats: the round score of the last seat with the same id |
| Store.ScoreSeats | shadcn-ui/src/stores/gameStore.ts:342-349 | calculateRoundScores followed by the score update computes ScoredSeats |
| Store.ScoredSeatsMonotone | shadcn-ui/src/stores/gameStore.ts:342-349 | no score goes down, a seat whose id finished gains nothing, and nothing but the score changes |
| Store.ScoredSeatsOfDistinct | shadcn-ui/src/stores/gameStore.ts:342-349 | with distinct ids a finished seat gains 0 and any other seat between 3 and 50 points per card held |
| Store.GameStore.constructor | shadcn-ui/src/stores/gameStore.ts:63-78 | the initial state: round 1, no players, empty piles, wild rank 3, a full timer, not drawn, waiting |
| Store.GameStore.CurrentPlayer | shadcn-ui/src/stores/gameStore.ts:451-453 | getCurrentPlayer: once there are seats, the invariant guarantees a seat with the current id |
| Store.GameStore.StartTimer | shadcn-ui/src/stores/gameStore.ts:379-381 | the timer is set to DEFAULT_TIMER_DURATION and nothing else changes |
| Store.GameStore.StopTimer | shadcn-ui/src/stores/gameStore.ts:384-386 | the timer is set to 0 and nothing else changes |
| Store.GameStore.DrawFromDeck | shadcn-ui/src/stores/gameStore.ts:150-175 | nothing changes on an empty deck or after a draw; otherwise the top card goes to the current id's seats and the draw flag is set, nothing else changes, and (id seated once) every card stays in play |
| Store.GameStore.DrawFromDiscard | shadcn-ui/src/stores/gameStore.ts:178-203 | the same for the last card of the discard pile |
| Store.GameStore.DiscardCard | shadcn-ui/src/stores/gameStore.ts:206-251 | nothing changes before a draw, without a current seat or when the hand lacks the id; otherwise the card tops the pile, leaves the hand, the turn passes to seat (i + 1) % n with a fresh timer and no draw, an AI turn is scheduled for an AI, and (id seated once, distinct ids) every card stays in play |
| Store.GameStore.PassTurn | shadcn-ui/src/stores/gameStore.ts:254-267 | nothing changes before a draw, without a current seat or with an empty hand; otherwise the card at floor(r·n) is discarded and the turn ends |
| Store.GameStore.FinishRound | shadcn-ui/src/stores/gameStore.ts:270-336 | nothing changes without a current seat or when validateAllCombinations rejects; otherwise the seat finishes with an empty hand, losing exactly its cards; the next round is scheduled only when every seat has finished, else the turn passes on with a fresh timer |
| Store.GameStore.EndGame | shadcn-ui/src/stores/gameStore.ts:365-376 | the game is completed, the timer stopped, the state otherwise kept, and the winner is the first seat with the lowest score |
| Store.GameStore.ScoreRound | shadcn-ui/src/stores/gameStore.ts:339-351 | each seat's score grows by its round score and nothing else changes |
| Store.GameStore.NextRound | shadcn-ui/src/stores/gameStore.ts:339-362 | the round is scored; after round TOTAL_ROUNDS the game is completed with the winner, otherwise round + 1 is scheduled |
| Store.GameStore.DecrementTimer | shadcn-ui/src/stores/gameStore.ts:389-413 | a running timer counts down by one; at 0 the current player plays the random action; a timed-out player who has drawn always loses the turn, and one who has not drawn draws with the timer left at 0 |
| Store.GameStore.ExecuteAITurn | shadcn-ui/src/stores/gameStore.ts:416-445 | nothing for a missing or human seat; otherwise the AI's decision on its hand is played, and a draw schedules another AI turn; the action is the AI's decision on the old state: before a draw the draw choice, after a draw either the `DiscardChoice` card or a finish with the solver's combinations; for the current player a discard ends the turn and a finish (distinct ids) is accepted |
| Store.GameStore.StartRound | shadcn-ui/src/stores/gameStore.ts:115-147 | it succeeds exactly when there are seats and enough cards, else nothing changes; the leftover deck is shuffled and dealt: CARDS_PER_ROUND[round] cards per seat, all seats unfinished, the round's wild rank, the first seat to play with a fresh timer; exactly the old deck's cards are then in play |
| Store.GameStore.InitializeGame | shadcn-ui/src/stores/gameStore.ts:98-112 | nothing changes without seats; otherwise the seats, a shuffled fresh deck and IN_PROGRESS are set and round 1 starts, which succeeds exactly when 3·n + 1 ≤ TOTAL_CARDS, after which the full deck's cards are in play |
| Store.GameStore.StartGame | shadcn-ui/src/stores/gameStore.ts:81-95 | nothing changes for an empty lobby; otherwise the lobby becomes seats with no score in lobby order and the game is initialised with them: ok iff round 1 can be dealt, dealing it from the doubly shuffled full deck; when it cannot, the seats, the once-shuffled deck, the first seat as current player and IN_PROGRESS are already written and nothing else changes |

## Left out

- Display metadata is not modelled: the username, avatar and badge of the
  players, the game id, the `roundStartTime` and `lastActionTime` dates, and
  `myPlayerId` with its `isMyTurn` flag. `getMyHand`, which reads
  `myPlayerId`, is therefore not modelled either. No engine decision depends
  on any of these.
- The zustand `create`/`set`/`get` plumbing, `alert` and `console.error` are
  not modelled. `set` is a field assignment; the error paths they report are
  modelled as "nothing changes".
- The `setTimeout` delays (1000, 1500, 2000 and 3000 ms) are not modelled.
  The scheduled call is returned as a `Host` step, and the caller performs it.
- The distribution of `Math.random()` is not modelled. Draws are
  caller-supplied reals in [0, 1).
- The exact id strings are not modelled (`${suit}_${value}_${index}`,
  `joker_${i}`). Card ids are a datatype, and only their distinctness is
  used. So the `cardId` truthiness tests in decrementTimer and executeAITurn
  always pass: every card id is non-empty. The same holds for the
  `combinations` test, because an array is always truthy.
- The round tables are functions defined on rounds 1..11 only. The store only
  uses such rounds; out of range, the source reads `undefined`.
- Solver.TryFormCombinations: the disjointness of ids and the validity of
  every set are proved only for hands whose card ids are distinct. Every deal
  from the deck gives such hands. With repeated ids, only the use of hand
  cards, the order of sets before runs and the run shape are proved.
- Scoring.DetermineWinner, Store.GameStore.EndGame: without players the
  source reads an undefined first player (gameLogic.ts:243). That call is
  excluded by precondition rather than modelled as a throw.
- Store.GameStore.NextRound: without seats the source's determineWinner reads
  an undefined first player at round 11. That call is excluded by
  precondition rather than modelled as a throw.
- Store.GameStore.DrawFromDeck, DrawFromDiscard, DiscardCard and FinishRound:
  card conservation is proved when the current id has exactly one seat (and,
  for a discard, when the hand's ids are distinct). With repeated ids, the
  source's per-seat map duplicates or drops cards, and the contract states
  only the new seats.
- Ai.AiMakeDecision, Ai.GenerateRandomAction, Store.GameStore.ExecuteAITurn
  and DecrementTimer: when the player has drawn and holds no card, the source
  throws on `hand[0].id` or `sortedHand[0].id`. The two decision functions
  exclude that call by precondition; the two store methods leave the state
  unchanged in that case.
- The GameBoard references `awaitingEndOrLayDown`, `endTurnAfterDiscard`,
  `roundOverlay` and `commitRoundScoresAndProceed`. The store does not define
  them, so they are not part of this model. The React views are not part of
  this model either.

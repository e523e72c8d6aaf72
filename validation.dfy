/** Wildcards, the set and run validators, and the lay-down check. */
module Validation {
  import opened GameTypes
  import opened GameRules

  /** isWildCard: a permanent joker, or a card of the round's wild rank. */
  predicate IsWildCard(c: Card, round: int)
    requires ValidRound(round)
  {
    c.isJoker || c.value == WildCardPerRound(round)
  }

  /** In round r the wild rank is r + 2, so the wildcards of round r are the
      jokers and the cards of rank r + 2. */
  lemma WildCardOfRound(c: Card, round: int)
    requires ValidRound(round)
    ensures IsWildCard(c, round) <==> c.isJoker || c.value == round + 2
  {
    WildCardPerRoundIsRoundPlusTwo(round);
  }

  // ---------------------------------------------------------------------------
  // The filters and the sort the validators use.

  /** cards.filter(isWildCard), order kept. */
  function Wilds(cards: seq<Card>, round: int): seq<Card>
    requires ValidRound(round)
  {
    if cards == [] then []
    else (if IsWildCard(cards[0], round) then [cards[0]] else []) + Wilds(cards[1..], round)
  }

  /** cards.filter(c => !isWildCard(c)), order kept. */
  function Normals(cards: seq<Card>, round: int): seq<Card>
    requires ValidRound(round)
  {
    if cards == [] then []
    else (if IsWildCard(cards[0], round) then [] else [cards[0]]) + Normals(cards[1..], round)
  }

  /** The two filters keep exactly the wild and the non-wild cards. */
  lemma {:induction false} FilterMembers(cards: seq<Card>, round: int)
    requires ValidRound(round)
    ensures forall c :: c in Wilds(cards, round) <==> c in cards && IsWildCard(c, round)
    ensures forall c :: c in Normals(cards, round) <==> c in cards && !IsWildCard(c, round)
    decreases |cards|
  {
    if cards != [] {
      FilterMembers(cards[1..], round);
      assert cards == [cards[0]] + cards[1..];
    }
  }

  /** Filtering a concatenation filters each part. */
  lemma {:induction false} FiltersAppend(a: seq<Card>, b: seq<Card>, round: int)
    requires ValidRound(round)
    ensures Wilds(a + b, round) == Wilds(a, round) + Wilds(b, round)
    ensures Normals(a + b, round) == Normals(a, round) + Normals(b, round)
    decreases |a|
  {
    if a != [] {
      assert (a + b)[1..] == a[1..] + b;
      FiltersAppend(a[1..], b, round);
    } else {
      assert a + b == b;
    }
  }

  /** Every card lands in exactly one of the two filters. */
  lemma {:induction false} FiltersPartition(cards: seq<Card>, round: int)
    requires ValidRound(round)
    ensures |Wilds(cards, round)| + |Normals(cards, round)| == |cards|
    decreases |cards|
  {
    if cards != [] {
      FiltersPartition(cards[1..], round);
    }
  }

  function Values(cards: seq<Card>): seq<int>
  {
    seq(|cards|, i requires 0 <= i < |cards| => cards[i].value as int)
  }

  predicate Ascending(s: seq<int>)
  {
    forall i, j :: 0 <= i < j < |s| ==> s[i] <= s[j]
  }

  /** The head of an ascending sequence is its least element. */
  lemma HeadIsLeast(s: seq<int>)
    requires Ascending(s) && s != []
    ensures forall e :: e in s ==> s[0] <= e
  {
    forall e | e in s ensures s[0] <= e {
      var k :| 0 <= k < |s| && s[k] == e;
    }
  }

  function Insert(x: int, s: seq<int>): seq<int>
    decreases |s|
  {
    if s == [] then [x]
    else if x <= s[0] then [x] + s
    else [s[0]] + Insert(x, s[1..])
  }

  /** Insertion adds exactly x. */
  lemma {:induction false} InsertAdds(x: int, s: seq<int>)
    ensures multiset(Insert(x, s)) == multiset(s) + multiset{x}
    decreases |s|
  {
    if s != [] {
      assert s == [s[0]] + s[1..];
      if x > s[0] {
        InsertAdds(x, s[1..]);
      }
    }
  }

  /** Insertion into an ascending sequence keeps it ascending. */
  lemma {:induction false} InsertSorted(x: int, s: seq<int>)
    requires Ascending(s)
    ensures Ascending(Insert(x, s))
    decreases |s|
  {
    if s != [] && x > s[0] {
      var rest := Insert(x, s[1..]);
      InsertSorted(x, s[1..]);
      RestAbove(x, s);
      ConsAscending(s[0], rest);
    } else if s != [] {
      HeadIsLeast(s);
      ConsAscending(x, s);
    }
  }

  /** What is inserted after the head of an ascending sequence stays above it. */
  lemma RestAbove(x: int, s: seq<int>)
    requires Ascending(s) && s != [] && x > s[0]
    ensures forall e :: e in Insert(x, s[1..]) ==> s[0] <= e
  {
    var rest := Insert(x, s[1..]);
    InsertAdds(x, s[1..]);
    HeadIsLeast(s);
    forall e | e in rest ensures s[0] <= e {
      assert e in multiset(rest);
      assert e == x || e in s[1..];
    }
  }

  /** A head no greater than every element of an ascending tail. */
  lemma ConsAscending(h: int, t: seq<int>)
    requires Ascending(t) && forall e :: e in t ==> h <= e
    ensures Ascending([h] + t)
  {
    var r := [h] + t;
    forall i, j | 0 <= i < j < |r| ensures r[i] <= r[j] {
      assert r[j] == t[j - 1];
      if i == 0 {
        assert t[j - 1] in t;
      } else {
        assert r[i] == t[i - 1];
      }
    }
  }

  /** The numeric ascending sort `(a, b) => a - b` of the source. Any ascending
      permutation is the same sequence (SortedUnique), so insertion sort stands
      for the library's algorithm. */
  function Sort(s: seq<int>): seq<int>
    decreases |s|
  {
    if s == [] then [] else Insert(s[0], Sort(s[1..]))
  }

  /** Sort returns an ascending permutation of its input. */
  lemma SortSorts(s: seq<int>)
    ensures Ascending(Sort(s)) && multiset(Sort(s)) == multiset(s) && |Sort(s)| == |s|
  {
    SortAscending(s);
    SortPermutes(s);
    assert |Sort(s)| == |multiset(Sort(s))| == |multiset(s)| == |s|;
  }

  lemma {:induction false} SortAscending(s: seq<int>)
    ensures Ascending(Sort(s))
    decreases |s|
  {
    if s != [] {
      SortAscending(s[1..]);
      InsertSorted(s[0], Sort(s[1..]));
    }
  }

  lemma {:induction false} SortPermutes(s: seq<int>)
    ensures multiset(Sort(s)) == multiset(s)
    decreases |s|
  {
    if s != [] {
      SortPermutes(s[1..]);
      InsertAdds(s[0], Sort(s[1..]));
      assert s == [s[0]] + s[1..];
    }
  }

  /** Sorting is determined by the multiset: two ascending sequences with the
      same elements are equal. */
  lemma {:induction false} SortedUnique(a: seq<int>, b: seq<int>)
    requires Ascending(a) && Ascending(b) && multiset(a) == multiset(b)
    ensures a == b
    decreases |a|
  {
    assert |a| == |multiset(a)| == |multiset(b)| == |b|;
    if a != [] {
      SameHead(a, b);
      assert a == [a[0]] + a[1..] && b == [b[0]] + b[1..];
      var ma, mb := multiset(a[1..]), multiset(b[1..]);
      assert multiset(a) == multiset{a[0]} + ma && multiset(b) == multiset{a[0]} + mb;
      forall e ensures ma[e] == mb[e] {
        assert (multiset{a[0]} + ma)[e] == (multiset{a[0]} + mb)[e];
      }
      assert ma == mb;
      SortedUnique(a[1..], b[1..]);
    }
  }

  lemma SameHead(a: seq<int>, b: seq<int>)
    requires Ascending(a) && Ascending(b) && multiset(a) == multiset(b) && a != [] && b != []
    ensures a[0] == b[0]
  {
    assert a[0] in multiset(b) && b[0] in multiset(a);
    HeadIsLeast(a);
    HeadIsLeast(b);
  }

  // ---------------------------------------------------------------------------
  // validateSet

  /** validateSet: the size check, then the non-wild cards filtered out and
      compared with the first of them. */
  predicate ValidateSet(cards: seq<Card>, round: int)
    requires ValidRound(round)
  {
    if |cards| < MinCombinationSize then false
    else
      var normalCards := Normals(cards, round);
      if |normalCards| == 0 then false
      else
        var value := normalCards[0].value;
        forall c :: c in normalCards ==> c.value == value
  }

  /** A set is valid iff it has at least MIN_COMBINATION_SIZE cards, at least
      one of them not wild, and all non-wild cards share one value; the number
      of wildcards is not capped. */
  lemma ValidateSetMeaning(cards: seq<Card>, round: int)
    requires ValidRound(round)
    ensures ValidateSet(cards, round) <==>
      |cards| >= MinCombinationSize &&
      (exists c :: c in cards && !IsWildCard(c, round)) &&
      (forall c, d :: c in cards && d in cards && !IsWildCard(c, round) && !IsWildCard(d, round) ==> c.value == d.value)
  {
    var normalCards := Normals(cards, round);
    FilterMembers(cards, round);
    if |normalCards| == 0 {
      forall c | c in cards ensures IsWildCard(c, round) {
        assert c !in normalCards;
      }
    } else {
      assert normalCards[0] in normalCards;
    }
  }

  /** One natural card and any number of wildcards form a set. */
  lemma SetWildcardsUncapped(c: Card, wilds: seq<Card>, round: int)
    requires ValidRound(round) && !IsWildCard(c, round)
    requires |wilds| >= 2 && forall w :: w in wilds ==> IsWildCard(w, round)
    ensures ValidateSet([c] + wilds, round)
  {
    var cards := [c] + wilds;
    ValidateSetMeaning(cards, round);
    assert c in cards;
    forall x, y | x in cards && y in cards && !IsWildCard(x, round) && !IsWildCard(y, round)
      ensures x.value == y.value
    {
      assert x !in wilds && y !in wilds;
    }
  }

  // ---------------------------------------------------------------------------
  // validateRun

  /** All cards share the suit of the first. */
  predicate SameSuit(cards: seq<Card>)
  {
    forall i :: 0 <= i < |cards| ==> cards[i].suit == cards[0].suit
  }

  /** The ascending non-wild values. */
  function RunValues(cards: seq<Card>, round: int): seq<int>
    requires ValidRound(round)
  {
    Sort(Values(Normals(cards, round)))
  }

  /** The run rule in closed form. Walking the ascending non-wild values s, the
      wildcards used after position k are s[k] - s[0] - k (each step adds the
      gap s[k] - s[k-1] - 1, which is -1 for a repeated value), and the walk
      fails as soon as that exceeds the number of wildcards. */
  predicate RunValid(cards: seq<Card>, round: int)
    requires ValidRound(round)
  {
    |cards| >= MinCombinationSize &&
    SameSuit(Normals(cards, round)) &&
    var s := RunValues(cards, round);
    forall k :: 0 <= k < |s| ==> s[k] - s[0] - k <= |Wilds(cards, round)|
  }

  /** validateRun, with its expectedValue / wildcardsUsed walk. */
  method ValidateRun(cards: seq<Card>, round: int) returns (ok: bool)
    requires ValidRound(round)
    ensures ok == RunValid(cards, round)
  {
    if |cards| < MinCombinationSize {
      return false;
    }
    var wildcards := Wilds(cards, round);
    var normalCards := Normals(cards, round);
    if |normalCards| > 0 {
      var suit := normalCards[0].suit;
      if !(forall i :: 0 <= i < |normalCards| ==> normalCards[i].suit == suit) {
        assert !SameSuit(normalCards);
        return false;
      }
    }
    var sortedValues := Sort(Values(normalCards));
    var expectedValue := if |sortedValues| > 0 then sortedValues[0] else 0;
    var wildcardsUsed := 0;
    for i := 0 to |sortedValues|
      invariant i == 0 ==> wildcardsUsed == 0 && (|sortedValues| > 0 ==> expectedValue == sortedValues[0])
      invariant i > 0 ==> wildcardsUsed == sortedValues[i - 1] - sortedValues[0] - (i - 1)
      invariant i > 0 ==> expectedValue == sortedValues[i - 1] + 1
      invariant forall k :: 0 <= k < i ==> sortedValues[k] - sortedValues[0] - k <= |wildcards|
    {
      var currentValue := sortedValues[i];
      var gap := currentValue - expectedValue;
      if gap > |wildcards| - wildcardsUsed {
        assert sortedValues == RunValues(cards, round);
        assert sortedValues[i] - sortedValues[0] - i > |wildcards|;
        return false;
      }
      wildcardsUsed := wildcardsUsed + gap;
      expectedValue := currentValue + 1;
    }
    if wildcardsUsed > |wildcards| {
      return false;
    }
    return true;
  }

  /** The wildcards of a valid run fill the span between its lowest and
      highest natural values: the span is at most the number of cards. */
  lemma RunSpanFits(cards: seq<Card>, round: int)
    requires ValidRound(round) && RunValid(cards, round) && |Normals(cards, round)| > 0
    ensures var s := RunValues(cards, round);
      s[|s| - 1] - s[0] + 1 <= |cards|
  {
    FiltersPartition(cards, round);
    SortSorts(Values(Normals(cards, round)));
    var s := RunValues(cards, round);
    assert s[|s| - 1] - s[0] - (|s| - 1) <= |Wilds(cards, round)|;
  }

  /** Two natural cards of different suits break a run. */
  lemma RunNeedsOneSuit(cards: seq<Card>, round: int, c: Card, d: Card)
    requires ValidRound(round)
    requires c in cards && d in cards && !IsWildCard(c, round) && !IsWildCard(d, round) && c.suit != d.suit
    ensures !RunValid(cards, round)
  {
    var n := Normals(cards, round);
    FilterMembers(cards, round);
    assert c in n && d in n;
    var i :| 0 <= i < |n| && n[i] == c;
    var j :| 0 <= j < |n| && n[j] == d;
  }

  /** For distinct natural values the walk reduces to one test: the run is
      valid iff the wildcards cover the missing values inside the span. */
  lemma StrictRunValid(cards: seq<Card>, round: int)
    requires ValidRound(round) && |cards| >= MinCombinationSize
    requires SameSuit(Normals(cards, round)) && |Normals(cards, round)| > 0
    requires var s := RunValues(cards, round); forall k :: 0 < k < |s| ==> s[k - 1] < s[k]
    ensures var s := RunValues(cards, round);
      RunValid(cards, round) <==> s[|s| - 1] - s[0] - (|s| - 1) <= |Wilds(cards, round)|
  {
    var s := RunValues(cards, round);
    StrictGrowth(s, |s| - 1);
  }

  /** In a strictly increasing sequence, s[k] - k never decreases. */
  lemma {:induction false} StrictGrowth(s: seq<int>, n: nat)
    requires n < |s| && forall k :: 0 < k < |s| ==> s[k - 1] < s[k]
    ensures forall k :: 0 <= k <= n ==> s[k] - k <= s[n] - n
    decreases n
  {
    if n > 0 {
      StrictGrowth(s, n - 1);
    }
  }

  /** As written, a run of wildcards only passes. */
  lemma AllWildRunValid(cards: seq<Card>, round: int)
    requires ValidRound(round) && |cards| >= MinCombinationSize
    requires forall c :: c in cards ==> IsWildCard(c, round)
    ensures RunValid(cards, round)
  {
    NormalsOfWilds(cards, round);
  }

  /** Wildcards only: the wild filter keeps all of them, the other none. */
  lemma {:induction false} NormalsOfWilds(cards: seq<Card>, round: int)
    requires ValidRound(round) && forall c :: c in cards ==> IsWildCard(c, round)
    ensures Normals(cards, round) == [] && Wilds(cards, round) == cards
    decreases |cards|
  {
    if cards != [] {
      assert cards[0] in cards;
      assert forall c :: c in cards[1..] ==> c in cards;
      NormalsOfWilds(cards[1..], round);
      assert cards == [cards[0]] + cards[1..];
    }
  }

  /** No wildcards: the other filter keeps all of them, the wild one none. */
  lemma {:induction false} NormalsOfNaturals(cards: seq<Card>, round: int)
    requires ValidRound(round) && forall c :: c in cards ==> !IsWildCard(c, round)
    ensures Normals(cards, round) == cards && Wilds(cards, round) == []
    decreases |cards|
  {
    if cards != [] {
      assert cards[0] in cards;
      assert forall c :: c in cards[1..] ==> c in cards;
      NormalsOfNaturals(cards[1..], round);
      assert cards == [cards[0]] + cards[1..];
    }
  }

  /** As written, repeated ranks pass: natural cards of one suit with
      values v, v, v + 1 (such as 5, 5, 6 of hearts) form a valid run. */
  lemma DuplicateRankRunValid(a: Card, b: Card, c: Card, round: int)
    requires ValidRound(round)
    requires !IsWildCard(a, round) && !IsWildCard(b, round) && !IsWildCard(c, round)
    requires a.suit == b.suit == c.suit && a.value == b.value && c.value == a.value + 1
    ensures RunValid([a, b, c], round)
  {
    var cards := [a, b, c];
    NormalsOfNaturals(cards, round);
    SortedValues(cards, [a.value as int, a.value as int, a.value as int + 1]);
    assert SameSuit(cards);
  }

  /** Already ascending values sort to themselves. */
  lemma SortedValues(cards: seq<Card>, s: seq<int>)
    requires Values(cards) == s && Ascending(s)
    ensures Sort(Values(cards)) == s
  {
    SortSorts(Values(cards));
    SortedUnique(Sort(Values(cards)), s);
  }

  // ---------------------------------------------------------------------------
  // validateCombination

  predicate CombinationValid(c: Combination, round: int)
    requires ValidRound(round)
  {
    match c.kind
    case Run => RunValid(c.cards, round)
    case Set => ValidateSet(c.cards, round)
  }

  /** validateCombination: dispatch on the tag. The tag type has only RUN and
      SET, so the source's fallback `false` cannot be reached. */
  method ValidateCombination(c: Combination, round: int) returns (ok: bool)
    requires ValidRound(round)
    ensures ok == CombinationValid(c, round)
  {
    match c.kind
    case Run =>
      ok := ValidateRun(c.cards, round);
    case Set =>
      ok := ValidateSet(c.cards, round);
  }

  // ---------------------------------------------------------------------------
  // validateAllCombinations

  datatype LayDownResult = Valid | Invalid(error: string)

  const CardUsedTwice: string := "Carte utilisée plusieurs fois"
  const NotAllCardsUsed: string := "Toutes les cartes doivent être utilisées"

  function InvalidCombination(kind: CombinationType): string
  {
    "Combinaison invalide: " + TypeName(kind)
  }

  predicate Distinct<T(==)>(s: seq<T>)
  {
    forall i, j :: 0 <= i < j < |s| ==> s[i] != s[j]
  }

  function CardIds(cards: seq<Card>): (r: seq<CardId>)
    ensures |r| == |cards| && forall i :: 0 <= i < |cards| ==> r[i] == cards[i].id
  {
    seq(|cards|, i requires 0 <= i < |cards| => cards[i].id)
  }

  /** The ids of all combinations' cards, in order. */
  function AllIds(combos: seq<Combination>): seq<CardId>
  {
    if combos == [] then [] else AllIds(combos[..|combos| - 1]) + CardIds(combos[|combos| - 1].cards)
  }

  /** Index of the first combination validateCombination rejects, or |combos|. */
  function FirstInvalid(combos: seq<Combination>, round: int): (i: nat)
    requires ValidRound(round)
    ensures i <= |combos| && (i < |combos| ==> !CombinationValid(combos[i], round))
    ensures forall k :: 0 <= k < i ==> CombinationValid(combos[k], round)
    decreases |combos|
  {
    if combos == [] then 0
    else if !CombinationValid(combos[0], round) then 0
    else 1 + FirstInvalid(combos[1..], round)
  }

  /** Every hand card's id is among `ids`. */
  predicate HandCovered(hand: seq<Card>, ids: seq<CardId>)
  {
    forall c :: c in hand ==> c.id in ids
  }

  /** The verdict of validateAllCombinations: the three checks in order. */
  function LayDownVerdict(combos: seq<Combination>, hand: seq<Card>, round: int): LayDownResult
    requires ValidRound(round)
  {
    if !Distinct(AllIds(combos)) then Invalid(CardUsedTwice)
    else if !HandCovered(hand, AllIds(combos)) then Invalid(NotAllCardsUsed)
    else if FirstInvalid(combos, round) < |combos| then
      Invalid(InvalidCombination(combos[FirstInvalid(combos, round)].kind))
    else Valid
  }

  /** A lay-down is accepted iff no id repeats, every hand card is used and
      every combination is valid. */
  lemma LayDownValidIff(combos: seq<Combination>, hand: seq<Card>, round: int)
    requires ValidRound(round)
    ensures LayDownVerdict(combos, hand, round) == Valid <==>
      Distinct(AllIds(combos)) && HandCovered(hand, AllIds(combos)) &&
      (forall k :: 0 <= k < |combos| ==> CombinationValid(combos[k], round))
  {
    if forall k :: 0 <= k < |combos| ==> CombinationValid(combos[k], round) {
      assert FirstInvalid(combos, round) == |combos|;
    }
  }

  /** As written, cards outside the hand are not rejected: a valid set laid
      down from an empty hand passes. */
  lemma ForeignCardsAccepted(combo: Combination, round: int)
    requires ValidRound(round) && combo.kind == Set && ValidateSet(combo.cards, round)
    requires Distinct(CardIds(combo.cards))
    ensures LayDownVerdict([combo], [], round) == Valid
  {
    assert [combo][..0] == [];
    assert AllIds([combo]) == CardIds(combo.cards);
    assert FirstInvalid([combo], round) == 1;
  }

  lemma AllIdsStep(combos: seq<Combination>, i: nat)
    requires i < |combos|
    ensures AllIds(combos[..i + 1]) == AllIds(combos[..i]) + CardIds(combos[i].cards)
  {
    assert combos[..i + 1][..i] == combos[..i];
  }

  /** The ids of a prefix of the combinations begin the ids of all of them. */
  lemma {:induction false} AllIdsPrefix(combos: seq<Combination>, i: nat)
    requires i <= |combos|
    ensures |AllIds(combos[..i])| <= |AllIds(combos)|
    ensures AllIds(combos)[..|AllIds(combos[..i])|] == AllIds(combos[..i])
    decreases |combos|
  {
    if i < |combos| {
      var init := combos[..|combos| - 1];
      assert init[..i] == combos[..i];
      AllIdsPrefix(init, i);
    } else {
      assert combos[..i] == combos;
    }
  }

  /** A repeat in a prefix is a repeat in the whole. */
  lemma DistinctPrefix<T>(s: seq<T>, p: seq<T>)
    requires |p| <= |s| && s[..|p|] == p && Distinct(s)
    ensures Distinct(p)
  {
    forall i, j | 0 <= i < j < |p| ensures p[i] != p[j] {
      assert p[i] == s[i] && p[j] == s[j];
    }
  }

  /** The first loop of validateAllCombinations: every card id of every
      combination goes into `usedCards`, stopping at the first id already in it. */
  method CollectUsedIds(combos: seq<Combination>) returns (usedCards: set<CardId>, repeated: bool)
    ensures repeated <==> !Distinct(AllIds(combos))
    ensures !repeated ==> forall x :: x in usedCards <==> x in AllIds(combos)
  {
    usedCards := {};
    ghost var seen: seq<CardId> := [];
    for ci := 0 to |combos|
      invariant seen == AllIds(combos[..ci]) && Distinct(seen)
      invariant forall x :: x in usedCards <==> x in seen
    {
      var cards := combos[ci].cards;
      AllIdsStep(combos, ci);
      for k := 0 to |cards|
        invariant seen == AllIds(combos[..ci]) + CardIds(cards[..k]) && Distinct(seen)
        invariant forall x :: x in usedCards <==> x in seen
      {
        assert CardIds(cards[..k + 1]) == CardIds(cards[..k]) + [cards[k].id];
        if cards[k].id in usedCards {
          RepeatedId(combos, ci, k);
          return usedCards, true;
        }
        usedCards := usedCards + {cards[k].id};
        seen := seen + [cards[k].id];
      }
      assert cards[..|cards|] == cards;
    }
    assert combos[..|combos|] == combos;
    return usedCards, false;
  }

  /** validateAllCombinations: ids collected into a growing set, then the hand
      checked against it, then every combination validated. */
  method ValidateAllCombinations(combos: seq<Combination>, hand: seq<Card>, round: int) returns (r: LayDownResult)
    requires ValidRound(round)
    ensures r == LayDownVerdict(combos, hand, round)
  {
    var usedCards, repeated := CollectUsedIds(combos);
    if repeated {
      return Invalid(CardUsedTwice);
    }
    for i := 0 to |hand|
      invariant forall k :: 0 <= k < i ==> hand[k].id in usedCards
    {
      if hand[i].id !in usedCards {
        assert hand[i] in hand;
        return Invalid(NotAllCardsUsed);
      }
    }
    assert HandCovered(hand, AllIds(combos));
    for ci := 0 to |combos|
      invariant forall k :: 0 <= k < ci ==> CombinationValid(combos[k], round)
    {
      var ok := ValidateCombination(combos[ci], round);
      if !ok {
        return Invalid(InvalidCombination(combos[ci].kind));
      }
    }
    assert FirstInvalid(combos, round) == |combos|;
    return Valid;
  }

  /** An id met again while collecting means the ids of all combinations repeat. */
  lemma RepeatedId(combos: seq<Combination>, ci: nat, k: nat)
    requires ci < |combos| && k < |combos[ci].cards|
    requires combos[ci].cards[k].id in AllIds(combos[..ci]) + CardIds(combos[ci].cards[..k])
    ensures !Distinct(AllIds(combos))
  {
    var cards := combos[ci].cards;
    var seen := AllIds(combos[..ci]) + CardIds(cards[..k]);
    var p := seen + [cards[k].id];
    assert CardIds(cards[..k + 1]) == CardIds(cards[..k]) + [cards[k].id];
    assert !Distinct(p) by {
      var j :| 0 <= j < |seen| && seen[j] == cards[k].id;
      assert p[j] == p[|seen|];
    }
    PrefixOfStep(combos, ci, k + 1);
    if Distinct(AllIds(combos)) {
      DistinctPrefix(AllIds(combos), p);
    }
  }

  /** The ids seen part-way through combination ci begin the ids of all. */
  lemma PrefixOfStep(combos: seq<Combination>, ci: nat, k: nat)
    requires ci < |combos| && k <= |combos[ci].cards|
    ensures var p := AllIds(combos[..ci]) + CardIds(combos[ci].cards[..k]);
      |p| <= |AllIds(combos)| && AllIds(combos)[..|p|] == p
  {
    var cards := combos[ci].cards;
    var p := AllIds(combos[..ci]) + CardIds(cards[..k]);
    var q := AllIds(combos[..ci + 1]);
    AllIdsStep(combos, ci);
    AllIdsPrefix(combos, ci + 1);
    assert CardIds(cards)[..k] == CardIds(cards[..k]);
    assert q[..|p|] == p;
  }
}

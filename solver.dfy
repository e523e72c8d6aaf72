/** tryFormCombinations: the greedy solver that groups a hand into sets first
    and runs second, drawing on one shared pool of wildcards. */
module Solver {
  import opened GameTypes
  import opened GameRules
  import opened Validation

  // ---------------------------------------------------------------------------
  // Ids and the used-card set.

  /** The ids of a sequence of cards, as a set. */
  function IdSet(cards: seq<Card>): (r: set<CardId>)
    ensures forall x :: x in r <==> exists c :: c in cards && c.id == x
  {
    set c | c in cards :: c.id
  }

  /** The cards whose id is not in `used`, order kept
      (`filter((c) => !usedCards.has(c.id))`). */
  function Unused(cards: seq<Card>, used: set<CardId>): seq<Card>
  {
    if cards == [] then []
    else (if cards[0].id in used then [] else [cards[0]]) + Unused(cards[1..], used)
  }

  lemma {:induction false} UnusedMembers(cards: seq<Card>, used: set<CardId>)
    ensures forall c :: c in Unused(cards, used) <==> c in cards && c.id !in used
    decreases |cards|
  {
    if cards != [] {
      UnusedMembers(cards[1..], used);
      assert cards == [cards[0]] + cards[1..];
    }
  }

  /** Prepending a card keeps ids distinct iff its id is new. */
  lemma DistinctCons(c: Card, rest: seq<Card>)
    ensures DistinctIds([c] + rest) <==> DistinctIds(rest) && forall d :: d in rest ==> d.id != c.id
  {
    var s := [c] + rest;
    if DistinctIds(rest) && forall d :: d in rest ==> d.id != c.id {
      forall i, j | 0 <= i < j < |s| ensures s[i].id != s[j].id {
        assert s[j] == rest[j - 1];
        if i > 0 {
          assert s[i] == rest[i - 1];
        }
      }
    }
    if DistinctIds(s) {
      forall i, j | 0 <= i < j < |rest| ensures rest[i].id != rest[j].id {
        assert s[i + 1] == rest[i] && s[j + 1] == rest[j];
      }
      forall d | d in rest ensures d.id != c.id {
        var j :| 0 <= j < |rest| && rest[j] == d;
        assert s[0] == c && s[j + 1] == d;
      }
    }
  }

  lemma {:induction false} UnusedDistinct(cards: seq<Card>, used: set<CardId>)
    requires DistinctIds(cards)
    ensures DistinctIds(Unused(cards, used))
    decreases |cards|
  {
    if cards != [] {
      assert cards == [cards[0]] + cards[1..];
      DistinctCons(cards[0], cards[1..]);
      UnusedDistinct(cards[1..], used);
      UnusedMembers(cards[1..], used);
      DistinctCons(cards[0], Unused(cards[1..], used));
    }
  }

  lemma {:induction false} WildsDistinct(cards: seq<Card>, round: int)
    requires ValidRound(round) && DistinctIds(cards)
    ensures DistinctIds(Wilds(cards, round)) && DistinctIds(Normals(cards, round))
    decreases |cards|
  {
    if cards != [] {
      assert cards == [cards[0]] + cards[1..];
      DistinctCons(cards[0], cards[1..]);
      WildsDistinct(cards[1..], round);
      FilterMembers(cards[1..], round);
      DistinctCons(cards[0], Wilds(cards[1..], round));
      DistinctCons(cards[0], Normals(cards[1..], round));
    }
  }

  /** At most `n`, and not below 0: `slice(0, Math.max(0, count))` on a list of n. */
  function Clamp(count: int, n: nat): (r: nat)
    ensures r <= n && (0 <= count <= n ==> r == count)
    ensures count <= 0 ==> r == 0
    ensures count >= n ==> r == n
  {
    if count <= 0 then 0 else if count <= n then count else n
  }

  /** takeWildcards: the first `count` pool cards not used yet, or all of them
      when fewer remain. The caller adds their ids to the used set. */
  function TakeWildcards(pool: seq<Card>, used: set<CardId>, count: int): seq<Card>
  {
    var avail := Unused(pool, used);
    avail[..Clamp(count, |avail|)]
  }

  /** The wildcards taken come from the pool, carry unused ids, and number
      exactly `count` when that many are left. */
  lemma TakeWildcardsFacts(pool: seq<Card>, used: set<CardId>, count: int)
    ensures var t := TakeWildcards(pool, used, count);
      (forall c :: c in t ==> c in pool && c.id !in used) &&
      |t| == Clamp(count, |Unused(pool, used)|) &&
      (DistinctIds(pool) ==> DistinctIds(t))
  {
    var avail := Unused(pool, used);
    UnusedMembers(pool, used);
    var t := TakeWildcards(pool, used, count);
    forall c | c in t ensures c in avail {
      var j :| 0 <= j < |t| && t[j] == c;
      assert avail[j] == c;
    }
    if DistinctIds(pool) {
      UnusedDistinct(pool, used);
      forall i, j | 0 <= i < j < |t| ensures t[i].id != t[j].id {
        assert t[i] == avail[i] && t[j] == avail[j];
      }
    }
  }

  // ---------------------------------------------------------------------------
  // Grouping in first-occurrence order (a JavaScript Map filled card by card).

  function ValueOf(c: Card): int { c.value }
  function SuitOf(c: Card): Suit { c.suit }

  /** The keys of `cards` in order of first occurrence. */
  function Keys<K(==)>(cards: seq<Card>, key: Card -> K): seq<K>
  {
    if cards == [] then []
    else
      var ks := Keys(cards[..|cards| - 1], key);
      if key(cards[|cards| - 1]) in ks then ks else ks + [key(cards[|cards| - 1])]
  }

  /** The cards with key k, order kept. */
  function Select<K(==)>(cards: seq<Card>, key: Card -> K, k: K): seq<Card>
  {
    if cards == [] then []
    else Select(cards[..|cards| - 1], key, k) + (if key(cards[|cards| - 1]) == k then [cards[|cards| - 1]] else [])
  }

  /** Each key is listed once, and exactly the keys of the cards are listed. */
  lemma {:induction false} KeysFacts<K>(cards: seq<Card>, key: Card -> K)
    ensures Distinct(Keys(cards, key))
    ensures forall k :: k in Keys(cards, key) <==> exists c :: c in cards && key(c) == k
    decreases |cards|
  {
    if cards != [] {
      var init := cards[..|cards| - 1];
      KeysFacts(init, key);
      assert cards == init + [cards[|cards| - 1]];
      forall k ensures k in Keys(cards, key) <==> exists c :: c in cards && key(c) == k {
        if k in Keys(cards, key) && k != key(cards[|cards| - 1]) {
          var c :| c in init && key(c) == k;
          assert c in cards;
        }
        if exists c :: c in cards && key(c) == k {
          var c :| c in cards && key(c) == k;
          if c != cards[|cards| - 1] {
            assert c in init;
          }
        }
      }
    }
  }

  /** A group holds exactly the cards with its key, in their order, and no two
      of them share an id when no two cards do. */
  lemma {:induction false} SelectFacts<K>(cards: seq<Card>, key: Card -> K, k: K)
    ensures forall c :: c in Select(cards, key, k) <==> c in cards && key(c) == k
    ensures k !in Keys(cards, key) ==> Select(cards, key, k) == []
    ensures DistinctIds(cards) ==> DistinctIds(Select(cards, key, k))
    decreases |cards|
  {
    if cards != [] {
      var init := cards[..|cards| - 1];
      var last := cards[|cards| - 1];
      SelectFacts(init, key, k);
      assert cards == init + [last];
      if DistinctIds(cards) {
        assert DistinctIds(init) by {
          forall i, j | 0 <= i < j < |init| ensures init[i].id != init[j].id {
            assert init[i] == cards[i] && init[j] == cards[j];
          }
        }
        var s := Select(cards, key, k);
        var p := Select(init, key, k);
        if key(last) == k {
          forall i, j | 0 <= i < j < |s| ensures s[i].id != s[j].id {
            if j < |p| {
              assert s[i] == p[i] && s[j] == p[j];
            } else {
              assert s[i] == p[i] && s[i] in init;
              var m :| 0 <= m < |init| && init[m] == s[i];
              assert cards[m] == s[i] && cards[|cards| - 1] == s[j];
            }
          }
        }
      }
    }
  }

  /** The Map-building loop: `groups.get(key) ?? set(key, [])`, then push. */
  method GroupBy<K(==)>(cards: seq<Card>, key: Card -> K) returns (keys: seq<K>, groups: map<K, seq<Card>>)
    ensures keys == Keys(cards, key)
    ensures forall k :: k in groups <==> k in keys
    ensures forall k :: k in groups ==> groups[k] == Select(cards, key, k)
  {
    keys := [];
    groups := map[];
    for i := 0 to |cards|
      invariant keys == Keys(cards[..i], key)
      invariant forall k :: k in groups <==> k in keys
      invariant forall k :: k in groups ==> groups[k] == Select(cards[..i], key, k)
    {
      var c := cards[i];
      assert cards[..i + 1][..i] == cards[..i] && cards[..i + 1][i] == c;
      if key(c) !in groups {
        SelectFacts(cards[..i], key, key(c));
        keys := keys + [key(c)];
        groups := groups[key(c) := []];
      }
      groups := groups[key(c) := groups[key(c)] + [c]];
    }
    assert cards[..|cards|] == cards;
  }

  // ---------------------------------------------------------------------------
  // The in-place sort `(a, b) => a.value - b.value`, stable as the language
  // requires.

  function InsertByValue(x: Card, s: seq<Card>): seq<Card>
    decreases |s|
  {
    if s == [] then [x]
    else if x.value <= s[0].value then [x] + s
    else [s[0]] + InsertByValue(x, s[1..])
  }

  function SortByValue(s: seq<Card>): seq<Card>
    decreases |s|
  {
    if s == [] then [] else InsertByValue(s[0], SortByValue(s[1..]))
  }

  /** Insertion by value follows the insertion of the values. */
  lemma {:induction false} InsertByValueValues(x: Card, s: seq<Card>)
    ensures Values(InsertByValue(x, s)) == Insert(x.value, Values(s))
    decreases |s|
  {
    if s != [] && x.value > s[0].value {
      InsertByValueValues(x, s[1..]);
      assert Values(s)[1..] == Values(s[1..]);
      assert Values([s[0]] + InsertByValue(x, s[1..])) == [s[0].value] + Values(InsertByValue(x, s[1..]));
    }
  }

  /** Insertion by value adds exactly x. */
  lemma {:induction false} InsertByValueMembers(x: Card, s: seq<Card>)
    ensures forall c :: c in InsertByValue(x, s) <==> c == x || c in s
    decreases |s|
  {
    if s != [] {
      assert s == [s[0]] + s[1..];
      if x.value > s[0].value {
        InsertByValueMembers(x, s[1..]);
      }
    }
  }

  /** Inserting a card whose id is new keeps the ids distinct. */
  lemma {:induction false} InsertByValueDistinct(x: Card, s: seq<Card>)
    requires DistinctIds(s) && forall d :: d in s ==> d.id != x.id
    ensures DistinctIds(InsertByValue(x, s))
    decreases |s|
  {
    if s != [] {
      assert s == [s[0]] + s[1..];
      DistinctCons(s[0], s[1..]);
      if x.value <= s[0].value {
        DistinctCons(x, s);
      } else {
        InsertByValueDistinct(x, s[1..]);
        InsertByValueMembers(x, s[1..]);
        DistinctCons(s[0], InsertByValue(x, s[1..]));
      }
    } else {
      DistinctCons(x, []);
    }
  }

  /** Values, members and distinct ids of an insertion by value. */
  lemma InsertByValueFacts(x: Card, s: seq<Card>)
    ensures Values(InsertByValue(x, s)) == Insert(x.value, Values(s))
    ensures forall c :: c in InsertByValue(x, s) <==> c == x || c in s
    ensures DistinctIds(s) && (forall d :: d in s ==> d.id != x.id) ==> DistinctIds(InsertByValue(x, s))
  {
    InsertByValueValues(x, s);
    InsertByValueMembers(x, s);
    if DistinctIds(s) && (forall d :: d in s ==> d.id != x.id) {
      InsertByValueDistinct(x, s);
    }
  }

  /** A group of a concatenation is the groups of the parts, concatenated. */
  lemma {:induction false} SelectAppend<K>(a: seq<Card>, b: seq<Card>, key: Card -> K, k: K)
    ensures Select(a + b, key, k) == Select(a, key, k) + Select(b, key, k)
    decreases |b|
  {
    if b == [] {
      assert a + b == a;
    } else {
      var init := b[..|b| - 1];
      SelectAppend(a, init, key, k);
      assert (a + b)[..|a + b| - 1] == a + init;
    }
  }

  /** Inserting x puts it ahead of the cards of its own value. */
  lemma {:induction false} InsertByValueStable(x: Card, s: seq<Card>, v: int)
    ensures Select(InsertByValue(x, s), ValueOf, v) == Select([x], ValueOf, v) + Select(s, ValueOf, v)
    decreases |s|
  {
    if s == [] {
      assert [x] + [] == [x];
    } else if x.value <= s[0].value {
      SelectAppend([x], s, ValueOf, v);
    } else {
      var head, tail := [s[0]], s[1..];
      var t := InsertByValue(x, tail);
      assert InsertByValue(x, s) == head + t;
      assert s == head + tail;
      InsertByValueStable(x, tail, v);
      SelectAppend(head, t, ValueOf, v);
      SelectAppend(head, tail, ValueOf, v);
    }
  }

  /** Inserting x adds exactly x. */
  lemma {:induction false} InsertByValueMultiset(x: Card, s: seq<Card>)
    ensures multiset(InsertByValue(x, s)) == multiset(s) + multiset{x}
    decreases |s|
  {
    if s != [] && x.value > s[0].value {
      InsertByValueMultiset(x, s[1..]);
      assert s == [s[0]] + s[1..];
    }
  }

  /** The sort is stable: cards of one value keep their order. */
  lemma {:induction false} SortByValueStable(s: seq<Card>, v: int)
    ensures Select(SortByValue(s), ValueOf, v) == Select(s, ValueOf, v)
    decreases |s|
  {
    if s != [] {
      SortByValueStable(s[1..], v);
      InsertByValueStable(s[0], SortByValue(s[1..]), v);
      SelectAppend([s[0]], s[1..], ValueOf, v);
      assert s == [s[0]] + s[1..];
    }
  }

  /** The sort returns a permutation of its input. */
  lemma {:induction false} SortByValuePermutes(s: seq<Card>)
    ensures multiset(SortByValue(s)) == multiset(s)
    decreases |s|
  {
    if s != [] {
      SortByValuePermutes(s[1..]);
      InsertByValueMultiset(s[0], SortByValue(s[1..]));
      assert s == [s[0]] + s[1..];
    }
  }

  /** The sort returns a permutation of the cards, ascending by value, with
      cards of equal value in their original order, and with distinct ids
      when the input has them. */
  lemma SortByValueFacts(s: seq<Card>)
    ensures Values(SortByValue(s)) == Sort(Values(s))
    ensures Ascending(Values(SortByValue(s))) && |SortByValue(s)| == |s|
    ensures forall c :: c in SortByValue(s) <==> c in s
    ensures DistinctIds(s) ==> DistinctIds(SortByValue(s))
    ensures multiset(SortByValue(s)) == multiset(s)
    ensures forall v :: Select(SortByValue(s), ValueOf, v) == Select(s, ValueOf, v)
  {
    SortByValueOrders(s);
    SortByValuePermutes(s);
    forall v ensures Select(SortByValue(s), ValueOf, v) == Select(s, ValueOf, v) {
      SortByValueStable(s, v);
    }
  }

  /** The values of the sort are the sorted values; members and distinct ids
      are kept. */
  lemma {:induction false} SortByValueOrders(s: seq<Card>)
    ensures Values(SortByValue(s)) == Sort(Values(s))
    ensures Ascending(Values(SortByValue(s))) && |SortByValue(s)| == |s|
    ensures forall c :: c in SortByValue(s) <==> c in s
    ensures DistinctIds(s) ==> DistinctIds(SortByValue(s))
    decreases |s|
  {
    if s != [] {
      assert s == [s[0]] + s[1..];
      SortByValueOrders(s[1..]);
      InsertByValueFacts(s[0], SortByValue(s[1..]));
      DistinctCons(s[0], s[1..]);
      assert Values(s)[1..] == Values(s[1..]);
    }
    SortSorts(Values(s));
  }

  // ---------------------------------------------------------------------------
  // What the solver emits.

  /** Natural values strictly increasing along the sequence. */
  predicate Strict(cards: seq<Card>)
  {
    forall k :: 0 < k < |cards| ==> cards[k - 1].value < cards[k].value
  }

  /** max(0, MIN_COMBINATION_SIZE - n): how many wildcards a set of n natural
      cards is padded with. */
  function SetPadding(n: nat): nat
  {
    if n >= MinCombinationSize then 0 else MinCombinationSize - n
  }

  /** A SET the solver builds: every natural card of the hand with one value,
      followed by exactly max(0, 3 - that many) wildcards. */
  predicate SetShape(c: Combination, hand: seq<Card>, round: int)
    requires ValidRound(round)
  {
    var n := Normals(c.cards, round);
    c.kind == Set && n != [] &&
    n == Normals(Select(hand, ValueOf, n[0].value), round) &&
    c.cards == n + Wilds(c.cards, round) &&
    |Wilds(c.cards, round)| == SetPadding(|n|)
  }

  /** A RUN the solver builds: at least 3 cards whose natural cards share a
      suit and strictly increase, with wildcards enough to fill the gaps. */
  predicate RunShape(c: Combination, round: int)
    requires ValidRound(round)
  {
    var n := Normals(c.cards, round);
    c.kind == Run && |c.cards| >= MinCombinationSize && n != [] &&
    SameSuit(n) && Strict(n) &&
    n[|n| - 1].value - n[0].value - (|n| - 1) <= |Wilds(c.cards, round)|
  }

  lemma SetShapeValid(c: Combination, hand: seq<Card>, round: int)
    requires ValidRound(round) && SetShape(c, hand, round)
    ensures CombinationValid(c, round)
  {
    var n := Normals(c.cards, round);
    var g := Select(hand, ValueOf, n[0].value);
    FiltersPartition(c.cards, round);
    FilterMembers(g, round);
    SelectFacts(hand, ValueOf, n[0].value);
    assert forall x :: x in n ==> x.value == n[0].value;
  }

  /** Strict increase from one step to the next is strict increase overall. */
  lemma {:induction false} StrictAscending(cards: seq<Card>)
    requires Strict(cards)
    ensures Ascending(Values(cards))
    ensures forall i, j :: 0 <= i < j < |cards| ==> cards[i].value < cards[j].value
    decreases |cards|
  {
    if |cards| > 1 {
      var init := cards[..|cards| - 1];
      StrictAscending(init);
      forall i, j | 0 <= i < j < |cards| ensures cards[i].value < cards[j].value {
        assert init[i] == cards[i];
        if j < |cards| - 1 {
          assert init[j] == cards[j];
        } else if i < j - 1 {
          assert init[j - 1] == cards[j - 1];
        }
      }
    }
  }

  lemma RunShapeValid(c: Combination, round: int)
    requires ValidRound(round) && RunShape(c, round)
    ensures CombinationValid(c, round)
  {
    var n := Normals(c.cards, round);
    StrictAscending(n);
    SortedValues(n, Values(n));
    StrictRunValid(c.cards, round);
  }

  // ---------------------------------------------------------------------------
  // Bookkeeping facts shared by both passes.

  /** In a hand with distinct ids, two different cards have different ids. */
  lemma IdsApart(hand: seq<Card>, a: Card, b: Card)
    requires DistinctIds(hand) && a in hand && b in hand && a != b
    ensures a.id != b.id
  {
    var i :| 0 <= i < |hand| && hand[i] == a;
    var j :| 0 <= j < |hand| && hand[j] == b;
    assert i != j;
  }

  /** Marking ids that no pool card carries leaves the available pool as it was. */
  lemma {:induction false} UnusedIgnores(pool: seq<Card>, used: set<CardId>, extra: set<CardId>)
    requires forall c :: c in pool ==> c.id !in extra
    ensures Unused(pool, used + extra) == Unused(pool, used)
    decreases |pool|
  {
    if pool != [] {
      assert pool[0] in pool;
      assert forall c :: c in pool[1..] ==> c in pool;
      UnusedIgnores(pool[1..], used, extra);
    }
  }

  lemma AllIdsAppend(combos: seq<Combination>, c: Combination)
    ensures AllIds(combos + [c]) == AllIds(combos) + CardIds(c.cards)
  {
    assert (combos + [c])[..|combos|] == combos;
  }

  lemma CardIdsAppend(a: seq<Card>, b: seq<Card>)
    ensures CardIds(a + b) == CardIds(a) + CardIds(b)
  {
  }

  lemma DistinctAppend<T>(a: seq<T>, b: seq<T>)
    requires Distinct(a) && Distinct(b) && forall x :: x in b ==> x !in a
    ensures Distinct(a + b)
  {
    var s := a + b;
    forall i, j | 0 <= i < j < |s| ensures s[i] != s[j] {
      if j >= |a| {
        assert s[j] == b[j - |a|] && s[j] in b;
        if i >= |a| {
          assert s[i] == b[i - |a|];
        } else {
          assert s[i] == a[i] && s[i] in a;
        }
      }
    }
  }

  /** The ids of cards with distinct ids are distinct, and conversely. */
  lemma DistinctIdsMeaning(cards: seq<Card>)
    ensures DistinctIds(cards) <==> Distinct(CardIds(cards))
    ensures forall x :: x in CardIds(cards) <==> exists c :: c in cards && c.id == x
  {
    var ids := CardIds(cards);
    forall x | x in ids ensures exists c :: c in cards && c.id == x {
      var i :| 0 <= i < |ids| && ids[i] == x;
      assert cards[i] in cards;
    }
    forall c | c in cards ensures c.id in ids {
      var i :| 0 <= i < |cards| && cards[i] == c;
      assert ids[i] == c.id;
    }
  }

  /** Every card of every combination is a hand card. */
  predicate FromHand(combos: seq<Combination>, hand: seq<Card>)
  {
    forall k, c :: 0 <= k < |combos| && c in combos[k].cards ==> c in hand
  }

  lemma FromHandAppend(combos: seq<Combination>, combo: Combination, hand: seq<Card>)
    requires FromHand(combos, hand) && forall c :: c in combo.cards ==> c in hand
    ensures FromHand(combos + [combo], hand)
  {
    var s := combos + [combo];
    forall k, c | 0 <= k < |s| && c in s[k].cards ensures c in hand {
      if k < |combos| {
        assert s[k] == combos[k];
      }
    }
  }

  // ---------------------------------------------------------------------------
  // The solver as functions: each step of the two passes, on the state the
  // source's closures share.

  /** The solver's state: the combinations pushed so far, the ids in
      `usedCards`, and pass 2's `current` buffer. */
  datatype Progress = Progress(combos: seq<Combination>, used: set<CardId>, current: seq<Card>)

  /** Pass 1 on the value group of v: when none of its natural cards is used,
      there is at least one, and the unused wildcards bring them to 3, the
      natural cards, then max(0, 3 - n) wildcards, become a SET and are used. */
  function SetFor(hand: seq<Card>, round: int, pool: seq<Card>, p: Progress, v: int): Progress
    requires ValidRound(round)
  {
    var normals := Normals(Select(hand, ValueOf, v), round);
    if exists c :: c in normals && c.id in p.used then p
    else if |normals| >= 1 && |normals| + |Unused(pool, p.used)| >= MinCombinationSize then
      var jokers := TakeWildcards(pool, p.used + IdSet(normals), SetPadding(|normals|));
      p.(combos := p.combos + [Combination(Set, normals + jokers)], used := p.used + IdSet(normals) + IdSet(jokers))
    else p
  }

  /** Pass 1 over `values`, in order, from the empty state. */
  function SetsPass(hand: seq<Card>, round: int, pool: seq<Card>, values: seq<int>): Progress
    requires ValidRound(round)
    decreases |values|
  {
    if values == [] then Progress([], {}, [])
    else SetFor(hand, round, pool, SetsPass(hand, round, pool, values[..|values| - 1]), values[|values| - 1])
  }

  /** finalizeCurrent: a buffer of 3 or more becomes a RUN; a shorter one is
      padded up to 3 with wildcards when enough are unused, and dropped
      otherwise; the buffer is emptied either way. */
  function Finalize(pool: seq<Card>, p: Progress): Progress
  {
    if p.current == [] then p
    else if |p.current| < MinCombinationSize && |p.current| + |Unused(pool, p.used)| >= MinCombinationSize then
      var jokers := TakeWildcards(pool, p.used, MinCombinationSize - |p.current|);
      Progress(p.combos + [Combination(Run, p.current + jokers)], p.used + IdSet(jokers) + IdSet(p.current), [])
    else if |p.current| >= MinCombinationSize then
      Progress(p.combos + [Combination(Run, p.current)], p.used + IdSet(p.current), [])
    else p.(current := [])
  }

  /** One card x of the walk: start or extend the buffer when x follows on,
      fill a gap the unused wildcards can fill, and otherwise finalize and
      start again from x. */
  function Walk(pool: seq<Card>, p: Progress, x: Card): Progress
  {
    if p.current == [] then p.(current := [x])
    else
      var gap := x.value - p.current[|p.current| - 1].value - 1;
      if gap == 0 then p.(current := p.current + [x])
      else if 0 < gap <= |Unused(pool, p.used)| then
        var jokers := TakeWildcards(pool, p.used, gap);
        p.(used := p.used + IdSet(jokers), current := p.current + jokers + [x])
      else Finalize(pool, p).(current := [x])
  }

  /** A card that starts the buffer or follows on is pushed. */
  lemma WalkOnto(pool: seq<Card>, p: Progress, x: Card)
    requires p.current == [] || x.value == p.current[|p.current| - 1].value + 1
    ensures Walk(pool, p, x) == p.(current := p.current + [x])
  {
    assert [] + [x] == [x];
  }

  /** A gap the unused wildcards fill is filled. */
  lemma WalkFills(pool: seq<Card>, p: Progress, x: Card, gap: int)
    requires p.current != [] && gap == x.value - p.current[|p.current| - 1].value - 1
    requires 0 < gap <= |Unused(pool, p.used)|
    ensures var jokers := TakeWildcards(pool, p.used, gap);
      Walk(pool, p, x) == Progress(p.combos, p.used + IdSet(jokers), p.current + jokers + [x])
  {
  }

  /** Any other card finalizes the buffer and starts a new one. */
  lemma WalkBreaks(pool: seq<Card>, p: Progress, x: Card, gap: int)
    requires p.current != [] && gap == x.value - p.current[|p.current| - 1].value - 1
    requires gap != 0 && !(0 < gap <= |Unused(pool, p.used)|)
    ensures Walk(pool, p, x) == Finalize(pool, p).(current := [x])
  {
  }

  /** The walk over `cards`, in order. */
  function WalkAll(pool: seq<Card>, p: Progress, cards: seq<Card>): Progress
    decreases |cards|
  {
    if cards == [] then p else Walk(pool, WalkAll(pool, p, cards[..|cards| - 1]), cards[|cards| - 1])
  }

  /** Walking one more card of a sequence. */
  lemma WalkAllStep(pool: seq<Card>, p: Progress, cards: seq<Card>, i: nat)
    requires i < |cards|
    ensures WalkAll(pool, p, cards[..i + 1]) == Walk(pool, WalkAll(pool, p, cards[..i]), cards[i])
  {
    assert cards[..i + 1][..i] == cards[..i];
  }

  /** Pass 2 for one suit: the walk over its sorted cards, then a last
      finalizeCurrent. */
  function SuitPass(pool: seq<Card>, p: Progress, sorted: seq<Card>): Progress
  {
    Finalize(pool, WalkAll(pool, p, sorted))
  }

  /** Pass 2 over `suits`, in order, each suit's cards sorted by value. */
  function RunsPass(pool: seq<Card>, runCards: seq<Card>, p: Progress, suits: seq<Suit>): Progress
    decreases |suits|
  {
    if suits == [] then p
    else
      var p' := RunsPass(pool, runCards, p, suits[..|suits| - 1]);
      SuitPass(pool, p', SortByValue(Select(runCards, SuitOf, suits[|suits| - 1])))
  }

  /** Pass 2 over one more suit. */
  lemma RunsPassStep(pool: seq<Card>, runCards: seq<Card>, p: Progress, suits: seq<Suit>, i: nat)
    requires i < |suits|
    ensures RunsPass(pool, runCards, p, suits[..i + 1]) ==
      SuitPass(pool, RunsPass(pool, runCards, p, suits[..i]), SortByValue(Select(runCards, SuitOf, suits[i])))
  {
    assert suits[..i + 1][..i] == suits[..i];
  }

  /** tryFormCombinations as a function: pass 1 over the values in order of
      first occurrence, then pass 2 over the suits of the natural cards left. */
  function Solve(hand: seq<Card>, round: int): seq<Combination>
    requires ValidRound(round)
  {
    var pool := Wilds(hand, round);
    var sets := SetsPass(hand, round, pool, Keys(hand, ValueOf));
    var runCards := Normals(Unused(hand, sets.used), round);
    RunsPass(pool, runCards, sets, Keys(runCards, SuitOf)).combos
  }

  // ---------------------------------------------------------------------------
  // Pass 1: sets.

  /** One SET: the value group's natural cards, then the wildcards taken to
      pad it; all are hand cards, the naturals first. */
  lemma SetCards(hand: seq<Card>, round: int, used: set<CardId>, v: int, normals: seq<Card>, jokers: seq<Card>)
    requires ValidRound(round)
    requires normals == Normals(Select(hand, ValueOf, v), round)
    requires jokers == TakeWildcards(Wilds(hand, round), used, SetPadding(|normals|))
    ensures forall c :: c in normals + jokers ==> c in hand
    ensures forall c :: c in normals ==> !IsWildCard(c, round) && c.value == v
    ensures forall c :: c in jokers ==> IsWildCard(c, round) && c.id !in used
    ensures Normals(normals + jokers, round) == normals && Wilds(normals + jokers, round) == jokers
  {
    var g := Select(hand, ValueOf, v);
    SelectFacts(hand, ValueOf, v);
    FilterMembers(g, round);
    FilterMembers(hand, round);
    TakeWildcardsFacts(Wilds(hand, round), used, SetPadding(|normals|));
    NormalsOfNaturals(normals, round);
    NormalsOfWilds(jokers, round);
    FiltersAppend(normals, jokers, round);
  }

  /** With distinct ids in the hand the padding is complete and the set has
      the solver's shape. */
  lemma NewSetShape(hand: seq<Card>, round: int, used: set<CardId>, v: int, normals: seq<Card>, jokers: seq<Card>)
    requires ValidRound(round) && DistinctIds(hand)
    requires normals == Normals(Select(hand, ValueOf, v), round) && |normals| >= 1
    requires |normals| + |Unused(Wilds(hand, round), used)| >= MinCombinationSize
    requires jokers == TakeWildcards(Wilds(hand, round), used + IdSet(normals), SetPadding(|normals|))
    ensures SetShape(Combination(Set, normals + jokers), hand, round)
  {
    var pool := Wilds(hand, round);
    SetCards(hand, round, used + IdSet(normals), v, normals, jokers);
    FilterMembers(hand, round);
    forall c | c in pool ensures c.id !in IdSet(normals) {
      forall d | d in normals ensures d.id != c.id {
        IdsApart(hand, c, d);
      }
    }
    UnusedIgnores(pool, used, IdSet(normals));
    TakeWildcardsFacts(pool, used + IdSet(normals), SetPadding(|normals|));
    assert normals[0] in normals;
  }

  /** With distinct ids in the hand, the new set's ids are distinct and new. */
  lemma NewSetIds(hand: seq<Card>, round: int, used: set<CardId>, v: int, normals: seq<Card>, jokers: seq<Card>)
    requires ValidRound(round) && DistinctIds(hand)
    requires normals == Normals(Select(hand, ValueOf, v), round)
    requires forall c :: c in normals ==> c.id !in used
    requires jokers == TakeWildcards(Wilds(hand, round), used + IdSet(normals), SetPadding(|normals|))
    ensures DistinctIds(normals + jokers)
    ensures forall c :: c in normals + jokers ==> c.id !in used
  {
    var cards := normals + jokers;
    SetCards(hand, round, used + IdSet(normals), v, normals, jokers);
    SelectFacts(hand, ValueOf, v);
    WildsDistinct(Select(hand, ValueOf, v), round);
    WildsDistinct(hand, round);
    TakeWildcardsFacts(Wilds(hand, round), used + IdSet(normals), SetPadding(|normals|));
    forall i, j | 0 <= i < j < |cards| ensures cards[i].id != cards[j].id {
      if j < |normals| {
        assert cards[i] == normals[i] && cards[j] == normals[j];
      } else if i >= |normals| {
        assert cards[i] == jokers[i - |normals|] && cards[j] == jokers[j - |normals|];
      } else {
        assert cards[i] == normals[i] && cards[j] == jokers[j - |normals|];
        assert cards[j] in jokers;
      }
    }
  }

  /** Appending a combination whose ids are distinct and unused keeps all ids
      distinct, and all of them marked used once its ids are added. */
  lemma ExtendIds(combos: seq<Combination>, combo: Combination, used: set<CardId>)
    requires Distinct(AllIds(combos)) && forall x :: x in AllIds(combos) ==> x in used
    requires DistinctIds(combo.cards) && forall c :: c in combo.cards ==> c.id !in used
    ensures Distinct(AllIds(combos + [combo]))
    ensures forall x :: x in AllIds(combos + [combo]) <==> x in AllIds(combos) || x in IdSet(combo.cards)
  {
    AllIdsAppend(combos, combo);
    DistinctIdsMeaning(combo.cards);
    DistinctAppend(AllIds(combos), CardIds(combo.cards));
  }

  /** What pass 1 keeps true: only SETs so far, all of hand cards, `used`
      holding exactly their ids, and with distinct hand ids the solver's set
      shape and no id twice. */
  ghost predicate SetsSoFar(hand: seq<Card>, round: int, combos: seq<Combination>, used: set<CardId>)
    requires ValidRound(round)
  {
    (forall k :: 0 <= k < |combos| ==> combos[k].kind == Set) &&
    FromHand(combos, hand) &&
    (forall x :: x in used <==> x in AllIds(combos)) &&
    (DistinctIds(hand) ==> Distinct(AllIds(combos)) && forall k :: 0 <= k < |combos| ==> SetShape(combos[k], hand, round))
  }

  /** Recording the ids of a new combination's two parts keeps `used` equal,
      as a set, to the ids emitted. */
  lemma UsedIdsAppend(combos: seq<Combination>, combo: Combination, used: set<CardId>, a: seq<Card>, b: seq<Card>)
    requires combo.cards == a + b && forall x :: x in used <==> x in AllIds(combos)
    ensures forall x :: x in used + IdSet(a) + IdSet(b) <==> x in AllIds(combos + [combo])
  {
    AllIdsAppend(combos, combo);
    DistinctIdsMeaning(combo.cards);
    forall x ensures x in IdSet(a) + IdSet(b) <==> x in CardIds(combo.cards) {
      if x in IdSet(a) + IdSet(b) {
        var c :| c in a + b && c.id == x;
      }
    }
  }

  /** Emitting one SET in pass 1 keeps SetsSoFar. */
  lemma SetStep(hand: seq<Card>, round: int, combos: seq<Combination>, used: set<CardId>, v: int, normals: seq<Card>, jokers: seq<Card>)
    requires ValidRound(round) && SetsSoFar(hand, round, combos, used)
    requires normals == Normals(Select(hand, ValueOf, v), round) && |normals| >= 1
    requires |normals| + |Unused(Wilds(hand, round), used)| >= MinCombinationSize
    requires forall c :: c in normals ==> c.id !in used
    requires jokers == TakeWildcards(Wilds(hand, round), used + IdSet(normals), SetPadding(|normals|))
    ensures SetsSoFar(hand, round, combos + [Combination(Set, normals + jokers)], used + IdSet(normals) + IdSet(jokers))
  {
    var combo := Combination(Set, normals + jokers);
    var combos' := combos + [combo];
    assert forall k :: 0 <= k < |combos| ==> combos'[k] == combos[k];
    assert FromHand(combos', hand) by {
      SetCards(hand, round, used + IdSet(normals), v, normals, jokers);
      FromHandAppend(combos, combo, hand);
    }
    UsedIdsAppend(combos, combo, used, normals, jokers);
    if DistinctIds(hand) {
      SetStepDistinct(hand, round, combos, used, v, normals, jokers);
    }
  }

  /** With distinct hand ids, the new SET has the solver's set shape and its
      ids are new. */
  lemma SetStepDistinct(hand: seq<Card>, round: int, combos: seq<Combination>, used: set<CardId>, v: int, normals: seq<Card>, jokers: seq<Card>)
    requires ValidRound(round) && SetsSoFar(hand, round, combos, used) && DistinctIds(hand)
    requires normals == Normals(Select(hand, ValueOf, v), round) && |normals| >= 1
    requires |normals| + |Unused(Wilds(hand, round), used)| >= MinCombinationSize
    requires forall c :: c in normals ==> c.id !in used
    requires jokers == TakeWildcards(Wilds(hand, round), used + IdSet(normals), SetPadding(|normals|))
    ensures SetShape(Combination(Set, normals + jokers), hand, round)
    ensures Distinct(AllIds(combos + [Combination(Set, normals + jokers)]))
  {
    var combo := Combination(Set, normals + jokers);
    NewSetShape(hand, round, used, v, normals, jokers);
    NewSetIds(hand, round, used, v, normals, jokers);
    ExtendIds(combos, combo, used);
  }

  /** Pass 1 of tryFormCombinations: one SET per value group, in the order the
      values first occur in the hand. */
  method FormSets(hand: seq<Card>, round: int, pool: seq<Card>) returns (combos: seq<Combination>, used: set<CardId>)
    requires ValidRound(round) && pool == Wilds(hand, round)
    ensures SetsSoFar(hand, round, combos, used)
    ensures Progress(combos, used, []) == SetsPass(hand, round, pool, Keys(hand, ValueOf))
  {
    // usedCards is still empty here, so the unused test keeps every card.
    var values, byValue := GroupBy(hand, ValueOf);
    combos := [];
    used := {};
    for ki := 0 to |values|
      invariant SetsSoFar(hand, round, combos, used)
      invariant Progress(combos, used, []) == SetsPass(hand, round, pool, values[..ki])
    {
      assert values[..ki + 1][..ki] == values[..ki];
      var normals := Normals(byValue[values[ki]], round);
      if exists c :: c in normals && c.id in used {
        continue;
      }
      var need := SetPadding(|normals|);
      var availableWilds := |Unused(pool, used)|;
      if |normals| >= 1 && |normals| + availableWilds >= MinCombinationSize {
        var jokers := TakeWildcards(pool, used + IdSet(normals), need);
        SetStep(hand, round, combos, used, values[ki], normals, jokers);
        used := used + IdSet(normals) + IdSet(jokers);
        combos := combos + [Combination(Set, normals + jokers)];
      }
    }
    assert values[..|values|] == values;
  }

  // ---------------------------------------------------------------------------
  // Pass 2: runs.

  /** The `current` buffer: natural cards of one suit in strictly increasing
      order, ending on a natural card, holding exactly the wildcards that fill
      the gaps between them. */
  predicate RunBuffer(current: seq<Card>, suit: Suit, round: int)
    requires ValidRound(round)
  {
    var n := Normals(current, round);
    (current != [] ==> n != [] && current[|current| - 1] == n[|n| - 1]) &&
    (forall c :: c in n ==> c.suit == suit) && Strict(n) &&
    (n != [] ==> |Wilds(current, round)| == n[|n| - 1].value - n[0].value - (|n| - 1))
  }

  /** Pushing a natural card, after as many wildcards as the gap to it needs,
      keeps the buffer a run in the making. */
  lemma BufferPush(current: seq<Card>, jokers: seq<Card>, x: Card, suit: Suit, round: int)
    requires ValidRound(round) && RunBuffer(current, suit, round)
    requires !IsWildCard(x, round) && x.suit == suit
    requires forall j :: j in jokers ==> IsWildCard(j, round)
    requires current == [] ==> jokers == []
    requires current != [] ==> x.value == current[|current| - 1].value + 1 + |jokers|
    ensures RunBuffer(current + jokers + [x], suit, round)
  {
    var n, w := Normals(current, round), Wilds(current, round);
    var pushed := current + jokers + [x];
    assert Normals(pushed, round) == n + [x] && Wilds(pushed, round) == w + jokers by {
      FiltersAppend(current + jokers, [x], round);
      FiltersAppend(current, jokers, round);
      NormalsOfWilds(jokers, round);
      NormalsOfNaturals([x], round);
    }
    var n' := n + [x];
    assert current != [] ==> n != [] && n[|n| - 1] == current[|current| - 1];
    assert Strict(n') by {
      StrictPush(n, x);
    }
    assert forall c :: c in n' ==> c.suit == suit;
    assert |w + jokers| == n'[|n'| - 1].value - n'[0].value - (|n'| - 1) by {
      if n != [] {
        assert n'[0] == n[0];
      } else {
        assert current == [] && w == [] && jokers == [];
      }
    }
  }

  /** A card above the last one keeps a sequence strictly increasing. */
  lemma StrictPush(n: seq<Card>, x: Card)
    requires Strict(n) && (n != [] ==> n[|n| - 1].value < x.value)
    ensures Strict(n + [x])
  {
    var m := n + [x];
    forall k | 0 < k < |m| ensures m[k - 1].value < m[k].value {
      if k < |n| {
        assert m[k - 1] == n[k - 1] && m[k] == n[k];
      }
    }
  }

  /** A non-empty buffer, padded with wildcards to at least 3 cards, is a RUN
      of the solver's shape. */
  lemma BufferToRun(current: seq<Card>, pad: seq<Card>, suit: Suit, round: int)
    requires ValidRound(round) && RunBuffer(current, suit, round) && current != []
    requires forall j :: j in pad ==> IsWildCard(j, round)
    requires |current| + |pad| >= MinCombinationSize
    ensures RunShape(Combination(Run, current + pad), round)
  {
    var n := Normals(current, round);
    assert Normals(current + pad, round) == n && |Wilds(current + pad, round)| >= |Wilds(current, round)| by {
      FiltersAppend(current, pad, round);
      NormalsOfWilds(pad, round);
    }
    OneSuit(n, suit);
  }

  lemma OneSuit(n: seq<Card>, suit: Suit)
    requires forall c :: c in n ==> c.suit == suit
    ensures SameSuit(n)
  {
    forall i | 0 <= i < |n| ensures n[i].suit == n[0].suit {
      assert n[i] in n && n[0] in n;
    }
  }

  /** An emitted RUN: the solver's shape, built from hand cards. */
  predicate RunFromHand(c: Combination, hand: seq<Card>, round: int)
    requires ValidRound(round)
  {
    RunShape(c, round) && forall x :: x in c.cards ==> x in hand
  }

  /** Every combination from index n on is a run taken from the hand. */
  predicate RunsFrom(combos: seq<Combination>, n: nat, hand: seq<Card>, round: int)
    requires ValidRound(round)
  {
    n <= |combos| && forall k :: n <= k < |combos| ==> RunFromHand(combos[k], hand, round)
  }

  /** Appending at most one run from the hand keeps RunsFrom and the prefix. */
  lemma RunsGrow(before: seq<Combination>, after: seq<Combination>, n: nat, hand: seq<Card>, round: int)
    requires ValidRound(round) && RunsFrom(before, n, hand, round)
    requires |before| <= |after| <= |before| + 1 && after[..|before|] == before
    requires |after| > |before| ==> RunFromHand(after[|before|], hand, round)
    ensures RunsFrom(after, n, hand, round) && after[..n] == before[..n]
  {
    forall k | n <= k < |after| ensures RunFromHand(after[k], hand, round) {
      if k < |before| {
        assert after[k] == after[..|before|][k];
      }
    }
  }

  /** The id bookkeeping of pass 2 (with distinct ids in the hand): the ids of
      the emitted combinations and of the buffer are distinct; the emitted
      ones are all used; in the buffer exactly the wildcards are used; the
      cards still to walk (`rest`) and those of later suits (`others`) are
      unused, and none of `rest` is in the buffer. */
  ghost predicate WalkIds(combos: seq<Combination>, current: seq<Card>, used: set<CardId>,
                          rest: seq<Card>, others: set<Card>, round: int)
    requires ValidRound(round)
  {
    Distinct(AllIds(combos) + CardIds(current)) &&
    (forall x :: x in AllIds(combos) ==> x in used) &&
    (forall c :: c in current ==> (c.id in used <==> IsWildCard(c, round))) &&
    (forall c :: c in rest ==> c.id !in used && c.id !in CardIds(current)) &&
    (forall c :: c in others ==> c.id !in used)
  }

  /** Pushing wildcards just taken and then the next card keeps WalkIds. */
  lemma WalkPush(hand: seq<Card>, round: int, combos: seq<Combination>, current: seq<Card>, used: set<CardId>,
                 jokers: seq<Card>, rest: seq<Card>, others: set<Card>)
    requires ValidRound(round) && DistinctIds(hand) && rest != []
    requires WalkIds(combos, current, used, rest, others, round)
    requires forall c :: c in current ==> c in hand
    requires forall c :: c in rest ==> c in hand && !IsWildCard(c, round)
    requires forall c :: c in others ==> c in hand && !IsWildCard(c, round)
    requires forall j :: j in jokers ==> j in hand && IsWildCard(j, round) && j.id !in used
    requires DistinctIds(jokers) && DistinctIds(rest)
    ensures WalkIds(combos, current + jokers + [rest[0]], used + IdSet(jokers), rest[1..], others, round)
  {
    var x := rest[0];
    var current' := current + jokers + [x];
    assert x in rest;
    assert forall c :: c in rest[1..] ==> c in rest && c.id != x.id by {
      forall k | 1 <= k < |rest| ensures rest[k] in rest && rest[k].id != x.id {
      }
    }
    WildsApart(hand, round, jokers);
    DistinctIdsMeaning(jokers);
    PushIds(combos, current, jokers, x, used);
  }

  /** Taken wildcards do not share an id with natural hand cards. */
  lemma WildsApart(hand: seq<Card>, round: int, jokers: seq<Card>)
    requires ValidRound(round) && DistinctIds(hand)
    requires forall j :: j in jokers ==> j in hand && IsWildCard(j, round)
    ensures forall c :: c in hand && !IsWildCard(c, round) ==> c.id !in IdSet(jokers)
  {
    forall c, j | c in hand && !IsWildCard(c, round) && j in jokers ensures c.id != j.id {
      IdsApart(hand, c, j);
    }
  }

  /** The ids after a push: the old ones, the wildcards', then the card's. */
  lemma PushIds(combos: seq<Combination>, current: seq<Card>, jokers: seq<Card>, x: Card, used: set<CardId>)
    requires Distinct(AllIds(combos) + CardIds(current)) && forall y :: y in AllIds(combos) ==> y in used
    requires forall c :: c in current && c.id in used ==> c.id !in CardIds(jokers)
    requires forall c :: c in current && c.id !in used ==> c.id !in IdSet(jokers)
    requires forall j :: j in jokers ==> j.id !in used
    requires DistinctIds(jokers) && x.id !in used && x.id !in CardIds(current) && x.id !in IdSet(jokers)
    ensures Distinct(AllIds(combos) + CardIds(current + jokers + [x]))
  {
    var ids := AllIds(combos) + CardIds(current);
    PushJokerIds(combos, current, jokers, used);
    assert x.id !in ids + CardIds(jokers) by {
      DistinctIdsMeaning(jokers);
    }
    DistinctAppend(ids + CardIds(jokers), [x.id]);
    CardIdsAppend(current + jokers, [x]);
    CardIdsAppend(current, jokers);
    assert AllIds(combos) + CardIds(current + jokers + [x]) == ids + CardIds(jokers) + [x.id];
  }

  /** The wildcards taken for a gap have ids new to the combinations and the
      buffer. */
  lemma PushJokerIds(combos: seq<Combination>, current: seq<Card>, jokers: seq<Card>, used: set<CardId>)
    requires Distinct(AllIds(combos) + CardIds(current)) && forall y :: y in AllIds(combos) ==> y in used
    requires forall c :: c in current && c.id in used ==> c.id !in CardIds(jokers)
    requires forall c :: c in current && c.id !in used ==> c.id !in IdSet(jokers)
    requires forall j :: j in jokers ==> j.id !in used
    requires DistinctIds(jokers)
    ensures Distinct(AllIds(combos) + CardIds(current) + CardIds(jokers))
  {
    var ids := AllIds(combos) + CardIds(current);
    DistinctIdsMeaning(current);
    DistinctIdsMeaning(jokers);
    DistinctAppend(ids, CardIds(jokers));
  }

  /** Emitting the buffer, padded with wildcards just taken, keeps WalkIds with
      an empty buffer. */
  lemma EmitIds(hand: seq<Card>, round: int, suit: Suit, combos: seq<Combination>, current: seq<Card>,
                used: set<CardId>, jokers: seq<Card>, rest: seq<Card>, others: set<Card>)
    requires ValidRound(round) && DistinctIds(hand)
    requires WalkIds(combos, current, used, rest, others, round) && RunBuffer(current, suit, round)
    requires forall c :: c in current ==> c in hand
    requires forall c :: c in rest ==> c in hand && !IsWildCard(c, round)
    requires forall c :: c in others ==> c in hand && !IsWildCard(c, round) && c.suit != suit
    requires forall j :: j in jokers ==> j in hand && IsWildCard(j, round) && j.id !in used
    requires DistinctIds(jokers)
    ensures WalkIds(combos + [Combination(Run, current + jokers)], [], used + IdSet(jokers) + IdSet(current), rest, others, round)
  {
    var combo := Combination(Run, current + jokers);
    EmitDistinct(combos, current, used, jokers);
    AllIdsAppend(combos, combo);
    CardIdsAppend(current, jokers);
    DistinctIdsMeaning(current + jokers);
    DistinctIdsMeaning(current);
    WildsApart(hand, round, jokers);
    OthersApart(hand, round, suit, current, used, others);
  }

  lemma EmitDistinct(combos: seq<Combination>, current: seq<Card>, used: set<CardId>, jokers: seq<Card>)
    requires Distinct(AllIds(combos) + CardIds(current)) && forall y :: y in AllIds(combos) ==> y in used
    requires forall c :: c in current && c.id in used ==> c.id !in CardIds(jokers)
    requires forall c :: c in current && c.id !in used ==> c.id !in IdSet(jokers)
    requires forall j :: j in jokers ==> j.id !in used
    requires DistinctIds(jokers)
    ensures Distinct(AllIds(combos + [Combination(Run, current + jokers)]) + CardIds([]))
  {
    var ids := AllIds(combos) + CardIds(current);
    AllIdsAppend(combos, Combination(Run, current + jokers));
    CardIdsAppend(current, jokers);
    DistinctIdsMeaning(current);
    DistinctIdsMeaning(jokers);
    DistinctAppend(ids, CardIds(jokers));
    assert AllIds(combos + [Combination(Run, current + jokers)]) + CardIds([]) == ids + CardIds(jokers);
  }

  /** Cards of later suits share no id with the buffer. */
  lemma OthersApart(hand: seq<Card>, round: int, suit: Suit, current: seq<Card>, used: set<CardId>, others: set<Card>)
    requires ValidRound(round) && DistinctIds(hand) && RunBuffer(current, suit, round)
    requires forall c :: c in current ==> c in hand && (c.id in used <==> IsWildCard(c, round))
    requires forall c :: c in others ==> c in hand && c.suit != suit && c.id !in used
    ensures forall c :: c in others ==> c.id !in IdSet(current)
  {
    FilterMembers(current, round);
    forall c, d | c in others && d in current ensures d.id != c.id {
      if !IsWildCard(d, round) {
        assert d in Normals(current, round);
        IdsApart(hand, c, d);
      }
    }
  }

  /** Dropping the buffer keeps WalkIds with an empty buffer. */
  lemma DropIds(combos: seq<Combination>, current: seq<Card>, used: set<CardId>,
                rest: seq<Card>, others: set<Card>, round: int)
    requires ValidRound(round) && WalkIds(combos, current, used, rest, others, round)
    ensures WalkIds(combos, [], used, rest, others, round)
  {
    var ids := AllIds(combos) + CardIds(current);
    DistinctPrefix(ids, AllIds(combos));
    assert AllIds(combos) + CardIds([]) == AllIds(combos);
  }

  /** What finalizing emits: one RUN exactly when the buffer is not empty and
      the unused wildcards bring it to 3 cards; that RUN is the buffer
      followed by wildcards, max(3, |buffer|) cards in all, and nothing else
      changes when none is emitted. */
  lemma FinalizeEmits(pool: seq<Card>, p: Progress)
    ensures var q := Finalize(pool, p);
      && q.current == []
      && (|q.combos| == |p.combos| + 1 <==>
            p.current != [] && |p.current| + |Unused(pool, p.used)| >= MinCombinationSize)
      && (|q.combos| != |p.combos| + 1 ==> q.combos == p.combos && q.used == p.used)
      && (|q.combos| == |p.combos| + 1 ==>
            && q.combos[..|p.combos|] == p.combos && q.combos[|p.combos|].kind == Run
            && q.combos[|p.combos|].cards[..|p.current|] == p.current
            && |q.combos[|p.combos|].cards| == if |p.current| >= MinCombinationSize then |p.current| else MinCombinationSize)
  {
    var q := Finalize(pool, p);
    if p.current != [] && |p.current| < MinCombinationSize && |p.current| + |Unused(pool, p.used)| >= MinCombinationSize {
      TakeWildcardsFacts(pool, p.used, MinCombinationSize - |p.current|);
      var jokers := TakeWildcards(pool, p.used, MinCombinationSize - |p.current|);
      assert (p.current + jokers)[..|p.current|] == p.current;
    }
    assert (p.combos + [Combination(Run, p.current)])[..|p.combos|] == p.combos;
  }

  /** Emitting the buffer, padded with the wildcards `jokers`, as a RUN adds
      a run from the hand and keeps the id bookkeeping. */
  lemma EmitKeeps(hand: seq<Card>, round: int, suit: Suit, current: seq<Card>, used: set<CardId>,
                  combos: seq<Combination>, rest: seq<Card>, others: set<Card>, jokers: seq<Card>)
    requires ValidRound(round) && current != [] && |current| + |jokers| >= MinCombinationSize
    requires RunBuffer(current, suit, round) && forall c :: c in current ==> c in hand
    requires forall c :: c in rest ==> c in hand && !IsWildCard(c, round)
    requires forall c :: c in others ==> c in hand && !IsWildCard(c, round) && c.suit != suit
    requires DistinctIds(hand) ==> WalkIds(combos, current, used, rest, others, round)
    requires forall j :: j in jokers ==> j in hand && IsWildCard(j, round) && j.id !in used
    requires DistinctIds(hand) ==> DistinctIds(jokers)
    ensures RunFromHand(Combination(Run, current + jokers), hand, round)
    ensures DistinctIds(hand) ==>
      WalkIds(combos + [Combination(Run, current + jokers)], [], used + IdSet(jokers) + IdSet(current), rest, others, round)
  {
    BufferToRun(current, jokers, suit, round);
    if DistinctIds(hand) {
      EmitIds(hand, round, suit, combos, current, used, jokers, rest, others);
    }
  }

  /** What finalizing keeps: at most one RUN is added, of the solver's shape
      and from the hand, and (with distinct hand ids) the id bookkeeping
      holds with an empty buffer. */
  lemma FinalizeKeeps(hand: seq<Card>, round: int, pool: seq<Card>, suit: Suit, current: seq<Card>,
                      used: set<CardId>, combos: seq<Combination>, rest: seq<Card>, others: set<Card>)
    requires ValidRound(round) && pool == Wilds(hand, round)
    requires RunBuffer(current, suit, round) && forall c :: c in current ==> c in hand
    requires forall c :: c in rest ==> c in hand && !IsWildCard(c, round)
    requires forall c :: c in others ==> c in hand && !IsWildCard(c, round) && c.suit != suit
    requires DistinctIds(hand) ==> WalkIds(combos, current, used, rest, others, round)
    ensures var q := Finalize(pool, Progress(combos, used, current));
      && q.current == [] && |combos| <= |q.combos| <= |combos| + 1 && q.combos[..|combos|] == combos
      && (|q.combos| > |combos| ==> RunFromHand(q.combos[|combos|], hand, round))
      && (DistinctIds(hand) ==> WalkIds(q.combos, [], q.used, rest, others, round))
  {
    if current == [] {
    } else if |current| < MinCombinationSize && |current| + |Unused(pool, used)| >= MinCombinationSize {
      var jokers := TakeWildcards(pool, used, MinCombinationSize - |current|);
      TakeWildcardsFacts(pool, used, MinCombinationSize - |current|);
      FilterMembers(hand, round);
      if DistinctIds(hand) {
        WildsDistinct(hand, round);
      }
      EmitKeeps(hand, round, suit, current, used, combos, rest, others, jokers);
    } else if |current| >= MinCombinationSize {
      EmitKeeps(hand, round, suit, current, used, combos, rest, others, []);
      assert current + [] == current && IdSet([]) == {};
    } else if DistinctIds(hand) {
      DropIds(combos, current, used, rest, others, round);
    }
  }

  /** finalizeCurrent: a buffer of 3 or more cards becomes a RUN; a shorter
      one is padded with wildcards up to exactly 3 when enough remain, and
      dropped otherwise. The cards of an emitted run are then marked used.
      The caller empties the buffer. */
  method FinalizeCurrent(hand: seq<Card>, round: int, pool: seq<Card>, suit: Suit, current: seq<Card>,
                         used: set<CardId>, combos: seq<Combination>, ghost rest: seq<Card>, ghost others: set<Card>)
    returns (used': set<CardId>, combos': seq<Combination>)
    requires ValidRound(round) && pool == Wilds(hand, round)
    requires RunBuffer(current, suit, round) && forall c :: c in current ==> c in hand
    requires forall c :: c in rest ==> c in hand && !IsWildCard(c, round)
    requires forall c :: c in others ==> c in hand && !IsWildCard(c, round) && c.suit != suit
    requires DistinctIds(hand) ==> WalkIds(combos, current, used, rest, others, round)
    ensures |combos| <= |combos'| <= |combos| + 1 && combos'[..|combos|] == combos
    ensures |combos'| > |combos| ==> RunFromHand(combos'[|combos|], hand, round)
    ensures DistinctIds(hand) ==> WalkIds(combos', [], used', rest, others, round)
    ensures Progress(combos', used', []) == Finalize(pool, Progress(combos, used, current))
  {
    FinalizeKeeps(hand, round, pool, suit, current, used, combos, rest, others);
    if |current| == 0 {
      return used, combos;
    }
    var availWilds := |Unused(pool, used)|;
    if |current| < MinCombinationSize && |current| + availWilds >= MinCombinationSize {
      var need := MinCombinationSize - |current|;
      var jokers := TakeWildcards(pool, used, need);
      used' := used + IdSet(jokers);
      combos' := combos + [Combination(Run, current + jokers)];
      used' := used' + IdSet(current);
    } else if |current| >= MinCombinationSize {
      combos' := combos + [Combination(Run, current)];
      used' := used + IdSet(current);
    } else {
      used', combos' := used, combos;
    }
  }

  lemma DistinctIdsSuffix(s: seq<Card>, i: nat)
    requires DistinctIds(s) && i <= |s|
    ensures DistinctIds(s[i..])
  {
    forall a, b | 0 <= a < b < |s| - i ensures s[i..][a].id != s[i..][b].id {
      assert s[i..][a] == s[i + a] && s[i..][b] == s[i + b];
    }
  }

  /** One step of the walk that pushes `jokers` (possibly none) and then the
      next card keeps the buffer and the id bookkeeping. */
  lemma WalkStep(hand: seq<Card>, round: int, suit: Suit, sorted: seq<Card>, i: nat, combos: seq<Combination>,
                 current: seq<Card>, used: set<CardId>, jokers: seq<Card>, others: set<Card>)
    requires ValidRound(round) && i < |sorted|
    requires forall c :: c in sorted ==> c in hand && !IsWildCard(c, round) && c.suit == suit
    requires forall c :: c in others ==> c in hand && !IsWildCard(c, round)
    requires RunBuffer(current, suit, round) && forall c :: c in current ==> c in hand
    requires forall j :: j in jokers ==> j in hand && IsWildCard(j, round) && j.id !in used
    requires current == [] ==> jokers == []
    requires current != [] ==> sorted[i].value == current[|current| - 1].value + 1 + |jokers|
    requires DistinctIds(hand) ==> DistinctIds(sorted) && DistinctIds(jokers) && WalkIds(combos, current, used, sorted[i..], others, round)
    ensures RunBuffer(current + jokers + [sorted[i]], suit, round)
    ensures forall c :: c in current + jokers + [sorted[i]] ==> c in hand
    ensures DistinctIds(hand) ==> WalkIds(combos, current + jokers + [sorted[i]], used + IdSet(jokers), sorted[i + 1..], others, round)
  {
    assert sorted[i] in sorted;
    BufferPush(current, jokers, sorted[i], suit, round);
    if DistinctIds(hand) {
      DistinctIdsSuffix(sorted, i);
      assert sorted[i..][0] == sorted[i] && sorted[i..][1..] == sorted[i + 1..];
      forall c | c in sorted[i..] ensures c in sorted {
      }
      WalkPush(hand, round, combos, current, used, jokers, sorted[i..], others);
    }
  }

  /** WalkStep between two cards of the walk: pushing `jokers` and card i
      takes the walk invariant from card i to card i + 1. */
  lemma WalkAdvance(hand: seq<Card>, round: int, pool: seq<Card>, suit: Suit, sorted: seq<Card>, i: nat,
                    combos0: seq<Combination>, others: set<Card>,
                    current: seq<Card>, used: set<CardId>, combos: seq<Combination>, jokers: seq<Card>)
    requires WalkSetting(hand, round, pool, suit, sorted, others) && i < |sorted|
    requires WalkInv(hand, round, suit, sorted, i, combos0, others, current, used, combos)
    requires forall j :: j in jokers ==> j in hand && IsWildCard(j, round) && j.id !in used
    requires current == [] ==> jokers == []
    requires current != [] ==> sorted[i].value == current[|current| - 1].value + 1 + |jokers|
    requires DistinctIds(hand) ==> DistinctIds(jokers)
    ensures WalkInv(hand, round, suit, sorted, i + 1, combos0, others, current + jokers + [sorted[i]], used + IdSet(jokers), combos)
  {
    WalkStep(hand, round, suit, sorted, i, combos, current, used, jokers, others);
  }

  /** What holds before card i of the walk: the buffer is a valid partial
      run from the hand, everything emitted since combos0 is a run from the
      hand, and (with distinct ids) the id bookkeeping. */
  ghost predicate WalkInv(hand: seq<Card>, round: int, suit: Suit, sorted: seq<Card>, i: nat,
                          combos0: seq<Combination>, others: set<Card>,
                          current: seq<Card>, used: set<CardId>, combos: seq<Combination>)
    requires ValidRound(round) && i <= |sorted|
  {
    && RunBuffer(current, suit, round) && (forall c :: c in current ==> c in hand)
    && RunsFrom(combos, |combos0|, hand, round) && combos[..|combos0|] == combos0
    && (DistinctIds(hand) ==> WalkIds(combos, current, used, sorted[i..], others, round))
  }

  /** What the walk over one suit's sorted cards works in: natural hand
      cards of the suit, against natural hand cards of other suits, with
      distinct ids when the hand has them. */
  predicate WalkSetting(hand: seq<Card>, round: int, pool: seq<Card>, suit: Suit, sorted: seq<Card>, others: set<Card>)
  {
    && ValidRound(round) && pool == Wilds(hand, round)
    && (forall c :: c in sorted ==> c in hand && !IsWildCard(c, round) && c.suit == suit)
    && (forall c :: c in others ==> c in hand && !IsWildCard(c, round) && c.suit != suit)
    && (DistinctIds(hand) ==> DistinctIds(sorted))
  }

  /** The body of the walk for card i: push it onto the buffer when it follows
      on, push it after the wildcards that fill the gap when enough are unused,
      and otherwise finalize the buffer and start a new one with it. */
  method WalkCard(hand: seq<Card>, round: int, pool: seq<Card>, suit: Suit, sorted: seq<Card>, i: nat,
                  ghost combos0: seq<Combination>, ghost others: set<Card>,
                  current: seq<Card>, used: set<CardId>, combos: seq<Combination>)
    returns (current': seq<Card>, used': set<CardId>, combos': seq<Combination>)
    requires WalkSetting(hand, round, pool, suit, sorted, others) && i < |sorted|
    requires WalkInv(hand, round, suit, sorted, i, combos0, others, current, used, combos)
    ensures WalkInv(hand, round, suit, sorted, i + 1, combos0, others, current', used', combos')
    ensures current' != [] && current'[|current'| - 1] == sorted[i]
    ensures Progress(combos', used', current') == Walk(pool, Progress(combos, used, current), sorted[i])
  {
    var x := sorted[i];
    var gap := if current == [] then 0 else x.value - current[|current| - 1].value - 1;
    if current == [] || gap == 0 {
      WalkAdvance(hand, round, pool, suit, sorted, i, combos0, others, current, used, combos, []);
      assert current + [] + [x] == current + [x] && used + IdSet([]) == used;
      WalkOnto(pool, Progress(combos, used, current), x);
      current', used', combos' := current + [x], used, combos;
    } else if gap > 0 && gap <= |Unused(pool, used)| {
      current', used', combos' := WalkFill(hand, round, pool, suit, sorted, i, combos0, others, current, used, combos, gap);
    } else {
      current', used', combos' := WalkBreak(hand, round, pool, suit, sorted, i, combos0, others, current, used, combos, gap);
    }
  }

  /** The wildcards that fill a gap are `gap` unused wild cards of the hand. */
  lemma FillJokers(hand: seq<Card>, round: int, used: set<CardId>, gap: int)
    requires ValidRound(round) && 0 < gap <= |Unused(Wilds(hand, round), used)|
    ensures var jokers := TakeWildcards(Wilds(hand, round), used, gap);
      && (forall j :: j in jokers ==> j in hand && IsWildCard(j, round) && j.id !in used)
      && |jokers| == gap
      && (DistinctIds(hand) ==> DistinctIds(jokers))
  {
    TakeWildcardsFacts(Wilds(hand, round), used, gap);
    FilterMembers(hand, round);
    if DistinctIds(hand) {
      WildsDistinct(hand, round);
    }
  }

  /** Card i follows the buffer after a gap of `gap` values that the unused
      wildcards can fill: push that many wildcards, then the card. */
  method WalkFill(hand: seq<Card>, round: int, pool: seq<Card>, suit: Suit, sorted: seq<Card>, i: nat,
                  ghost combos0: seq<Combination>, ghost others: set<Card>,
                  current: seq<Card>, used: set<CardId>, combos: seq<Combination>, gap: int)
    returns (current': seq<Card>, used': set<CardId>, combos': seq<Combination>)
    requires WalkSetting(hand, round, pool, suit, sorted, others) && i < |sorted|
    requires WalkInv(hand, round, suit, sorted, i, combos0, others, current, used, combos)
    requires current != [] && gap == sorted[i].value - current[|current| - 1].value - 1
    requires 0 < gap <= |Unused(pool, used)|
    ensures WalkInv(hand, round, suit, sorted, i + 1, combos0, others, current', used', combos')
    ensures current' != [] && current'[|current'| - 1] == sorted[i]
    ensures var jokers := TakeWildcards(pool, used, gap);
      && current' == current + jokers + [sorted[i]] && |jokers| == gap
      && used' == used + IdSet(jokers) && combos' == combos
    ensures Progress(combos', used', current') == Walk(pool, Progress(combos, used, current), sorted[i])
  {
    WalkFills(pool, Progress(combos, used, current), sorted[i], gap);
    var jokers := TakeWildcards(pool, used, gap);
    FillJokers(hand, round, used, gap);
    WalkAdvance(hand, round, pool, suit, sorted, i, combos0, others, current, used, combos, jokers);
    current', used', combos' := current + jokers + [sorted[i]], used + IdSet(jokers), combos;
  }

  /** Card i cannot extend the buffer: finalize the buffer and start a new
      one with the card. */
  method WalkBreak(hand: seq<Card>, round: int, pool: seq<Card>, suit: Suit, sorted: seq<Card>, i: nat,
                   ghost combos0: seq<Combination>, ghost others: set<Card>,
                   current: seq<Card>, used: set<CardId>, combos: seq<Combination>, gap: int)
    returns (current': seq<Card>, used': set<CardId>, combos': seq<Combination>)
    requires WalkSetting(hand, round, pool, suit, sorted, others) && i < |sorted|
    requires WalkInv(hand, round, suit, sorted, i, combos0, others, current, used, combos)
    requires current != [] && gap == sorted[i].value - current[|current| - 1].value - 1
    requires gap != 0 && !(0 < gap <= |Unused(pool, used)|)
    ensures WalkInv(hand, round, suit, sorted, i + 1, combos0, others, current', used', combos')
    ensures current' == [sorted[i]]
    ensures Progress(combos', used', []) == Finalize(pool, Progress(combos, used, current))
    ensures Progress(combos', used', current') == Walk(pool, Progress(combos, used, current), sorted[i])
  {
    WalkBreaks(pool, Progress(combos, used, current), sorted[i], gap);
    var x := sorted[i];
    forall c | c in sorted[i..] ensures c in sorted {
    }
    used', combos' := FinalizeCurrent(hand, round, pool, suit, current, used, combos, sorted[i..], others);
    WalkRestart(hand, round, pool, suit, sorted, i, combos0, others, current, used, combos, used', combos');
    current' := [x];
  }

  /** After a break has finalized the buffer into combos', the walk goes on
      from a buffer holding card i alone. */
  lemma WalkRestart(hand: seq<Card>, round: int, pool: seq<Card>, suit: Suit, sorted: seq<Card>, i: nat,
                    combos0: seq<Combination>, others: set<Card>,
                    current: seq<Card>, used: set<CardId>, combos: seq<Combination>,
                    used': set<CardId>, combos': seq<Combination>)
    requires WalkSetting(hand, round, pool, suit, sorted, others) && i < |sorted|
    requires WalkInv(hand, round, suit, sorted, i, combos0, others, current, used, combos)
    requires |combos| <= |combos'| <= |combos| + 1 && combos'[..|combos|] == combos
    requires |combos'| > |combos| ==> RunFromHand(combos'[|combos|], hand, round)
    requires DistinctIds(hand) ==> WalkIds(combos', [], used', sorted[i..], others, round)
    ensures WalkInv(hand, round, suit, sorted, i + 1, combos0, others, [sorted[i]], used', combos')
  {
    RunsGrow(combos, combos', |combos0|, hand, round);
    assert WalkInv(hand, round, suit, sorted, i, combos0, others, [], used', combos');
    WalkAdvance(hand, round, pool, suit, sorted, i, combos0, others, [], used', combos', []);
    assert [] + [] + [sorted[i]] == [sorted[i]] && used' + IdSet([]) == used';
  }

  /** Pass 2 for one suit: walk its cards by ascending value, extending the
      buffer when the next value follows on or the gap can be filled from the
      pool, finalizing it otherwise, and finalizing once more at the end. */
  method RunsOfSuit(hand: seq<Card>, round: int, pool: seq<Card>, suit: Suit, sorted: seq<Card>,
                    used: set<CardId>, combos: seq<Combination>, ghost others: set<Card>)
    returns (used': set<CardId>, combos': seq<Combination>)
    requires ValidRound(round) && pool == Wilds(hand, round)
    requires forall c :: c in sorted ==> c in hand && !IsWildCard(c, round) && c.suit == suit
    requires forall c :: c in others ==> c in hand && !IsWildCard(c, round) && c.suit != suit
    requires DistinctIds(hand) ==> DistinctIds(sorted) && WalkIds(combos, [], used, sorted, others, round)
    ensures |combos'| >= |combos| && combos'[..|combos|] == combos
    ensures forall k :: |combos| <= k < |combos'| ==> RunFromHand(combos'[k], hand, round)
    ensures DistinctIds(hand) ==> WalkIds(combos', [], used', [], others, round)
    ensures Progress(combos', used', []) == SuitPass(pool, Progress(combos, used, []), sorted)
  {
    var current: seq<Card> := [];
    used', combos' := used, combos;
    assert sorted[0..] == sorted;
    assert WalkSetting(hand, round, pool, suit, sorted, others);
    for i := 0 to |sorted|
      invariant WalkInv(hand, round, suit, sorted, i, combos, others, current, used', combos')
      invariant Progress(combos', used', current) == WalkAll(pool, Progress(combos, used, []), sorted[..i])
    {
      WalkAllStep(pool, Progress(combos, used, []), sorted, i);
      current, used', combos' := WalkCard(hand, round, pool, suit, sorted, i, combos, others, current, used', combos');
    }
    assert sorted[..|sorted|] == sorted;
    assert sorted[|sorted|..] == [];
    ghost var before := combos';
    used', combos' := FinalizeCurrent(hand, round, pool, suit, current, used', combos', sorted[|sorted|..], others);
    RunsGrow(before, combos', |combos|, hand, round);
  }

  // ---------------------------------------------------------------------------
  // The whole solver.

  /** What holds between two suits of pass 2: the sets come first and are
      kept, everything after them is a run from the hand, and (with distinct
      ids) no id repeats, every emitted id is used, and no card of a suit
      still to come is used. */
  ghost predicate SuitsSoFar(hand: seq<Card>, round: int, sets: seq<Combination>, runCards: seq<Card>,
                             suits: seq<Suit>, ki: nat, combos: seq<Combination>, used: set<CardId>)
    requires ValidRound(round) && ki <= |suits|
  {
    && |sets| <= |combos| && combos[..|sets|] == sets && RunsFrom(combos, |sets|, hand, round)
    && (DistinctIds(hand) ==>
          && Distinct(AllIds(combos)) && (forall x :: x in AllIds(combos) ==> x in used)
          && forall c :: c in runCards && c.suit !in suits[..ki] ==> c.id !in used)
  }

  /** The cards left for pass 2 are natural, unused hand cards, with distinct
      ids when the hand has them. */
  lemma RunCardsFacts(hand: seq<Card>, round: int, usedSets: set<CardId>, runCards: seq<Card>)
    requires ValidRound(round) && runCards == Normals(Unused(hand, usedSets), round)
    ensures forall c :: c in runCards <==> c in hand && c.id !in usedSets && !IsWildCard(c, round)
    ensures DistinctIds(hand) ==> DistinctIds(runCards)
  {
    UnusedMembers(hand, usedSets);
    FilterMembers(Unused(hand, usedSets), round);
    if DistinctIds(hand) {
      UnusedDistinct(hand, usedSets);
      WildsDistinct(Unused(hand, usedSets), round);
    }
  }

  /** Before suit ki: its sorted cards and the cards of later suits meet what
      the walk of one suit asks for. */
  lemma SuitStart(hand: seq<Card>, round: int, sets: seq<Combination>, usedSets: set<CardId>, runCards: seq<Card>,
                  suits: seq<Suit>, ki: nat, sorted: seq<Card>, others: set<Card>,
                  combos: seq<Combination>, used: set<CardId>)
    requires ValidRound(round) && runCards == Normals(Unused(hand, usedSets), round)
    requires suits == Keys(runCards, SuitOf) && ki < |suits|
    requires sorted == SortByValue(Select(runCards, SuitOf, suits[ki]))
    requires others == set c | c in runCards && c.suit !in suits[..ki + 1]
    requires SuitsSoFar(hand, round, sets, runCards, suits, ki, combos, used)
    ensures forall c :: c in sorted ==> c in hand && !IsWildCard(c, round) && c.suit == suits[ki]
    ensures forall c :: c in others ==> c in hand && !IsWildCard(c, round) && c.suit != suits[ki]
    ensures DistinctIds(hand) ==> DistinctIds(sorted) && WalkIds(combos, [], used, sorted, others, round)
  {
    SuitStartCards(hand, round, usedSets, runCards, suits, ki, sorted, others);
    if DistinctIds(hand) {
      SuitStartIds(hand, round, sets, usedSets, runCards, suits, ki, sorted, others, combos, used);
    }
  }

  /** The sorted cards of suit ki and the cards of later suits come from the
      hand, are not wild, and carry (resp. do not carry) suit ki. */
  lemma SuitStartCards(hand: seq<Card>, round: int, usedSets: set<CardId>, runCards: seq<Card>,
                       suits: seq<Suit>, ki: nat, sorted: seq<Card>, others: set<Card>)
    requires ValidRound(round) && runCards == Normals(Unused(hand, usedSets), round)
    requires suits == Keys(runCards, SuitOf) && ki < |suits|
    requires sorted == SortByValue(Select(runCards, SuitOf, suits[ki]))
    requires others == set c | c in runCards && c.suit !in suits[..ki + 1]
    ensures forall c :: c in sorted ==> c in runCards && c in hand && !IsWildCard(c, round) && c.suit == suits[ki]
    ensures forall c :: c in others ==> c in hand && !IsWildCard(c, round) && c.suit != suits[ki]
    ensures DistinctIds(hand) ==> DistinctIds(sorted)
  {
    var group := Select(runCards, SuitOf, suits[ki]);
    RunCardsFacts(hand, round, usedSets, runCards);
    SelectFacts(runCards, SuitOf, suits[ki]);
    SortByValueFacts(group);
    assert suits[ki] in suits[..ki + 1];
  }

  /** With distinct hand ids, the walk of suit ki starts from the id
      bookkeeping SuitsSoFar keeps. */
  lemma SuitStartIds(hand: seq<Card>, round: int, sets: seq<Combination>, usedSets: set<CardId>, runCards: seq<Card>,
                     suits: seq<Suit>, ki: nat, sorted: seq<Card>, others: set<Card>,
                     combos: seq<Combination>, used: set<CardId>)
    requires ValidRound(round) && runCards == Normals(Unused(hand, usedSets), round) && DistinctIds(hand)
    requires suits == Keys(runCards, SuitOf) && ki < |suits|
    requires sorted == SortByValue(Select(runCards, SuitOf, suits[ki]))
    requires others == set c | c in runCards && c.suit !in suits[..ki + 1]
    requires SuitsSoFar(hand, round, sets, runCards, suits, ki, combos, used)
    requires forall c :: c in sorted ==> c in runCards && c in hand && !IsWildCard(c, round) && c.suit == suits[ki]
    requires forall c :: c in others ==> c in hand && !IsWildCard(c, round) && c.suit != suits[ki]
    ensures WalkIds(combos, [], used, sorted, others, round)
  {
    RunCardsFacts(hand, round, usedSets, runCards);
    KeysFacts(runCards, SuitOf);
    assert suits[ki] !in suits[..ki] by {
      forall j | 0 <= j < ki ensures suits[j] != suits[ki] {
      }
    }
    assert CardIds([]) == [] && AllIds(combos) + [] == AllIds(combos);
    forall c | c in others ensures c.suit !in suits[..ki] {
      assert suits[..ki] == suits[..ki + 1][..ki];
    }
  }

  /** After suit ki: the walk's guarantees give SuitsSoFar for ki + 1. */
  lemma SuitEnd(hand: seq<Card>, round: int, sets: seq<Combination>, runCards: seq<Card>,
                suits: seq<Suit>, ki: nat, others: set<Card>,
                combos: seq<Combination>, used: set<CardId>, combos': seq<Combination>, used': set<CardId>)
    requires ValidRound(round) && ki < |suits|
    requires others == set c | c in runCards && c.suit !in suits[..ki + 1]
    requires SuitsSoFar(hand, round, sets, runCards, suits, ki, combos, used)
    requires |combos'| >= |combos| && combos'[..|combos|] == combos
    requires forall k :: |combos| <= k < |combos'| ==> RunFromHand(combos'[k], hand, round)
    requires DistinctIds(hand) ==> WalkIds(combos', [], used', [], others, round)
    ensures SuitsSoFar(hand, round, sets, runCards, suits, ki + 1, combos', used')
  {
    forall k | |sets| <= k < |combos'| ensures RunFromHand(combos'[k], hand, round) {
      if k < |combos| {
        assert combos'[k] == combos'[..|combos|][k];
      }
    }
    assert combos'[..|sets|] == combos'[..|combos|][..|sets|];
    if DistinctIds(hand) {
      assert CardIds([]) == [] && AllIds(combos') + [] == AllIds(combos');
    }
  }

  /** Sets first and runs after turn into the solver's guarantees. */
  lemma Assemble(hand: seq<Card>, round: int, sets: seq<Combination>, usedSets: set<CardId>,
                 runCards: seq<Card>, suits: seq<Suit>, combos: seq<Combination>, used: set<CardId>)
    requires ValidRound(round) && SetsSoFar(hand, round, sets, usedSets)
    requires SuitsSoFar(hand, round, sets, runCards, suits, |suits|, combos, used)
    ensures FromHand(combos, hand)
    ensures forall k, l :: 0 <= k < l < |combos| && combos[k].kind == Run ==> combos[l].kind == Run
    ensures forall k :: 0 <= k < |combos| && combos[k].kind == Run ==> RunShape(combos[k], round)
    ensures DistinctIds(hand) ==> forall k :: 0 <= k < |combos| && combos[k].kind == Set ==> SetShape(combos[k], hand, round)
    ensures DistinctIds(hand) ==> Distinct(AllIds(combos))
    ensures DistinctIds(hand) ==> forall k :: 0 <= k < |combos| ==> CombinationValid(combos[k], round)
  {
    forall k | 0 <= k < |sets| ensures combos[k] == sets[k] {
      assert combos[k] == combos[..|sets|][k];
    }
    forall k | 0 <= k < |combos| && combos[k].kind == Run ensures RunShape(combos[k], round) && k >= |sets| {
    }
    forall k, c | 0 <= k < |combos| && c in combos[k].cards ensures c in hand {
      if k >= |sets| {
        assert RunFromHand(combos[k], hand, round);
      }
    }
    if DistinctIds(hand) {
      forall k | 0 <= k < |combos| ensures CombinationValid(combos[k], round) {
        if k < |sets| {
          SetShapeValid(combos[k], hand, round);
        } else {
          RunShapeValid(combos[k], round);
        }
      }
    }
  }

  /** Pass 2 of tryFormCombinations: the natural cards left unused by the
      sets pass are grouped by suit in first-occurrence order, and each suit
      group, sorted by value, is walked into runs with the shared pool. */
  method FormRuns(hand: seq<Card>, round: int, pool: seq<Card>, sets: seq<Combination>, usedSets: set<CardId>)
    returns (combos: seq<Combination>, used: set<CardId>)
    requires ValidRound(round) && pool == Wilds(hand, round) && SetsSoFar(hand, round, sets, usedSets)
    ensures var runCards := Normals(Unused(hand, usedSets), round);
      var suits := Keys(runCards, SuitOf);
      && SuitsSoFar(hand, round, sets, runCards, suits, |suits|, combos, used)
      && Progress(combos, used, []) == RunsPass(pool, runCards, Progress(sets, usedSets, []), suits)
  {
    var runCards := Normals(Unused(hand, usedSets), round);
    var suits, bySuit := GroupBy(runCards, SuitOf);
    used := usedSets;
    combos := sets;
    assert SuitsSoFar(hand, round, sets, runCards, suits, 0, combos, used) by {
      assert combos[..|sets|] == sets;
      RunCardsFacts(hand, round, usedSets, runCards);
    }
    for ki := 0 to |suits|
      invariant SuitsSoFar(hand, round, sets, runCards, suits, ki, combos, used)
      invariant Progress(combos, used, []) == RunsPass(pool, runCards, Progress(sets, usedSets, []), suits[..ki])
    {
      RunsPassStep(pool, runCards, Progress(sets, usedSets, []), suits, ki);
      SelectFacts(runCards, SuitOf, suits[ki]);
      var sorted := SortByValue(bySuit[suits[ki]]);
      ghost var others := set c | c in runCards && c.suit !in suits[..ki + 1];
      SuitStart(hand, round, sets, usedSets, runCards, suits, ki, sorted, others, combos, used);
      var used', combos' := RunsOfSuit(hand, round, pool, suits[ki], sorted, used, combos, others);
      SuitEnd(hand, round, sets, runCards, suits, ki, others, combos, used, combos', used');
      used, combos := used', combos';
    }
    assert suits[..|suits|] == suits;
  }

  /** tryFormCombinations: sets from each value group first, then runs per
      suit from the natural cards left over; every card comes from the hand,
      every RUN has the solver's shape, and with distinct ids in the hand no
      card is used twice and every combination is valid. */
  method TryFormCombinations(hand: seq<Card>, round: int) returns (combos: seq<Combination>)
    requires ValidRound(round)
    ensures FromHand(combos, hand)
    ensures forall k, l :: 0 <= k < l < |combos| && combos[k].kind == Run ==> combos[l].kind == Run
    ensures forall k :: 0 <= k < |combos| && combos[k].kind == Run ==> RunShape(combos[k], round)
    ensures DistinctIds(hand) ==> forall k :: 0 <= k < |combos| && combos[k].kind == Set ==> SetShape(combos[k], hand, round)
    ensures DistinctIds(hand) ==> Distinct(AllIds(combos))
    ensures DistinctIds(hand) ==> forall k :: 0 <= k < |combos| ==> CombinationValid(combos[k], round)
    ensures combos == Solve(hand, round)
  {
    var pool := Wilds(hand, round);
    var sets, usedSets := FormSets(hand, round, pool);
    var used;
    combos, used := FormRuns(hand, round, pool, sets, usedSets);
    ghost var runCards := Normals(Unused(hand, usedSets), round);
    Assemble(hand, round, sets, usedSets, runCards, Keys(runCards, SuitOf), combos, used);
  }

  // ---------------------------------------------------------------------------
  // What the solver lays down for two kinds of hand.

  /** When every card carries key k, k is the only key and its group is the
      whole sequence. */
  lemma {:induction false} KeysOfConstant<K>(cards: seq<Card>, key: Card -> K, k: K)
    requires cards != [] && forall c :: c in cards ==> key(c) == k
    ensures Keys(cards, key) == [k] && Select(cards, key, k) == cards
    decreases |cards|
  {
    var init := cards[..|cards| - 1];
    assert cards == init + [cards[|cards| - 1]];
    if init != [] {
      assert forall c :: c in init ==> c in cards;
      KeysOfConstant(init, key, k);
    }
  }

  /** With nothing used, every card is unused. */
  lemma {:induction false} UnusedNone(cards: seq<Card>)
    ensures Unused(cards, {}) == cards
    decreases |cards|
  {
    if cards != [] {
      UnusedNone(cards[1..]);
      assert cards == [cards[0]] + cards[1..];
    }
  }

  /** With every id used, no card is unused. */
  lemma {:induction false} UnusedAll(cards: seq<Card>, used: set<CardId>)
    requires forall c :: c in cards ==> c.id in used
    ensures Unused(cards, used) == []
    decreases |cards|
  {
    if cards != [] {
      assert cards[0] in cards;
      assert forall c :: c in cards[1..] ==> c in cards;
      UnusedAll(cards[1..], used);
    }
  }

  /** No card with key k: an empty group. */
  lemma {:induction false} SelectNone<K>(cards: seq<Card>, key: Card -> K, k: K)
    requires forall c :: c in cards ==> key(c) != k
    ensures Select(cards, key, k) == []
    decreases |cards|
  {
    if cards != [] {
      var init := cards[..|cards| - 1];
      assert forall c :: c in init ==> c in cards;
      SelectNone(init, key, k);
      assert cards[|cards| - 1] in cards;
    }
  }

  /** Cards with pairwise different values put at most one card in each
      value group. */
  lemma {:induction false} SelectAtMostOne(cards: seq<Card>, v: int)
    requires forall i, j :: 0 <= i < j < |cards| ==> cards[i].value != cards[j].value
    ensures |Select(cards, ValueOf, v)| <= 1
    decreases |cards|
  {
    if cards != [] {
      var init := cards[..|cards| - 1];
      var last := cards[|cards| - 1];
      assert forall i, j :: 0 <= i < j < |init| ==> init[i] == cards[i] && init[j] == cards[j];
      SelectAtMostOne(init, v);
      if last.value == v {
        forall c | c in init ensures c.value != v {
          var i :| 0 <= i < |init| && init[i] == c;
          assert cards[i] == c;
        }
        SelectNone(init, ValueOf, v);
      }
    }
  }

  /** With no wildcard in the hand and at most two cards of each value, pass 1
      lays down no SET and uses no card. */
  lemma {:induction false} SetsPassNone(hand: seq<Card>, round: int, values: seq<int>)
    requires ValidRound(round) && Wilds(hand, round) == []
    requires forall v :: |Select(hand, ValueOf, v)| <= 2
    ensures SetsPass(hand, round, [], values) == Progress([], {}, [])
    decreases |values|
  {
    if values != [] {
      SetsPassNone(hand, round, values[..|values| - 1]);
      var v := values[|values| - 1];
      FiltersPartition(Select(hand, ValueOf, v), round);
      assert Unused([], {}) == [];
    }
  }

  /** Insertion sort leaves cards already in ascending order of value as
      they are. */
  lemma {:induction false} SortByValueOfAscending(s: seq<Card>)
    requires forall k :: 0 < k < |s| ==> s[k - 1].value <= s[k].value
    ensures SortByValue(s) == s
    decreases |s|
  {
    if s != [] {
      var t := s[1..];
      assert forall k :: 0 < k < |t| ==> t[k - 1] == s[k] && t[k] == s[k + 1];
      SortByValueOfAscending(t);
      assert SortByValue(s) == InsertByValue(s[0], t);
      if t == [] {
        assert s == [s[0]];
      } else {
        assert t[0] == s[1];
        assert InsertByValue(s[0], t) == [s[0]] + t;
        assert s == [s[0]] + t;
      }
    }
  }

  /** Walking natural cards whose values follow on one by one, from an empty
      buffer, collects them all in the buffer and changes nothing else. */
  lemma {:induction false} WalkAllConsecutive(pool: seq<Card>, combos: seq<Combination>, used: set<CardId>, cards: seq<Card>)
    requires cards != [] && forall k :: 0 < k < |cards| ==> cards[k].value == cards[k - 1].value + 1
    ensures WalkAll(pool, Progress(combos, used, []), cards) == Progress(combos, used, cards)
    decreases |cards|
  {
    var init := cards[..|cards| - 1];
    var last := cards[|cards| - 1];
    assert cards == init + [last];
    if init != [] {
      WalkAllConsecutive(pool, combos, used, init);
      WalkOnto(pool, Progress(combos, used, init), last);
    } else {
      WalkOnto(pool, Progress(combos, used, []), last);
    }
  }

  /** Three or more natural cards of one value are laid down as one SET of
      the whole hand, with no wildcard. */
  lemma SolveSameValue(hand: seq<Card>, round: int, v: int)
    requires ValidRound(round) && |hand| >= MinCombinationSize
    requires forall c :: c in hand ==> !IsWildCard(c, round) && c.value == v
    ensures Solve(hand, round) == [Combination(Set, hand)]
  {
    NormalsOfNaturals(hand, round);
    KeysOfConstant(hand, ValueOf, v);
    SameValueSet(hand, round, v);
    UnusedAll(hand, IdSet(hand));
    assert Normals([], round) == [] && Keys([], SuitOf) == [];
    var sets := SetsPass(hand, round, [], [v]);
    assert RunsPass([], [], sets, []) == sets;
  }

  /** Pass 1 on a hand of natural cards of one value v. */
  lemma SameValueSet(hand: seq<Card>, round: int, v: int)
    requires ValidRound(round) && |hand| >= MinCombinationSize
    requires Normals(hand, round) == hand && Select(hand, ValueOf, v) == hand
    ensures SetsPass(hand, round, [], [v]) == Progress([Combination(Set, hand)], IdSet(hand), [])
  {
    assert [v][..0] == [];
    assert SetsPass(hand, round, [], [v]) == SetFor(hand, round, [], Progress([], {}, []), v);
    assert Unused([], {}) == [] && Unused([], IdSet(hand)) == [];
    assert TakeWildcards([], IdSet(hand), 0) == [];
    assert hand + [] == hand && IdSet([]) == {};
  }

  /** Three or more natural cards of one suit whose values follow on one by
      one, in ascending order, are laid down as one RUN of the whole hand. */
  lemma SolveConsecutive(hand: seq<Card>, round: int, suit: Suit)
    requires ValidRound(round) && |hand| >= MinCombinationSize
    requires forall c :: c in hand ==> !IsWildCard(c, round) && c.suit == suit
    requires forall k :: 0 < k < |hand| ==> hand[k].value == hand[k - 1].value + 1
    ensures Solve(hand, round) == [Combination(Run, hand)]
  {
    NormalsOfNaturals(hand, round);
    ConsecutiveNoSet(hand, round);
    UnusedNone(hand);
    ConsecutiveRun(hand, suit);
  }

  /** Pass 1 lays down nothing on natural cards of distinct values. */
  lemma ConsecutiveNoSet(hand: seq<Card>, round: int)
    requires ValidRound(round) && forall c :: c in hand ==> !IsWildCard(c, round)
    requires forall k :: 0 < k < |hand| ==> hand[k].value == hand[k - 1].value + 1
    ensures SetsPass(hand, round, [], Keys(hand, ValueOf)) == Progress([], {}, [])
  {
    NormalsOfNaturals(hand, round);
    assert Strict(hand);
    StrictAscending(hand);
    forall v ensures |Select(hand, ValueOf, v)| <= 2 {
      SelectAtMostOne(hand, v);
    }
    SetsPassNone(hand, round, Keys(hand, ValueOf));
  }

  /** Pass 2 over one suit whose values follow on one by one emits the
      whole sequence as one RUN. */
  lemma ConsecutiveRun(hand: seq<Card>, suit: Suit)
    requires |hand| >= MinCombinationSize && forall c :: c in hand ==> c.suit == suit
    requires forall k :: 0 < k < |hand| ==> hand[k].value == hand[k - 1].value + 1
    ensures RunsPass([], hand, Progress([], {}, []), Keys(hand, SuitOf)).combos == [Combination(Run, hand)]
  {
    KeysOfConstant(hand, SuitOf, suit);
    SortByValueOfAscending(hand);
    var p0 := Progress([], {}, []);
    assert [suit][..0] == [];
    assert RunsPass([], hand, p0, [suit]) == SuitPass([], p0, hand);
    WalkAllConsecutive([], [], {}, hand);
  }
}

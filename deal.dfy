/**
 * `distribuerCartes`: fifteen rounds in which each of the five hands, in
 * order, takes `deck.pop()`; the chien is then `deck.slice(-6)` of what is
 * left. On the 78-card deck 75 cards are popped, so the chien holds the
 * 3 remaining cards, not 6.
 */
module Dealing {

  /** All the cards held in a list of hands, as one multiset. */
  function HandsMultiset<T>(hands: seq<seq<T>>): multiset<T>
  {
    if hands == [] then multiset{}
    else HandsMultiset(hands[..|hands| - 1]) + multiset(hands[|hands| - 1])
  }

  /** Replacing one hand changes the pooled multiset by exactly that hand's difference. */
  lemma {:induction false} HandsMultisetUpdate<T>(hands: seq<seq<T>>, k: nat, h: seq<T>)
    requires k < |hands|
    ensures HandsMultiset(hands[k := h]) + multiset(hands[k]) == HandsMultiset(hands) + multiset(h)
  {
    var n := |hands| - 1;
    var hands' := hands[k := h];
    assert HandsMultiset(hands') == HandsMultiset(hands'[..n]) + multiset(hands'[n]);
    assert HandsMultiset(hands) == HandsMultiset(hands[..n]) + multiset(hands[n]);
    if k < n {
      assert hands'[..n] == hands[..n][k := h];
      assert hands'[n] == hands[n] && hands[..n][k] == hands[k];
      HandsMultisetUpdate(hands[..n], k, h);
      calc {
        HandsMultiset(hands') + multiset(hands[k]);
        HandsMultiset(hands[..n][k := h]) + multiset(hands[k]) + multiset(hands[n]);
        HandsMultiset(hands[..n]) + multiset(h) + multiset(hands[n]);
        HandsMultiset(hands) + multiset(h);
      }
    } else {
      assert hands'[..n] == hands[..n];
    }
  }

  /** Each hand is part of the pool. */
  lemma {:induction false} HandInMultiset<T>(hands: seq<seq<T>>, k: nat)
    requires k < |hands|
    ensures multiset(hands[k]) <= HandsMultiset(hands)
  {
    var n := |hands| - 1;
    if k < n {
      HandInMultiset(hands[..n], k);
    }
  }

  /** Hands that are all empty hold nothing. */
  lemma {:induction false} NoCardsYet<T>(hands: seq<seq<T>>)
    requires forall k :: 0 <= k < |hands| ==> hands[k] == []
    ensures HandsMultiset(hands) == multiset{}
  {
    if hands != [] {
      NoCardsYet(hands[..|hands| - 1]);
    }
  }

  /**
   * The first `rounds` cards hand `k` (0 to 4) receives: in round `r` it takes
   * the card at position `|deck| - 1 - (5r + k)`.
   */
  function HandAfter<T>(deck: seq<T>, k: nat, rounds: nat): (h: seq<T>)
    requires rounds <= 15 && |deck| >= 75 && k < 5
    ensures |h| == rounds
  {
    seq(rounds, r requires 0 <= r < rounds => deck[|deck| - 1 - (5 * r + k)])
  }

  /** One more round appends one card to the hand. */
  lemma HandAfterStep<T>(deck: seq<T>, k: nat, i: nat)
    requires i < 15 && |deck| >= 75 && k < 5
    ensures HandAfter(deck, k, i + 1) == HandAfter(deck, k, i) + [deck[|deck| - 1 - (5 * i + k)]]
  {
  }

  /** The five hands after `rounds` rounds. */
  function HandsAfter<T>(deck: seq<T>, rounds: nat): (hs: seq<seq<T>>)
    requires rounds <= 15 && |deck| >= 75
    ensures |hs| == 5 && forall k :: 0 <= k < 5 ==> hs[k] == HandAfter(deck, k, rounds)
  {
    seq(5, k requires 0 <= k < 5 => HandAfter(deck, k, rounds))
  }

  /** The five full hands: fifteen rounds. */
  function DealtHands<T>(deck: seq<T>): (hs: seq<seq<T>>)
    requires |deck| >= 75
    ensures |hs| == 5 && forall k :: 0 <= k < 5 ==> |hs[k]| == 15
  {
    HandsAfter(deck, 15)
  }

  /** `slice(-6)` of the cards the deal left: the last six of them, or all when fewer remain. */
  function Chien<T>(deck: seq<T>): (c: seq<T>)
    requires |deck| >= 75
    ensures |c| == if |deck| - 75 < 6 then |deck| - 75 else 6
  {
    var rest := deck[..|deck| - 75];
    if |rest| < 6 then rest else rest[|rest| - 6..]
  }

  /** Five hands pool as the union of the five: a card's count is the sum of its counts in the hands. */
  lemma HandsMultisetFive<T>(hs: seq<seq<T>>, y: T)
    requires |hs| == 5
    ensures HandsMultiset(hs)[y]
         == multiset(hs[0])[y] + multiset(hs[1])[y] + multiset(hs[2])[y] + multiset(hs[3])[y] + multiset(hs[4])[y]
  {
    assert hs[..4][..3] == hs[..3] && hs[..3][..2] == hs[..2] && hs[..2][..1] == hs[..1] && hs[..1][..0] == [];
    assert HandsMultiset(hs[..1]) == multiset(hs[0]);
    assert HandsMultiset(hs[..2]) == HandsMultiset(hs[..1]) + multiset(hs[1]);
    assert HandsMultiset(hs[..3]) == HandsMultiset(hs[..2]) + multiset(hs[2]);
    assert HandsMultiset(hs[..4]) == HandsMultiset(hs[..3]) + multiset(hs[3]);
  }

  /** A value's count in five cards is the number of positions holding it. */
  lemma FiveCounts<T>(c: seq<T>, y: T)
    requires |c| == 5
    ensures multiset(c)[y]
         == multiset{c[0]}[y] + multiset{c[1]}[y] + multiset{c[2]}[y] + multiset{c[3]}[y] + multiset{c[4]}[y]
  {
    assert c == [c[0]] + [c[1]] + [c[2]] + [c[3]] + [c[4]];
  }

  /** One card value at a time: a round adds to its count in the pool its count among the five cards given. */
  lemma RoundPoolAt<T>(a: seq<seq<T>>, b: seq<seq<T>>, c: seq<T>, y: T)
    requires |a| == 5 && |b| == 5 && |c| == 5
    requires forall k :: 0 <= k < 5 ==> b[k] == a[k] + [c[4 - k]]
    ensures HandsMultiset(b)[y] == HandsMultiset(a)[y] + multiset(c)[y]
  {
    HandsMultisetFive(a, y);
    HandsMultisetFive(b, y);
    FiveCounts(c, y);
    assert multiset(b[0]) == multiset(a[0]) + multiset{c[4]};
    assert multiset(b[1]) == multiset(a[1]) + multiset{c[3]};
    assert multiset(b[2]) == multiset(a[2]) + multiset{c[2]};
    assert multiset(b[3]) == multiset(a[3]) + multiset{c[1]};
    assert multiset(b[4]) == multiset(a[4]) + multiset{c[0]};
  }

  /** A round that gives card `c[4 - k]` to hand `k` adds the five cards of `c` to the pool. */
  lemma RoundPool<T>(a: seq<seq<T>>, b: seq<seq<T>>, c: seq<T>)
    requires |a| == 5 && |b| == 5 && |c| == 5
    requires forall k :: 0 <= k < 5 ==> b[k] == a[k] + [c[4 - k]]
    ensures HandsMultiset(b) == HandsMultiset(a) + multiset(c)
  {
    forall y
      ensures HandsMultiset(b)[y] == (HandsMultiset(a) + multiset(c))[y]
    {
      RoundPoolAt(a, b, c, y);
    }
    SameCounts(HandsMultiset(b), HandsMultiset(a) + multiset(c));
  }

  /** Multisets that agree on every count are equal. */
  lemma SameCounts<T>(m: multiset<T>, n: multiset<T>)
    requires forall y :: m[y] == n[y]
    ensures m == n
  {
  }

  /** Round `j` gives the five cards just above the first `|deck| - 5 * (j + 1)` to the hands. */
  lemma DealStep<T>(deck: seq<T>, j: nat)
    requires j < 15 && |deck| >= 75
    ensures HandsMultiset(HandsAfter(deck, j + 1))
         == HandsMultiset(HandsAfter(deck, j)) + multiset(deck[|deck| - 5 * j - 5..|deck| - 5 * j])
  {
    var a, b := HandsAfter(deck, j), HandsAfter(deck, j + 1);
    var m := |deck| - 5 * j;
    var c := deck[m - 5..m];
    forall k | 0 <= k < 5
      ensures b[k] == a[k] + [c[4 - k]]
    {
      HandAfterStep(deck, k, j);
    }
    RoundPool(a, b, c);
  }

  /**
   * After `i` rounds the hands and what is left of the deck hold, together,
   * exactly the cards of the deck: every card popped went to some hand.
   */
  lemma {:induction false} DealtSoFar<T>(deck: seq<T>, i: nat)
    requires i <= 15 && |deck| >= 75
    ensures HandsMultiset(HandsAfter(deck, i)) + multiset(deck[..|deck| - 5 * i]) == multiset(deck)
    decreases i
  {
    var n := |deck|;
    if i == 0 {
      NoCardsYet(HandsAfter(deck, 0));
      assert deck[..n] == deck;
    } else {
      var j := i - 1;
      DealtSoFar(deck, j);
      var m := n - 5 * j;
      var c := deck[m - 5..m];
      assert deck[..m] == deck[..m - 5] + c;
      DealStep(deck, j);
      MoveToHands(HandsMultiset(HandsAfter(deck, i)), HandsMultiset(HandsAfter(deck, j)), multiset(c),
                  multiset(deck[..m - 5]), multiset(deck));
    }
  }

  /** Cards `c` leaving the rest of the deck for the hands leave the total unchanged. */
  lemma MoveToHands<T>(after: multiset<T>, before: multiset<T>, c: multiset<T>, rest: multiset<T>, all: multiset<T>)
    requires before + (rest + c) == all && after == before + c
    ensures after + rest == all
  {
    forall y
      ensures (after + rest)[y] == all[y]
    {
      assert (before + (rest + c))[y] == all[y];
    }
    SameCounts(after + rest, all);
  }

  /** One round of the deal: `playersHands.forEach((hand) => hand.push(deck.pop()))`. */
  method DealRound<T>(deck: seq<T>, i: nat, hands: seq<seq<T>>, rest: seq<T>) returns (hands': seq<seq<T>>, rest': seq<T>)
    requires i < 15 && |deck| >= 75
    requires rest == deck[..|deck| - 5 * i] && hands == HandsAfter(deck, i)
    ensures rest' == deck[..|deck| - 5 * (i + 1)] && hands' == HandsAfter(deck, i + 1)
  {
    hands', rest' := hands, rest;
    for k := 0 to 5
      invariant rest' == deck[..|deck| - 5 * i - k]
      invariant |hands'| == 5
      invariant forall k' :: 0 <= k' < k ==> hands'[k'] == HandAfter(deck, k', i + 1)
      invariant forall k' :: k <= k' < 5 ==> hands'[k'] == HandAfter(deck, k', i)
    {
      var card := rest'[|rest'| - 1];
      assert card == deck[|deck| - 1 - (5 * i + k)];
      HandAfterStep(deck, k, i);
      assert rest'[..|rest'| - 1] == deck[..|deck| - 5 * i - (k + 1)];
      rest' := rest'[..|rest'| - 1];
      hands' := hands'[k := hands'[k] + [card]];
    }
  }

  /**
   * The deal. Each hand takes 15 cards from the tail of the deck, round-robin;
   * when the deck holds at most 81 cards (78 in the game) the chien is all the
   * rest, so hands and chien together are exactly the deck.
   */
  method DistribuerCartes<T>(deck: seq<T>) returns (hands: seq<seq<T>>, chien: seq<T>)
    requires |deck| >= 75
    ensures hands == DealtHands(deck) && chien == Chien(deck)
    ensures |deck| <= 75 + 6 ==> HandsMultiset(hands) + multiset(chien) == multiset(deck)
  {
    hands := [[], [], [], [], []];
    var rest := deck;
    assert hands == HandsAfter(deck, 0);
    for i := 0 to 15
      invariant rest == deck[..|deck| - 5 * i]
      invariant hands == HandsAfter(deck, i)
    {
      hands, rest := DealRound(deck, i, hands, rest);
    }
    chien := if |rest| < 6 then rest else rest[|rest| - 6..];
    DealtSoFar(deck, 15);
  }
}

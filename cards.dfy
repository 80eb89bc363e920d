/**
 * The 78 cards of French Tarot and the deck builder (`createDeck`).
 * The source names cards by display strings ("7 de Cœur", "Dame de Pique",
 * "12 d'Atout", "Excuse"); the 78 strings are pairwise distinct, so a
 * closed datatype stands for them.
 */
module Cards {
  import opened Lists

  datatype Suit = Coeur | Carreau | Trefle | Pique

  datatype Rank = Pip(n: nat) | Valet | Cavalier | Dame | Roi

  datatype Card = Suited(suit: Suit, rank: Rank) | Trump(n: nat) | Excuse

  /** The suits in the order the builder walks them. */
  const Suits: seq<Suit> := [Coeur, Carreau, Trefle, Pique]

  const DeckSize: nat := 78

  /** A card the deck actually contains: pips 1 to 10 and trumps 1 to 21. */
  predicate ValidCard(c: Card)
  {
    match c
    case Suited(_, Pip(n)) => 1 <= n <= 10
    case Suited(_, _) => true
    case Trump(n) => 1 <= n <= 21
    case Excuse => true
  }

  function SuitIndex(s: Suit): (i: nat)
    ensures i < 4 && Suits[i] == s
  {
    match s
    case Coeur => 0
    case Carreau => 1
    case Trefle => 2
    case Pique => 3
  }

  /** Ranks within a suit: 1 to 10, then Valet, Cavalier, Dame, Roi. */
  function RankAt(r: nat): Rank
    requires r < 14
  {
    if r < 10 then Pip(r + 1)
    else if r == 10 then Valet
    else if r == 11 then Cavalier
    else if r == 12 then Dame
    else Roi
  }

  /**
   * The card at position `k` of the built deck, in closed form: suit block
   * `k / 14`, rank `k % 14` within it, then the trumps, then the Excuse.
   */
  function CardAt(k: nat): Card
    requires k < DeckSize
  {
    if k < 56 then Suited(Suits[k / 14], RankAt(k % 14))
    else if k < 77 then Trump(k - 55)
    else Excuse
  }

  /** The position a valid card takes in the built deck (the inverse of `CardAt`). */
  function DeckIndex(c: Card): nat
    requires ValidCard(c)
  {
    match c
    case Suited(s, r) =>
      14 * SuitIndex(s) + (match r
                           case Pip(n) => n - 1
                           case Valet => 10
                           case Cavalier => 11
                           case Dame => 12
                           case Roi => 13)
    case Trump(n) => 55 + n
    case Excuse => 77
  }

  function StandardDeck(): (d: seq<Card>)
  {
    seq(DeckSize, k requires 0 <= k < DeckSize => CardAt(k))
  }

  /** Every position of the deck holds a valid card, and the position can be recovered from the card. */
  lemma CardAtRoundTrip(k: nat)
    requires k < DeckSize
    ensures ValidCard(CardAt(k)) && DeckIndex(CardAt(k)) == k
  {
    if k < 56 {
      assert SuitIndex(Suits[k / 14]) == k / 14;
    }
  }

  /** Every valid card sits in the deck, at the position `DeckIndex` names. */
  lemma DeckIndexRoundTrip(c: Card)
    requires ValidCard(c)
    ensures DeckIndex(c) < DeckSize && CardAt(DeckIndex(c)) == c
  {
    if c.Suited? {
      var s, r := SuitIndex(c.suit), DeckIndex(c) - 14 * SuitIndex(c.suit);
      assert 0 <= r < 14;
      assert (14 * s + r) / 14 == s && (14 * s + r) % 14 == r by {
        if s == 0 {} else if s == 1 {} else if s == 2 {} else {}
      }
    }
  }

  /** The 78 cards are pairwise distinct. */
  lemma StandardDeckDistinct()
    ensures Distinct(StandardDeck())
  {
    var d := StandardDeck();
    forall i, j | 0 <= i < j < |d|
      ensures d[i] != d[j]
    {
      CardAtRoundTrip(i);
      CardAtRoundTrip(j);
    }
  }

  /** The deck holds each valid card exactly once and nothing else. */
  lemma StandardDeckCounts()
    ensures |StandardDeck()| == DeckSize
    ensures forall c :: multiset(StandardDeck())[c] == if ValidCard(c) then 1 else 0
  {
    var d := StandardDeck();
    StandardDeckDistinct();
    DistinctCounts(d);
    forall c
      ensures c in d <==> ValidCard(c)
    {
      if ValidCard(c) {
        DeckIndexRoundTrip(c);
        assert d[DeckIndex(c)] == c;
      }
      if c in d {
        var k :| 0 <= k < |d| && d[k] == c;
        CardAtRoundTrip(k);
      }
    }
  }

  /**
   * `createDeck`: for each suit the pips 1 to 10 followed by the four
   * honours, then trumps 1 to 21, then the Excuse, pushed one by one.
   */
  method CreateDeck() returns (deck: seq<Card>)
    ensures deck == StandardDeck()
    ensures |deck| == DeckSize && Distinct(deck)
  {
    deck := [];
    for s := 0 to 4
      invariant |deck| == 14 * s
      invariant forall k :: 0 <= k < |deck| ==> deck[k] == CardAt(k)
    {
      var suit := Suits[s];
      for i := 1 to 11
        invariant |deck| == 14 * s + i - 1
        invariant forall k :: 0 <= k < |deck| ==> deck[k] == CardAt(k)
      {
        SuitBlock(s, i - 1);
        deck := deck + [Suited(suit, Pip(i))];
      }
      SuitBlock(s, 10);
      SuitBlock(s, 11);
      SuitBlock(s, 12);
      SuitBlock(s, 13);
      deck := deck + [Suited(suit, Valet)];
      deck := deck + [Suited(suit, Cavalier)];
      deck := deck + [Suited(suit, Dame)];
      deck := deck + [Suited(suit, Roi)];
    }
    for i := 1 to 22
      invariant |deck| == 55 + i
      invariant forall k :: 0 <= k < |deck| ==> deck[k] == CardAt(k)
    {
      deck := deck + [Trump(i)];
    }
    deck := deck + [Excuse];
    StandardDeckDistinct();
  }

  /** Position `14 * s + r` of the deck is rank `r` of suit `s`. */
  lemma SuitBlock(s: nat, r: nat)
    requires s < 4 && r < 14
    ensures CardAt(14 * s + r) == Suited(Suits[s], RankAt(r))
  {
    assert (14 * s + r) / 14 == s && (14 * s + r) % 14 == r by {
      if s == 0 {} else if s == 1 {} else if s == 2 {} else {}
    }
  }
}

/**
 * The referee of one five-player session: the module-level state
 * (`players`, `hands`, `chien`, `currentTurn`, `playedCards`) and the three
 * socket handlers that update it (`connection`, `playCard`, `disconnect`).
 * Each handler runs to completion before the next event, so each is one method.
 */
module Session {
  import opened Lists
  import opened Cards
  import opened Shuffling
  import opened Dealing

  /** The transport's identity for one connection (`socket.id`). */
  type PlayerId = string

  /** One entry of `playedCards`: `{ playerId, card }`. */
  datatype Play = Play(playerId: PlayerId, card: Card)

  /** What a connection gets: a seat (0-based, in join order) and whether this join started the game, or a refusal. */
  datatype JoinOutcome = Seated(seat: nat, started: bool) | Full

  /**
   * What a play request gets. `HandsUndealt` stands for the request that
   * reaches `hands[playerIndex].includes` before any deal, where the handler throws.
   */
  datatype PlayOutcome =
    | NotYourTurn
    | HandsUndealt
    | CardNotHeld
    | NextTurn(turn: nat)
    | TrickComplete(trick: seq<Play>)
  {
    predicate Accepted() { NextTurn? || TrickComplete? }
  }

  const Seats: nat := 5

  /** The cards in the hands and the chien are cards of the deck, each at most once. */
  ghost predicate WithinDeck(hands: seq<seq<Card>>, chien: seq<Card>)
  {
    HandsMultiset(hands) + multiset(chien) <= multiset(StandardDeck())
  }

  /** Every card is in at most one place: no two hands, and no hand and the chien, share a card. */
  lemma CardHeldOnce(hands: seq<seq<Card>>, chien: seq<Card>, j: nat, k: nat, c: Card)
    requires WithinDeck(hands, chien)
    requires j < |hands| && k < |hands| && j != k
    ensures !(c in hands[j] && c in hands[k])
    ensures c in hands[j] ==> c !in chien && multiset(hands[j])[c] == 1
  {
    TwoHandsInMultiset(hands, j, k);
    StandardDeckCounts();
    HandInMultiset(hands, j);
    assert (HandsMultiset(hands) + multiset(chien))[c] <= 1;
  }

  /** Two distinct hands are both part of the pool. */
  lemma {:induction false} TwoHandsInMultiset(hands: seq<seq<Card>>, j: nat, k: nat)
    requires j < |hands| && k < |hands| && j != k
    ensures multiset(hands[j]) + multiset(hands[k]) <= HandsMultiset(hands)
  {
    var n := |hands| - 1;
    if j < n && k < n {
      TwoHandsInMultiset(hands[..n], j, k);
    } else if j == n {
      HandInMultiset(hands[..n], k);
    } else {
      HandInMultiset(hands[..n], j);
    }
  }

  /** Shrinking one hand shrinks the pool. */
  lemma HandsMultisetShrink(hands: seq<seq<Card>>, k: nat, h: seq<Card>)
    requires k < |hands| && multiset(h) <= multiset(hands[k])
    ensures HandsMultiset(hands[k := h]) <= HandsMultiset(hands)
  {
    HandsMultisetUpdate(hands, k, h);
    var after, before := HandsMultiset(hands[k := h]), HandsMultiset(hands);
    forall c
      ensures after[c] <= before[c]
    {
      assert (after + multiset(hands[k]))[c] == (before + multiset(h))[c];
    }
  }

  /**
   * Removing a held card: exactly one copy leaves the hand (the deck has no
   * duplicates), and the pool of hands and chien stays within the deck.
   */
  lemma RemoveHeldCard(hands: seq<seq<Card>>, chien: seq<Card>, k: nat, c: Card)
    requires WithinDeck(hands, chien)
    requires k < |hands| && c in hands[k]
    ensures multiset(Without(hands[k], c)) == multiset(hands[k]) - multiset{c}
    ensures |Without(hands[k], c)| == |hands[k]| - 1
    ensures WithinDeck(hands[k := Without(hands[k], c)], chien)
  {
    HandInMultiset(hands, k);
    WithoutCounts(hands[k], c);
    StandardDeckCounts();
    assert (HandsMultiset(hands) + multiset(chien))[c] <= 1;
    assert multiset(hands[k])[c] == 1;
    HandsMultisetShrink(hands, k, Without(hands[k], c));
  }

  /**
   * The deal of a shuffled 78-card deck: five hands of 15 cards and a chien
   * of 3, which between them hold every card of the deck exactly once.
   */
  lemma GameDeal(js: seq<nat>)
    requires ValidOracle(js, DeckSize)
    ensures var deck := Shuffled(StandardDeck(), js);
      var hands, chien := DealtHands(deck), Chien(deck);
      && (forall k :: 0 <= k < Seats ==> |hands[k]| == 15)
      && |chien| == 3
      && HandsMultiset(hands) + multiset(chien) == multiset(StandardDeck())
  {
    var deck := Shuffled(StandardDeck(), js);
    ShuffledPermutes(StandardDeck(), js);
    DealtSoFar(deck, 15);
  }

  /** Advancing the cursor modulo the player count wraps to 0 exactly after the last seat. */
  lemma NextSeat(t: nat, p: nat)
    requires t < p
    ensures (t + 1) % p == if t + 1 == p then 0 else t + 1
  {
  }

  /**
   * `distribuerCartes(shuffle(createDeck()))`: a fresh deck, shuffled with the
   * oracle `js`, dealt into five hands of 15 cards and a chien of 3 that
   * between them hold every card of the deck exactly once.
   */
  method NewDeal(js: seq<nat>) returns (hands: seq<seq<Card>>, chien: seq<Card>)
    requires ValidOracle(js, DeckSize)
    ensures hands == DealtHands(Shuffled(StandardDeck(), js)) && chien == Chien(Shuffled(StandardDeck(), js))
    ensures |hands| == Seats && (forall k :: 0 <= k < Seats ==> |hands[k]| == 15) && |chien| == 3
    ensures HandsMultiset(hands) + multiset(chien) == multiset(StandardDeck())
  {
    var cards := CreateDeck();
    var deck := new Card[|cards|](k requires 0 <= k < |cards| => cards[k]);
    assert deck[..] == cards;
    Shuffle(deck, js);
    hands, chien := DistribuerCartes(deck[..]);
    GameDeal(js);
  }

  class GameSession {
    var players: seq<PlayerId>
    var hands: seq<seq<Card>>
    var chien: seq<Card>
    var currentTurn: nat
    var playedCards: seq<Play>

    /**
     * At most five seats; the turn cursor always equals the length of the
     * current trick and stays below 5; there are no hands before the first
     * deal and five after; the cards in the hands and the chien are cards of
     * the deck, each at most once.
     */
    ghost predicate Valid()
      reads this
    {
      && |players| <= Seats
      && currentTurn == |playedCards| < Seats
      && (|hands| == 0 || |hands| == Seats)
      && WithinDeck(hands, chien)
    }

    /** The state after a deal from `deck`. */
    ghost predicate DealtFrom(deck: seq<Card>)
      reads this
      requires |deck| >= 75
    {
      hands == DealtHands(deck) && chien == Chien(deck)
    }

    /** The module's initial values. */
    constructor ()
      ensures Valid()
      ensures players == [] && hands == [] && chien == [] && currentTurn == 0 && playedCards == []
    {
      players, hands, chien, currentTurn, playedCards := [], [], [], 0, [];
    }

    /**
     * The `connection` handler. Below five players the id takes the next
     * seat; at five it is refused and nothing changes. The join that brings
     * the count to exactly five builds, shuffles (with the oracle `js`) and
     * deals a fresh deck; the turn cursor and the current trick are left as
     * they were.
     */
    method Connect(id: PlayerId, js: seq<nat>) returns (r: JoinOutcome)
      requires Valid() && ValidOracle(js, DeckSize)
      modifies this
      ensures Valid()
      ensures currentTurn == old(currentTurn) && playedCards == old(playedCards)
      ensures old(|players|) < Seats ==> r == Seated(old(|players|), |players| == Seats) && players == old(players) + [id]
      ensures old(|players|) >= Seats ==> r == Full && players == old(players)
      ensures r.Seated? && r.started ==> DealtFrom(Shuffled(StandardDeck(), js))
      ensures !(r.Seated? && r.started) ==> hands == old(hands) && chien == old(chien)
    {
      if |players| < Seats {
        players := players + [id];
        r := Seated(|players| - 1, |players| == Seats);
        if |players| == Seats {
          hands, chien := NewDeal(js);
        }
      } else {
        r := Full;
      }
    }

    /**
     * The `playCard` handler. The caller's seat is `indexOf` its id (-1 when
     * it holds none). The play is refused, with nothing changed, when that
     * seat is not the turn cursor or the card is not in the seat's hand.
     * Otherwise the card leaves the hand, the play is appended to the trick
     * and the cursor moves to the next seat modulo the player count; when the
     * trick then holds one play per player it is reported and emptied.
     */
    method PlayCard(id: PlayerId, card: Card) returns (r: PlayOutcome)
      requires Valid()
      modifies this
      ensures Valid()
      ensures players == old(players) && chien == old(chien)
      ensures IndexOf(players, id) != old(currentTurn) ==> r == NotYourTurn
      ensures IndexOf(players, id) == old(currentTurn) && old(|hands|) == 0 ==> r == HandsUndealt
      ensures IndexOf(players, id) == old(currentTurn) && old(|hands|) > 0 && card !in old(hands)[old(currentTurn)] ==> r == CardNotHeld
      ensures IndexOf(players, id) == old(currentTurn) && old(|hands|) > 0 && card in old(hands)[old(currentTurn)] ==> r.Accepted()
      ensures !r.Accepted() ==> hands == old(hands) && currentTurn == old(currentTurn) && playedCards == old(playedCards)
      ensures r.Accepted() ==>
        var seat := old(currentTurn);
        && seat == IndexOf(players, id) && seat < |hands|
        && card in old(hands)[seat]
        && hands == old(hands)[seat := Without(old(hands)[seat], card)]
        && |hands[seat]| == |old(hands)[seat]| - 1
        && multiset(hands[seat]) == multiset(old(hands)[seat]) - multiset{card}
        && currentTurn == (seat + 1) % |players|
      ensures r.Accepted() ==> (r.TrickComplete? <==> |old(playedCards)| + 1 == |players|)
      ensures r.TrickComplete? ==> r.trick == old(playedCards) + [Play(id, card)] && playedCards == [] && currentTurn == 0
      ensures r.NextTurn? ==> r.turn == currentTurn && playedCards == old(playedCards) + [Play(id, card)]
    {
      var seat := IndexOf(players, id);
      if seat != currentTurn {
        return NotYourTurn;
      }
      if seat >= |hands| {
        return HandsUndealt;
      }
      if card !in hands[seat] {
        return CardNotHeld;
      }
      r := Accept(id, seat, card);
    }

    /** An accepted play: the checks of `playCard` passed for `id`, at `seat`, with `card`. */
    method Accept(id: PlayerId, seat: nat, card: Card) returns (r: PlayOutcome)
      requires Valid()
      requires seat == currentTurn == IndexOf(players, id) && seat < |hands| && card in hands[seat]
      modifies this
      ensures Valid()
      ensures r.Accepted()
      ensures players == old(players) && chien == old(chien)
      ensures hands == old(hands)[seat := Without(old(hands)[seat], card)]
      ensures |hands[seat]| == |old(hands)[seat]| - 1
      ensures multiset(hands[seat]) == multiset(old(hands)[seat]) - multiset{card}
      ensures currentTurn == (seat + 1) % |players|
      ensures r.TrickComplete? <==> |old(playedCards)| + 1 == |players|
      ensures r.TrickComplete? ==> r.trick == old(playedCards) + [Play(id, card)] && playedCards == [] && currentTurn == 0
      ensures r.NextTurn? ==> r.turn == currentTurn && playedCards == old(playedCards) + [Play(id, card)]
    {
      var held := Without(hands[seat], card);
      RemoveHeldCard(hands, chien, seat, card);
      var trick := playedCards + [Play(id, card)];
      NextSeat(currentTurn, |players|);
      var next := (currentTurn + 1) % |players|;
      if |trick| == |players| {
        r := TrickComplete(trick);
        trick := [];
      } else {
        r := NextTurn(next);
      }
      hands, playedCards, currentTurn := hands[seat := held], trick, next;
    }

    /**
     * The `disconnect` handler: the id leaves the seat list, the others close
     * up in their order (so later seats are renumbered), and the hands, the
     * chien, the turn cursor and the trick stay as they were.
     */
    method Disconnect(id: PlayerId)
      requires Valid()
      modifies this
      ensures Valid()
      ensures players == Without(old(players), id)
      ensures id !in players && |players| == |old(players)| - multiset(old(players))[id]
      ensures id !in old(players) ==> players == old(players)
      ensures hands == old(hands) && chien == old(chien)
      ensures currentTurn == old(currentTurn) && playedCards == old(playedCards)
    {
      if id !in players {
        WithoutAbsent(players, id);
      }
      WithoutCounts(players, id);
      players := Without(players, id);
      assert id !in multiset(players);
    }
  }

  /** Five players join a new session in order; the last join deals. */
  method SeatFive(ids: seq<PlayerId>, js: seq<nat>) returns (s: GameSession, joins: seq<JoinOutcome>)
    requires |ids| == Seats && ValidOracle(js, DeckSize)
    ensures fresh(s) && s.Valid()
    ensures joins == [Seated(0, false), Seated(1, false), Seated(2, false), Seated(3, false), Seated(4, true)]
    ensures s.players == ids
    ensures s.DealtFrom(Shuffled(StandardDeck(), js))
    ensures |s.hands| == Seats && (forall k :: 0 <= k < Seats ==> |s.hands[k]| == 15) && |s.chien| == 3
    ensures HandsMultiset(s.hands) + multiset(s.chien) == multiset(StandardDeck())
    ensures s.currentTurn == 0 && s.playedCards == []
  {
    s, joins := SeatFour(ids[..4], js);
    var r4 := s.Connect(ids[4], js);
    joins := joins + [r4];
    assert s.players == ids[..4] + [ids[4]] == ids;
    GameDeal(js);
  }

  /** Four players join a new session in order: seats 0 to 3, and no deal yet. */
  method SeatFour(ids: seq<PlayerId>, js: seq<nat>) returns (s: GameSession, joins: seq<JoinOutcome>)
    requires |ids| == 4 && ValidOracle(js, DeckSize)
    ensures fresh(s) && s.Valid()
    ensures joins == [Seated(0, false), Seated(1, false), Seated(2, false), Seated(3, false)]
    ensures s.players == ids && s.hands == [] && s.chien == []
    ensures s.currentTurn == 0 && s.playedCards == []
  {
    s := new GameSession();
    var r0 := s.Connect(ids[0], js);
    var r1 := s.Connect(ids[1], js);
    var r2 := s.Connect(ids[2], js);
    var r3 := s.Connect(ids[3], js);
    joins := [r0, r1, r2, r3];
    assert s.players == [ids[0], ids[1], ids[2], ids[3]];
  }

  /**
   * After five joins, the first player plays the first card of their hand
   * and is accepted, turn passing to seat 1; the second then tries the same
   * card, which is in no hand any more, and is refused with the cursor still
   * on seat 1.
   */
  method OpeningMoves(ids: seq<PlayerId>, js: seq<nat>) returns (joins: seq<JoinOutcome>, first: PlayOutcome, second: PlayOutcome, turn: nat)
    requires |ids| == Seats && ids[0] != ids[1] && ValidOracle(js, DeckSize)
    ensures joins == [Seated(0, false), Seated(1, false), Seated(2, false), Seated(3, false), Seated(4, true)]
    ensures first == NextTurn(1)
    ensures second == CardNotHeld && turn == 1
  {
    var s;
    s, joins := SeatFive(ids, js);
    var card := s.hands[0][0];
    CardHeldOnce(s.hands, s.chien, 0, 1, card);
    assert IndexOf(s.players, ids[0]) == 0;
    first := s.PlayCard(ids[0], card);
    assert s.currentTurn == 1 && card !in s.hands[1];
    assert IndexOf(s.players, ids[1]) == 1;
    second := s.PlayCard(ids[1], card);
    turn := s.currentTurn;
  }
}

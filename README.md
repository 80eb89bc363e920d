# Tarot referee — a Dafny model

`Desktop/tarot/index.js` is the server of a single five-player French Tarot
session. It keeps five module-level variables:

- `players`: socket ids in join order; the index is the seat;
- `hands`: one card array per seat;
- `chien`: the cards dealt to nobody;
- `currentTurn`: the seat that must play next;
- `playedCards`: the plays of the trick in progress.

The server reacts to three socket events:

- **connection**: seats the newcomer while fewer than five are seated. The fifth join builds the 78-card deck, shuffles it and deals it.
- **playCard**: checks whose turn it is and that the card is held. It then moves the card from the hand to the trick and advances the turn, clearing the trick once it holds one play per seated player.
- **disconnect**: drops the id from the seat list.

The model is split into five modules:

- `Lists` (`lists.dfy`) covers the three array queries the handlers use:
  - `indexOf` as `IndexOf`;
  - `includes` as Dafny's `in`;
  - `filter(x => x !== v)` as `Without`.
- `Cards` (`cards.dfy`) holds the cards and `createDeck`, written as nested loops over a growing sequence.
  - A card is a datatype `Suited(suit, rank) | Trump(n) | Excuse`.
  - The source's 78 display strings are pairwise distinct, so the datatype is an exact stand-in for them.
- `Shuffling` (`shuffle.dfy`) holds `shuffle`, the Fisher-Yates loop on an `array`.
  - The random index of step `i` comes from an oracle sequence `js` with `js[i] <= i`.
  - The loop is proved equal to a recursive specification, `Shuffled`.
  - A lemma proves that `Shuffled` is a permutation.
- `Dealing` (`deal.dfy`) holds `distribuerCartes`: fifteen rounds, each giving every one of the five hands the card popped from the tail.
  - The method is proved equal to a closed form (`DealtHands`, `Chien`).
  - A lemma proves that the closed form partitions the deck.
- `Session` (`session.dfy`) is the class `GameSession`. It has the five variables as fields and one method per handler.
  - `Valid()` is the invariant every handler keeps:
    - at most five players;
    - the turn cursor equals the length of the trick and is below five;
    - no hands or five hands;
    - every card in the hands and the chien is a deck card held once.
  - Each handler's contract states the new value of every field.

The cursor clause (cursor equal to trick length, below five) is not written in the source. Two facts make it hold:

- A play is accepted only from the seat equal to the cursor, and that seat exists. So a trick can never outgrow the seat count.
- Disconnects never touch the cursor or the trick.

Some behaviour the model keeps from the code as written:

- **A redeal keeps the old turn and trick.** When a player leaves and someone rejoins, the count reaches five again and a fresh deal replaces every hand. The turn cursor and the trick are not reset: `Connect` keeps them as they were.
- **Seats are renumbered but hands are not.** A disconnect renumbers the seats after the leaver, but `hands` keeps its old indexing.
- **The chien has three cards.** On the 78-card deck the fifteen rounds pop 75 cards. So `deck.slice(-6)` returns the 3 cards that are left, even though the comment next to it speaks of six. The model follows the code: 5 × 15 + 3 = 78, which is the five-player Tarot deal.

## Model

| member | source | states |
|---|---|---|
| Lists.IndexOf | Desktop/tarot/index.js:97 | the seat lookup returns -1 exactly when the id is absent; otherwise it returns a position holding the id with no earlier occurrence |
| Lists.WithoutCounts | Desktop/tarot/index.js:110 | filtering removes every copy of the value and keeps every other value exactly as often as before; the length drops by the number of copies |
| Lists.WithoutConcat | Desktop/tarot/index.js:130 | filtering works piecewise over a concatenation, so the values kept stay in their relative order |
| Lists.WithoutAbsent | Desktop/tarot/index.js:130 | filtering out a value that does not occur leaves the list as it was |
| Cards.CreateDeck | Desktop/tarot/index.js:22-43 | the built deck is, position by position, each suit's pips 1-10 then Valet, Cavalier, Dame, Roi, then trumps 1-21, then the Excuse; it has 78 pairwise distinct cards |
| Cards.CardAtRoundTrip | Desktop/tarot/index.js:22-43 | every position of the deck holds a valid card from which the position can be recovered |
| Cards.DeckIndexRoundTrip | Desktop/tarot/index.js:22-43 | every valid card (pips 1-10, the four honours, trumps 1-21, the Excuse) appears in the deck |
| Cards.StandardDeckDistinct | Desktop/tarot/index.js:22-43 | no card occurs twice in the deck |
| Cards.StandardDeckCounts | Desktop/tarot/index.js:22-43 | the deck has 78 cards and contains each valid card exactly once and nothing else |
| Shuffling.Swap | Desktop/tarot/index.js:49 | the destructuring swap exchanges positions `i` and `j` and leaves every other position alone |
| Shuffling.SwapPermutes | Desktop/tarot/index.js:49 | a swap keeps the multiset of elements |
| Shuffling.ShuffleFromPermutes | Desktop/tarot/index.js:47-50 | any number of the loop's steps keep the multiset of elements, whatever indices the oracle supplies |
| Shuffling.ShuffledPermutes | Desktop/tarot/index.js:46-52 | the whole shuffle returns a permutation of its input |
| Shuffling.Shuffle | Desktop/tarot/index.js:46-52 | the in-place loop leaves the array equal to the specification `Shuffled` of its old contents, which is a permutation of them |
| Dealing.Chien | Desktop/tarot/index.js:62 | `slice(-6)` of what the deal left has 6 cards, or as many as are left when fewer than 6 remain |
| Dealing.HandAfterStep | Desktop/tarot/index.js:57-60 | a round appends exactly one card to each hand: in round `i`, hand `k` gets the card at position `length - 1 - (5i + k)` |
| Dealing.DealRound | Desktop/tarot/index.js:57-60 | one round pops five cards from the tail, giving one to each hand in seat order, and leaves the rest of the deck as its prefix |
| Dealing.DealStep | Desktop/tarot/index.js:57-60 | one round moves exactly the five cards just above the remaining prefix into the hands |
| Dealing.DealtSoFar | Desktop/tarot/index.js:55-61 | after any number of rounds, the hands and the remaining deck together hold exactly the cards of the deck |
| Dealing.DistribuerCartes | Desktop/tarot/index.js:55-63 | the deal produces five hands of 15 cards, hand `k`'s card of round `i` being the deck's card at `length - 1 - (5i + k)`, and the chien `slice(-6)` of the rest; when the deck holds at most 81 cards, hands and chien together are exactly the deck |
| Session.GameDeal | Desktop/tarot/index.js:78-81 | dealing a shuffled fresh deck gives five 15-card hands and a 3-card chien, which between them hold every card of the deck exactly once |
| Session.NewDeal | Desktop/tarot/index.js:78-81 | build, shuffle with the oracle and deal, giving the closed-form hands and chien of the shuffled deck with the sizes and the partition above |
| Session.CardHeldOnce | Desktop/tarot/index.js:104 | while the invariant holds, no card is in two hands, and a held card is not in the chien and occurs once in its hand |
| Session.RemoveHeldCard | Desktop/tarot/index.js:110 | filtering a held card out of a hand removes exactly one copy, so the hand shrinks by one and the invariant still holds |
| Session.NextSeat | Desktop/tarot/index.js:116 | advancing the cursor modulo the player count moves to the next seat, wrapping to 0 exactly after the last one |
| Session.GameSession.constructor | Desktop/tarot/index.js:15-19 | a session starts with no players, hands, chien or plays, and the cursor at 0 |
| Session.GameSession.Connect | Desktop/tarot/index.js:71-92 | below five players the id takes seat `old count` and is appended; at five the join is refused and nothing changes; the join that makes the count exactly five deals the shuffled fresh deck and reports the start; the cursor and the trick never change; the invariant is kept |
| Session.GameSession.PlayCard | Desktop/tarot/index.js:96-124 | the play is refused with nothing changed when the caller's seat is not the cursor, when no deal has happened, or when the card is not in the seat's hand; these three are the only refusals; an accepted play filters the card out of that hand only, shrinking it by one; the turn becomes `(seat + 1) % players`; the trick is reported and emptied exactly when it reaches one play per player, and otherwise gets the play appended; players and chien never change; the invariant is kept |
| Session.GameSession.Accept | Desktop/tarot/index.js:110-121 | the effect of an accepted play, as in `PlayCard` |
| Session.GameSession.Disconnect | Desktop/tarot/index.js:128-131 | every copy of the id leaves the seat list, the others keep their order, an unknown id changes nothing, and hands, chien, cursor and trick are untouched |
| Session.SeatFour | Desktop/tarot/index.js:71-75 | four joins on a new session take seats 0 to 3 in order, none starting the game: no hands, no chien, an empty trick and the cursor on seat 0 |
| Session.SeatFive | Desktop/tarot/index.js:71-92 | five joins on a new session take seats 0 to 4 in order, the fifth starting the game; the session then satisfies the invariant and holds the deal of the shuffled fresh deck: five 15-card hands and a 3-card chien that together hold every card of the deck exactly once, with an empty trick and the cursor on seat 0 |
| Session.OpeningMoves | Desktop/tarot/index.js:96-124 | after five joins, seat 0 playing its first card is accepted and the turn passes to seat 1; seat 1 then offering the same card is refused as not held, with the cursor still on seat 1 |

## Left out

- HTTP, Express and socket.io setup, static files and `server.listen` (index.js:1-12, 135-138): transport with no game logic.
- Every `emit` and `console.log`. Each handler instead returns an outcome datatype (`Seated`/`Full`, `NotYourTurn`/`HandsUndealt`/`CardNotHeld`/`NextTurn`/`TrickComplete`). The dealt hands and the chien are available as fields rather than as messages.
- `socket.disconnect()` on a refused connection: the outcome is `Full` with no state change. The refused id was never seated, so its later disconnect event would change nothing either (`Disconnect` proves that an unknown id leaves everything unchanged).
- `Math.random` and `Math.floor(Math.random() * (i + 1))` (index.js:48): replaced by an oracle sequence whose entry `i` lies in `[0, i]`. Nothing is claimed about the distribution of the shuffle.
- Concurrency: Node runs each handler to completion, so each handler is one atomic method.
- The crash of `playCard` before any deal, where `hands[playerIndex]` is undefined and `.includes` throws. It is modelled as the outcome `HandsUndealt`, with no state change. In the source the `TypeError` is thrown inside a socket.io listener, is not caught and ends the Node process, so every later event is lost: `HandsUndealt` is to be read as terminal. The model does not capture the end of the process.
- Card payloads that are not cards: the source accepts any value from the client as `card`; the model types it as `Card`. Such a value is not in any hand, so the source refuses it as not held, which is the same outcome.
- The display strings of the cards (`"7 de Cœur"`, `"12 d'Atout"`): replaced by the card datatype, which is in one-to-one correspondence with them.
- Dealing.DistribuerCartes: the source pops the shuffled array it is given, leaving that array holding only the undealt cards. The model takes the deck as a value and keeps the shrinking deck as a local sequence; that array, left holding only the undealt cards, is discarded by the caller anyway.

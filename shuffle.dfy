/**
 * `shuffle`: the in-place Fisher-Yates loop. The random choice
 * `Math.floor(Math.random() * (i + 1))` of step `i` is taken from an oracle
 * `js`, whose entry `js[i]` is any index in `[0, i]`.
 */
module Shuffling {

  /** `js` can drive a shuffle of `n` elements: one choice per step `i` in `[1, n)`, each at most `i`. */
  predicate ValidOracle(js: seq<nat>, n: nat)
  {
    |js| == n && forall i :: 0 < i < n ==> js[i] <= i
  }

  /** The destructuring swap `[s[i], s[j]] = [s[j], s[i]]`. */
  function Swap<T>(s: seq<T>, i: nat, j: nat): (r: seq<T>)
    requires i < |s| && j < |s|
    ensures |r| == |s| && r[i] == s[j] && r[j] == s[i]
    ensures forall k :: 0 <= k < |s| && k != i && k != j ==> r[k] == s[k]
  {
    s[i := s[j]][j := s[i]]
  }

  /** The steps `i, i - 1, ..., 1` of the loop applied to `s`. */
  function ShuffleFrom<T>(s: seq<T>, js: seq<nat>, i: nat): (r: seq<T>)
    requires i < |s| && ValidOracle(js, |s|)
    ensures |r| == |s|
    decreases i
  {
    if i == 0 then s else ShuffleFrom(Swap(s, i, js[i]), js, i - 1)
  }

  /** The whole loop, from `i = |s| - 1` down to 1. */
  function Shuffled<T>(s: seq<T>, js: seq<nat>): (r: seq<T>)
    requires ValidOracle(js, |s|)
    ensures |r| == |s|
  {
    if |s| == 0 then s else ShuffleFrom(s, js, |s| - 1)
  }

  /** One swap only reorders. */
  lemma SwapPermutes<T>(s: seq<T>, i: nat, j: nat)
    requires i < |s| && j < |s|
    ensures multiset(Swap(s, i, j)) == multiset(s)
  {
    var t := s[i := s[j]];
    assert multiset(t) == multiset(s) - multiset{s[i]} + multiset{s[j]};
  }

  /** Any number of steps only reorder: same length, same multiset of elements. */
  lemma {:induction false} ShuffleFromPermutes<T>(s: seq<T>, js: seq<nat>, i: nat)
    requires i < |s| && ValidOracle(js, |s|)
    ensures multiset(ShuffleFrom(s, js, i)) == multiset(s)
    decreases i
  {
    if i > 0 {
      var t := Swap(s, i, js[i]);
      SwapPermutes(s, i, js[i]);
      ShuffleFromPermutes(t, js, i - 1);
    }
  }

  /** The shuffled deck is a permutation of the input, whatever the oracle chose. */
  lemma ShuffledPermutes<T>(s: seq<T>, js: seq<nat>)
    requires ValidOracle(js, |s|)
    ensures multiset(Shuffled(s, js)) == multiset(s)
  {
    if |s| > 0 {
      ShuffleFromPermutes(s, js, |s| - 1);
    }
  }

  /** The loop of `shuffle`, swapping in place from the last position down to position 1. */
  method Shuffle<T>(deck: array<T>, js: seq<nat>)
    requires ValidOracle(js, deck.Length)
    modifies deck
    ensures deck[..] == Shuffled(old(deck[..]), js)
    ensures multiset(deck[..]) == multiset(old(deck[..]))
  {
    var i := deck.Length - 1;
    while i > 0
      invariant -1 <= i < deck.Length
      invariant deck.Length == 0 ==> deck[..] == old(deck[..])
      invariant deck.Length > 0 ==> 0 <= i && ShuffleFrom(deck[..], js, i) == Shuffled(old(deck[..]), js)
    {
      var j := js[i];
      ghost var before := deck[..];
      deck[i], deck[j] := deck[j], deck[i];
      assert deck[..] == Swap(before, i, j);
      i := i - 1;
    }
    ShuffledPermutes(old(deck[..]), js);
  }
}

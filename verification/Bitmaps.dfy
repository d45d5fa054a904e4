/** Arrays of 64-bit words seen as finite sets of numbers. */
module Bitmaps {
  import opened Words

  /** Word `k` shows the numbers `64 * k .. 64 * (k + 1)` of `members`. */
  ghost predicate Shows(w: u64, members: set<nat>, k: nat) {
    forall j: nat {:trigger Bit(w, j)} :: j < 64 ==> (Bit(w, j) <==> 64 * k + j in members)
  }

  ghost predicate Refines(words: seq<u64>, members: set<nat>) {
    forall k: nat :: k < |words| ==> Shows(words[k], members, k)
  }

  /** The word with bit `j` switched. */
  function Switched(w: u64, j: nat, on: bool): u64
    requires j < 64
  {
    Pow2At64();
    BitUpdatesFit(w, j, 64);
    if on then WithBit(w, j) else WithoutBit(w, j)
  }

  lemma SwitchKeepsShows(w: u64, j: nat, on: bool, members: set<nat>, k: nat)
    requires Shows(w, members, k) && j < 64
    ensures Shows(Switched(w, j, on), if on then members + {64 * k + j} else members - {64 * k + j}, k)
  {
    forall i: nat | i < 64
      ensures Bit(Switched(w, j, on), i) <==> (if i == j then on else 64 * k + i in members)
    {
      BitOfWithBit(w, j, i);
      BitOfWithoutBit(w, j, i);
    }
  }

  /** Switching number `64 * k + j` leaves what the other words show alone. */
  lemma OtherWordsKeepShows(w: u64, members: set<nat>, members': set<nat>, i: nat, k: nat, j: nat)
    requires Shows(w, members, i) && i != k && j < 64
    requires members' == members + {64 * k + j} || members' == members - {64 * k + j}
    ensures Shows(w, members', i)
  {
    forall b: nat | b < 64
      ensures Bit(w, b) <==> 64 * i + b in members'
    {
      assert 64 * i + b != 64 * k + j;
    }
  }

  lemma SwitchRefines(words: seq<u64>, members: set<nat>, members': set<nat>, k: nat, j: nat, on: bool)
    requires Refines(words, members) && k < |words| && j < 64
    requires members' == if on then members + {64 * k + j} else members - {64 * k + j}
    ensures Refines(words[k := Switched(words[k], j, on)], members')
  {
    var words' := words[k := Switched(words[k], j, on)];
    SwitchKeepsShows(words[k], j, on, members, k);
    forall i: nat | i < |words'|
      ensures Shows(words'[i], members', i)
    {
      if i != k { OtherWordsKeepShows(words[i], members, members', i, k, j); }
    }
  }

  function With(members: set<nat>, p: nat, on: bool): set<nat> {
    if on then members + {p} else members - {p}
  }

  /** A number has its place in the words. */
  lemma PlaceInWords(p: nat, words: nat)
    requires p < 64 * words
    ensures p / 64 < words && p == 64 * (p / 64) + p % 64
  {}

  /** Word `p / 64`, bit `p % 64` is where number `p` is kept. */
  lemma NumberIsShown(words: seq<u64>, members: set<nat>, p: nat)
    requires Refines(words, members) && p < 64 * |words|
    ensures p / 64 < |words| && (Bit(words[p / 64], p % 64) <==> p in members)
  {
    var k, j := p / 64, p % 64;
    PlaceInWords(p, |words|);
    assert Shows(words[k], members, k);
  }

  lemma SwitchNumber(words: seq<u64>, members: set<nat>, p: nat, on: bool)
    requires Refines(words, members) && p < 64 * |words|
    ensures p / 64 < |words|
    ensures Refines(words[p / 64 := Switched(words[p / 64], p % 64, on)], With(members, p, on))
  {
    var k, j := p / 64, p % 64;
    PlaceInWords(p, |words|);
    SwitchRefines(words, members, With(members, p, on), k, j, on);
  }
}

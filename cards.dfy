/** Ranks, cards and the sequence helpers the engine is built from. */
module Cards {

  /** Ranks run from 2 to 14; 11, 12 and 13 are the court cards and 14 is the Ace. */
  type Rank = r: int | 2 <= r <= 14 witness 2

  const Two: Rank := 2
  const Three: Rank := 3
  const Seven: Rank := 7
  const Eight: Rank := 8
  const Ten: Rank := 10
  const Ace: Rank := 14

  /** A card. The suit is cosmetic and two cards are equal exactly when their ranks are,
      so the rank is all a card carries here. */
  datatype Card = Card(rank: Rank)

  datatype Option<T> = None | Some(value: T)

  /** The four ranks that may be played on anything outside an Ace defence. */
  predicate IsWild(r: Rank) {
    r == Two || r == Three || r == Ten || r == Ace
  }

  /** One suit's thirteen cards, ranks 2 to 14 in ascending order. */
  function Suit(): (s: seq<Card>)
    ensures |s| == 13
    ensures forall r: Rank :: multiset(s)[Card(r)] == 1
  {
    var s := seq(13, i requires 0 <= i < 13 => Card(2 + i));
    assert forall r: Rank :: multiset(s)[Card(r)] == 1 by {
      forall r: Rank ensures multiset(s)[Card(r)] == 1 {
        var k := r - 2;
        assert s == s[..k] + [Card(r)] + s[k + 1..];
        assert Card(r) !in s[..k] && Card(r) !in s[k + 1..];
      }
    }
    s
  }

  /** The 52-card deck in the order it is built: for each of the four suits, ranks 2 to 14. */
  function StandardDeck(): (d: seq<Card>)
    ensures |d| == 52
    ensures forall r: Rank :: multiset(d)[Card(r)] == 4
  {
    Suit() + Suit() + Suit() + Suit()
  }

  /** The elements of `s` in reverse order; popping k cards one by one off the end of a list
      yields the reversal of its last k elements. */
  function Reversed<T>(s: seq<T>): (r: seq<T>)
    ensures |r| == |s|
    ensures forall i :: 0 <= i < |s| ==> r[i] == s[|s| - 1 - i]
  {
    if s == [] then []
    else
      assert s == [s[0]] + s[1..];
      Reversed(s[1..]) + [s[0]]
  }

  /** Reversing a sequence with one more element at the end puts that element in front. */
  lemma ReversedSnoc<T>(s: seq<T>, x: T)
    ensures Reversed(s + [x]) == [x] + Reversed(s)
  {
    var a, b := Reversed(s + [x]), [x] + Reversed(s);
    forall i | 0 <= i < |a| ensures a[i] == b[i] {
      if i > 0 {
        assert a[i] == (s + [x])[|s| - i] == s[|s| - i];
      }
    }
  }

  /** Reversing twice gives back the sequence. */
  lemma ReversedTwice<T>(s: seq<T>)
    ensures Reversed(Reversed(s)) == s
  {
  }

  /** Reversing keeps the elements. */
  lemma {:induction false} ReversedMultiset<T>(s: seq<T>)
    ensures multiset(Reversed(s)) == multiset(s)
  {
    if s != [] {
      ReversedMultiset(s[1..]);
      assert s == [s[0]] + s[1..];
    }
  }

  /** The position of the first element equal to `c`. */
  function FirstIndex(s: seq<Card>, c: Card): (k: nat)
    requires c in s
    ensures k < |s| && s[k] == c && c !in s[..k]
  {
    if s[0] == c then 0
    else
      var k := FirstIndex(s[1..], c);
      assert s[..k + 1] == [s[0]] + s[1..][..k];
      k + 1
  }

  /** Python's `list.remove`: drops the first element equal to `c`. */
  function RemoveFirst(s: seq<Card>, c: Card): (r: seq<Card>)
    requires c in s
    ensures |r| == |s| - 1
    ensures multiset(r) == multiset(s) - multiset{c}
  {
    assert s == [s[0]] + s[1..];
    if s[0] == c then s[1..] else [s[0]] + RemoveFirst(s[1..], c)
  }

  /** The copy `list.remove` drops is the first one, and the other elements keep their
      order. */
  lemma {:induction false} RemoveFirstIsFirst(s: seq<Card>, c: Card)
    requires c in s
    ensures RemoveFirst(s, c) == s[..FirstIndex(s, c)] + s[FirstIndex(s, c) + 1..]
  {
    if s[0] == c {
      RemovedHead(s, c);
    } else {
      RemoveFirstIsFirst(s[1..], c);
      FirstAfterHead(s, c, RemoveFirst(s[1..], c));
    }
  }

  /** When the head is the card, dropping the head drops the first copy. */
  lemma RemovedHead(s: seq<Card>, c: Card)
    requires s != [] && s[0] == c
    ensures s[1..] == s[..FirstIndex(s, c)] + s[FirstIndex(s, c) + 1..]
  {
    assert s[..0] + s[1..] == s[1..];
  }

  /** When the head is kept, dropping the first copy from the tail drops the first copy from
      the whole. */
  lemma FirstAfterHead(s: seq<Card>, c: Card, t: seq<Card>)
    requires c in s && s[0] != c
    requires t == s[1..][..FirstIndex(s[1..], c)] + s[1..][FirstIndex(s[1..], c) + 1..]
    ensures [s[0]] + t == s[..FirstIndex(s, c)] + s[FirstIndex(s, c) + 1..]
  {
    var k := FirstIndex(s[1..], c);
    assert FirstIndex(s, c) == k + 1;
    assert s[..k + 1] == [s[0]] + s[1..][..k];
    assert s[k + 2..] == s[1..][k + 1..];
  }

  /** The cards of rank `r` in `s`, in their order in `s`. */
  function OfRank(s: seq<Card>, r: Rank): (g: seq<Card>)
    ensures forall c :: c in g ==> c == Card(r)
  {
    if s == [] then []
    else
      OfRank(s[..|s| - 1], r) + (if s[|s| - 1].rank == r then [s[|s| - 1]] else [])
  }

  /** The group of rank `r` is taken from `s`, holds every card of that rank in `s`, and is
      empty only when `s` has no such card. */
  lemma {:induction false} OfRankFromSource(s: seq<Card>, r: Rank)
    ensures multiset(OfRank(s, r)) <= multiset(s)
    ensures Card(r) in s ==> OfRank(s, r) != []
    ensures multiset(OfRank(s, r))[Card(r)] == multiset(s)[Card(r)]
  {
    if s != [] {
      var init, last := s[..|s| - 1], s[|s| - 1];
      OfRankFromSource(init, r);
      assert s == init + [last];
      var extra := if last.rank == r then [last] else [];
      assert multiset(OfRank(s, r)) == multiset(OfRank(init, r)) + multiset(extra);
    }
  }
}

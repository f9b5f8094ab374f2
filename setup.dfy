/** What dealing does: the specification of CardGame.SetupGame. Cards are popped from the end
    of the deck, and each player then turns its three lowest hand cards face up. */
module Setup {
  import opened Cards
  import opened Players

  /** Where the stable sort by rank puts seat `i` of the hand relative to seat `j`: lower rank
      first, and between equal ranks the earlier seat first. */
  predicate KeyBefore(hand: seq<Card>, i: nat, j: nat)
    requires i < |hand| && j < |hand|
  {
    hand[i].rank < hand[j].rank || (hand[i].rank == hand[j].rank && i < j)
  }

  /** `order` lists seats of `hand` in strictly increasing sort key. */
  predicate SortedByKey(hand: seq<Card>, order: seq<nat>) {
    (forall k :: 0 <= k < |order| ==> order[k] < |hand|) &&
    (forall a, b :: 0 <= a < b < |order| ==> KeyBefore(hand, order[a], order[b]))
  }

  /** Inserting seat `i`, later than every seat in `order`, after all seats of no greater rank. */
  function Insert(hand: seq<Card>, order: seq<nat>, i: nat): (r: seq<nat>)
    requires i < |hand| && forall k :: 0 <= k < |order| ==> order[k] < i
    ensures |r| == |order| + 1
    ensures forall j :: j in r <==> j in order || j == i
  {
    if order == [] then [i]
    else
      var last := order[|order| - 1];
      if hand[last].rank <= hand[i].rank then order + [i]
      else Insert(hand, order[..|order| - 1], i) + [last]
  }

  /** The seats of the first `n` cards of `hand` in stable rank order: what sorting the
      enumerated hand by rank yields, as seat numbers. */
  function StableOrder(hand: seq<Card>, n: nat): (order: seq<nat>)
    requires n <= |hand|
    ensures |order| == n
    ensures forall j: nat :: j in order <==> j < n
  {
    if n == 0 then []
    else
      var prev := StableOrder(hand, n - 1);
      assert forall k :: 0 <= k < |prev| ==> prev[k] < n - 1 by {
        forall k | 0 <= k < |prev| ensures prev[k] < n - 1 {
          assert prev[k] in prev;
        }
      }
      Insert(hand, prev, n - 1)
  }

  /** Inserting keeps the order sorted. */
  lemma {:induction false} InsertSorted(hand: seq<Card>, order: seq<nat>, i: nat)
    requires i < |hand| && forall k :: 0 <= k < |order| ==> order[k] < i
    requires SortedByKey(hand, order)
    ensures SortedByKey(hand, Insert(hand, order, i))
  {
    if order != [] {
      var init, last := order[..|order| - 1], order[|order| - 1];
      if hand[last].rank > hand[i].rank {
        InsertSorted(hand, init, i);
        var r := Insert(hand, init, i) + [last];
        forall a, b | 0 <= a < b < |r| ensures KeyBefore(hand, r[a], r[b]) {
          if b == |r| - 1 {
            var x := r[a];
            assert x in Insert(hand, init, i);
            if x != i {
              var k :| 0 <= k < |init| && init[k] == x;
              assert order[k] == x;
            }
          }
        }
      }
    }
  }

  /** The stable order is sorted by key, so it lists every seat exactly once. */
  lemma {:induction false} StableOrderSorted(hand: seq<Card>, n: nat)
    requires n <= |hand|
    ensures SortedByKey(hand, StableOrder(hand, n))
  {
    if n > 0 {
      var prev := StableOrder(hand, n - 1);
      StableOrderSorted(hand, n - 1);
      forall k | 0 <= k < |prev| ensures prev[k] < n - 1 {
        assert prev[k] in prev;
      }
      InsertSorted(hand, prev, n - 1);
    }
  }

  /** The seats whose cards go face up: the first three of the stable order. */
  function ChooseFaceUp(hand: seq<Card>): (seats: seq<nat>)
    requires |hand| >= 3
    ensures |seats| == 3
  {
    StableOrder(hand, |hand|)[..3]
  }

  /** The chosen seats are three different seats of the hand, and each comes before every
      other seat in the stable order: no card left in hand has a lower rank than a card
      chosen, and on equal ranks the earlier seat is chosen. */
  lemma ChooseFaceUpLowest(hand: seq<Card>)
    requires |hand| >= 3
    ensures var seats := ChooseFaceUp(hand);
            (forall k :: 0 <= k < 3 ==> seats[k] < |hand|) &&
            seats[0] != seats[1] && seats[0] != seats[2] && seats[1] != seats[2] &&
            forall k: nat, j: nat :: k < 3 && j < |hand| && j !in seats ==> KeyBefore(hand, seats[k], j)
  {
    var order := StableOrder(hand, |hand|);
    StableOrderSorted(hand, |hand|);
    forall k: nat, j: nat | k < 3 && j < |hand| && j !in order[..3]
      ensures KeyBefore(hand, order[k], j)
    {
      assert j in order;
      var b :| 0 <= b < |order| && order[b] == j;
    }
  }

  /** The seats of `seats` below `n`, largest first: the chosen seats sorted in reverse, the
      order in which they are popped. */
  function Descending(seats: seq<nat>, n: nat): (r: seq<nat>)
    ensures forall j :: j in r <==> j in seats && j < n
    ensures forall k :: 0 <= k < |r| ==> r[k] < n
    ensures forall a, b :: 0 <= a < b < |r| ==> r[a] > r[b]
  {
    if n == 0 then []
    else
      var rest := Descending(seats, n - 1);
      assert forall k :: 0 <= k < |rest| ==> rest[k] < n - 1 by {
        forall k | 0 <= k < |rest| ensures rest[k] < n - 1 {
          assert rest[k] in rest;
        }
      }
      if n - 1 in seats then [n - 1] + rest else rest
  }

  /** The cards of `s` at seats outside `gone`, in their order: what is left after those seats
      are popped. */
  function Keep(s: seq<Card>, gone: seq<nat>): (r: seq<Card>)
    ensures |r| <= |s|
  {
    if s == [] then []
    else Keep(s[..|s| - 1], gone) + (if |s| - 1 in gone then [] else [s[|s| - 1]])
  }

  /** The cards at `seats`, in the order of `seats`. */
  function At(s: seq<Card>, seats: seq<nat>): (r: seq<Card>)
    requires forall k :: 0 <= k < |seats| ==> seats[k] < |s|
    ensures |r| == |seats|
    ensures forall k :: 0 <= k < |seats| ==> r[k] == s[seats[k]]
  {
    seq(|seats|, k requires 0 <= k < |seats| => s[seats[k]])
  }

  /** With no seat gone, everything is kept. */
  lemma {:induction false} KeepAll(s: seq<Card>, gone: seq<nat>)
    requires forall j :: j in gone ==> j >= |s|
    ensures Keep(s, gone) == s
  {
    if s != [] {
      KeepAll(s[..|s| - 1], gone);
    }
  }

  /** Popping seat `m`, below every seat already popped, from what is left: the card there is
      the original card at `m`, and what remains is the original less seat `m` too. */
  lemma {:induction false} KeepPop(s: seq<Card>, gone: seq<nat>, m: nat)
    requires m < |s| && m !in gone && forall t :: t in gone ==> t > m
    ensures var r := Keep(s, gone);
            m < |r| && r[m] == s[m] && Keep(s, gone + [m]) == r[..m] + r[m + 1..]
  {
    var init, last := s[..|s| - 1], s[|s| - 1];
    if m == |s| - 1 {
      KeepAll(init, gone);
      KeepAll(init, gone + [m]);
    } else {
      KeepPop(init, gone, m);
      var r0 := Keep(init, gone);
      var tail := if |s| - 1 in gone then [] else [last];
      var r := Keep(s, gone);
      assert r == r0 + tail;
      assert m < |r0| && r[m] == s[m] by {
        assert r0[m] == init[m];
      }
      assert Keep(s, gone + [m]) == r[..m] + r[m + 1..] by {
        assert Keep(s, gone + [m]) == Keep(init, gone + [m]) + tail;
        assert r[..m] == r0[..m];
        assert r[m + 1..] == r0[m + 1..] + tail;
      }
    }
  }

  /** Popping the chosen seats in descending order leaves the other cards in their order and
      puts the chosen cards face up, the highest seat first; no card is lost. */
  lemma {:induction false} KeepAtConserves(s: seq<Card>, seats: seq<nat>)
    requires forall k :: 0 <= k < |seats| ==> seats[k] < |s|
    requires forall a, b :: 0 <= a < b < |seats| ==> seats[a] > seats[b]
    ensures multiset(Keep(s, seats)) + multiset(At(s, seats)) == multiset(s)
    decreases |seats|
  {
    if seats == [] {
      KeepAll(s, seats);
    } else {
      var init, m := seats[..|seats| - 1], seats[|seats| - 1];
      assert seats == init + [m];
      KeepAtConserves(s, init);
      forall t | t in init ensures t > m {
        var k :| 0 <= k < |init| && init[k] == t;
      }
      KeepPop(s, init, m);
      var r := Keep(s, init);
      assert r == r[..m] + [s[m]] + r[m + 1..];
      assert At(s, seats) == At(s, init) + [s[m]];
    }
  }

  /** A card left in hand sits at a seat that was not popped. */
  lemma {:induction false} KeepFrom(s: seq<Card>, gone: seq<nat>, d: Card)
    requires d in Keep(s, gone)
    ensures exists j :: 0 <= j < |s| && j !in gone && s[j] == d
  {
    var init, last := s[..|s| - 1], s[|s| - 1];
    if d in Keep(init, gone) {
      KeepFrom(init, gone, d);
      var j :| 0 <= j < |init| && j !in gone && init[j] == d;
      assert s[j] == d;
    } else {
      assert s[|s| - 1] == d;
    }
  }

  /** A player's hand after the face-up choice: the chosen seats are popped, highest first,
      and each popped card is appended to the face-up cards. */
  function TurnLowestFaceUp(p: Player): (q: Player)
    requires |p.hand| >= 3
  {
    var seats := Descending(ChooseFaceUp(p.hand), |p.hand|);
    p.(hand := Keep(p.hand, seats), faceUp := p.faceUp + At(p.hand, seats))
  }

  /** From a hand of at least three cards, three go face up and the rest stay in hand; no
      card in hand is lower than a card turned face up, and no card is lost. */
  lemma TurnLowestFaceUpSpec(p: Player)
    requires |p.hand| >= 3
    ensures var q := TurnLowestFaceUp(p);
            |q.faceUp| == |p.faceUp| + 3 && |q.hand| == |p.hand| - 3 &&
            q.faceUp[..|p.faceUp|] == p.faceUp && q.faceDown == p.faceDown && q.name == p.name &&
            multiset(q.hand) + multiset(q.faceUp) == multiset(p.hand) + multiset(p.faceUp) &&
            forall c, d :: c in q.faceUp[|p.faceUp|..] && d in q.hand ==> c.rank <= d.rank
  {
    var h := p.hand;
    var seats := Descending(ChooseFaceUp(h), |h|);
    PoppedSeats(h);
    KeepAtConserves(h, seats);
    var q := TurnLowestFaceUp(p);
    assert |q.hand| == |h| - 3 by {
      assert |multiset(Keep(h, seats))| + |multiset(At(h, seats))| == |multiset(h)|;
    }
    assert q.faceUp[|p.faceUp|..] == At(h, seats);
    PoppedAreLowest(h);
  }

  /** The seats popped are the three chosen ones, largest first. */
  lemma PoppedSeats(h: seq<Card>)
    requires |h| >= 3
    ensures var chosen, seats := ChooseFaceUp(h), Descending(ChooseFaceUp(h), |h|);
            |seats| == 3 && forall j :: j in seats <==> j in chosen
  {
    var chosen := ChooseFaceUp(h);
    var seats := Descending(chosen, |h|);
    ChooseFaceUpLowest(h);
    SeatsOfThree(seats, chosen);
  }

  /** Every card turned face up ranks no higher than every card left in hand. */
  lemma PoppedAreLowest(h: seq<Card>)
    requires |h| >= 3
    ensures var seats := Descending(ChooseFaceUp(h), |h|);
            forall c, d :: c in At(h, seats) && d in Keep(h, seats) ==> c.rank <= d.rank
  {
    var chosen := ChooseFaceUp(h);
    var seats := Descending(chosen, |h|);
    ChooseFaceUpLowest(h);
    forall c, d | c in At(h, seats) && d in Keep(h, seats) ensures c.rank <= d.rank {
      var k :| 0 <= k < |seats| && At(h, seats)[k] == c;
      KeepFrom(h, seats, d);
      var j :| 0 <= j < |h| && j !in seats && h[j] == d;
      assert seats[k] in chosen && j !in chosen;
      assert KeyBefore(h, seats[k], j);
    }
  }

  /** A strictly descending list holding exactly three distinct seats has length three. */
  lemma SeatsOfThree(seats: seq<nat>, chosen: seq<nat>)
    requires |chosen| == 3 && chosen[0] != chosen[1] && chosen[0] != chosen[2] && chosen[1] != chosen[2]
    requires forall j :: j in seats <==> j in chosen
    requires forall a, b :: 0 <= a < b < |seats| ==> seats[a] > seats[b]
    ensures |seats| == 3
  {
    var x, y, z := chosen[0], chosen[1], chosen[2];
    assert x in seats && y in seats && z in seats;
    var i :| 0 <= i < |seats| && seats[i] == x;
    var j :| 0 <= j < |seats| && seats[j] == y;
    var k :| 0 <= k < |seats| && seats[k] == z;
    assert i != j && i != k && j != k;
    if |seats| > 3 {
      FirstFour(seats);
      assert false;
    }
  }

  lemma FirstFour(seats: seq<nat>)
    requires |seats| >= 4 && forall a, b :: 0 <= a < b < |seats| ==> seats[a] > seats[b]
    ensures seats[0] in seats && seats[1] in seats && seats[2] in seats && seats[3] in seats
    ensures seats[0] > seats[1] > seats[2] > seats[3]
  {
  }

  /** The face-down cards of the `i`-th player: the first pass pops three cards per player off
      the end of the deck. */
  function FaceDownFor(deck: seq<Card>, i: nat): seq<Card>
    requires 3 * (i + 1) <= |deck|
  {
    Reversed(deck[|deck| - 3 * (i + 1)..|deck| - 3 * i])
  }

  /** The six hand cards of the `i`-th of `n` players: the second pass pops six per player off
      what the first pass left. */
  function HandFor(deck: seq<Card>, n: nat, i: nat): seq<Card>
    requires i < n && 9 * n <= |deck|
  {
    Reversed(deck[|deck| - 3 * n - 6 * (i + 1)..|deck| - 3 * n - 6 * i])
  }

  /** Player `p`, seated `i`-th of `n`, after dealing from `deck` and turning its three lowest
      hand cards face up. */
  function DealtPlayer(p: Player, deck: seq<Card>, n: nat, i: nat): Player
    requires i < n && 9 * n <= |deck|
  {
    TurnLowestFaceUp(p.(faceDown := FaceDownFor(deck, i), hand := HandFor(deck, n, i)))
  }

  /** The players after dealing from `deck`. */
  function Dealt(ps: seq<Player>, deck: seq<Card>): (r: seq<Player>)
    requires 9 * |ps| <= |deck|
    ensures |r| == |ps|
  {
    seq(|ps|, i requires 0 <= i < |ps| => DealtPlayer(ps[i], deck, |ps|, i))
  }

  /** Whether a player holds no card yet, as every player does when the game is created. */
  predicate Empty(p: Player) {
    p.hand == [] && p.faceUp == [] && p.faceDown == []
  }

  /** After dealing, every player holds three cards face down, three face up and three in
      hand, none of the hand cards lower than a face-up one, and keeps its name. */
  lemma DealtShape(ps: seq<Player>, deck: seq<Card>, i: nat)
    requires 9 * |ps| <= |deck| && i < |ps| && Empty(ps[i])
    ensures var q := Dealt(ps, deck)[i];
            |q.faceDown| == 3 && |q.faceUp| == 3 && |q.hand| == 3 && q.name == ps[i].name &&
            forall c, d :: c in q.faceUp && d in q.hand ==> c.rank <= d.rank
  {
    var p := ps[i].(faceDown := FaceDownFor(deck, i), hand := HandFor(deck, |ps|, i));
    TurnLowestFaceUpSpec(p);
    assert Dealt(ps, deck)[i] == TurnLowestFaceUp(p);
  }

  /** A dealt player holds exactly the cards dealt to it. */
  lemma DealtPlayerHolds(p: Player, deck: seq<Card>, n: nat, i: nat)
    requires i < n && 9 * n <= |deck| && Empty(p)
    ensures DealtPlayer(p, deck, n, i).AllCards() ==
              multiset(deck[|deck| - 3 * (i + 1)..|deck| - 3 * i]) +
              multiset(deck[|deck| - 3 * n - 6 * (i + 1)..|deck| - 3 * n - 6 * i])
  {
    var p1 := p.(faceDown := FaceDownFor(deck, i), hand := HandFor(deck, n, i));
    TurnLowestFaceUpSpec(p1);
    ReversedMultiset(deck[|deck| - 3 * (i + 1)..|deck| - 3 * i]);
    ReversedMultiset(deck[|deck| - 3 * n - 6 * (i + 1)..|deck| - 3 * n - 6 * i]);
  }

  /** The cards the `i`-th of `n` players receives from `deck`: three from the first pass and
      six from the second. */
  function DealtCards(deck: seq<Card>, n: nat, i: nat): multiset<Card>
    requires i < n && 9 * n <= |deck|
  {
    multiset(deck[|deck| - 3 * (i + 1)..|deck| - 3 * i]) +
    multiset(deck[|deck| - 3 * n - 6 * (i + 1)..|deck| - 3 * n - 6 * i])
  }

  /** Dealing takes the last 9 cards per player off the deck and gives each of them to exactly
      one player: the players' cards and what is left of the deck make up the deck. */
  lemma DealtConserves(ps: seq<Player>, deck: seq<Card>)
    requires 9 * |ps| <= |deck| && forall i :: 0 <= i < |ps| ==> Empty(ps[i])
    ensures HeldCards(Dealt(ps, deck)) + multiset(deck[..|deck| - 9 * |ps|]) == multiset(deck)
  {
    var n, d := |ps|, |deck|;
    var r := Dealt(ps, deck);
    forall i | 0 <= i < n ensures r[i].AllCards() == DealtCards(deck, n, i) {
      DealtPlayerHolds(ps[i], deck, n, i);
    }
    assert |r| == n;
    HeldSlices(r, deck, n);
    SharesSlices(deck, n, n);
    DeckInThree(deck, n);
  }

  /** The deck is what stays, the six cards per seat dealt second and the three per seat
      dealt first. */
  lemma DeckInThree(deck: seq<Card>, n: nat)
    requires 9 * n <= |deck|
    ensures multiset(deck[|deck| - 3 * n..|deck|]) + multiset(deck[|deck| - 3 * n - 6 * n..|deck| - 3 * n]) +
            multiset(deck[..|deck| - 9 * n]) == multiset(deck)
  {
    var d := |deck|;
    assert deck == deck[..d - 9 * n] + deck[d - 3 * n - 6 * n..d - 3 * n] + deck[d - 3 * n..d];
  }

  /** The cards dealt to the first `k` seats. */
  function Shares(deck: seq<Card>, n: nat, k: nat): multiset<Card>
    requires k <= n && 9 * n <= |deck|
  {
    if k == 0 then multiset{} else Shares(deck, n, k - 1) + DealtCards(deck, n, k - 1)
  }

  /** Players holding the cards of the first `|rs|` seats of a deal hold those seats' shares. */
  lemma {:induction false} HeldSlices(rs: seq<Player>, deck: seq<Card>, n: nat)
    requires |rs| <= n && 9 * n <= |deck|
    requires forall i :: 0 <= i < |rs| ==> rs[i].AllCards() == DealtCards(deck, n, i)
    ensures HeldCards(rs) == Shares(deck, n, |rs|)
  {
    if rs != [] {
      HeldSlices(rs[..|rs| - 1], deck, n);
      HeldCardsLast(rs);
    }
  }

  /** The first `k` seats together hold the last three cards per seat and the six per seat
      before the first pass's cards. */
  lemma {:induction false} SharesSlices(deck: seq<Card>, n: nat, k: nat)
    requires k <= n && 9 * n <= |deck|
    ensures Shares(deck, n, k) ==
              multiset(deck[|deck| - 3 * k..|deck|]) +
              multiset(deck[|deck| - 3 * n - 6 * k..|deck| - 3 * n])
    decreases k, 1
  {
    if k > 0 {
      SharesStep(deck, n, k);
    } else {
      NoSeatSlices(deck, n, k);
    }
  }

  lemma {:induction false} SharesStep(deck: seq<Card>, n: nat, k: nat)
    requires 0 < k <= n && 9 * n <= |deck|
    ensures Shares(deck, n, k) ==
              multiset(deck[|deck| - 3 * k..|deck|]) +
              multiset(deck[|deck| - 3 * n - 6 * k..|deck| - 3 * n])
    decreases k, 0
  {
    var j := k - 1;
    var x := multiset(deck[|deck| - 3 * j..|deck|]) + multiset(deck[|deck| - 3 * n - 6 * j..|deck| - 3 * n]);
    var y := multiset(deck[|deck| - 3 * k..|deck|]) + multiset(deck[|deck| - 3 * n - 6 * k..|deck| - 3 * n]);
    assert Shares(deck, n, j) == x by { SharesSlices(deck, n, j); }
    assert x + DealtCards(deck, n, j) == y by { NextSeatSlices(x, DealtCards(deck, n, j), deck, n, j, k); }
    SharesLast(deck, n, k);
  }

  lemma SharesLast(deck: seq<Card>, n: nat, k: nat)
    requires 0 < k <= n && 9 * n <= |deck|
    ensures Shares(deck, n, k) == Shares(deck, n, k - 1) + DealtCards(deck, n, k - 1)
  {
  }

  lemma NoSeatSlices(deck: seq<Card>, n: nat, k: nat)
    requires k == 0 && 9 * n <= |deck|
    ensures multiset(deck[|deck| - 3 * k..|deck|]) +
            multiset(deck[|deck| - 3 * n - 6 * k..|deck| - 3 * n]) == multiset{}
  {
    assert deck[|deck| - 3 * k..|deck|] == [];
    assert deck[|deck| - 3 * n - 6 * k..|deck| - 3 * n] == [];
  }

  /** One more seat's cards extend both dealt stretches of the deck by that seat's share. */
  lemma NextSeatSlices(h: multiset<Card>, p: multiset<Card>, deck: seq<Card>, n: nat, k: nat, m: nat)
    requires m == k + 1 && k < n && 9 * n <= |deck|
    requires h == multiset(deck[|deck| - 3 * k..|deck|]) +
                  multiset(deck[|deck| - 3 * n - 6 * k..|deck| - 3 * n])
    requires p == DealtCards(deck, n, k)
    ensures h + p == multiset(deck[|deck| - 3 * m..|deck|]) +
                     multiset(deck[|deck| - 3 * n - 6 * m..|deck| - 3 * n])
  {
    assert |deck| - 3 * m == |deck| - 3 * (k + 1);
    assert |deck| - 3 * n - 6 * m == |deck| - 3 * n - 6 * (k + 1);
    JoinSlices(deck, |deck| - 3 * (k + 1), |deck| - 3 * k, |deck|);
    JoinSlices(deck, |deck| - 3 * n - 6 * (k + 1), |deck| - 3 * n - 6 * k, |deck| - 3 * n);
    SumSwap(h, multiset(deck[|deck| - 3 * (k + 1)..|deck| - 3 * k]),
            multiset(deck[|deck| - 3 * n - 6 * (k + 1)..|deck| - 3 * n - 6 * k]),
            multiset(deck[|deck| - 3 * k..|deck|]), multiset(deck[|deck| - 3 * n - 6 * k..|deck| - 3 * n]));
  }

  lemma JoinSlices(s: seq<Card>, a: int, b: int, c: int)
    requires 0 <= a <= b <= c <= |s|
    ensures multiset(s[a..b]) + multiset(s[b..c]) == multiset(s[a..c])
  {
    assert s[a..c] == s[a..b] + s[b..c];
  }

  lemma SumSwap(h: multiset<Card>, a: multiset<Card>, b: multiset<Card>, a2: multiset<Card>, b2: multiset<Card>)
    requires h == a2 + b2
    ensures h + (a + b) == (a + a2) + (b + b2)
  {
    forall c ensures (h + (a + b))[c] == ((a + a2) + (b + b2))[c] {
    }
  }
}

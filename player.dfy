/** A seat at the table and its three card zones. */
module Players {
  import opened Cards

  /** A player: its number (the source names players "Player 1", "Player 2", ...) and its
      three zones. Which zone is active is never stored; it is derived from which zones are
      empty, by the precedence hand, then face-up, then face-down. */
  datatype Player = Player(name: nat, hand: seq<Card>, faceUp: seq<Card>, faceDown: seq<Card>)
  {
    /** Every card the player holds, in any zone. */
    function AllCards(): multiset<Card> {
      multiset(hand) + multiset(faceUp) + multiset(faceDown)
    }

    /** Whether any of the three zones still has a card. */
    predicate HasCards() {
      |hand| > 0 || |faceUp| > 0 || |faceDown| > 0
    }

    /** The active zone: the hand while it has cards, then the face-up cards, then the
        face-down ones, and nothing once all three are empty. */
    function PlayableCards(): (z: seq<Card>)
      ensures z == [] <==> !HasCards()
      ensures hand != [] ==> z == hand
      ensures hand == [] && faceUp != [] ==> z == faceUp
      ensures hand == [] && faceUp == [] ==> z == faceDown
      ensures multiset(z) <= AllCards()
    {
      if |hand| > 0 then hand
      else if |faceUp| > 0 then faceUp
      else if |faceDown| > 0 then faceDown
      else []
    }

    /** Whether the player is down to the face-down zone, which is played without looking. */
    function IsPlayingBlind(): (b: bool)
      ensures b <==> HasCards() && hand == [] && faceUp == []
      ensures b ==> PlayableCards() == faceDown != []
    {
      |hand| == 0 && |faceUp| == 0 && |faceDown| > 0
    }
  }

  /** A player has cards exactly when it holds some card, in any zone. */
  lemma HasCardsMeansHolding(p: Player)
    ensures p.HasCards() <==> p.AllCards() != multiset{}
  {
    assert |p.AllCards()| == |p.hand| + |p.faceUp| + |p.faceDown|;
  }

  /** The multiset of all cards held by the players of `ps`. */
  function HeldCards(ps: seq<Player>): multiset<Card> {
    if ps == [] then multiset{} else HeldCards(ps[..|ps| - 1]) + ps[|ps| - 1].AllCards()
  }

  /** The last player's cards join those of the players before it. */
  lemma HeldCardsLast(ps: seq<Player>)
    requires ps != []
    ensures HeldCards(ps) == HeldCards(ps[..|ps| - 1]) + ps[|ps| - 1].AllCards()
  {
  }

  /** Replacing one player changes the held cards by exactly that player's difference. */
  lemma {:induction false} HeldCardsUpdate(ps: seq<Player>, i: nat, q: Player)
    requires i < |ps|
    ensures HeldCards(ps[i := q]) + ps[i].AllCards() == HeldCards(ps) + q.AllCards()
    decreases |ps|
  {
    var n := |ps| - 1;
    var ps' := ps[i := q];
    var a, b := ps[i].AllCards(), q.AllCards();
    var y, z := HeldCards(ps[..n]), ps[n].AllCards();
    assert HeldCards(ps) == y + z;
    if i < n {
      var x := HeldCards(ps'[..n]);
      assert x + a == y + b by {
        assert ps'[..n] == ps[..n][i := q];
        HeldCardsUpdate(ps[..n], i, q);
      }
      assert HeldCards(ps') == x + z by {
        assert ps'[..n] == ps'[..n];
      }
      AddBothSides(x, y, z, a, b);
    } else {
      assert HeldCards(ps') == y + b by {
        assert ps'[..n] == ps[..n];
      }
      AddBothSides(y, y, multiset{}, b + a, a + b);
    }
  }

  lemma AddBothSides(x: multiset<Card>, y: multiset<Card>, z: multiset<Card>, a: multiset<Card>, b: multiset<Card>)
    requires x + a == y + b
    ensures x + z + a == y + z + b
  {
    forall c ensures (x + z + a)[c] == (y + z + b)[c] {
      assert (x + a)[c] == (y + b)[c];
    }
    assert x + z + a == y + z + b;
  }

  /** The players that still hold cards, in their seating order: who stays at the table after
      a turn. */
  function Survivors(ps: seq<Player>): (s: seq<Player>)
    ensures |s| <= |ps|
    ensures forall k :: 0 <= k < |s| ==> s[k].HasCards()
  {
    if ps == [] then []
    else
      var last := ps[|ps| - 1];
      assert ps == ps[..|ps| - 1] + [last];
      Survivors(ps[..|ps| - 1]) + (if last.HasCards() then [last] else [])
  }

  /** Dropping the players who hold nothing loses no card. */
  lemma {:induction false} SurvivorsHoldEverything(ps: seq<Player>)
    ensures HeldCards(Survivors(ps)) == HeldCards(ps)
  {
    if ps != [] {
      var init, last := ps[..|ps| - 1], ps[|ps| - 1];
      SurvivorsHoldEverything(init);
      assert HeldCards(ps) == HeldCards(init) + last.AllCards();
      if last.HasCards() {
        var s := Survivors(init) + [last];
        assert Survivors(ps) == s;
        assert s[..|s| - 1] == Survivors(init);
        assert HeldCards(s) == HeldCards(Survivors(init)) + last.AllCards();
      } else {
        assert Survivors(ps) == Survivors(init);
        HasCardsMeansHolding(last);
      }
    }
  }

  /** Filtering a list in two parts gives the two filtered parts, in order. */
  lemma {:induction false} SurvivorsAppend(a: seq<Player>, b: seq<Player>)
    ensures Survivors(a + b) == Survivors(a) + Survivors(b)
    decreases |b|
  {
    if b != [] {
      var init, last := b[..|b| - 1], b[|b| - 1];
      assert (a + b)[..|a + b| - 1] == a + init;
      SurvivorsAppend(a, init);
    } else {
      assert a + b == a;
    }
  }

  /** Nobody stays when nobody holds a card. */
  lemma {:induction false} SurvivorsNone(ps: seq<Player>)
    requires forall i :: 0 <= i < |ps| ==> !ps[i].HasCards()
    ensures Survivors(ps) == []
  {
    if ps != [] {
      SurvivorsNone(ps[..|ps| - 1]);
    }
  }

  /** A first player who holds cards stays and stays first. */
  lemma SurvivorsHead(ps: seq<Player>)
    requires ps != [] && ps[0].HasCards()
    ensures Survivors(ps) != [] && Survivors(ps)[0] == ps[0]
  {
    assert ps == [ps[0]] + ps[1..];
    SurvivorsAppend([ps[0]], ps[1..]);
    assert Survivors([ps[0]]) == [ps[0]] by {
      assert [ps[0]][..0] == [];
    }
  }

  /** Every player who holds cards stays at the table. */
  lemma {:induction false} SurvivorsKeepHolders(ps: seq<Player>, k: nat)
    requires k < |ps| && ps[k].HasCards()
    ensures ps[k] in Survivors(ps)
  {
    var init, last := ps[..|ps| - 1], ps[|ps| - 1];
    assert ps == init + [last];
    if k < |ps| - 1 {
      SurvivorsKeepHolders(init, k);
      assert ps[k] == init[k];
    }
  }
}

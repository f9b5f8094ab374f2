/** The built-in move-selection policy: which cards a player puts down, or None when the
    player has to pick up the pile. */
module Moves {
  import opened Cards
  import opened Rules

  /** The cards of `zone` that may legally be played (non-blind), in zone order. */
  function LegalCards(pile: seq<Card>, zone: seq<Card>, defending: bool): (v: seq<Card>)
    ensures forall c :: c in v <==> c in zone && CanPlayCard(pile, c, false, defending)
  {
    if zone == [] then []
    else
      var last := zone[|zone| - 1];
      assert zone == zone[..|zone| - 1] + [last];
      LegalCards(pile, zone[..|zone| - 1], defending)
        + (if CanPlayCard(pile, last, false, defending) then [last] else [])
  }

  /** The lowest rank among `cards`. */
  function LowestRank(cards: seq<Card>): (r: Rank)
    requires cards != []
    ensures Card(r) in cards
    ensures forall c :: c in cards ==> r <= c.rank
  {
    var last := cards[|cards| - 1];
    assert cards == cards[..|cards| - 1] + [last];
    if |cards| == 1 then last.rank
    else
      var m := LowestRank(cards[..|cards| - 1]);
      if last.rank < m then last.rank else m
  }

  /** The order in which a defender looks for a response: block, burn, counter, mirror. */
  const DefencePriority: seq<Rank> := [Two, Ten, Ace, Three]

  /** The position in `priority` of the first rank that some card of `cards` has. */
  function FirstPresent(priority: seq<Rank>, cards: seq<Card>): (k: Option<nat>)
    ensures k.Some? ==> k.value < |priority| && Card(priority[k.value]) in cards
    ensures k.Some? ==> forall j :: 0 <= j < k.value ==> Card(priority[j]) !in cards
    ensures k.None? <==> forall j :: 0 <= j < |priority| ==> Card(priority[j]) !in cards
  {
    if priority == [] then None
    else if Card(priority[0]) in cards then Some(0)
    else
      match FirstPresent(priority[1..], cards)
      case None => None
      case Some(k) => Some(k + 1)
  }

  /** The move the built-in policy makes with the active zone `zone`. A blind player turns
      over the card at position `pick` (the source draws it at random) and plays it alone if
      it passes the blind test. Otherwise the legal cards are grouped by rank, and the whole
      group is played that is the first of 2, 10, Ace, 3 present when defending, and the
      lowest rank otherwise. None means that the pile has to be picked up. */
  function SelectMove(pile: seq<Card>, zone: seq<Card>, blind: bool, defending: bool, pick: nat)
    : (move: Option<seq<Card>>)
    requires blind && zone != [] ==> pick < |zone|
    ensures move.Some? ==> move.value != []
  {
    if zone == [] then None
    else if blind then
      if BlindLegal(pile, zone[pick]) then Some([zone[pick]]) else None
    else
      var valid := LegalCards(pile, zone, defending);
      if valid == [] then None
      else
        var choice := if defending then FirstPresent(DefencePriority, valid) else None;
        var r := if choice.Some? then DefencePriority[choice.value] else LowestRank(valid);
        OfRankFromSource(valid, r);
        Some(OfRank(valid, r))
  }

  /** A move fails exactly when the zone is empty, the blind pick fails its test, or (not
      blind) no card of the zone is legal. */
  lemma SelectMoveNoneIff(pile: seq<Card>, zone: seq<Card>, blind: bool, defending: bool, pick: nat)
    requires blind && zone != [] ==> pick < |zone|
    ensures SelectMove(pile, zone, blind, defending, pick).None? <==>
              zone == [] ||
              (blind && !BlindLegal(pile, zone[pick])) ||
              (!blind && forall c :: c in zone ==> !CanPlayCard(pile, c, false, defending))
  {
    if zone != [] && !blind {
      var valid := LegalCards(pile, zone, defending);
      if valid != [] {
        assert valid[0] in zone && CanPlayCard(pile, valid[0], false, defending);
        var choice := if defending then FirstPresent(DefencePriority, valid) else None;
        var r := if choice.Some? then DefencePriority[choice.value] else LowestRank(valid);
        assert Card(r) in valid;
      }
    }
  }

  /** Whatever is played is a non-empty group of one rank, taken from the zone, each card
      legal (by the blind test for a blind player). */
  lemma SelectMoveSound(pile: seq<Card>, zone: seq<Card>, blind: bool, defending: bool, pick: nat)
    requires blind && zone != [] ==> pick < |zone|
    ensures var move := SelectMove(pile, zone, blind, defending, pick);
            move.Some? ==>
              move.value != [] &&
              multiset(move.value) <= multiset(zone) &&
              (forall c :: c in move.value ==> c == move.value[0]) &&
              (blind ==> |move.value| == 1 && BlindLegal(pile, move.value[0])) &&
              (!blind ==> forall c :: c in move.value ==> CanPlayCard(pile, c, false, defending))
  {
    var move := SelectMove(pile, zone, blind, defending, pick);
    if move.Some? && !blind {
      var valid := LegalCards(pile, zone, defending);
      var choice := if defending then FirstPresent(DefencePriority, valid) else None;
      var r := if choice.Some? then DefencePriority[choice.value] else LowestRank(valid);
      assert move.value == OfRank(valid, r);
      OfRankFromSource(valid, r);
      LegalCardsFromZone(pile, zone, defending);
      assert move.value[0] in move.value;
    }
  }

  /** Outside a defence, the policy plays every card of the zone whose rank is the lowest
      legal rank. */
  lemma SelectMoveLowest(pile: seq<Card>, zone: seq<Card>, pick: nat)
    requires exists c :: c in zone && CanPlayCard(pile, c, false, false)
    ensures var move := SelectMove(pile, zone, false, false, pick);
            move.Some? &&
            exists r: Rank ::
              move.value == OfRank(zone, r) && Card(r) in zone && CanPlayCard(pile, Card(r), false, false) &&
              forall c :: c in zone && CanPlayCard(pile, c, false, false) ==> r <= c.rank
  {
    var valid := LegalCards(pile, zone, false);
    var c :| c in zone && CanPlayCard(pile, c, false, false);
    assert c in valid;
    var r := LowestRank(valid);
    LegalGroupIsZoneGroup(pile, zone, false, r);
  }

  /** A defender plays every card of the zone of the first rank of 2, 10, Ace, 3 that it
      holds, when it is legal. */
  lemma SelectMoveDefence(pile: seq<Card>, zone: seq<Card>, pick: nat, k: nat)
    requires k < |DefencePriority|
    requires Card(DefencePriority[k]) in zone && CanPlayCard(pile, Card(DefencePriority[k]), false, true)
    requires forall j :: 0 <= j < k ==>
               Card(DefencePriority[j]) !in zone || !CanPlayCard(pile, Card(DefencePriority[j]), false, true)
    ensures SelectMove(pile, zone, false, true, pick) == Some(OfRank(zone, DefencePriority[k]))
  {
    var valid := LegalCards(pile, zone, true);
    assert Card(DefencePriority[k]) in valid;
    var choice := FirstPresent(DefencePriority, valid);
    assert choice == Some(k);
    LegalGroupIsZoneGroup(pile, zone, true, DefencePriority[k]);
  }

  /** A blind pick is played alone exactly when it passes the blind test. */
  lemma SelectMoveBlind(pile: seq<Card>, zone: seq<Card>, defending: bool, pick: nat)
    requires pick < |zone|
    ensures SelectMove(pile, zone, true, defending, pick) ==
              if pile == [] || zone[pick].rank >= pile[|pile| - 1].rank || IsWild(zone[pick].rank)
                 || (pile[|pile| - 1].rank == Seven && zone[pick].rank <= Seven)
              then Some([zone[pick]]) else None
  {
  }

  /** Legality depends on the rank only, so the legal cards of a legal rank are all the
      zone's cards of that rank. */
  lemma {:induction false} LegalGroupIsZoneGroup(pile: seq<Card>, zone: seq<Card>, defending: bool, r: Rank)
    requires CanPlayCard(pile, Card(r), false, defending)
    ensures OfRank(LegalCards(pile, zone, defending), r) == OfRank(zone, r)
  {
    if zone != [] {
      var init, last := zone[..|zone| - 1], zone[|zone| - 1];
      LegalGroupIsZoneGroup(pile, init, defending, r);
      var legal := LegalCards(pile, zone, defending);
      var extra := if CanPlayCard(pile, last, false, defending) then [last] else [];
      assert legal == LegalCards(pile, init, defending) + extra;
      OfRankAppend(LegalCards(pile, init, defending), extra, r);
      assert OfRank(legal, r) == OfRank(LegalCards(pile, init, defending), r) + OfRank(extra, r);
      assert zone == init + [last];
      OfRankAppend(init, [last], r);
      assert OfRank(zone, r) == OfRank(init, r) + OfRank([last], r);
      assert OfRank(extra, r) == OfRank([last], r) by {
        assert [last][..0] == [];
        if extra == [] {
          assert last != Card(r);
        }
      }
    }
  }

  /** The legal cards are taken from the zone. */
  lemma {:induction false} LegalCardsFromZone(pile: seq<Card>, zone: seq<Card>, defending: bool)
    ensures multiset(LegalCards(pile, zone, defending)) <= multiset(zone)
  {
    if zone != [] {
      var init, last := zone[..|zone| - 1], zone[|zone| - 1];
      LegalCardsFromZone(pile, init, defending);
      assert zone == init + [last];
      var extra := if CanPlayCard(pile, last, false, defending) then [last] else [];
      assert multiset(LegalCards(pile, zone, defending)) == multiset(LegalCards(pile, init, defending)) + multiset(extra);
    }
  }

  lemma {:induction false} OfRankAbsent(s: seq<Card>, r: Rank)
    requires Card(r) !in s
    ensures OfRank(s, r) == []
  {
    if s != [] {
      OfRankAbsent(s[..|s| - 1], r);
    }
  }

  lemma OfRankSnoc(s: seq<Card>, c: Card, r: Rank)
    ensures OfRank(s + [c], r) == OfRank(s, r) + (if c.rank == r then [c] else [])
  {
    assert (s + [c])[..|s|] == s;
  }

  lemma {:induction false} OfRankAppend(s: seq<Card>, t: seq<Card>, r: Rank)
    ensures OfRank(s + t, r) == OfRank(s, r) + OfRank(t, r)
    decreases |t|
  {
    if t == [] {
      assert s + t == s;
    } else {
      var u := t[..|t| - 1];
      OfRankAppend(s, u, r);
      assert (s + t)[..|s + t| - 1] == s + u;
      assert t[..|t| - 1] == u;
    }
  }

  /** `groups` maps each rank present in `s` to the cards of that rank, in order. */
  ghost predicate GroupsOf(groups: map<Rank, seq<Card>>, s: seq<Card>) {
    (forall r :: r in groups <==> Card(r) in s) &&
    (forall r :: r in groups ==> groups[r] == OfRank(s, r))
  }

  /** Filing one more card under its rank keeps the grouping up to date. */
  lemma GroupStep(groups: map<Rank, seq<Card>>, s: seq<Card>, card: Card)
    requires GroupsOf(groups, s)
    ensures GroupsOf(groups[card.rank := (if card.rank in groups then groups[card.rank] else []) + [card]], s + [card])
  {
    var after := groups[card.rank := (if card.rank in groups then groups[card.rank] else []) + [card]];
    forall r | r in after ensures after[r] == OfRank(s + [card], r) {
      OfRankSnoc(s, card, r);
      if r == card.rank && r !in groups {
        OfRankAbsent(s, r);
      }
    }
  }

  /** The source's `rank_groups` loop: each rank present among `valid` maps to its cards,
      in order. */
  method GroupByRank(valid: seq<Card>) returns (groups: map<Rank, seq<Card>>)
    ensures GroupsOf(groups, valid)
  {
    groups := map[];
    var i := 0;
    while i < |valid|
      invariant i <= |valid|
      invariant GroupsOf(groups, valid[..i])
    {
      var card := valid[i];
      GroupStep(groups, valid[..i], card);
      if card.rank !in groups {
        groups := groups[card.rank := []];
      }
      groups := groups[card.rank := groups[card.rank] + [card]];
      assert valid[..i + 1] == valid[..i] + [card];
      i := i + 1;
    }
    assert valid[..i] == valid;
  }

  /** The source's `min(rank_groups.keys())`: the lowest rank among `valid`. */
  method MinRank(valid: seq<Card>) returns (lowest: Rank)
    requires valid != []
    ensures Card(lowest) in valid
    ensures forall c :: c in valid ==> lowest <= c.rank
  {
    lowest := valid[0].rank;
    var j := 1;
    while j < |valid|
      invariant 1 <= j <= |valid|
      invariant Card(lowest) in valid[..j]
      invariant forall c :: c in valid[..j] ==> lowest <= c.rank
    {
      assert valid[..j + 1] == valid[..j] + [valid[j]];
      if valid[j].rank < lowest {
        lowest := valid[j].rank;
      }
      j := j + 1;
    }
    assert valid[..j] == valid;
  }

  /** The source's search of `rank_groups` for 2, 10, Ace and 3, in that order: the position
      in DefencePriority of the first rank present. */
  method FindDefence(groups: map<Rank, seq<Card>>, ghost valid: seq<Card>) returns (k: Option<nat>)
    requires GroupsOf(groups, valid)
    ensures k == FirstPresent(DefencePriority, valid)
  {
    var i := 0;
    while i < |DefencePriority|
      invariant i <= |DefencePriority|
      invariant forall j :: 0 <= j < i ==> Card(DefencePriority[j]) !in valid
    {
      if DefencePriority[i] in groups {
        return Some(i);
      }
      i := i + 1;
    }
    return None;
  }

  /** Move selection as the source runs it: the legal cards are grouped by rank in a loop,
      then the defensive ranks are searched in priority order, or the lowest rank is taken. */
  method GetPlayerMove(pile: seq<Card>, playable: seq<Card>, isBlind: bool, isDefending: bool, pick: nat)
    returns (move: Option<seq<Card>>)
    requires isBlind && playable != [] ==> pick < |playable|
    ensures move == SelectMove(pile, playable, isBlind, isDefending, pick)
  {
    if playable == [] {
      return None;
    }
    if isBlind {
      var card := playable[pick];
      assert SelectMove(pile, playable, isBlind, isDefending, pick)
        == if BlindLegal(pile, card) then Some([card]) else None;
      if pile == [] {
        return Some([card]);
      }
      var top := TopRank(pile).value;
      if card.rank >= top || card.rank in [Two, Three, Ten, Ace] || (top == Seven && card.rank <= Seven) {
        return Some([card]);
      } else {
        return None;
      }
    }
    var valid := LegalCards(pile, playable, isDefending);
    if valid == [] {
      return None;
    }
    ghost var choice := if isDefending then FirstPresent(DefencePriority, valid) else None;
    assert SelectMove(pile, playable, isBlind, isDefending, pick) ==
      Some(OfRank(valid, if choice.Some? then DefencePriority[choice.value] else LowestRank(valid)));
    var groups := GroupByRank(valid);
    if isDefending {
      var k := FindDefence(groups, valid);
      if k.Some? {
        return Some(groups[DefencePriority[k.value]]);
      }
    }
    var lowest := MinRank(valid);
    return Some(groups[lowest]);
  }
}

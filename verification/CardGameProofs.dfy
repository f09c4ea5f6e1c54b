/** What holds in every game that is played. */
module CardGameProofs {
  import opened Common
  import opened Decimal
  import opened CardGame

  // ---------------------------------------------------------------- how a game ends

  /** A game that can begin: both heroes live, and it is not over. */
  predicate Begins(g: Game) {
    && g.WellFormed() && (g.phase == "main" || g.phase == "combat")
    && g.players[0].health > 0 && g.players[1].health > 0
  }

  /** The player whose attack ended the game, if one did. */
  function Ender(g: Game, moves: seq<Move>): Option<nat>
    requires Plays(g, moves)
    decreases |moves|
  {
    if moves == [] then None
    else if g.phase != "ended" && Make(g, moves[0]).phase == "ended" && moves[0].AttackWith? then Some(g.current)
    else Ender(Make(g, moves[0]), moves[1..])
  }

  /** The game is over exactly when it has an ender, whose opponent then is dead and who lives. */
  predicate Over(g: Game, ender: Option<nat>) {
    && g.WellFormed()
    && match ender
       case None => (g.phase == "main" || g.phase == "combat") && g.players[0].health > 0 && g.players[1].health > 0
       case Some(w) => g.phase == "ended" && w < 2 && g.players[w].health > 0 && g.players[1 - w].health <= 0
  }

  predicate SamePlayers(g: Game, g': Game) {
    |g.players| == |g'.players| && forall i :: 0 <= i < |g.players| ==> g.players[i].playerID == g'.players[i].playerID
  }

  lemma PlayKeepsOver(g: Game, cardID: int, ender: Option<nat>)
    requires Over(g, ender) && g.phase == "main"
    ensures SamePlayers(g, Play(g, cardID)) && Over(Play(g, cardID), ender) && Play(g, cardID).phase == "main"
  {
    hide Without, Played, Hurt;
  }

  lemma AttackKeepsOver(g: Game, attackerID: int, targetID: int, ender: Option<nat>)
    requires Over(g, ender) && g.phase == "combat"
    ensures var g' := Attack(g, attackerID, targetID);
            && SamePlayers(g, g') && (g'.phase == "combat" || g'.phase == "ended")
            && Over(g', if g'.phase == "ended" then Some(g.current) else ender)
  {
    hide Alive, Fight;
  }

  lemma MoveKeepsOver(g: Game, m: Move, ender: Option<nat>)
    requires Over(g, ender) && Legal(g, m)
    ensures SamePlayers(g, Make(g, m))
    ensures Over(Make(g, m), if ender == None && Make(g, m).phase == "ended" then Some(g.current) else ender)
    ensures ender == None && Make(g, m).phase == "ended" ==> m.AttackWith?
  {
    hide Play, Attack, First;
    match m
    case PlayCard(_, cardID, _) => PlayKeepsOver(g, cardID, ender);
    case AttackWith(_, attackerID, targetID) => AttackKeepsOver(g, attackerID, targetID, ender);
    case End(_) =>
    case SwitchPhase =>
  }

  lemma {:induction false} GameKeepsOver(g: Game, moves: seq<Move>, ender: Option<nat>)
    requires Over(g, ender) && Plays(g, moves)
    ensures SamePlayers(g, Final(g, moves))
    ensures Over(Final(g, moves), if ender.Some? then ender else Ender(g, moves))
    decreases |moves|
  {
    hide Over, Legal, Make;
    if moves != [] {
      MoveKeepsOver(g, moves[0], ender);
      EnderNeedsOpenGame(g, moves[0], ender);
      var g' := Make(g, moves[0]);
      var ender' := if ender == None && g'.phase == "ended" then Some(g.current) else ender;
      GameKeepsOver(g', moves[1..], ender');
    }
  }

  lemma EnderNeedsOpenGame(g: Game, m: Move, ender: Option<nat>)
    requires Over(g, ender)
    ensures ender == None <==> g.phase != "ended"
  {
  }

  /**
   In every game that begins with two living heroes, a winner is reported exactly when the phase is "ended".
   Then exactly one hero is dead, and the winner is the player whose attack ended the game.
   */
  lemma WinnerEndedTheGame(g: Game, moves: seq<Move>)
    requires Begins(g) && Plays(g, moves)
    ensures var f, ender := Final(g, moves), Ender(g, moves);
            && f.WellFormed()
            && (CheckWin(f).0 <==> f.phase == "ended") && (f.phase == "ended" <==> ender.Some?)
            && (ender.Some? ==>
                  && ender.value < 2 && CheckWin(f) == (true, g.players[ender.value].playerID)
                  && f.players[ender.value].health > 0 && f.players[1 - ender.value].health <= 0)
            && (ender == None ==> f.players[0].health > 0 && f.players[1].health > 0)
  {
    hide Plays, Final, Ender, CheckWin;
    GameKeepsOver(g, moves, None);
    OverDecides(Final(g, moves), Ender(g, moves));
  }

  lemma OverDecides(f: Game, ender: Option<nat>)
    requires Over(f, ender)
    ensures (CheckWin(f).0 <==> f.phase == "ended") && (f.phase == "ended" <==> ender.Some?)
    ensures ender.Some? ==>
              && ender.value < 2 && CheckWin(f) == (true, f.players[ender.value].playerID)
              && f.players[ender.value].health > 0 && f.players[1 - ender.value].health <= 0
    ensures ender == None ==> f.players[0].health > 0 && f.players[1].health > 0
  {
  }

  /** However the game goes on after it has ended, the winner stays. */
  lemma WinnerStays(g: Game, moves: seq<Move>, more: seq<Move>)
    requires Begins(g) && Plays(g, moves) && Final(g, moves).phase == "ended" && Plays(Final(g, moves), more)
    ensures var f, f' := Final(g, moves), Final(Final(g, moves), more);
            f.WellFormed() && f'.WellFormed() && f'.phase == "ended" && CheckWin(f') == CheckWin(f)
  {
    var f, f' := Final(g, moves), Final(Final(g, moves), more);
    GameKeepsOver(g, moves, None);
    OverDecides(f, Ender(g, moves));
    GameKeepsOver(f, more, Ender(g, moves));
    OverDecides(f', Ender(g, moves));
    hide Plays, Final, Ender, Over, CheckWin;
  }

  // ---------------------------------------------------------------- mana, health and decks

  predicate DistinctIDs(cards: seq<Card>) {
    forall i, j :: 0 <= i < j < |cards| ==> cards[i].id != cards[j].id
  }

  predicate FairCards(cards: seq<Card>) {
    forall i :: 0 <= i < |cards| ==> cards[i].cost >= 0 && cards[i].attack >= 0
  }

  predicate WithinLimits(p: Player) {
    && 0 <= p.mana <= p.maxMana <= MAX_MANA && p.health <= MAX_HEALTH && p.deckSize >= 0
    && DistinctIDs(p.hand) && FairCards(p.hand)
  }

  predicate Limits(g: Game) {
    g.WellFormed() && WithinLimits(g.players[0]) && WithinLimits(g.players[1]) && FairCards(g.board)
  }

  /** The turns a player began. */
  function TurnsBegun(g: Game, moves: seq<Move>, i: nat): nat
    requires Plays(g, moves)
    decreases |moves|
  {
    if moves == [] then 0
    else
      var g' := Make(g, moves[0]);
      TurnsBegun(g', moves[1..], i) + if moves[0].End? && g'.current != g.current && g'.current == i then 1 else 0
  }

  lemma {:induction false} WithoutOf(cards: seq<Card>, id: int)
    ensures DistinctIDs(cards) ==> DistinctIDs(Without(cards, id))
    ensures FairCards(cards) ==> FairCards(Without(cards, id))
    ensures forall c :: c in Without(cards, id) ==> c in cards
  {
    if cards != [] {
      var front, last := cards[..|cards| - 1], cards[|cards| - 1];
      WithoutOf(front, id);
      var kept := Without(front, id);
      forall i | 0 <= i < |kept| && DistinctIDs(cards) ensures kept[i].id != last.id {
        assert kept[i] in front;
        var j :| 0 <= j < |front| && front[j] == kept[i];
        assert cards[j].id != cards[|cards| - 1].id;
      }
    }
  }

  lemma {:induction false} FirstIsLast(cards: seq<Card>, id: int)
    requires DistinctIDs(cards) && First(cards, id).Some?
    ensures AfterLast(cards, id) > 0 && cards[AfterLast(cards, id) - 1] == First(cards, id).value
  {
    var i := FirstAt(cards, id);
  }

  lemma {:induction false} FirstAt(cards: seq<Card>, id: int) returns (i: nat)
    requires First(cards, id).Some?
    ensures i < |cards| && cards[i] == First(cards, id).value && cards[i].id == id
  {
    if cards[0].id == id {
      i := 0;
    } else {
      i := FirstAt(cards[1..], id);
      i := i + 1;
    }
  }

  lemma {:induction false} AliveIsFair(cards: seq<Card>)
    requires FairCards(cards)
    ensures FairCards(Alive(cards))
  {
    if cards != [] {
      AliveIsFair(cards[..|cards| - 1]);
    }
  }

  /** Only what a card does, not the rest of the move. */
  lemma EffectKeepsLimits(g: Game, effect: string)
    requires Limits(g)
    ensures Limits(Effect(g, effect)) && SameMana(g, Effect(g, effect))
  {
  }

  predicate SameMana(g: Game, g': Game) {
    |g.players| == |g'.players| && forall i :: 0 <= i < |g.players| ==> g.players[i].maxMana == g'.players[i].maxMana
  }

  lemma PlayKeepsLimits(g: Game, playerID: nat, cardID: int, position: int)
    requires Limits(g) && ValidatePlay(g, playerID, cardID, position).Ok?
    ensures Limits(Play(g, cardID)) && SameMana(g, Play(g, cardID))
  {
    hide Effect, First, Without;
    var card, p := Played(g, cardID), g.Mover();
    FirstIsLast(p.hand, cardID);
    WithoutOf(p.hand, cardID);
    var p' := p.(hand := Without(p.hand, cardID), mana := p.mana - card.cost);
    var g1 := g.(players := g.players[g.current := p'], board := g.board + [card]);
    assert WithinLimits(p');
    EffectKeepsLimits(g1, card.effect);
  }

  lemma AttackKeepsLimits(g: Game, attackerID: int, targetID: int)
    requires Limits(g)
    ensures Limits(Attack(g, attackerID, targetID)) && SameMana(g, Attack(g, attackerID, targetID))
  {
    hide Alive;
    var a, t := AfterLast(g.board, attackerID), AfterLast(g.board, targetID);
    if a > 0 && t > 0 {
      AliveIsFair(Fight(g.board, a - 1, t - 1));
    }
  }

  lemma MoveKeepsLimits(g: Game, m: Move)
    requires Limits(g) && Legal(g, m)
    ensures Limits(Make(g, m))
    ensures m.End? || SameMana(g, Make(g, m))
    ensures forall i :: 0 <= i < 2 ==>
              Make(g, m).players[i].maxMana
              == Min(MAX_MANA, g.players[i].maxMana
                               + if m.End? && Make(g, m).current != g.current && Make(g, m).current == i then 1 else 0)
  {
    hide Play, Attack, First;
    match m
    case PlayCard(playerID, cardID, position) => PlayKeepsLimits(g, playerID, cardID, position);
    case AttackWith(_, attackerID, targetID) => AttackKeepsLimits(g, attackerID, targetID);
    case End(_) =>
    case SwitchPhase =>
  }

  /**
   In every game with distinct cards in each hand, costs and attacks that are not negative, and players
   within the limits, they stay within them: mana between 0 and the maximum, that at most 10, health at most
   30, decks not below 0. A player's maximum is what it began with plus the turns it began, but at most 10.
   */
  lemma {:induction false} LimitsAlwaysHold(g: Game, moves: seq<Move>)
    requires Limits(g) && Plays(g, moves)
    ensures Limits(Final(g, moves))
    ensures forall i :: 0 <= i < 2 ==>
              Final(g, moves).players[i].maxMana == Min(MAX_MANA, g.players[i].maxMana + TurnsBegun(g, moves, i))
    decreases |moves|
  {
    if moves != [] {
      MoveKeepsLimits(g, moves[0]);
      hide Make, Legal;
      LimitsAlwaysHold(Make(g, moves[0]), moves[1..]);
    }
  }

  // ---------------------------------------------------------------- cards are neither lost nor made

  function IDs(cards: seq<Card>): multiset<int> {
    if cards == [] then multiset{} else IDs(cards[..|cards| - 1]) + multiset{cards[|cards| - 1].id}
  }

  /** The IDs of all cards in hands and on the board. */
  function AllIDs(g: Game): multiset<int>
    requires g.WellFormed()
  {
    IDs(g.players[0].hand) + IDs(g.players[1].hand) + IDs(g.board)
  }

  lemma {:induction false} IDsOfWithout(cards: seq<Card>, id: int)
    ensures forall x :: IDs(Without(cards, id))[x] == if x == id then 0 else IDs(cards)[x]
  {
    if cards != [] {
      var front, last := cards[..|cards| - 1], cards[|cards| - 1];
      IDsOfWithout(front, id);
      if last.id == id {
        assert Without(cards, id) == Without(front, id) + [] == Without(front, id);
      } else {
        IDsOfOneMore(Without(front, id), last);
      }
    }
  }

  lemma IDsOfOneMore(cards: seq<Card>, card: Card)
    ensures IDs(cards + [card]) == IDs(cards) + multiset{card.id}
  {
    assert (cards + [card])[..|cards|] == cards;
  }

  lemma {:induction false} IDsOfHurt(cards: seq<Card>, damage: int)
    ensures IDs(Hurt(cards, damage)) == IDs(cards)
  {
    if cards != [] {
      IDsOfHurt(cards[..|cards| - 1], damage);
      assert Hurt(cards, damage)[..|cards| - 1] == Hurt(cards[..|cards| - 1], damage);
    }
  }

  lemma {:induction false} FoundIsCounted(cards: seq<Card>, id: int)
    requires AfterLast(cards, id) > 0
    ensures IDs(cards)[id] >= 1
  {
    var front := cards[..|cards| - 1];
    if cards[|cards| - 1].id != id {
      FoundIsCounted(front, id);
    }
  }

  lemma EffectKeepsIDs(g: Game, effect: string)
    requires g.WellFormed()
    ensures AllIDs(Effect(g, effect)) == AllIDs(g)
  {
    IDsOfHurt(g.board, 1);
    hide IDs, Hurt;
    assert effect != "damage_all" ==> forall i :: 0 <= i < 2 ==> Effect(g, effect).players[i].hand == g.players[i].hand;
  }

  /**
   A validated play keeps the cards in hands and on the board exactly when the card's ID occurs once in the
   hand: all cards with the ID leave it, and one comes onto the board.
   */
  lemma PlayConservesCardsIff(g: Game, playerID: nat, cardID: int, position: int)
    requires g.WellFormed() && ValidatePlay(g, playerID, cardID, position).Ok?
    ensures AllIDs(Play(g, cardID)) == AllIDs(g) <==> IDs(g.Mover().hand)[cardID] == 1
  {
    hide Effect, Without, IDs, First;
    var card, p := Played(g, cardID), g.Mover();
    var found := FirstAt(p.hand, cardID);
    FoundIsCounted(p.hand, cardID);
    IDsOfWithout(p.hand, cardID);
    IDsOfOneMore(g.board, card);
    var p' := p.(hand := Without(p.hand, cardID), mana := p.mana - card.cost);
    var g1 := g.(players := g.players[g.current := p'], board := g.board + [card]);
    EffectKeepsIDs(g1, card.effect);
    var before, after := AllIDs(g), AllIDs(g1);
    assert after[cardID] == before[cardID] - IDs(p.hand)[cardID] + 1;
    assert forall id :: id != cardID ==> after[id] == before[id];
  }

  lemma {:induction false} DistinctIsCountedOnce(cards: seq<Card>, id: int)
    requires DistinctIDs(cards)
    ensures IDs(cards)[id] <= 1
    ensures IDs(cards)[id] == 0 <==> forall i :: 0 <= i < |cards| ==> cards[i].id != id
  {
    if cards != [] {
      DistinctIsCountedOnce(cards[..|cards| - 1], id);
    }
  }

  /** With distinct IDs in every hand, every play in every game keeps the cards. */
  lemma EveryPlayConservesCards(g: Game, moves: seq<Move>, playerID: nat, cardID: int, position: int)
    requires Limits(g) && Plays(g, moves)
    requires Final(g, moves).WellFormed() && ValidatePlay(Final(g, moves), playerID, cardID, position).Ok?
    ensures AllIDs(Play(Final(g, moves), cardID)) == AllIDs(Final(g, moves))
  {
    LimitsAlwaysHold(g, moves);
    DistinctPlayConserves(Final(g, moves), playerID, cardID, position);
  }

  lemma DistinctPlayConserves(g: Game, playerID: nat, cardID: int, position: int)
    requires Limits(g) && ValidatePlay(g, playerID, cardID, position).Ok?
    ensures AllIDs(Play(g, cardID)) == AllIDs(g)
  {
    var hand := g.Mover().hand;
    assert DistinctIDs(hand);
    hide Play, AllIDs, IDs, First, FairCards;
    PlayConservesCardsIff(g, playerID, cardID, position);
    var found := FirstAt(hand, cardID);
    DistinctIsCountedOnce(hand, cardID);
  }

  // ---------------------------------------------------------------- the moves on offer are the legal ones

  lemma {:induction false} AffordableNames(hand: seq<Card>, mana: int, name: string)
    ensures name in Affordable(hand, mana)
            <==> exists i :: 0 <= i < |hand| && hand[i].cost <= mana && name == PlayName(hand[i].id)
  {
    hide PlayName;
    if hand != [] {
      var front, last := hand[..|hand| - 1], hand[|hand| - 1];
      AffordableNames(front, mana, name);
      if i :| 0 <= i < |hand| && hand[i].cost <= mana && name == PlayName(hand[i].id) {
        assert i < |front| ==> front[i] == hand[i];
      }
      if i :| 0 <= i < |front| && front[i].cost <= mana && name == PlayName(front[i].id) {
        assert hand[i] == front[i];
      }
    }
  }

  lemma {:induction false} AttackerNames(board: seq<Card>, name: string)
    ensures name in Attackers(board) <==> exists i :: 0 <= i < |board| && name == AttackName(board[i].id)
  {
    hide AttackName;
    if board != [] {
      var front, last := board[..|board| - 1], board[|board| - 1];
      AttackerNames(front, name);
      if i :| 0 <= i < |board| && name == AttackName(board[i].id) {
        assert i < |front| ==> front[i] == board[i];
      }
      if i :| 0 <= i < |front| && name == AttackName(front[i].id) {
        assert board[i] == front[i];
      }
    }
  }

  lemma PlayNamesDiffer(a: int, b: int)
    ensures PlayName(a) == PlayName(b) <==> a == b
    ensures PlayName(a) != "end_turn" && PlayName(a) != "end_combat" && PlayName(a) != AttackName(b)
    ensures AttackName(a) == AttackName(b) <==> a == b
    ensures AttackName(a) != "end_turn" && AttackName(a) != "end_combat"
  {
    if PlayName(a) == PlayName(b) {
      assert PlayName(a)[|"play_card_"|..] == FormatInt(a) && PlayName(b)[|"play_card_"|..] == FormatInt(b);
      FormatIntIsInjective(a, b);
    }
    if AttackName(a) == AttackName(b) {
      assert AttackName(a)[|"attack_with_"|..] == FormatInt(a) && AttackName(b)[|"attack_with_"|..] == FormatInt(b);
      FormatIntIsInjective(a, b);
    }
    assert PlayName(a)[0] == 'p' && AttackName(a)[0] == 'a' && AttackName(b)[0] == 'a';
  }

  /** A card that can be paid for. */
  predicate AffordableAt(g: Game, i: nat, cardID: int)
    requires g.WellFormed()
  {
    i < |g.Mover().hand| && g.Mover().hand[i].id == cardID && g.Mover().hand[i].cost <= g.Mover().mana
  }

  /** Playing a card is on offer exactly when its owner moves, in the main phase, and can pay for a card with the ID. */
  lemma OfferMeans(g: Game, playerID: nat, cardID: int)
    requires g.WellFormed()
    ensures PlayName(cardID) in ValidActions(g, playerID)
            <==> g.Mover().playerID == playerID && g.phase == "main" && exists i: nat :: AffordableAt(g, i, cardID)
  {
    hide PlayName, AttackName, Affordable, Attackers, First;
    var hand, mana := g.Mover().hand, g.Mover().mana;
    AffordableNames(hand, mana, PlayName(cardID));
    AttackerNames(g.board, PlayName(cardID));
    PlayNamesDiffer(cardID, 0);
    forall i | 0 <= i < |hand| ensures PlayName(cardID) == PlayName(hand[i].id) <==> cardID == hand[i].id {
      PlayNamesDiffer(cardID, hand[i].id);
    }
    forall i | 0 <= i < |g.board| ensures PlayName(cardID) != AttackName(g.board[i].id) {
      PlayNamesDiffer(cardID, g.board[i].id);
    }
    if i :| 0 <= i < |hand| && hand[i].cost <= mana && PlayName(cardID) == PlayName(hand[i].id) {
      assert AffordableAt(g, i, cardID);
    }
  }

  /**
   The offer and the validation agree on a card at a legal position exactly if they do not look at different
   cards with its ID: the validation judges the first in hand, the offer takes any that can be paid for.
   */
  lemma OfferAgreesIff(g: Game, playerID: nat, cardID: int, position: int)
    requires g.WellFormed() && 0 <= position <= LAST_POSITION
    ensures (PlayName(cardID) in ValidActions(g, playerID) <==> ValidatePlay(g, playerID, cardID, position).Ok?)
            <==> !(&& g.Mover().playerID == playerID && g.phase == "main"
                   && First(g.Mover().hand, cardID).Some? && First(g.Mover().hand, cardID).value.cost > g.Mover().mana
                   && exists i: nat :: AffordableAt(g, i, cardID))
  {
    OfferMeans(g, playerID, cardID);
    hide PlayName, ValidActions, First;
    FirstFinds(g.Mover().hand, cardID);
    if First(g.Mover().hand, cardID).Some? {
      var k := FirstAt(g.Mover().hand, cardID);
      assert g.Mover().hand[k].cost <= g.Mover().mana ==> AffordableAt(g, k, cardID);
    }
  }

  /** With distinct IDs in the hand, playing a card is on offer exactly when the validation accepts it. */
  lemma OfferedPlaysAreLegal(g: Game, playerID: nat, cardID: int, position: int)
    requires g.WellFormed() && DistinctIDs(g.Mover().hand) && 0 <= position <= LAST_POSITION
    ensures PlayName(cardID) in ValidActions(g, playerID) <==> ValidatePlay(g, playerID, cardID, position).Ok?
  {
    OfferAgreesIff(g, playerID, cardID, position);
    hide PlayName, ValidActions, ValidatePlay, First;
    FirstFinds(g.Mover().hand, cardID);
    if i: nat :| AffordableAt(g, i, cardID) {
      assert First(g.Mover().hand, cardID) == Some(g.Mover().hand[i]);
    }
  }

  /** Attacking with a card is on offer exactly when the validation accepts it. */
  lemma OfferedAttacksAreLegal(g: Game, playerID: nat, attackerID: int)
    requires g.WellFormed()
    ensures AttackName(attackerID) in ValidActions(g, playerID) <==> ValidateAttack(g, playerID, attackerID).Ok?
  {
    hide PlayName, AttackName, Affordable, Attackers, First;
    var hand, mana := g.Mover().hand, g.Mover().mana;
    AffordableNames(hand, mana, AttackName(attackerID));
    AttackerNames(g.board, AttackName(attackerID));
    PlayNamesDiffer(attackerID, 0);
    forall i | 0 <= i < |hand| ensures AttackName(attackerID) != PlayName(hand[i].id) {
      PlayNamesDiffer(hand[i].id, attackerID);
    }
    forall i | 0 <= i < |g.board| ensures AttackName(attackerID) == AttackName(g.board[i].id) <==> attackerID == g.board[i].id {
      PlayNamesDiffer(attackerID, g.board[i].id);
    }
    FirstFinds(g.board, attackerID);
  }

  lemma {:induction false} FirstFinds(cards: seq<Card>, id: int)
    ensures First(cards, id).Some? <==> exists i :: 0 <= i < |cards| && cards[i].id == id
    ensures DistinctIDs(cards) ==> forall i :: 0 <= i < |cards| && cards[i].id == id ==> First(cards, id) == Some(cards[i])
  {
    if First(cards, id).Some? {
      var i := FirstAt(cards, id);
    } else {
      NotFound(cards, id);
    }
  }

  lemma {:induction false} NotFound(cards: seq<Card>, id: int)
    requires First(cards, id) == None
    ensures forall i :: 0 <= i < |cards| ==> cards[i].id != id
  {
    if cards != [] {
      NotFound(cards[1..], id);
      assert forall i :: 1 <= i < |cards| ==> cards[i] == cards[1..][i - 1];
    }
  }
}

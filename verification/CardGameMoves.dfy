/** What each move changes, and by how much, told of the cards and players themselves; and the books of a game. */
module CardGameMoves {
  import opened Common
  import opened CardGame

  /** Positions in ascending order. */
  predicate Ascending(at: seq<nat>) {
    forall i, j :: 0 <= i < j < |at| ==> at[i] < at[j]
  }

  lemma OneMorePosition(at: seq<nat>, n: nat)
    requires Ascending(at) && forall j :: 0 <= j < |at| ==> at[j] < n
    ensures Ascending(at + [n]) && n !in at
    ensures forall i: nat :: i in at + [n] <==> i in at || i == n
  {
  }

  /** The last position of a card with the ID. */
  predicate IsLast(cards: seq<Card>, id: int, k: nat) {
    k < |cards| && cards[k].id == id && forall i :: k < i < |cards| ==> cards[i].id != id
  }

  predicate Absent(cards: seq<Card>, id: int) {
    forall i :: 0 <= i < |cards| ==> cards[i].id != id
  }

  lemma LastIs(cards: seq<Card>, id: int)
    ensures AfterLast(cards, id) > 0 ==> IsLast(cards, id, AfterLast(cards, id) - 1)
    ensures AfterLast(cards, id) == 0 <==> Absent(cards, id)
  {
    var k := AfterLast(cards, id);
    assert k > 0 ==> cards[k - 1].id == id;
  }

  // ---------------------------------------------------------------- attacking

  /** What is left of each card's health: the two that fight lose the other's attack, one that fights itself both times its own. */
  predicate LeftAfterFight(board: seq<Card>, a: nat, t: nat, health: seq<int>)
    requires a < |board| && t < |board|
  {
    && |health| == |board|
    && (forall i :: 0 <= i < |board| && i != a && i != t ==> health[i] == board[i].health)
    && (a != t ==> health[t] == board[t].health - board[a].attack && health[a] == board[a].health - board[t].attack)
    && (a == t ==> health[a] == board[a].health - 2 * board[a].attack)
  }

  /** Of the first n cards those with health left stay, in order and with that health, and no others do. */
  predicate Survivors(board: seq<Card>, health: seq<int>, n: nat, board': seq<Card>, at: seq<nat>)
    requires n <= |health| == |board|
  {
    && |at| == |board'| && Ascending(at)
    && (forall j :: 0 <= j < |at| ==> at[j] < n && board'[j] == board[at[j]].(health := health[at[j]]))
    && (forall i: nat :: i < n ==> (health[i] > 0 <==> i in at))
  }

  lemma {:induction false} AliveAre(board: seq<Card>, was: seq<Card>, health: seq<int>, n: nat) returns (at: seq<nat>)
    requires n <= |health| == |board| == |was|
    requires forall i :: 0 <= i < |board| ==> board[i] == was[i].(health := health[i])
    ensures Survivors(was, health, n, Alive(board[..n]), at)
  {
    if n == 0 {
      at := [];
    } else {
      var front := AliveAre(board, was, health, n - 1);
      assert board[..n][..n - 1] == board[..n - 1];
      at := OneMoreCard(was, health, n - 1, Alive(board[..n - 1]), front, board[n - 1]);
    }
  }

  lemma OneMoreCard(board: seq<Card>, health: seq<int>, n: nat, kept: seq<Card>, front: seq<nat>, card: Card)
    returns (at: seq<nat>)
    requires n < |health| == |board| && Survivors(board, health, n, kept, front)
    requires card == board[n].(health := health[n])
    ensures Survivors(board, health, n + 1, kept + if card.health > 0 then [card] else [], at)
  {
    if card.health > 0 {
      at := front + [n];
      OneMorePosition(front, n);
      hide Ascending;
      assert forall j :: 0 <= j < |front| ==> at[j] == front[j] && (kept + [card])[j] == kept[j];
    } else {
      at := front;
      hide Ascending;
      assert kept + [] == kept;
      assert n !in front;
    }
  }

  /**
   An attack on a card: the last cards with the two IDs fight. Nothing but the board changes, and there each of
   the two loses the other's attack, and every card that has no health left is gone.
   */
  lemma AttackOnCard(g: Game, attackerID: int, targetID: int) returns (a: nat, t: nat, health: seq<int>, at: seq<nat>)
    requires g.WellFormed() && !Absent(g.board, attackerID) && !Absent(g.board, targetID)
    ensures IsLast(g.board, attackerID, a) && IsLast(g.board, targetID, t)
    ensures LeftAfterFight(g.board, a, t, health)
    ensures Survivors(g.board, health, |g.board|, Attack(g, attackerID, targetID).board, at)
    ensures Attack(g, attackerID, targetID) == g.(board := Attack(g, attackerID, targetID).board)
  {
    a, t := AttackIsFight(g, attackerID, targetID);
    health := FightLeaves(g.board, a, t);
    hide Attack, Fight, Alive, LeftAfterFight;
    var fought := Fight(g.board, a, t);
    at := AliveAre(fought, g.board, health, |fought|);
    assert fought[..|fought|] == fought;
  }

  lemma AttackIsFight(g: Game, attackerID: int, targetID: int) returns (a: nat, t: nat)
    requires g.WellFormed() && !Absent(g.board, attackerID) && !Absent(g.board, targetID)
    ensures IsLast(g.board, attackerID, a) && IsLast(g.board, targetID, t)
    ensures Attack(g, attackerID, targetID) == g.(board := Alive(Fight(g.board, a, t)))
  {
    LastIs(g.board, attackerID);
    LastIs(g.board, targetID);
    hide AfterLast, Alive, Fight, IsLast, Absent;
    a, t := AfterLast(g.board, attackerID) - 1, AfterLast(g.board, targetID) - 1;
  }

  lemma FightLeaves(board: seq<Card>, a: nat, t: nat) returns (health: seq<int>)
    requires a < |board| && t < |board|
    ensures LeftAfterFight(board, a, t, health)
    ensures forall i :: 0 <= i < |board| ==> Fight(board, a, t)[i] == board[i].(health := health[i])
  {
    var fought := Fight(board, a, t);
    health := seq(|fought|, i requires 0 <= i < |fought| => fought[i].health);
  }

  /** With no such target the hero is hit, and the game ends if that leaves it no health; with no attacker nothing happens. */
  lemma AttackOnHero(g: Game, attackerID: int, targetID: int)
    requires g.WellFormed() && Absent(g.board, targetID)
    ensures var g' := Attack(g, attackerID, targetID);
            && g'.WellFormed() && g'.current == g.current && g'.turn == g.turn && g'.board == g.board
            && g'.Mover() == g.Mover()
            && (Absent(g.board, attackerID) ==> g' == g)
            && (forall a: nat :: IsLast(g.board, attackerID, a) ==>
                  var hero, hero' := g.players[1 - g.current], g'.players[1 - g.current];
                  && hero' == hero.(health := hero.health - g.board[a].attack)
                  && g'.phase == if hero'.health <= 0 then "ended" else g.phase)
  {
    LastIs(g.board, attackerID);
    LastIs(g.board, targetID);
  }

  // ---------------------------------------------------------------- playing a card

  /** The cards among the first n without the ID, in order. */
  predicate Others(hand: seq<Card>, id: int, n: nat, hand': seq<Card>, at: seq<nat>)
    requires n <= |hand|
  {
    && |at| == |hand'| && Ascending(at)
    && (forall j :: 0 <= j < |at| ==> at[j] < n && hand'[j] == hand[at[j]])
    && (forall i: nat :: i < n ==> (hand[i].id != id <==> i in at))
  }

  lemma {:induction false} WithoutAre(hand: seq<Card>, id: int, n: nat) returns (at: seq<nat>)
    requires n <= |hand|
    ensures Others(hand, id, n, Without(hand[..n], id), at)
  {
    if n == 0 {
      at := [];
    } else {
      var front := WithoutAre(hand, id, n - 1);
      assert hand[..n][..n - 1] == hand[..n - 1];
      at := OneMoreOther(hand, id, n - 1, Without(hand[..n - 1], id), front);
    }
  }

  lemma OneMoreOther(hand: seq<Card>, id: int, n: nat, kept: seq<Card>, front: seq<nat>) returns (at: seq<nat>)
    requires n < |hand| && Others(hand, id, n, kept, front)
    ensures Others(hand, id, n + 1, kept + if hand[n].id == id then [] else [hand[n]], at)
  {
    if hand[n].id != id {
      at := front + [n];
      OneMorePosition(front, n);
      hide Ascending;
      assert forall j :: 0 <= j < |front| ==> at[j] == front[j] && (kept + [hand[n]])[j] == kept[j];
    } else {
      at := front;
      hide Ascending;
      assert kept + [] == kept;
      assert n !in front;
    }
  }

  /**
   A card in hand that is played: the last with the ID. Every card with the ID leaves the hand, that one is paid
   for and comes last on the board, and its effect is a card less in the deck if there is one, 3 health for its
   owner up to 30, or one damage to all on the board, itself included. Nothing else changes.
   */
  lemma PlayDoes(g: Game, cardID: int) returns (k: nat, at: seq<nat>)
    requires g.WellFormed() && !Absent(g.Mover().hand, cardID)
    ensures IsLast(g.Mover().hand, cardID, k)
    ensures var g', p, p', card := Play(g, cardID), g.Mover(), Play(g, cardID).players[g.current], g.Mover().hand[k];
            && g'.current == g.current && g'.turn == g.turn && g'.phase == g.phase
            && g'.players[1 - g.current] == g.players[1 - g.current]
            && p'.playerID == p.playerID && p'.maxMana == p.maxMana && p'.mana == p.mana - card.cost
            && Others(p.hand, cardID, |p.hand|, p'.hand, at)
            && p'.deckSize == (if card.effect == "draw_card" && p.deckSize > 0 then p.deckSize - 1 else p.deckSize)
            && p'.health == (if card.effect == "heal" then Min(p.health + 3, 30) else p.health)
            && |g'.board| == |g.board| + 1
            && (forall i :: 0 <= i < |g'.board| ==>
                  var c := if i < |g.board| then g.board[i] else card;
                  g'.board[i] == if card.effect == "damage_all" then c.(health := c.health - 1) else c)
  {
    LastIs(g.Mover().hand, cardID);
    hide AfterLast, Without;
    k := AfterLast(g.Mover().hand, cardID) - 1;
    at := WithoutAre(g.Mover().hand, cardID, |g.Mover().hand|);
    assert g.Mover().hand[..|g.Mover().hand|] == g.Mover().hand;
  }

  /** Which error a play gets: the first of these that applies, judged by the first card with the ID. */
  lemma PlayIsRefusedFor(g: Game, playerID: nat, cardID: int, position: int)
    requires g.WellFormed()
    ensures var r, hand := ValidatePlay(g, playerID, cardID, position), g.Mover().hand;
            && (r == Err(NotYourTurn) <==> g.Mover().playerID != playerID)
            && (r == Err(WrongPhase) <==> g.Mover().playerID == playerID && g.phase != "main")
            && (r == Err(NotInHand) <==> g.Mover().playerID == playerID && g.phase == "main" && Absent(hand, cardID))
            && (forall k: nat :: IsFirst(hand, cardID, k) && g.Mover().playerID == playerID && g.phase == "main" ==>
                  && (r == Err(NotEnoughMana) <==> hand[k].cost > g.Mover().mana)
                  && (r == Err(BadPosition) <==> hand[k].cost <= g.Mover().mana && !(0 <= position <= 7))
                  && (r == Ok(()) <==> hand[k].cost <= g.Mover().mana && 0 <= position <= 7))
  {
    FirstIs(g.Mover().hand, cardID);
    hide First;
  }

  predicate IsFirst(cards: seq<Card>, id: int, k: nat) {
    k < |cards| && cards[k].id == id && forall i :: 0 <= i < k ==> cards[i].id != id
  }

  lemma {:induction false} FirstIs(cards: seq<Card>, id: int)
    ensures First(cards, id) == None <==> Absent(cards, id)
    ensures forall k: nat :: IsFirst(cards, id, k) ==> First(cards, id) == Some(cards[k])
  {
    if cards != [] && cards[0].id != id {
      FirstIs(cards[1..], id);
      forall k: nat | IsFirst(cards, id, k) ensures First(cards, id) == Some(cards[k]) {
        assert IsFirst(cards[1..], id, k - 1);
      }
      if Absent(cards[1..], id) {
        assert forall i :: 1 <= i < |cards| ==> cards[i] == cards[1..][i - 1];
      } else {
        var i :| 0 <= i < |cards[1..]| && cards[1..][i].id == id;
        assert cards[i + 1].id == id;
      }
    }
  }

  lemma AttackIsRefusedFor(g: Game, playerID: nat, attackerID: int)
    requires g.WellFormed()
    ensures ValidateAttack(g, playerID, attackerID)
            == if g.Mover().playerID != playerID then Err(NotYourTurn)
               else if g.phase != "combat" then Err(WrongPhase)
               else if Absent(g.board, attackerID) then Err(NoAttacker)
               else Ok(())
  {
    FirstIs(g.board, attackerID);
  }

  // ---------------------------------------------------------------- the moves on offer

  /** The plays of the cards among the first n that can be paid for, in order. */
  predicate PlaysOf(hand: seq<Card>, mana: int, n: nat, names: seq<string>, at: seq<nat>)
    requires n <= |hand|
  {
    && |at| == |names| && Ascending(at)
    && (forall j :: 0 <= j < |at| ==> at[j] < n && names[j] == PlayName(hand[at[j]].id))
    && (forall i: nat :: i < n ==> (hand[i].cost <= mana <==> i in at))
  }

  lemma {:induction false} AffordableAre(hand: seq<Card>, mana: int, n: nat) returns (at: seq<nat>)
    requires n <= |hand|
    ensures PlaysOf(hand, mana, n, Affordable(hand[..n], mana), at)
  {
    if n == 0 {
      at := [];
    } else {
      var front := AffordableAre(hand, mana, n - 1);
      assert hand[..n][..n - 1] == hand[..n - 1];
      at := OneMorePlay(hand, mana, n - 1, Affordable(hand[..n - 1], mana), front);
    }
  }

  lemma OneMorePlay(hand: seq<Card>, mana: int, n: nat, names: seq<string>, front: seq<nat>) returns (at: seq<nat>)
    requires n < |hand| && PlaysOf(hand, mana, n, names, front)
    ensures PlaysOf(hand, mana, n + 1, names + if hand[n].cost <= mana then [PlayName(hand[n].id)] else [], at)
  {
    hide PlayName;
    if hand[n].cost <= mana {
      at := front + [n];
      OneMorePosition(front, n);
      hide Ascending;
      assert forall j :: 0 <= j < |front| ==> at[j] == front[j] && (names + [PlayName(hand[n].id)])[j] == names[j];
    } else {
      at := front;
      hide Ascending;
      assert names + [] == names;
      assert n !in front;
    }
  }

  lemma {:induction false} AttackersAre(board: seq<Card>)
    ensures |Attackers(board)| == |board|
    ensures forall i :: 0 <= i < |board| ==> Attackers(board)[i] == AttackName(board[i].id)
  {
    hide AttackName;
    if board != [] {
      var front := board[..|board| - 1];
      AttackersAre(front);
      assert forall i :: 0 <= i < |front| ==> Attackers(board)[i] == Attackers(front)[i] && front[i] == board[i];
    }
  }

  /**
   The player to move is offered its affordable cards in the order of the hand, then the end of the turn; in
   combat every card on the board, in order, then the end of combat; nobody else, and in no other phase, anything.
   */
  lemma OffersAre(g: Game, playerID: nat) returns (at: seq<nat>)
    requires g.WellFormed()
    ensures var names, p := ValidActions(g, playerID), g.Mover();
            if p.playerID != playerID || (g.phase != "main" && g.phase != "combat") then names == []
            else if g.phase == "main" then
              && names != [] && names[|names| - 1] == "end_turn"
              && PlaysOf(p.hand, p.mana, |p.hand|, names[..|names| - 1], at)
            else
              && |names| == |g.board| + 1 && names[|g.board|] == "end_combat"
              && forall i :: 0 <= i < |g.board| ==> names[i] == AttackName(g.board[i].id)
  {
    var p := g.Mover();
    at := AffordableAre(p.hand, p.mana, |p.hand|);
    assert p.hand[..|p.hand|] == p.hand;
    AttackersAre(g.board);
    hide Affordable, Attackers, PlaysOf;
    assert (Affordable(p.hand, p.mana) + ["end_turn"])[..|Affordable(p.hand, p.mana)|] == Affordable(p.hand, p.mana);
  }

  // ---------------------------------------------------------------- the turn

  /** The other player's turn begins: one more mana up to 10, all of it to spend, a card less in the deck if there is one. */
  lemma TurnPasses(g: Game, playerID: nat)
    requires g.WellFormed()
    ensures var g' := EndTurn(g, playerID);
            if g.Mover().playerID != playerID then g' == g
            else
              var p, p' := g.players[1 - g.current], g'.Mover();
              && g'.current == 1 - g.current && g'.turn == g.turn + 1 && g'.phase == g.phase && g'.board == g.board
              && g'.players[g.current] == g.Mover()
              && p'.playerID == p.playerID && p'.hand == p.hand && p'.health == p.health
              && p'.maxMana == (if p.maxMana < 10 then p.maxMana + 1 else p.maxMana) == p'.mana
              && p'.deckSize == (if p.deckSize > 0 then p.deckSize - 1 else p.deckSize)
  {
  }

  // ---------------------------------------------------------------- the books of a game

  /** What the player to move has spent since its turn began, if it had spent this much before. */
  function Spent(g: Game, moves: seq<Move>, before: int): int
    requires Plays(g, moves)
    decreases |moves|
  {
    if moves == [] then before
    else Spent(Make(g, moves[0]), moves[1..], SpentBy(g, moves[0], before))
  }

  function SpentBy(g: Game, m: Move, before: int): int
    requires Legal(g, m)
  {
    match m
    case PlayCard(_, cardID, _) => before + Played(g, cardID).cost
    case End(playerID) => if g.Mover().playerID == playerID then 0 else before
    case _ => before
  }

  /** In every game the mana of the player to move is its maximum less what it has spent since its turn began. */
  lemma {:induction false} ManaIsWhatIsLeft(g: Game, moves: seq<Move>, before: int)
    requires g.WellFormed() && g.Mover().mana == g.Mover().maxMana - before && Plays(g, moves)
    ensures var f := Final(g, moves);
            f.WellFormed() && f.Mover().mana == f.Mover().maxMana - Spent(g, moves, before)
    decreases |moves|
  {
    if moves != [] {
      MoveSpends(g, moves[0], before);
      hide Make, Legal, SpentBy;
      ManaIsWhatIsLeft(Make(g, moves[0]), moves[1..], SpentBy(g, moves[0], before));
    }
  }

  lemma MoveSpends(g: Game, m: Move, before: int)
    requires Legal(g, m) && g.Mover().mana == g.Mover().maxMana - before
    ensures var g' := Make(g, m);
            g'.WellFormed() && g'.Mover().mana == g'.Mover().maxMana - SpentBy(g, m, before)
  {
    hide Alive, Fight, Without, First;
  }

  /** How often a player drew: by beginning a turn, or by a card. */
  function Draws(g: Game, moves: seq<Move>, i: nat): nat
    requires Plays(g, moves)
    decreases |moves|
  {
    if moves == [] then 0
    else Draws(Make(g, moves[0]), moves[1..], i) + if DrawsBy(g, moves[0], i) then 1 else 0
  }

  predicate DrawsBy(g: Game, m: Move, i: nat)
    requires Legal(g, m)
  {
    match m
    case PlayCard(_, cardID, _) => g.current == i && Played(g, cardID).effect == "draw_card"
    case End(playerID) => g.Mover().playerID == playerID && g.current != i
    case _ => false
  }

  /** In every game a deck is what it was less what its player drew, and never below 0. */
  lemma DecksAreDrawnFrom(g: Game, moves: seq<Move>, i: nat)
    requires g.WellFormed() && i < 2 && g.players[i].deckSize >= 0 && Plays(g, moves)
    ensures var f := Final(g, moves);
            f.WellFormed() && f.players[i].deckSize == Max(0, g.players[i].deckSize - Draws(g, moves, i))
  {
    hide Draws, Max, Plays, Final;
    DeckIs(g, moves, i);
  }

  /** Player i's deck. */
  function Deck(g: Game, i: nat): int {
    if g.WellFormed() && i < 2 then g.players[i].deckSize else 0
  }

  lemma {:induction false} DeckIs(g: Game, moves: seq<Move>, i: nat)
    requires g.WellFormed() && i < 2 && Deck(g, i) >= 0 && Plays(g, moves)
    ensures Final(g, moves).WellFormed() && Deck(Final(g, moves), i) == Max(0, Deck(g, i) - Draws(g, moves, i))
    decreases |moves|
  {
    hide *;
    FirstMove(g, moves, i);
    if moves == [] {
      DownToZero(Deck(g, i), 0, 0);
    } else {
      var g', one := Make(g, moves[0]), if DrawsBy(g, moves[0], i) then 1 else 0;
      MoveDraws(g, moves[0], i);
      DownToZero(Deck(g, i), one, Draws(g', moves[1..], i));
      DeckIs(g', moves[1..], i);
    }
  }

  lemma FirstMove(g: Game, moves: seq<Move>, i: nat)
    requires Plays(g, moves)
    ensures moves == [] ==> Final(g, moves) == g && Draws(g, moves, i) == 0
    ensures moves != [] ==>
              && Legal(g, moves[0]) && Plays(Make(g, moves[0]), moves[1..])
              && Final(g, moves) == Final(Make(g, moves[0]), moves[1..])
              && Draws(g, moves, i) == Draws(Make(g, moves[0]), moves[1..], i) + if DrawsBy(g, moves[0], i) then 1 else 0
  {
  }

  lemma DownToZero(a: int, b: nat, c: nat)
    ensures Max(0, a - b) >= 0 && Max(0, Max(0, a - b) - c) == Max(0, a - (b + c))
    ensures a >= 0 ==> Max(0, a) == a
  {
  }

  lemma MoveDraws(g: Game, m: Move, i: nat)
    requires Legal(g, m) && i < 2 && Deck(g, i) >= 0
    ensures var g' := Make(g, m);
            g'.WellFormed() && Deck(g', i) == Max(0, Deck(g, i) - if DrawsBy(g, m, i) then 1 else 0)
  {
    hide Alive, Fight, Without, First;
  }
}

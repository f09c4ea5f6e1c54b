/** The card game's rules as they run: a game state that each move updates in place, tied to what the move means. */
module CardGameState {
  import opened Common
  import opened CardGame

  /** A loop that keeps the position of the last card with an ID has seen `AfterLast` of what it passed. */
  function LastPosition(cards: seq<Card>, id: int): Option<nat> {
    var k := AfterLast(cards, id);
    if k == 0 then None else Some(k - 1)
  }

  class GameState {
    var currentPlayer: nat
    var turn: int
    var phase: string
    var players: seq<Player>
    var board: seq<Card>

    function View(): Game
      reads this
    {
      Game(currentPlayer, turn, phase, players, board)
    }

    predicate Valid()
      reads this
    {
      View().WellFormed()
    }

    // ---------------------------------------------------------------- playing a card

    method ValidatePlayCard(playerID: nat, cardID: int, position: int) returns (r: Result<(), MoveError>)
      requires Valid()
      ensures r == ValidatePlay(View(), playerID, cardID, position)
    {
      if players[currentPlayer].playerID != playerID { return Err(NotYourTurn); }
      if phase != "main" { return Err(WrongPhase); }

      var hand := players[currentPlayer].hand;
      var cardFound, cardCost := false, 0;
      for i := 0 to |hand|
        invariant !cardFound && First(hand, cardID) == First(hand[i..], cardID)
      {
        assert hand[i..][0] == hand[i] && hand[i..][1..] == hand[i + 1..];
        if hand[i].id == cardID {
          cardFound, cardCost := true, hand[i].cost;
          break;
        }
      }
      assert cardFound ==> First(hand, cardID).Some? && First(hand, cardID).value.cost == cardCost;

      if !cardFound { return Err(NotInHand); }
      if players[currentPlayer].mana < cardCost { return Err(NotEnoughMana); }
      if position < 0 || position > 7 { return Err(BadPosition); }
      return Ok(());
    }

    method Remove(hand: seq<Card>, cardID: int) returns (playedCard: Card, newHand: seq<Card>)
      ensures newHand == Without(hand, cardID)
      ensures playedCard == (var k := AfterLast(hand, cardID); if k > 0 then hand[k - 1] else NO_CARD)
    {
      playedCard, newHand := NO_CARD, [];
      for i := 0 to |hand|
        invariant newHand == Without(hand[..i], cardID)
        invariant playedCard == (var k := AfterLast(hand[..i], cardID); if k > 0 then hand[k - 1] else NO_CARD)
      {
        assert hand[..i + 1][..i] == hand[..i];
        if hand[i].id == cardID {
          playedCard := hand[i];
        } else {
          newHand := newHand + [hand[i]];
        }
      }
      assert hand[..|hand|] == hand;
    }

    method MoveToBoard(card: Card, newHand: seq<Card>)
      requires Valid()
      modifies this`players, this`board
      ensures Valid() && board == old(board) + [card]
      ensures var p := old(players[currentPlayer]);
              players == old(players)[currentPlayer := p.(hand := newHand, mana := p.mana - card.cost)]
    {
      var player := players[currentPlayer];
      players := players[currentPlayer := player.(hand := newHand, mana := player.mana - card.cost)];
      board := board + [card];
    }

    /** With an empty hand the source asks for a slice of negative capacity, which Go refuses. */
    method ProcessPlayCard(cardID: int)
      requires Valid() && players[currentPlayer].hand != []
      modifies this
      ensures Valid() && View() == Play(old(View()), cardID)
    {
      var playedCard, newHand := Remove(players[currentPlayer].hand, cardID);
      hide Effect, Without, AfterLast;
      MoveToBoard(playedCard, newHand);
      ProcessCardEffect(playedCard.effect);
    }

    method ProcessCardEffect(effect: string)
      requires Valid()
      modifies this
      ensures Valid() && View() == Effect(old(View()), effect)
    {
      if effect == "draw_card" {
        if players[currentPlayer].deckSize > 0 {
          players := players[currentPlayer := players[currentPlayer].(deckSize := players[currentPlayer].deckSize - 1)];
        }
      } else if effect == "heal" {
        players := players[currentPlayer := players[currentPlayer].(health := players[currentPlayer].health + 3)];
        if players[currentPlayer].health > 30 {
          players := players[currentPlayer := players[currentPlayer].(health := 30)];
        }
      } else if effect == "damage_all" {
        ghost var before := board;
        for i := 0 to |board|
          invariant |board| == |before|
          invariant forall k :: 0 <= k < |board| ==>
                      board[k] == if k < i then before[k].(health := before[k].health - 1) else before[k]
          invariant Game(currentPlayer, turn, phase, players, before) == old(View())
        {
          board := board[i := board[i].(health := board[i].health - 1)];
        }
        assert board == Hurt(before, 1);
      }
    }

    // ---------------------------------------------------------------- attacking

    method ValidateAttackBy(playerID: nat, attackerID: int) returns (r: Result<(), MoveError>)
      requires Valid()
      ensures r == ValidateAttack(View(), playerID, attackerID)
    {
      if players[currentPlayer].playerID != playerID { return Err(NotYourTurn); }
      if phase != "combat" { return Err(WrongPhase); }

      var attackerFound := false;
      for i := 0 to |board|
        invariant !attackerFound && First(board, attackerID) == First(board[i..], attackerID)
      {
        assert board[i..][0] == board[i] && board[i..][1..] == board[i + 1..];
        if board[i].id == attackerID {
          attackerFound := true;
          break;
        }
      }
      return if attackerFound then Ok(()) else Err(NoAttacker);
    }

    method FindOnBoard(attackerID: int, targetID: int) returns (attacker: Option<nat>, target: Option<nat>)
      ensures attacker == LastPosition(board, attackerID) && target == LastPosition(board, targetID)
      ensures attacker.Some? ==> attacker.value < |board|
      ensures target.Some? ==> target.value < |board|
    {
      attacker, target := None, None;
      for i := 0 to |board|
        invariant attacker == LastPosition(board[..i], attackerID) && target == LastPosition(board[..i], targetID)
      {
        assert board[..i + 1][..i] == board[..i];
        if board[i].id == attackerID { attacker := Some(i); }
        if board[i].id == targetID { target := Some(i); }
      }
      assert board[..|board|] == board;
    }

    method RemoveDead()
      modifies this`board
      ensures board == Alive(old(board))
    {
      var newBoard := [];
      for i := 0 to |board|
        invariant board == old(board) && newBoard == Alive(board[..i])
      {
        assert board[..i + 1][..i] == board[..i];
        if board[i].health > 0 { newBoard := newBoard + [board[i]]; }
      }
      assert board[..|board|] == board;
      board := newBoard;
    }

    method TradeBlows(a: nat, t: nat)
      requires a < |board| && t < |board|
      modifies this`board
      ensures board == Fight(old(board), a, t)
    {
      board := board[t := board[t].(health := board[t].health - board[a].attack)];
      board := board[a := board[a].(health := board[a].health - board[t].attack)];
    }

    method HitHero(damage: int)
      requires Valid()
      modifies this`players, this`phase
      ensures var o := 1 - currentPlayer;
              && players == old(players)[o := old(players[o]).(health := old(players[o]).health - damage)]
              && phase == if players[o].health <= 0 then "ended" else old(phase)
    {
      var opponent := 1 - currentPlayer;
      players := players[opponent := players[opponent].(health := players[opponent].health - damage)];
      if players[opponent].health <= 0 {
        phase := "ended";
      }
    }

    method ProcessAttack(attackerID: int, targetID: int) returns (r: Result<(), MoveError>)
      requires Valid()
      modifies this
      ensures Valid() && View() == Attack(old(View()), attackerID, targetID)
      ensures r.Ok? <==> exists i :: 0 <= i < |old(board)| && old(board)[i].id == attackerID
    {
      hide Fight, Alive, AfterLast;
      var attacker, target := FindOnBoard(attackerID, targetID);
      if attacker == None { return Err(NoAttacker); }
      var a := attacker.value;
      assert board[a].id == attackerID;
      if target.Some? {
        TradeBlows(a, target.value);
        RemoveDead();
      } else {
        HitHero(board[a].attack);
      }
      return Ok(());
    }

    // ---------------------------------------------------------------- turns and the end

    method EndTurnOf(playerID: nat) returns (r: Result<(), MoveError>)
      requires Valid()
      modifies this
      ensures Valid() && View() == EndTurn(old(View()), playerID)
      ensures r.Ok? <==> old(players[currentPlayer].playerID) == playerID
    {
      if players[currentPlayer].playerID != playerID { return Err(NotYourTurn); }
      currentPlayer := 1 - currentPlayer;
      turn := turn + 1;
      if players[currentPlayer].maxMana < 10 {
        players := players[currentPlayer := players[currentPlayer].(maxMana := players[currentPlayer].maxMana + 1)];
      }
      players := players[currentPlayer := players[currentPlayer].(mana := players[currentPlayer].maxMana)];
      if players[currentPlayer].deckSize > 0 {
        players := players[currentPlayer := players[currentPlayer].(deckSize := players[currentPlayer].deckSize - 1)];
      }
      return Ok(());
    }

    method CheckWinCondition() returns (won: bool, winner: nat)
      requires Valid()
      ensures (won, winner) == CheckWin(View())
    {
      for i := 0 to |players|
        invariant forall k :: 0 <= k < i ==> players[k].health > 0
      {
        if players[i].health <= 0 {
          return true, players[1 - i].playerID;
        }
      }
      return false, 0;
    }

    method GetValidActions(playerID: nat) returns (actions: seq<string>)
      requires Valid()
      ensures actions == ValidActions(View(), playerID)
    {
      actions := [];
      if players[currentPlayer].playerID != playerID { return; }
      if phase == "main" {
        var hand, mana := players[currentPlayer].hand, players[currentPlayer].mana;
        for i := 0 to |hand|
          invariant actions == Affordable(hand[..i], mana)
        {
          assert hand[..i + 1][..i] == hand[..i];
          if hand[i].cost <= mana {
            actions := actions + [PlayName(hand[i].id)];
          }
        }
        assert hand[..|hand|] == hand;
        actions := actions + ["end_turn"];
      } else if phase == "combat" {
        for i := 0 to |board|
          invariant actions == Attackers(board[..i])
        {
          assert board[..i + 1][..i] == board[..i];
          actions := actions + [AttackName(board[i].id)];
        }
        assert board[..|board|] == board;
        actions := actions + ["end_combat"];
      }
    }
  }

  // ---------------------------------------------------------------- shuffling

  function Swap<T>(s: seq<T>, i: nat, j: nat): (r: seq<T>)
    requires i < |s| && j < |s|
    ensures |r| == |s|
  {
    s[i := s[j]][j := s[i]]
  }

  /** The swaps of positions below n, last position first; `clock[i]` is the reading made at position i. */
  function Shuffle<T>(s: seq<T>, n: nat, clock: seq<nat>): (r: seq<T>)
    requires n <= |s| == |clock|
    ensures |r| == |s|
    decreases n
  {
    if n <= 1 then s else Shuffle(Swap(s, n - 1, Pick(clock[n - 1], n)), n - 1, clock)
  }

  /** The position that a clock reading picks among n. */
  function Pick(reading: nat, n: nat): (j: nat)
    requires n > 0
    ensures j < n && (reading < n ==> j == reading)
  {
    reading % n
  }

  method ShuffleDeck(deck: array<Card>, clock: seq<nat>) returns (shuffled: array<Card>)
    requires |clock| == deck.Length
    ensures fresh(shuffled) && shuffled[..] == Shuffle(deck[..], deck.Length, clock)
  {
    shuffled := new Card[deck.Length] (i requires 0 <= i < deck.Length reads deck => deck[i]);
    assert shuffled[..] == deck[..];
    var i := deck.Length - 1;
    while i > 0
      invariant -1 <= i < deck.Length
      invariant Shuffle(shuffled[..], i + 1, clock) == Shuffle(deck[..], deck.Length, clock)
    {
      ghost var was := shuffled[..];
      var j := clock[i] % (i + 1);
      shuffled[i], shuffled[j] := shuffled[j], shuffled[i];
      assert shuffled[..] == Swap(was, i, j);
      i := i - 1;
    }
  }

  lemma SwapPermutes<T>(s: seq<T>, i: nat, j: nat)
    requires i < |s| && j < |s|
    ensures multiset(Swap(s, i, j)) == multiset(s)
  {
  }

  /** Readings at positions from n on do not matter for the swaps below n. */
  lemma {:induction false} ShuffleReadsBelow<T>(s: seq<T>, n: nat, clock: seq<nat>, clock': seq<nat>)
    requires n <= |s| == |clock| == |clock'| && clock[..n] == clock'[..n]
    ensures Shuffle(s, n, clock) == Shuffle(s, n, clock')
    decreases n
  {
    if n > 1 {
      assert clock[n - 1] == clock[..n][n - 1] == clock'[..n][n - 1];
      assert clock[..n - 1] == clock[..n][..n - 1] == clock'[..n - 1];
      ShuffleReadsBelow(Swap(s, n - 1, Pick(clock[n - 1], n)), n - 1, clock, clock');
    }
  }

  /** Shuffling loses no card, adds none and leaves the positions from n on alone. */
  lemma {:induction false} ShufflePermutes<T>(s: seq<T>, n: nat, clock: seq<nat>)
    requires n <= |s| == |clock|
    ensures multiset(Shuffle(s, n, clock)) == multiset(s) && Shuffle(s, n, clock)[n..] == s[n..]
    decreases n
  {
    if n > 1 {
      var s' := Swap(s, n - 1, Pick(clock[n - 1], n));
      SwapPermutes(s, n - 1, Pick(clock[n - 1], n));
      ShufflePermutes(s', n - 1, clock);
      var r := Shuffle(s', n - 1, clock);
      assert r[n..] == r[n - 1..][1..] == s'[n - 1..][1..] == s'[n..] == s[n..];
    }
  }

  /** The readings of a clock that does not run backwards: positions are visited from the last to the first. */
  predicate Forward(clock: seq<nat>, n: nat, start: nat)
    requires n <= |clock|
  {
    && (forall i :: 0 <= i < n ==> clock[i] >= start)
    && (forall i, j :: 0 <= i < j < n ==> clock[i] >= clock[j])
  }

  /**
   No order of the cards is out of reach: for each, and for each time to start at, a clock that does not run
   backwards can show readings that shuffle to it.
   */
  lemma {:induction false} EveryOrderIsReached<T>(s: seq<T>, n: nat, order: seq<T>, start: nat) returns (clock: seq<nat>)
    requires n <= |s| == |order| && order[n..] == s[n..] && multiset(order) == multiset(s)
    ensures |clock| == |s| && Shuffle(s, n, clock) == order && Forward(clock, n, start)
    decreases n
  {
    hide Swap, Shuffle, Forward;
    if n <= 1 {
      clock := NothingToSwap(s, n, order, start);
      return;
    }
    var j := SomewhereBelow(s, n, order);
    SwapPermutes(s, n - 1, j);
    SwapPutsLast(s, n, j, order);
    var reading := ReadingFor(j, n, start);
    var below := EveryOrderIsReached(Swap(s, n - 1, j), n - 1, order, reading);
    clock := below[n - 1 := reading];
    ForwardFrom(below, n, start, reading);
    OneMoreSwap(s, n, reading, below);
  }

  lemma NothingToSwap<T>(s: seq<T>, n: nat, order: seq<T>, start: nat) returns (clock: seq<nat>)
    requires n <= 1 && n <= |s| == |order| && order[n..] == s[n..] && multiset(order) == multiset(s)
    ensures |clock| == |s| && Shuffle(s, n, clock) == order && Forward(clock, n, start)
  {
    clock := seq(|s|, i => start);
    if n == 1 { OneLeft(s, order); }
  }

  lemma SwapPutsLast<T>(s: seq<T>, n: nat, j: nat, order: seq<T>)
    requires j < n <= |s| == |order| && order[n..] == s[n..] && s[j] == order[n - 1]
    ensures order[n - 1..] == Swap(s, n - 1, j)[n - 1..]
  {
    var s' := Swap(s, n - 1, j);
    assert order[n - 1..] == [order[n - 1]] + order[n..];
    assert s'[n - 1..] == [s[j]] + s[n..];
  }

  /** A reading that picks position j and is not before a given time. */
  lemma ReadingFor(j: nat, n: nat, start: nat) returns (reading: nat)
    requires j < n
    ensures reading >= start && Pick(reading, n) == j
  {
    TimesGrows(1, n, start);
    reading := start * n + j;
    QuotientIs(reading, n, start, j);
  }

  lemma ForwardFrom(below: seq<nat>, n: nat, start: nat, reading: nat)
    requires 1 <= n <= |below| && Forward(below, n - 1, reading) && reading >= start
    ensures Forward(below[n - 1 := reading], n, start)
  {
  }

  lemma FirstSwap<T>(s: seq<T>, n: nat, clock: seq<nat>)
    requires 2 <= n <= |s| == |clock|
    ensures Shuffle(s, n, clock) == Shuffle(Swap(s, n - 1, Pick(clock[n - 1], n)), n - 1, clock)
  {
    hide Pick, Swap;
  }

  lemma OneMoreSwap<T>(s: seq<T>, n: nat, reading: nat, below: seq<nat>)
    requires 2 <= n <= |s| == |below|
    ensures Shuffle(s, n, below[n - 1 := reading]) == Shuffle(Swap(s, n - 1, Pick(reading, n)), n - 1, below)
  {
    hide Pick, Swap, Shuffle;
    var clock := below[n - 1 := reading];
    assert clock[..n - 1] == below[..n - 1];
    FirstSwap(s, n, clock);
    ShuffleReadsBelow(Swap(s, n - 1, Pick(reading, n)), n - 1, clock, below);
  }

  lemma OneLeft<T>(s: seq<T>, order: seq<T>)
    requires 1 <= |s| == |order| && order[1..] == s[1..] && multiset(order) == multiset(s)
    ensures order == s
  {
    assert s == [s[0]] + s[1..] && order == [order[0]] + order[1..];
    assert multiset{s[0]} == multiset(s) - multiset(s[1..]);
    assert multiset{order[0]} == multiset(order) - multiset(order[1..]);
    assert order[0] in multiset{s[0]};
  }

  lemma SomewhereBelow<T>(s: seq<T>, n: nat, order: seq<T>) returns (j: nat)
    requires 1 <= n <= |s| == |order| && order[n..] == s[n..] && multiset(order) == multiset(s)
    ensures j < n && s[j] == order[n - 1]
  {
    assert s == s[..n] + s[n..] && order == order[..n] + order[n..];
    assert multiset(s[..n]) == multiset(s) - multiset(s[n..]);
    assert multiset(order[..n]) == multiset(order) - multiset(order[n..]);
    assert order[..n][n - 1] in multiset(order[..n]);
    assert order[n - 1] in multiset(s[..n]);
    assert order[n - 1] in s[..n];
    j :| 0 <= j < n && s[..n][j] == order[n - 1];
  }
}

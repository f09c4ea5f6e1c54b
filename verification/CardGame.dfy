/** The card game: what each move means for the state of the game, as a value. */
module CardGame {
  import opened Common
  import opened Decimal

  datatype Card = Card(id: int, name: string, cost: int, attack: int, health: int, effect: string)

  datatype Player = Player(playerID: nat, health: int, mana: int, maxMana: int, hand: seq<Card>, deckSize: int)

  datatype Game = Game(current: nat, turn: int, phase: string, players: seq<Player>, board: seq<Card>) {
    /** Two players, one of them to move. */
    predicate WellFormed() {
      |players| == 2 && current < 2
    }

    function Mover(): Player
      requires WellFormed()
    {
      players[current]
    }
  }

  const MAX_MANA := 10
  const MAX_HEALTH := 30
  const LAST_POSITION := 7

  /** The zero value a missing card stands for. */
  const NO_CARD := Card(0, "", 0, 0, 0, "")

  // ---------------------------------------------------------------- playing a card

  datatype MoveError = NotYourTurn | WrongPhase | NotInHand | NotEnoughMana | BadPosition | NoAttacker

  /** The first card with an ID. */
  function First(cards: seq<Card>, id: int): Option<Card> {
    if cards == [] then None
    else if cards[0].id == id then Some(cards[0])
    else First(cards[1..], id)
  }

  /** The position after the last card with an ID, 0 if there is none. */
  function AfterLast(cards: seq<Card>, id: int): (k: nat)
    ensures k <= |cards|
    ensures k > 0 ==> cards[k - 1].id == id
    ensures forall i :: k <= i < |cards| ==> cards[i].id != id
  {
    if cards == [] then 0
    else if cards[|cards| - 1].id == id then |cards|
    else AfterLast(cards[..|cards| - 1], id)
  }

  function Without(cards: seq<Card>, id: int): seq<Card> {
    if cards == [] then []
    else Without(cards[..|cards| - 1], id) + if cards[|cards| - 1].id == id then [] else [cards[|cards| - 1]]
  }

  function ValidatePlay(g: Game, playerID: nat, cardID: int, position: int): Result<(), MoveError>
    requires g.WellFormed()
  {
    if g.Mover().playerID != playerID then Err(NotYourTurn)
    else if g.phase != "main" then Err(WrongPhase)
    else
      match First(g.Mover().hand, cardID)
      case None => Err(NotInHand)
      case Some(card) =>
        if g.Mover().mana < card.cost then Err(NotEnoughMana)
        else if position < 0 || position > LAST_POSITION then Err(BadPosition)
        else Ok(())
  }

  /** The card that is played: the last one in hand with the ID. */
  function Played(g: Game, cardID: int): Card
    requires g.WellFormed()
  {
    var k := AfterLast(g.Mover().hand, cardID);
    if k > 0 then g.Mover().hand[k - 1] else NO_CARD
  }

  function Hurt(cards: seq<Card>, damage: int): (r: seq<Card>)
    ensures |r| == |cards|
    ensures forall i :: 0 <= i < |cards| ==> r[i] == cards[i].(health := cards[i].health - damage)
  {
    seq(|cards|, i requires 0 <= i < |cards| => cards[i].(health := cards[i].health - damage))
  }

  function Effect(g: Game, effect: string): (r: Game)
    requires g.WellFormed()
    ensures r.WellFormed()
  {
    var p := g.Mover();
    if effect == "draw_card" then
      if p.deckSize > 0 then g.(players := g.players[g.current := p.(deckSize := p.deckSize - 1)]) else g
    else if effect == "heal" then
      g.(players := g.players[g.current := p.(health := Min(p.health + 3, MAX_HEALTH))])
    else if effect == "damage_all" then
      g.(board := Hurt(g.board, 1))
    else g
  }

  function Play(g: Game, cardID: int): (r: Game)
    requires g.WellFormed()
    ensures r.WellFormed()
  {
    var card, p := Played(g, cardID), g.Mover();
    var p' := p.(hand := Without(p.hand, cardID), mana := p.mana - card.cost);
    Effect(g.(players := g.players[g.current := p'], board := g.board + [card]), card.effect)
  }

  // ---------------------------------------------------------------- attacking

  function ValidateAttack(g: Game, playerID: nat, attackerID: int): Result<(), MoveError>
    requires g.WellFormed()
  {
    if g.Mover().playerID != playerID then Err(NotYourTurn)
    else if g.phase != "combat" then Err(WrongPhase)
    else if First(g.board, attackerID) == None then Err(NoAttacker)
    else Ok(())
  }

  function Alive(cards: seq<Card>): seq<Card> {
    if cards == [] then []
    else Alive(cards[..|cards| - 1]) + if cards[|cards| - 1].health > 0 then [cards[|cards| - 1]] else []
  }

  /** Attacker and target hurt each other, one after the other; they may be the same card. */
  function Fight(board: seq<Card>, a: nat, t: nat): (r: seq<Card>)
    requires a < |board| && t < |board|
    ensures |r| == |board|
  {
    var b := board[t := board[t].(health := board[t].health - board[a].attack)];
    b[a := b[a].(health := b[a].health - b[t].attack)]
  }

  /** An attack; an attacker that is not there changes nothing. */
  function Attack(g: Game, attackerID: int, targetID: int): (r: Game)
    requires g.WellFormed()
    ensures r.WellFormed()
  {
    var a, t := AfterLast(g.board, attackerID), AfterLast(g.board, targetID);
    if a == 0 then g
    else if t > 0 then g.(board := Alive(Fight(g.board, a - 1, t - 1)))
    else
      var o := 1 - g.current;
      var hit := g.players[o].(health := g.players[o].health - g.board[a - 1].attack);
      g.(players := g.players[o := hit], phase := if hit.health <= 0 then "ended" else g.phase)
  }

  // ---------------------------------------------------------------- turns and the end

  function EndTurn(g: Game, playerID: nat): (r: Game)
    requires g.WellFormed()
    ensures r.WellFormed()
  {
    if g.Mover().playerID != playerID then g
    else
      var o := 1 - g.current;
      var p := g.players[o];
      var maxMana := if p.maxMana < MAX_MANA then p.maxMana + 1 else p.maxMana;
      var deckSize := if p.deckSize > 0 then p.deckSize - 1 else p.deckSize;
      g.(current := o, turn := g.turn + 1,
         players := g.players[o := p.(maxMana := maxMana, mana := maxMana, deckSize := deckSize)])
  }

  /** Whether somebody has won, and who. */
  function CheckWin(g: Game): (bool, nat)
    requires g.WellFormed()
  {
    if g.players[0].health <= 0 then (true, g.players[1].playerID)
    else if g.players[1].health <= 0 then (true, g.players[0].playerID)
    else (false, 0)
  }

  // ---------------------------------------------------------------- the moves on offer

  function PlayName(id: int): string {
    "play_card_" + FormatInt(id)
  }

  function AttackName(id: int): string {
    "attack_with_" + FormatInt(id)
  }

  function Affordable(hand: seq<Card>, mana: int): seq<string> {
    if hand == [] then []
    else
      var last := hand[|hand| - 1];
      Affordable(hand[..|hand| - 1], mana) + if last.cost <= mana then [PlayName(last.id)] else []
  }

  function Attackers(board: seq<Card>): seq<string> {
    if board == [] then [] else Attackers(board[..|board| - 1]) + [AttackName(board[|board| - 1].id)]
  }

  function ValidActions(g: Game, playerID: nat): seq<string>
    requires g.WellFormed()
  {
    if g.Mover().playerID != playerID then []
    else if g.phase == "main" then Affordable(g.Mover().hand, g.Mover().mana) + ["end_turn"]
    else if g.phase == "combat" then Attackers(g.board) + ["end_combat"]
    else []
  }

  // ---------------------------------------------------------------- games

  /** The moves of a game. The host switches between the main and the combat phase. */
  datatype Move =
    | PlayCard(playerID: nat, cardID: int, position: int)
    | AttackWith(playerID: nat, attackerID: int, targetID: int)
    | End(playerID: nat)
    | SwitchPhase

  predicate Legal(g: Game, m: Move) {
    g.WellFormed() &&
    match m
    case PlayCard(playerID, cardID, position) => ValidatePlay(g, playerID, cardID, position).Ok?
    case AttackWith(playerID, attackerID, _) => ValidateAttack(g, playerID, attackerID).Ok?
    case End(_) => true
    case SwitchPhase => g.phase == "main" || g.phase == "combat"
  }

  function Make(g: Game, m: Move): Game
    requires Legal(g, m)
  {
    match m
    case PlayCard(_, cardID, _) => Play(g, cardID)
    case AttackWith(_, attackerID, targetID) => Attack(g, attackerID, targetID)
    case End(playerID) => EndTurn(g, playerID)
    case SwitchPhase => g.(phase := if g.phase == "main" then "combat" else "main")
  }

  predicate Plays(g: Game, moves: seq<Move>)
    decreases |moves|
  {
    moves == [] || (Legal(g, moves[0]) && Plays(Make(g, moves[0]), moves[1..]))
  }

  function Final(g: Game, moves: seq<Move>): Game
    requires Plays(g, moves)
    decreases |moves|
  {
    if moves == [] then g else Final(Make(g, moves[0]), moves[1..])
  }
}

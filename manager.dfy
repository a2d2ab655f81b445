/**
 * GameManager: the rules of a turn.  A human player moves along an edge of
 * the map or takes a ferry from a port; the current player may fly from a
 * flight city; the computer player follows its cached route.  Arriving at a
 * city of the hand plays that card, and arriving home with only the home
 * card left wins the game.
 *
 * Each rule is first a function from the player's state before the move to
 * its state after (a PlayerView); the contract of each method of
 * GameManager ties the new state of the player and of the game to those
 * functions, and the lemmas state what the rules guarantee.  The die roll is an input; animations, dialogs
 * and status messages are not modelled, and what the code does when an
 * animation finishes is done at once.
 */
module Manager {
  import opened Wrappers
  import opened Graph
  import opened PathFinder
  import opened Players
  import opened Game

  // ---------------------------------------------------------------------
  // Flights.

  /** The switch of flyToCity: the points a flight from one section to another costs. */
  function FlightCost(section: int, destSection: int): (cost: int)
    ensures cost == 0 || cost == 2 || cost == 4
  {
    if section == 1 then (if destSection == 1 then 2 else if destSection == 2 || destSection == 4 then 4 else 0)
    else if section == 2 then (if destSection == 2 then 2 else if destSection == 1 || destSection == 3 then 4 else 0)
    else if section == 3 then (if destSection == 3 then 2 else if destSection == 2 || destSection == 4 || destSection == 6 then 4 else 0)
    else if section == 4 then (if destSection == 4 then 2 else if destSection == 1 || destSection == 5 || destSection == 3 then 4 else 0)
    else if section == 5 then (if destSection == 5 then 2 else if destSection == 4 || destSection == 6 then 4 else 0)
    else if section == 6 then (if destSection == 6 then 2 else if destSection == 3 || destSection == 5 then 4 else 0)
    else 0
  }

  /** The sections of the flight plan that share a border. */
  const BorderingSections: set<(int, int)> := {(1, 2), (1, 4), (2, 3), (3, 4), (3, 6), (4, 5), (5, 6)}

  predicate Bordering(a: int, b: int) {
    (a, b) in BorderingSections || (b, a) in BorderingSections
  }

  /**
   * The cost table: 2 within one of the six sections, 4 between bordering
   * sections, and 0 otherwise (the code leaves the cost at its initial 0
   * for sections that do not border, so such a flight is free).
   */
  lemma FlightCostTable(a: int, b: int)
    ensures FlightCost(a, b) == if 1 <= a <= 6 && a == b then 2 else if Bordering(a, b) then 4 else 0
  {
    if 1 <= a <= 6 && 1 <= b <= 6 && a != b {
      assert Bordering(a, b) <==> (a, b) in BorderingSections || (b, a) in BorderingSections;
    }
  }

  /** A flight costs the same in both directions. */
  lemma FlightCostSymmetric(a: int, b: int)
    ensures FlightCost(a, b) == FlightCost(b, a)
  {
    FlightCostTable(a, b);
    FlightCostTable(b, a);
  }

  /** The test of flyToCity: another city, enough points, and a flight city to leave from. */
  predicate MayFly(cities: seq<CityInfo>, from: nat, to: nat, points: int)
    requires from < |cities| && to < |cities|
  {
    to != from && points >= FlightCost(cities[from].section, cities[to].section) && cities[from].isFlightCity
  }

  // ---------------------------------------------------------------------
  // Moves along the map.

  /** What playTurn decides about a move to a city. */
  datatype Verdict = MustRoll | TakeFerry | TakeRoad | NoEdge | CannotCrossPort | MustTakeShip

  predicate Allowed(v: Verdict) {
    v == TakeFerry || v == TakeRoad
  }

  /**
   * playTurn's test: off a port the die must be rolled first; then the first
   * edge to the city decides: a sea edge is taken only from a port, a road
   * only away from one.
   */
  function MoveVerdict(links: seq<Link>, atPort: bool, dieRolled: bool, city: nat): Verdict {
    if !atPort && !dieRolled then MustRoll
    else
      var k := FirstEdgeTo(links, Some(city));
      if k.None? then NoEdge
      else if links[k.value].kind == Sea then (if atPort then TakeFerry else CannotCrossPort)
      else if atPort then MustTakeShip
      else TakeRoad
  }

  /**
   * A move is allowed exactly when the player is at a port or has rolled,
   * the current city has an edge to the target, and the first such edge is
   * a sea edge when at a port and a road otherwise.
   */
  lemma AllowedMoves(g: Board, a: nat, atPort: bool, dieRolled: bool, city: nat)
    requires a < |g|
    ensures var v := MoveVerdict(g[a], atPort, dieRolled, city);
      && (Allowed(v) ==> Adjacent(g, a, city))
      && (v == TakeFerry ==> atPort)
      && (v == TakeRoad ==> !atPort && dieRolled)
      && (Allowed(v) <==>
            && (atPort || dieRolled)
            && FirstEdgeTo(g[a], Some(city)).Some?
            && g[a][FirstEdgeTo(g[a], Some(city)).value].kind == (if atPort then Sea else Road))
  {
    FirstEdgeToAdjacent(g, a, city);
  }

  // ---------------------------------------------------------------------
  // Arriving at a city.

  /** The check of the hand after a move. */
  datatype Arrival = NotACard | HomeTooEarly | Won | Collected

  /**
   * The city is not a card of the hand; or it is the home city, which wins
   * when it is the last card and is refused before; or it is another card,
   * which is collected.
   */
  function ArrivalAt(hand: seq<nat>, home: Option<nat>, city: nat): Arrival {
    if city !in hand then NotACard
    else if home == Some(city) then (if |hand| == 1 then Won else HomeTooEarly)
    else Collected
  }

  /** The card for the city leaves the hand. */
  predicate Plays(a: Arrival) {
    a == Won || a == Collected
  }

  /** The game is won exactly by arriving home holding only the home card. */
  lemma WonExactly(hand: seq<nat>, home: Option<nat>, city: nat)
    ensures ArrivalAt(hand, home, city) == Won <==> hand == [city] && home == Some(city)
  {
    if ArrivalAt(hand, home, city) == Won {
      assert |hand| == 1 && hand[0] == city;
    }
  }

  /** The effect of the hand check: a played card leaves the hand, and collecting a card ends the turn. */
  function Arrive(v: PlayerView, city: nat): PlayerView {
    match ArrivalAt(v.hand, v.homeCity, city)
    case Won => v.(hand := RemoveFirst(v.hand, city))
    case Collected => v.(hand := RemoveFirst(v.hand, city), movePoints := 0)
    case _ => v
  }

  /** The home card is in the hand as long as the hand is not empty. */
  predicate HomeHeld(v: PlayerView) {
    v.hand != [] ==> v.homeCity.Some? && v.homeCity.value in v.hand
  }

  /** Arriving plays at most one card, the one for the city, and changes nothing but the hand and the points. */
  lemma ArrivePlaysOneCard(v: PlayerView, city: nat)
    ensures var a, r := ArrivalAt(v.hand, v.homeCity, city), Arrive(v, city);
      && multiset(r.hand) == multiset(v.hand) - (if Plays(a) then multiset{city} else multiset{})
      && |r.hand| == (if Plays(a) then |v.hand| - 1 else |v.hand|)
      && r.homeCity == v.homeCity && r.currentCity == v.currentCity && r.atPort == v.atPort
      && r.shortestPath == v.shortestPath
  {
    if Plays(ArrivalAt(v.hand, v.homeCity, city)) {
      RemoveFirstMultiset(v.hand, city);
    }
  }

  /**
   * The home card stays in the hand until the game is won, and the hand
   * runs out exactly when the game is won.
   */
  lemma ArriveKeepsHome(v: PlayerView, city: nat)
    requires HomeHeld(v)
    ensures var a, r := ArrivalAt(v.hand, v.homeCity, city), Arrive(v, city);
      && HomeHeld(r)
      && (v.hand != [] ==> (r.hand == [] <==> a == Won))
  {
    var a := ArrivalAt(v.hand, v.homeCity, city);
    if a == Collected {
      var r := RemoveFirst(v.hand, city);
      var h := v.homeCity.value;
      assert h in r by {
        RemoveFirstMultiset(v.hand, city);
        assert h != city && h in multiset(v.hand);
        assert multiset(r)[h] == multiset(v.hand)[h];
        assert h in multiset(r);
      }
      assert Arrive(v, city) == v.(hand := r, movePoints := 0);
    } else if a == Won {
      WonExactly(v.hand, v.homeCity, city);
      assert Arrive(v, city).hand == [];
    }
  }

  // ---------------------------------------------------------------------
  // The rules of a turn as state changes.

  /** playTurn on a player: the verdict, then the ferry, the move and the hand check. */
  function HumanMove(v: PlayerView, links: seq<Link>, dieRolled: bool, city: nat): PlayerView {
    var verdict := MoveVerdict(links, v.atPort, dieRolled, city);
    if !Allowed(verdict) then v
    else
      var boarded := if verdict == TakeFerry then v.(atPort := false, movePoints := 0) else v;
      Arrive(boarded.(movePoints := boarded.movePoints - 1, currentCity := Some(city)), city)
  }

  /** flyToCity on a player allowed to fly: the flight ends the turn, then the hand check. */
  function Fly(v: PlayerView, city: nat): PlayerView {
    Arrive(v.(movePoints := 0, currentCity := Some(city), atPort := false), city)
  }

  /** playTurnAI at a port: the ferry lands on the first city of the route and the turn ends. */
  function AIFerryLanding(v: PlayerView, route: seq<nat>): PlayerView
    requires route != []
  {
    Arrive(v.(shortestPath := Some(route[1..]), movePoints := 0, currentCity := Some(route[0]), atPort := false), route[0])
  }

  /** What playTurnAI does away from a port, once the die is rolled. */
  datatype AIAction = Stay | WaitForFerry | Step

  function AIActionOf(g: Board, v: PlayerView, route: seq<nat>): AIAction {
    if v.movePoints <= 0 || v.currentCity.None? || route == [] || v.currentCity.value >= |g| then Stay
    else
      var k := FirstEdgeTo(g[v.currentCity.value], Some(route[0]));
      if k.None? then Stay
      else if g[v.currentCity.value][k.value].kind == Sea then WaitForFerry
      else Step
  }

  /** playTurnAI away from a port, after the roll: wait at the port, or step to the first city of the route. */
  function AIStep(g: Board, v: PlayerView, route: seq<nat>): PlayerView {
    match AIActionOf(g, v, route)
    case Stay => v
    case WaitForFerry => v.(atPort := true, movePoints := 0)
    case Step =>
      Arrive(v.(shortestPath := Some(route[1..]), movePoints := v.movePoints - 1, currentCity := Some(route[0])), route[0])
  }

  /** The computer player only steps along a road of the map and only waits where a sea edge leads on. */
  lemma AIStepFollowsMap(g: Board, v: PlayerView, route: seq<nat>)
    ensures AIActionOf(g, v, route) != Stay ==>
      && v.currentCity.Some? && route != [] && v.movePoints > 0
      && Adjacent(g, v.currentCity.value, route[0])
    ensures AIActionOf(g, v, route) == Step ==> AIStep(g, v, route).currentCity == Some(route[0])
    ensures AIActionOf(g, v, route) == WaitForFerry ==> AIStep(g, v, route).atPort
  {
    if AIActionOf(g, v, route) != Stay {
      FirstEdgeToAdjacent(g, v.currentCity.value, route[0]);
    }
  }

  /**
   * A move keeps the home card in the hand until the game is won, and a
   * ferry crossing ends the turn.
   */
  lemma HumanMoveKeepsHome(v: PlayerView, links: seq<Link>, dieRolled: bool, city: nat)
    requires HomeHeld(v)
    ensures HomeHeld(HumanMove(v, links, dieRolled, city))
    ensures MoveVerdict(links, v.atPort, dieRolled, city) == TakeFerry ==>
              HumanMove(v, links, dieRolled, city).movePoints <= 0 && !HumanMove(v, links, dieRolled, city).atPort
  {
    var verdict := MoveVerdict(links, v.atPort, dieRolled, city);
    if Allowed(verdict) {
      var boarded := if verdict == TakeFerry then v.(atPort := false, movePoints := 0) else v;
      ArriveKeepsHome(boarded.(movePoints := boarded.movePoints - 1, currentCity := Some(city)), city);
    }
  }

  /** A flight keeps the home card in the hand until the game is won, and ends the turn. */
  lemma FlyKeepsHome(v: PlayerView, city: nat)
    requires HomeHeld(v)
    ensures HomeHeld(Fly(v, city)) && Fly(v, city).movePoints == 0 && Fly(v, city).currentCity == Some(city)
  {
    ArriveKeepsHome(v.(movePoints := 0, currentCity := Some(city), atPort := false), city);
  }

  /** The computer player's ferry landing keeps the home card until the game is won, and ends the turn. */
  lemma AIFerryLandingKeepsHome(v: PlayerView, route: seq<nat>)
    requires HomeHeld(v) && route != []
    ensures HomeHeld(AIFerryLanding(v, route)) && AIFerryLanding(v, route).movePoints == 0
    ensures !AIFerryLanding(v, route).atPort && AIFerryLanding(v, route).currentCity == Some(route[0])
  {
    ArriveKeepsHome(v.(shortestPath := Some(route[1..]), movePoints := 0, currentCity := Some(route[0]), atPort := false), route[0]);
  }

  /** The computer player's step keeps the home card in the hand until the game is won. */
  lemma AIStepKeepsHome(g: Board, v: PlayerView, route: seq<nat>)
    requires HomeHeld(v)
    ensures HomeHeld(AIStep(g, v, route))
  {
    if AIActionOf(g, v, route) == Step {
      ArriveKeepsHome(v.(shortestPath := Some(route[1..]), movePoints := v.movePoints - 1, currentCity := Some(route[0])), route[0]);
    }
  }

  /** The links of city c, or none for a null city. */
  function LinksAt(cities: seq<CityInfo>, c: Option<nat>): seq<Link> {
    if c.None? || c.value >= |cities| then [] else cities[c.value].links
  }

  /** The description of a roll: one digit, since the die shows 1 to 6. */
  function RollDescription(n: int): (s: string)
    requires 1 <= n <= 6
    ensures |s| == 10 && s[..9] == "Rolled a " && s[9] as int == '0' as int + n
  {
    "Rolled a " + [('0' as int + n) as char]
  }

  // ---------------------------------------------------------------------
  // The two searches of the rules.

  /** The loop over the hand: does it hold the card for the city? */
  method FindCard(hand: seq<nat>, city: nat) returns (found: bool)
    ensures found <==> city in hand
  {
    found := false;
    for k := 0 to |hand|
      invariant !found ==> city !in hand[..k]
      invariant found ==> city in hand
    {
      if hand[k] == city {
        found := true;
        break;
      }
    }
    if !found {
      assert hand[..|hand|] == hand;
    }
  }

  /** The loop over the edges of playTurn: the first edge whose neighbour is the city. */
  method FindEdge(links: seq<Link>, city: nat) returns (k: Option<nat>)
    ensures k == FirstEdgeTo(links, Some(city))
  {
    for i := 0 to |links|
      invariant FirstEdgeTo(links, Some(city)) == FirstEdgeFrom(links, Some(city), i)
    {
      if links[i].nbr == Some(city) {
        return Some(i);
      }
    }
    return None;
  }

  /**
   * The hand check after a move, as the four rules share it: the home card
   * wins when it is the last card (the card is played and the game ends
   * with this player as winner); another card of the hand is played and
   * ends the turn.
   */
  method CollectCard(game: GameData, player: Player, city: nat) returns (won: bool)
    modifies game`winner, game`state, player`movePoints, player`hand
    ensures player.View() == Arrive(old(player.View()), city)
    ensures won <==> ArrivalAt(old(player.hand), player.homeCity, city) == Won
    ensures won ==> game.winner == player && game.state == Over
    ensures !won ==> game.winner == old(game.winner) && game.state == old(game.state)
  {
    won := false;
    var found := FindCard(player.hand, city);
    if found {
      if player.homeCity == Some(city) {
        if |player.hand| == 1 {
          player.PlayCard(city);
          var crashed := game.EndGame(player);
          won := true;
        }
      } else {
        player.AddPoints(-player.movePoints);
        player.PlayCard(city);
      }
    }
  }

  /**
   * The move of playTurn from a city: the first edge to the target decides;
   * a ferry from a port is boarded (the wait ends, the points go), a road is
   * taken when not at a port; an allowed move is recorded, made, and the
   * hand is checked at the city.
   */
  method MovePlayer(game: GameData, player: Player, city: nat)
    requires city < |game.cities| && player.currentCity.Some? && player.currentCity.value < |game.cities|
    requires player.atPort || game.dieRolled
    modifies game`turns, game`winner, game`state
    modifies player`movePoints, player`hand, player`currentCity, player`atPort
    ensures var v0 := old(player.View());
      var links := game.cities[v0.currentCity.value].links;
      var verdict := MoveVerdict(links, v0.atPort, game.dieRolled, city);
      var won := Allowed(verdict) && ArrivalAt(v0.hand, v0.homeCity, city) == Won;
      && player.View() == HumanMove(v0, links, game.dieRolled, city)
      && game.turns == old(game.turns) +
           (if Allowed(verdict)
            then [Turn(game.currentTurn, player.name, game.CityName(v0.currentCity), game.CityName(Some(city)), "Move to City.")]
            else [])
      && (won ==> game.winner == player && game.state == Over)
      && (!won ==> game.winner == old(game.winner) && game.state == old(game.state))
  {
    var from := player.currentCity;
    var links := game.cities[from.value].links;
    var k := FindEdge(links, city);
    var canMove := false;
    if k.Some? {
      if links[k.value].kind == Sea && player.atPort {
        canMove := true;
        player.SetAtPort(false);
        player.AddPoints(-player.movePoints);
      } else if links[k.value].kind == Sea {
        // Cannot cross from a city that is not a port.
      } else if player.atPort {
        // At a port only the ferry may be taken.
      } else {
        canMove := true;
      }
    }
    if canMove {
      game.AddTurn(player, from, Some(city), "Move to City.");
      player.MoveToCity(city);
      var won := CollectCard(game, player, city);
    }
  }

  // ---------------------------------------------------------------------
  // The manager.

  class GameManager {
    var currentGame: GameData?

    constructor ()
      ensures currentGame == null
    {
      currentGame := null;
    }

    /** The current game, as a frame. */
    function Games(): set<GameData>
      reads this
    {
      if currentGame == null then {} else {currentGame}
    }

    function Players(): seq<Player>
      reads this, Games()
    {
      if currentGame == null then [] else currentGame.players
    }

    /** getCurrentPlayer: null without a game. */
    method GetCurrentPlayer() returns (p: Player?)
      ensures currentGame == null ==> p == null
      ensures currentGame != null ==> p == currentGame.currentPlayer
    {
      if currentGame == null {
        return null;
      }
      return currentGame.currentPlayer;
    }

    /**
     * getNextPlayer: null without a game; the first player when nobody has
     * played yet; otherwise the turn order of GameData.
     */
    method GetNextPlayer() returns (p: Player?)
      requires currentGame != null ==> currentGame.Valid()
      modifies Games()`currentTurn, Games()`currentPlayer, Games()`dieRolled, (set q | q in Players())`movePoints
      ensures currentGame == null ==> p == null
      ensures currentGame != null ==> currentGame.Valid() && p == currentGame.currentPlayer && p != null
      ensures currentGame != null && old(currentGame.currentPlayer) == null ==>
                p == currentGame.players[0] && currentGame.currentTurn == 0 &&
                PointsOf(currentGame.players) == old(PointsOf(currentGame.players)) &&
                currentGame.dieRolled == old(currentGame.dieRolled)
      ensures currentGame != null && old(currentGame.currentPlayer) != null ==>
                p.movePoints >= 0 && SkipsOnly(old(PointsOf(currentGame.players)), PointsOf(currentGame.players))
      ensures currentGame != null && old(currentGame.currentPlayer) != null ==>
                var r := NextTurn(old(PointsOf(currentGame.players)), old(currentGame.currentTurn));
                currentGame.currentTurn == r.0 && PointsOf(currentGame.players) == r.1
      ensures currentGame != null && old(currentGame.currentPlayer) != null ==>
                currentGame.dieRolled == (old(currentGame.dieRolled) && old(currentGame.currentPlayer.movePoints) > 0)
    {
      if currentGame == null {
        return null;
      }
      if currentGame.currentPlayer == null {
        currentGame.currentPlayer := currentGame.players[0];
        return currentGame.currentPlayer;
      }
      p := currentGame.GetNextPlayer();
    }

    /**
     * rollDice: refused once the die is rolled; otherwise the die is marked
     * rolled and, for a player, the roll is recorded and added to its points.
     */
    method RollDice(player: Player?, roll: int) returns (rolled: bool)
      requires currentGame != null && 1 <= roll <= 6
      modifies currentGame`dieRolled, currentGame`turns, Just(player)`movePoints
      ensures old(currentGame.dieRolled) ==> !rolled && currentGame.turns == old(currentGame.turns)
      ensures old(currentGame.dieRolled) && player != null ==> player.movePoints == old(player.movePoints)
      ensures currentGame.dieRolled
      ensures !old(currentGame.dieRolled) ==> rolled == (player != null)
      ensures !old(currentGame.dieRolled) && player == null ==> currentGame.turns == old(currentGame.turns)
      ensures !old(currentGame.dieRolled) && player != null ==>
                && player.movePoints == old(player.movePoints) + roll
                && currentGame.turns == old(currentGame.turns) +
                     [Turn(currentGame.currentTurn, player.name, "N/a", "N/a", RollDescription(roll))]
    {
      if currentGame.dieRolled {
        return false;
      }
      currentGame.dieRolled := true;
      if player == null {
        return false;
      }
      currentGame.AddTurn(player, None, None, RollDescription(roll));
      player.AddPoints(roll);
      rolled := true;
    }

    /** waitAtPort: the current player's wait for the ferry is recorded. */
    method WaitAtPort()
      requires currentGame != null && currentGame.currentPlayer != null ==>
                 var c := currentGame.currentPlayer.currentCity; c.Some? ==> c.value < |currentGame.cities|
      modifies Games()`turns
      ensures currentGame == null || currentGame.currentPlayer == null ==> Games() == {} || currentGame.turns == old(currentGame.turns)
      ensures currentGame != null && currentGame.currentPlayer != null ==>
                var p := currentGame.currentPlayer;
                currentGame.turns == old(currentGame.turns) +
                  [Turn(currentGame.currentTurn, p.name, currentGame.CityName(p.currentCity), "N/a", "Waiting for ferry.")]
    {
      if currentGame == null {
        return;
      }
      var p := currentGame.currentPlayer;
      if p == null {
        return;
      }
      currentGame.AddTurn(p, p.currentCity, None, "Waiting for ferry.");
    }

    /** The current player, as a frame. */
    function CurrentPlayers(): set<Player>
      reads this, Games()
    {
      if currentGame == null then {} else Just(currentGame.currentPlayer)
    }

    /**
     * playTurn: with a game and a player, a move the verdict allows is
     * recorded and made, and the hand is checked at the city.  A player
     * standing on no city cannot look up its edges (an exception).
     */
    method PlayTurn(player: Player?, city: nat) returns (crashed: bool)
      requires currentGame != null ==> city < |currentGame.cities|
      requires currentGame != null && player != null && player.currentCity.Some? ==>
                 player.currentCity.value < |currentGame.cities|
      modifies Games()`turns, Games()`winner, Games()`state
      modifies Just(player)`movePoints, Just(player)`hand, Just(player)`currentCity, Just(player)`atPort
      ensures currentGame == null || player == null ==> !crashed
      ensures player != null && (currentGame == null || crashed) ==> player.View() == old(player.View())
      ensures currentGame != null && (player == null || crashed) ==> currentGame.View() == old(currentGame.View())
      ensures currentGame != null && player != null ==>
                var game, v0 := currentGame, old(player.View());
                var links := LinksAt(game.cities, v0.currentCity);
                var verdict := MoveVerdict(links, v0.atPort, game.dieRolled, city);
                && (crashed <==> verdict != MustRoll && v0.currentCity.None?)
                && (!crashed ==>
                      && player.View() == HumanMove(v0, links, game.dieRolled, city)
                      && game.turns == old(game.turns) +
                           (if Allowed(verdict)
                            then [Turn(game.currentTurn, player.name, game.CityName(v0.currentCity), game.CityName(Some(city)), "Move to City.")]
                            else [])
                      && (Allowed(verdict) && ArrivalAt(v0.hand, v0.homeCity, city) == Won ==>
                            game.winner == player && game.state == Over)
                      && (!(Allowed(verdict) && ArrivalAt(v0.hand, v0.homeCity, city) == Won) ==>
                            game.winner == old(game.winner) && game.state == old(game.state)))
    {
      if currentGame == null || player == null {
        return false;
      }
      var game := currentGame;
      if !player.atPort && !game.dieRolled {
        return false;
      }
      if player.currentCity.None? {
        return true;
      }
      crashed := false;
      MovePlayer(game, player, city);
    }

    /**
     * flyToCity: the current player flies when the flight is allowed; the
     * points go by the cost, then the flight ends the turn; the hand is
     * checked, and a winning flight is not recorded.  Without a game, a
     * current player or a current city the code fails (an exception).
     */
    method FlyToCity(city: nat) returns (crashed: bool)
      requires currentGame != null ==> city < |currentGame.cities|
      requires currentGame != null && currentGame.currentPlayer != null && currentGame.currentPlayer.currentCity.Some? ==>
                 currentGame.currentPlayer.currentCity.value < |currentGame.cities|
      modifies Games()`turns, Games()`winner, Games()`state
      modifies CurrentPlayers()`movePoints, CurrentPlayers()`hand, CurrentPlayers()`currentCity, CurrentPlayers()`atPort
      ensures crashed <==> currentGame == null || currentGame.currentPlayer == null || old(currentGame.currentPlayer.currentCity).None?
      ensures crashed && currentGame != null ==> currentGame.View() == old(currentGame.View())
      ensures crashed && currentGame != null && currentGame.currentPlayer != null ==>
                currentGame.currentPlayer.View() == old(currentGame.currentPlayer.View())
      ensures !crashed ==>
                var game, p := currentGame, currentGame.currentPlayer;
                var v0 := old(p.View());
                var from := v0.currentCity.value;
                && (!MayFly(game.cities, from, city, v0.movePoints) ==> p.View() == v0 && game.View() == old(game.View()))
                && (MayFly(game.cities, from, city, v0.movePoints) ==>
                      && p.View() == Fly(v0, city)
                      && var won := ArrivalAt(v0.hand, v0.homeCity, city) == Won;
                      && game.turns == old(game.turns) +
                           (if won then []
                            else [Turn(game.currentTurn, p.name, game.CityName(Some(from)), game.CityName(Some(city)), "Fly to City.")])
                      && (won ==> game.winner == p && game.state == Over)
                      && (!won ==> game.winner == old(game.winner) && game.state == old(game.state)))
    {
      if currentGame == null {
        return true;
      }
      var game := currentGame;
      var player := game.currentPlayer;
      if player == null {
        return true;
      }
      var points := player.movePoints;
      if player.currentCity.None? {
        return true;
      }
      crashed := false;
      var from := player.currentCity.value;
      var cost := FlightCost(game.cities[from].section, game.cities[city].section);
      if city != from && points >= cost && game.cities[from].isFlightCity {
        player.AddPoints(-(cost - 1));
        player.MoveToCity(city);
        player.SetAtPort(false);
        player.AddPoints(-player.movePoints);
        var won := CollectCard(game, player, city);
        if won {
          return;
        }
        game.AddTurn(player, Some(from), player.currentCity, "Fly to City.");
      }
    }

    /**
     * The computer player at a port: the first city of the route is taken
     * off the route and the player lands there; a null or empty route fails
     * (an exception).  A winning landing is not recorded.
     */
    method AIAtPort(player: Player, route: RouteResult) returns (crashed: bool)
      requires currentGame != null && !route.Crashed?
      requires route.Route? ==> player.shortestPath == Some(route.cities) &&
                                  forall k :: 0 <= k < |route.cities| ==> route.cities[k] < |currentGame.cities|
      requires player.currentCity.Some? ==> player.currentCity.value < |currentGame.cities|
      modifies currentGame`turns, currentGame`winner, currentGame`state
      modifies player`movePoints, player`hand, player`currentCity, player`atPort, player`shortestPath
      ensures crashed <==> !route.Route? || route.cities == []
      ensures crashed ==> player.View() == old(player.View()) && currentGame.View() == old(currentGame.View())
      ensures !crashed ==>
                var game, v0, c := currentGame, old(player.View()), route.cities;
                var won := ArrivalAt(v0.hand, v0.homeCity, c[0]) == Won;
                && player.View() == AIFerryLanding(v0, c)
                && game.turns == old(game.turns) +
                     (if won then []
                      else [Turn(game.currentTurn, player.name, game.CityName(v0.currentCity), game.CityName(Some(c[0])), "Move to City.")])
                && (won ==> game.winner == player && game.state == Over)
                && (!won ==> game.winner == old(game.winner) && game.state == old(game.state))
    {
      if !route.Route? || route.cities == [] {
        return true;
      }
      crashed := false;
      var game := currentGame;
      var origin := player.currentCity;
      var dest := route.cities[0];
      player.DropPathHead();
      player.MoveToCity(dest);
      player.SetAtPort(false);
      player.AddPoints(-player.movePoints);
      var won := CollectCard(game, player, dest);
      if won {
        return;
      }
      game.AddTurn(player, origin, player.currentCity, "Move to City.");
    }

    /**
     * The computer player away from a port: the die is rolled if it was not;
     * a null route then fails (an exception); otherwise the player acts on
     * the route.
     */
    method AIOnLand(player: Player, route: RouteResult, roll: int) returns (crashed: bool)
      requires currentGame != null && player == currentGame.currentPlayer && !route.Crashed? && 1 <= roll <= 6
      requires route.Route? ==> player.shortestPath == Some(route.cities) &&
                                  forall k :: 0 <= k < |route.cities| ==> route.cities[k] < |currentGame.cities|
      requires player.currentCity.Some? ==> player.currentCity.value < |currentGame.cities|
      modifies currentGame`turns, currentGame`winner, currentGame`state, currentGame`dieRolled
      modifies player`movePoints, player`hand, player`currentCity, player`atPort, player`shortestPath
      ensures crashed <==> route.NoRoute?
      ensures currentGame.dieRolled
      ensures var game, v0 := currentGame, old(player.View());
        var rolled := v0.(movePoints := v0.movePoints + (if old(game.dieRolled) then 0 else roll));
        var rollTurns := if old(game.dieRolled) then [] else [Turn(game.currentTurn, player.name, "N/a", "N/a", RollDescription(roll))];
        && (crashed ==> player.View() == rolled && game.turns == old(game.turns) + rollTurns &&
                        game.winner == old(game.winner) && game.state == old(game.state))
        && (!crashed ==>
              var c := route.cities;
              var action := AIActionOf(BoardOf(game.cities), rolled, c);
              var won := action == Step && ArrivalAt(v0.hand, v0.homeCity, c[0]) == Won;
              && player.View() == AIStep(BoardOf(game.cities), rolled, c)
              && game.turns == old(game.turns) + rollTurns + AITurns(game, player.name, v0.currentCity, action, c)
              && (won ==> game.winner == player && game.state == Over)
              && (!won ==> game.winner == old(game.winner) && game.state == old(game.state)))
    {
      RollIfNeeded(player, roll);
      if route.NoRoute? {
        return true;
      }
      AIMove(player, route.cities);
      crashed := false;
    }

    /** The computer player rolls the die unless it is rolled already. */
    method RollIfNeeded(player: Player, roll: int)
      requires currentGame != null && 1 <= roll <= 6
      modifies currentGame`turns, currentGame`dieRolled, player`movePoints
      ensures currentGame.dieRolled
      ensures var v0 := old(player.View());
        player.View() == v0.(movePoints := v0.movePoints + (if old(currentGame.dieRolled) then 0 else roll))
      ensures currentGame.turns == old(currentGame.turns) +
        if old(currentGame.dieRolled) then [] else [Turn(currentGame.currentTurn, player.name, "N/a", "N/a", RollDescription(roll))]
    {
      if !currentGame.dieRolled {
        var rolled := RollDice(player, roll);
      }
    }

    /** The record of the computer player's action away from a port. */
    function AITurns(game: GameData, name: string, origin: Option<nat>, action: AIAction, c: seq<nat>): seq<Turn>
      requires origin.Some? ==> origin.value < |game.cities|
      requires c != [] ==> c[0] < |game.cities|
      reads game
    {
      match action
      case Stay => []
      case WaitForFerry => [Turn(game.currentTurn, name, game.CityName(origin), "N/a", "Waiting for ferry.")]
      case Step =>
        if c == [] then [] else [Turn(game.currentTurn, name, game.CityName(origin), game.CityName(Some(c[0])), "Move to City.")]
    }

    /**
     * After the roll: with points left and a current city, the edge to the
     * first city of the route decides: a sea edge makes the player wait at
     * the port for the ferry, a road takes it there, recorded before the
     * hand is checked.  Anything else does nothing.
     */
    method AIMove(player: Player, c: seq<nat>)
      requires currentGame != null && player == currentGame.currentPlayer
      requires player.shortestPath == Some(c) && forall k :: 0 <= k < |c| ==> c[k] < |currentGame.cities|
      requires player.currentCity.Some? ==> player.currentCity.value < |currentGame.cities|
      modifies currentGame`turns, currentGame`winner, currentGame`state
      modifies player`movePoints, player`hand, player`currentCity, player`atPort, player`shortestPath
      ensures var game, v0 := currentGame, old(player.View());
        var action := AIActionOf(BoardOf(game.cities), v0, c);
        var won := action == Step && ArrivalAt(v0.hand, v0.homeCity, c[0]) == Won;
        && player.View() == AIStep(BoardOf(game.cities), v0, c)
        && game.turns == old(game.turns) + AITurns(game, player.name, v0.currentCity, action, c)
        && (won ==> game.winner == player && game.state == Over)
        && (!won ==> game.winner == old(game.winner) && game.state == old(game.state))
    {
      var game := currentGame;
      var origin := player.currentCity;
      var dest: Option<nat> := if c == [] then None else Some(c[0]);
      if player.movePoints > 0 {
        if origin.None? || dest.None? {
          return;
        }
        var links := game.cities[origin.value].links;
        var k := FirstEdgeTo(links, dest);
        if k.None? {
          return;
        }
        if links[k.value].kind == Sea {
          player.SetAtPort(true);
          player.AddPoints(-player.movePoints);
          WaitAtPort();
        } else {
          player.DropPathHead();
          player.MoveToCity(dest.value);
          game.AddTurn(player, origin, player.currentCity, "Move to City.");
          var won := CollectCard(game, player, dest.value);
        }
      }
    }

    /**
     * playTurnAI: the computer player takes its route (computed from its
     * hand only while none is cached); an exception from the route finder
     * ends the turn at once.  Then it lands from a port, or rolls and acts
     * on the first city of the route.
     */
    method PlayTurnAI(player: Player, roll: int) returns (crashed: bool, route: RouteResult, ghost m: Matrix, ghost order: seq<nat>)
      requires currentGame != null && player == currentGame.currentPlayer && 1 <= roll <= 6
      requires WellFormed(BoardOf(currentGame.cities))
      requires forall k :: 0 <= k < |player.hand| ==> player.hand[k] < |currentGame.cities|
      requires player.currentCity.Some? ==> player.currentCity.value < |currentGame.cities|
      requires player.shortestPath.Some? ==>
                 forall k :: 0 <= k < |player.shortestPath.value| ==> player.shortestPath.value[k] < |currentGame.cities|
      modifies currentGame`turns, currentGame`winner, currentGame`state, currentGame`dieRolled
      modifies player`movePoints, player`hand, player`currentCity, player`atPort, player`shortestPath
      ensures old(player.shortestPath).Some? ==> route == Route(old(player.shortestPath).value)
      ensures old(player.shortestPath).None? && (old(player.currentCity).None? || old(player.hand) == []) ==> route == NoRoute
      ensures old(player.shortestPath).None? && old(player.currentCity).Some? && old(player.hand) != [] ==>
                PathMatrix(BoardOf(currentGame.cities), old(player.hand), m) && IsGreedyRun(m, order) && route == TourOf(m, order)
      ensures route.Crashed? ==> crashed && player.View() == old(player.View()) && currentGame.View() == old(currentGame.View())
      ensures var game, v0 := currentGame, old(player.View());
        var cached := v0.(shortestPath := if route.Route? then Some(route.cities) else v0.shortestPath);
        !route.Crashed? ==> AIActed(BoardOf(game.cities), cached, old(game.dieRolled), roll, route, crashed, player.View(), game.dieRolled)
      ensures route.Route? ==> forall k :: 0 <= k < |route.cities| ==> route.cities[k] < |currentGame.cities|
      ensures var v0 := old(player.View());
        var cached := v0.(shortestPath := if route.Route? then Some(route.cities) else v0.shortestPath);
        !route.Crashed? ==>
          AIRecorded(currentGame, player, cached, old(currentGame.dieRolled), roll, route, crashed,
                     old(currentGame.turns), old(currentGame.winner), old(currentGame.state))
    {
      ghost var v0 := player.View();
      route, m, order := RouteOf(player);
      if route.Crashed? {
        return true, route, m, order;
      }
      assert player.View() == v0.(shortestPath := if route.Route? then Some(route.cities) else v0.shortestPath);
      crashed := AIAct(player, route, roll);
    }

    /**
     * What the computer player's turn does to it once it has a route:
     * from a port it lands on the first city of the route; otherwise it
     * rolls if it has not and acts on the route.
     */
    ghost predicate AIActed(g: Board, v: PlayerView, dieRolled: bool, roll: int, route: RouteResult,
                            crashed: bool, after: PlayerView, dieRolledAfter: bool)
    {
      var rolled := v.(movePoints := v.movePoints + (if dieRolled then 0 else roll));
      && (v.atPort ==>
            && (crashed <==> !route.Route? || route.cities == [])
            && after == (if crashed then v else AIFerryLanding(v, route.cities))
            && dieRolledAfter == dieRolled)
      && (!v.atPort ==>
            && (crashed <==> route.NoRoute?)
            && after == (if route.Route? then AIStep(g, rolled, route.cities) else rolled)
            && dieRolledAfter)
    }

    /**
     * What the computer player's turn does to the game once it has a route:
     * the roll and the move are recorded (a landing from a port only when it
     * does not win), and a winning arrival ends the game with the player as
     * winner; otherwise the winner and the state stay as they were.
     */
    ghost predicate AIRecorded(game: GameData, player: Player, v: PlayerView, dieRolled: bool, roll: int,
                               route: RouteResult, crashed: bool, turns0: seq<Turn>, winner0: Player?, state0: GameState)
      requires 1 <= roll <= 6
      requires v.currentCity.Some? ==> v.currentCity.value < |game.cities|
      requires route.Route? ==> forall k :: 0 <= k < |route.cities| ==> route.cities[k] < |game.cities|
      reads game
    {
      var c := if route.Route? then route.cities else [];
      var rolled := v.(movePoints := v.movePoints + (if dieRolled then 0 else roll));
      var action := AIActionOf(BoardOf(game.cities), rolled, c);
      var won := !crashed && c != [] && (v.atPort || action == Step) && ArrivalAt(v.hand, v.homeCity, c[0]) == Won;
      var rollTurns := if dieRolled then [] else [Turn(game.currentTurn, player.name, "N/a", "N/a", RollDescription(roll))];
      var recorded :=
        if v.atPort then
          (if crashed || won || c == [] then []
           else [Turn(game.currentTurn, player.name, game.CityName(v.currentCity), game.CityName(Some(c[0])), "Move to City.")])
        else rollTurns + (if crashed then [] else AITurns(game, player.name, v.currentCity, action, c));
      && game.turns == turns0 + recorded
      && (won ==> game.winner == player && game.state == Over)
      && (!won ==> game.winner == winner0 && game.state == state0)
    }

    /** The second half of playTurnAI: acting on the route. */
    method AIAct(player: Player, route: RouteResult, roll: int) returns (crashed: bool)
      requires currentGame != null && player == currentGame.currentPlayer && !route.Crashed? && 1 <= roll <= 6
      requires route.Route? ==> player.shortestPath == Some(route.cities) &&
                                  forall k :: 0 <= k < |route.cities| ==> route.cities[k] < |currentGame.cities|
      requires player.currentCity.Some? ==> player.currentCity.value < |currentGame.cities|
      modifies currentGame`turns, currentGame`winner, currentGame`state, currentGame`dieRolled
      modifies player`movePoints, player`hand, player`currentCity, player`atPort, player`shortestPath
      ensures AIActed(BoardOf(currentGame.cities), old(player.View()), old(currentGame.dieRolled), roll, route,
                      crashed, player.View(), currentGame.dieRolled)
      ensures AIRecorded(currentGame, player, old(player.View()), old(currentGame.dieRolled), roll, route, crashed,
                         old(currentGame.turns), old(currentGame.winner), old(currentGame.state))
    {
      if player.atPort {
        crashed := AIAtPort(player, route);
      } else {
        crashed := AIOnLand(player, route, roll);
      }
    }

    /**
     * getShortestPath for playTurnAI: the cached route, or the tour of the
     * hand, which is then cached; every city of the route is a city of the map.
     */
    method RouteOf(player: Player) returns (route: RouteResult, ghost m: Matrix, ghost order: seq<nat>)
      requires currentGame != null && WellFormed(BoardOf(currentGame.cities))
      requires forall k :: 0 <= k < |player.hand| ==> player.hand[k] < |currentGame.cities|
      requires player.shortestPath.Some? ==>
                 forall k :: 0 <= k < |player.shortestPath.value| ==> player.shortestPath.value[k] < |currentGame.cities|
      modifies player`shortestPath
      ensures old(player.shortestPath).Some? ==> route == Route(old(player.shortestPath).value)
      ensures old(player.shortestPath).None? && (player.currentCity.None? || player.hand == []) ==> route == NoRoute
      ensures old(player.shortestPath).None? && player.currentCity.Some? && player.hand != [] ==>
                PathMatrix(BoardOf(currentGame.cities), player.hand, m) && IsGreedyRun(m, order) && route == TourOf(m, order)
      ensures player.shortestPath == if route.Route? then Some(route.cities) else old(player.shortestPath)
      ensures route.Route? ==> forall k :: 0 <= k < |route.cities| ==> route.cities[k] < |currentGame.cities|
    {
      var g := BoardOf(currentGame.cities);
      route, m, order := player.GetShortestPath(g);
      if route.Route? && old(player.shortestPath).None? {
        TourIsRoute(g, player.hand, m, order);
      }
    }
  }
}

# Journey Through Europe — a verified model of the game rules

Journey Through Europe is a board game for two to six players. The map of
Europe is a graph of cities (`CityNode`) joined by road and sea edges
(`Edge`). The deck holds one card per city, and each player is dealt nine
cards in the colour order red, green, yellow, red, ... The first card
dealt is the player's home city. On a turn, a player rolls the die and
moves along roads one point per city. From a port it takes the ferry,
which ends the turn. From a flight city it may fly to another city for a
price set by the sections of the flight plan. Arriving at a city of the
hand plays that card. Arriving home holding only the home card wins. A
computer player follows a route (`PathFinder`) that visits the cities of
its hand. The route is built greedily from the breadth-first shortest
paths between every pair of cards.

The model has six modules:

- `Graph` (graph.dfy): the classes `Edge` and `CityNode`. It also holds
  the resolved map as a value: a `Board` of links per city, indexed by
  city. On that value it defines routes, reachability and `getEdge`.
- `PathFinder` (pathfinder.dfy): the breadth-first search (`PathHelper`)
  and path rebuilding (`BuildPath`). Also the greedy tour over the matrix
  of pairwise paths (`GreedyTour`, the source's `djikstrasAlgorithm`) and
  `FindShortestPath`. The loop methods are proved against specification
  functions (`IsShortestBackPath`, `IsGreedyRun`, `TourOf`). Lemmas state
  what the tour is.
- `Players` (player.dfy): the class `Player`. It keeps move points, hand,
  home city, current city, the ferry flag and the cached route.
- `Game` (game.dfy): the class `GameData`. It covers the shuffle, dealing
  by colour, turn order with skipped turns for negative points, the end of
  the game and the history of turns.
- `Manager` (manager.dfy): the class `GameManager`. It covers a human
  move, a flight, a roll, waiting for the ferry and the computer player's
  turn. Each rule is a function on a `PlayerView` value, and the contract
  of each method ties the new state of the player and of the game to that
  function.
- `Wrappers` (wrappers.dfy): `Option`.

Cities, cards and the players' positions are city indices. A null
reference is `None` (or `null` for the classes). The die roll and the
shuffle's random positions are inputs. Where the code would throw (a
null route, a null current city, a null winner), the model returns a
`crashed` flag or a `Crashed` result. What the code changed before the
exception stays changed (`endGame` records the winner and ends the game
before a null winner throws; the computer player without a route has
already rolled); the rest of the operation does not happen.

## Model

| member | source | states |
|---|---|---|
| Graph.Edge.constructor | src/Journey/game/Edge.java:57-62 | an edge keeps its neighbour's name and its type; it starts unresolved and has no owner |
| Graph.Edge.Construct | src/Journey/game/Edge.java:76-98 | the owner is recorded; the neighbour is the map's city of that name, or stays null when the map has no such name (the failure is swallowed) |
| Graph.CityNode.constructor | src/Journey/game/CityNode.java:86-96 | a new city has its name, colour, section and flight flag, and an empty edge list |
| Graph.CityNode.Blank | src/Journey/game/CityNode.java:128-130 | the no-argument city has no edge list |
| Graph.CityNode.AddEdge | src/Journey/game/CityNode.java:221-229 | the edge goes to the end of the list; a null list is left alone |
| Graph.CityNode.GetEdge | src/Journey/game/CityNode.java:278-289 | null for a null neighbour; otherwise the first edge in list order leading to the neighbour, or null when no edge leads there |
| Graph.FirstEdgeTo | src/Journey/game/CityNode.java:278-289 | the index of the first link whose neighbour is the city; none when no link leads there |
| Graph.FirstEdgeToAdjacent | src/Journey/game/CityNode.java:278-289 | getEdge finds an edge exactly when the two cities are adjacent |
| Graph.RouteReverses | src/Journey/game/Edge.java:9-14 | on a map where every edge has a matching edge back, a route read backwards is a route |
| Graph.ReachableSymmetric | src/Journey/game/Edge.java:9-14 | on such a map, b is reachable from a exactly when a is reachable from b |
| Graph.ReachableTransitive | src/Journey/game/PathFinder.java:44-72 | a route to b followed by a route from b reaches c |
| PathFinder.BuildPath | src/Journey/game/PathFinder.java:74-87 | following the predecessors from the destination gives a path, destination first and origin last, along edges of the map, one city longer than the search distance |
| PathFinder.BackRouteReversed | src/Journey/game/PathFinder.java:74-87 | the rebuilt path read backwards is a route from origin to destination |
| PathFinder.PathHelper | src/Journey/game/PathFinder.java:44-72 | the breadth-first search gives a shortest path (no route between the two cities is shorter), destination first; it gives null exactly when the destination cannot be reached |
| PathFinder.ShortestBackPathReachable | src/Journey/game/PathFinder.java:44-72 | a path the search gives proves that the destination is reachable |
| PathFinder.FoundIsShortest | src/Journey/game/PathFinder.java:54-55 | when the destination reaches the head of the queue, the rebuilt path is no longer than any route between the two cities |
| PathFinder.ExhaustedUnreachable | src/Journey/game/PathFinder.java:52-70 | when the queue runs empty without meeting the destination, no route leads there |
| PathFinder.ScanEdges | src/Journey/game/PathFinder.java:58-67 | scanning the edges of the city taken from the queue visits, links and enqueues each resolved neighbour not yet visited, keeping the search invariant |
| PathFinder.LevelReached | src/Journey/game/PathFinder.java:52-68 | once the queue holds only cities at level l or more, every city within l steps of the origin has been visited at no greater distance |
| PathFinder.StartScan | src/Journey/game/PathFinder.java:54-58 | taking the head of the queue starts scanning its edges with the search invariant intact |
| PathFinder.ScanStep | src/Journey/game/PathFinder.java:58-67 | one edge of the scan keeps the invariant: a new neighbour is visited, given its predecessor and distance, and enqueued; anything else changes nothing |
| PathFinder.FinishScan | src/Journey/game/PathFinder.java:52-68 | after the last edge the search invariant holds for the next round |
| PathFinder.NearestCandidate | src/Journey/game/PathFinder.java:99-112 | -1 exactly when no column from 1 on has a path that was not picked; otherwise the picked column has the shortest such path, the first one on a tie |
| PathFinder.AddLeg | src/Journey/game/PathFinder.java:113-120 | the path is appended from its last city to its first, skipping a city equal to the current end of the route (the AppendLeg lemmas state what that gives) |
| PathFinder.AppendLegExtends | src/Journey/game/PathFinder.java:113-120 | appending a leg keeps the route built so far as a prefix |
| PathFinder.AppendLegEnds | src/Journey/game/PathFinder.java:113-120 | after appending, the route ends at the leg's destination; on an empty route it starts at the leg's origin |
| PathFinder.AppendLegRoute | src/Journey/game/PathFinder.java:113-120 | appending a path of the map to a route that ends at, or next to, the path's origin gives a route with no city twice in a row |
| PathFinder.GreedyTour | src/Journey/game/PathFinder.java:89-141 | the picks are a greedy run: each is the nearest unpicked card from the previous one, and none is left when the loop stops; the result is the tour of those picks |
| PathFinder.PickStep | src/Journey/game/PathFinder.java:97-123 | one round of the loop extends a greedy run by one pick and the route by one leg |
| PathFinder.FindShortestPath | src/Journey/game/PathFinder.java:20-42 | null without an origin or without cards; otherwise the matrix holds, for every two distinct cards, a shortest path or null when none exists (null for the same city), and the result is the greedy tour over it |
| PathFinder.PathRow | src/Journey/game/PathFinder.java:29-37 | row i of the matrix: null for the same city, else the search's path from card i to card j, which is a shortest path or null when none exists |
| PathFinder.GreedyPicksValid | src/Journey/game/PathFinder.java:99-123 | every pick of a greedy run was an unpicked card with a path when it was made |
| PathFinder.GreedyPicksDistinct | src/Journey/game/PathFinder.java:103 | a greedy run never picks card 0 and never picks a card twice |
| PathFinder.GreedyPicksAll | src/Journey/game/PathFinder.java:97-125 | when every pair of cards has a path, the run picks every card other than the first |
| PathFinder.LegsRoute | src/Journey/game/PathFinder.java:97-125 | the legs appended for the picks form a route from the first card through every picked card, ending at the last pick, with no city twice in a row |
| PathFinder.CloseTour | src/Journey/game/PathFinder.java:126-134 | appending the path back to the first card and removing the first city leaves a route that starts next to the first card, passes every pick and ends at the first card |
| PathFinder.TourOfRoute | src/Journey/game/PathFinder.java:89-141 | a tour that is not an exception is a route of the map through every picked card, ending at the first card |
| PathFinder.TourIsRoute | src/Journey/game/PathFinder.java:89-141 | the tour is a route along edges of the map with no city twice in a row; it starts next to the first card (the home city), ends there, and passes every picked card |
| PathFinder.TourVisitsEveryCard | src/Journey/game/PathFinder.java:20-141 | on an undirected map where every card can be reached from the home card, the tour picks every other card exactly once |
| Players.RemoveFirst | src/Journey/ui/PlayerCardsTray.java:217-229 | removing a card drops its first occurrence and keeps the order of the rest; a card not in the hand changes nothing |
| Players.RemoveFirstMultiset | src/Journey/ui/PlayerCardsTray.java:217-229 | playing a card takes exactly one copy of it out of the hand |
| Players.Player.constructor | src/Journey/game/Player.java:177-185 | a new player has one move point (for the move home), an empty hand, no home, no city, is not at a port and has no cached route |
| Players.Player.AddPoints | src/Journey/game/Player.java:107-111 | the points grow by the value |
| Players.Player.DealCity | src/Journey/game/Player.java:389-404 | the card goes to the end of the hand; the first card dealt becomes the home city, and the home city never changes after that |
| Players.Player.AlignToCity | src/Journey/game/Player.java:299-309 | a null city is ignored; otherwise the player stands on the city |
| Players.Player.MoveToCity | src/Journey/game/Player.java:311-351 | one point is spent and the player stands on the city |
| Players.Player.SetAtPort | src/Journey/game/Player.java:430-434 | the ferry flag is set |
| Players.Player.PlayCard | src/Journey/ui/PlayerCardsTray.java:177-229 | the card for the city leaves the hand |
| Players.Player.GetShortestPath | src/Journey/game/Player.java:132-139 | a cached route is returned unchanged; otherwise the route is the tour of the hand and is cached unless it is null |
| Players.Player.DropPathHead | src/Journey/manager/GameManager.java:307 | the cached route loses its first city |
| Game.Swap | src/Journey/game/GameData.java:231-234 | cards i and j change places and every other card stays |
| Game.SwapPermutes | src/Journey/game/GameData.java:231-234 | a swap keeps the same cards |
| Game.PassPermutes | src/Journey/game/GameData.java:228-236 | a pass of swaps keeps the same cards |
| Game.ShuffledPermutes | src/Journey/game/GameData.java:222-241 | the shuffle keeps the same cards |
| Game.GameData.Shuffle | src/Journey/game/GameData.java:222-241 | the deck becomes the five passes of swaps at the given positions |
| Game.GameData.SwapPass | src/Journey/game/GameData.java:228-236 | one pass swaps card i with the given position, for i from 0 to the end of the deck |
| Game.CountColorPermutation | src/Journey/game/GameData.java:172 | the same cards in another order hold as many cards of each colour |
| Game.FirstOfColor | src/Journey/game/GameData.java:184-189 | the position of the first card of the colour; no card before it has the colour |
| Game.GameData.RotateToColor | src/Journey/game/GameData.java:184-189 | the cards before the first card of the colour move to the end, in order, so the deck starts with that colour |
| Game.RotationKeepsCards | src/Journey/game/GameData.java:184-189 | moving cards from the front to the back keeps the same cards and the same count of each colour |
| Game.ColorAvailable | src/Journey/game/GameData.java:181-189 | when the deck started with three cards of each colour, a card of the colour needed next is still there, so the rotation ends |
| Game.DealtOfColorStep | src/Journey/game/GameData.java:181-185 | dealing card j adds one card of colour j mod 3 and never more than three of a colour |
| Game.FullHandColors | src/Journey/game/GameData.java:39 | a hand of nine holds three cards of each colour |
| Game.DealFront | src/Journey/game/GameData.java:192 | dealing the front card of the right colour keeps the hand's invariant |
| Game.DealOne | src/Journey/game/GameData.java:184-192 | a rotation then a deal gives the next card of the colour cycle, and no card is lost |
| Game.Rotated | src/Journey/game/GameData.java:184-189 | the deck rotated to its first card of the colour starts with that colour and holds the same cards |
| Game.GameData.DealCard | src/Journey/game/GameData.java:184-192 | card j is the front of the deck rotated to colour j mod 3 and the deck is the rest of that rotation; the card goes to the end of the hand and the first card dealt becomes the home city |
| Game.HandCards | src/Journey/game/GameData.java:181-192 | the first j cards of a hand, one per round of the inner loop |
| Game.HandCardsDealt | src/Journey/game/GameData.java:181-192 | from a deck with three cards of each colour every round finds its card: card j has colour j mod 3, and the cards dealt and the cards left are the cards of the deck |
| Game.HandCardsNext | src/Journey/game/GameData.java:181-192 | round j of the inner loop finds a card of colour j mod 3 and keeps the dealt and left cards equal to the deck's |
| Game.GameData.DealHand | src/Journey/game/GameData.java:181-200 | the player is dealt exactly HandCards of the deck (nine cards coloured red, green, yellow, ...), appended to its hand; the deck becomes what the nine rounds leave |
| Game.HandsDealt | src/Journey/game/GameData.java:177-213 | the hands of the players in dealing order, each nine cards long, each dealt from what the previous ones left |
| Game.HandsDealtNext | src/Journey/game/GameData.java:177-213 | one more player's hand is the next hand dealt from the deck the earlier players left |
| Game.DeckAfterColors | src/Journey/game/GameData.java:177-213 | each full hand takes three cards of every colour from the deck |
| Game.HandsDealtColors | src/Journey/game/GameData.java:181-185 | card j of every player's hand has colour j mod 3 |
| Game.HandsDealtCards | src/Journey/game/GameData.java:177-213 | the cards dealt to all players and the cards left are the cards of the deck: none lost, none made up |
| Game.HandsGivenStep | src/Journey/game/GameData.java:192 | giving the next player its hand keeps the earlier hands and leaves the later players untouched |
| Game.NextHandAvailable | src/Journey/game/GameData.java:177-189 | before each player's hand the deck still holds three cards of every colour, so every rotation ends |
| Game.GameData.DealHandTo | src/Journey/game/GameData.java:181-200 | player i of the list is dealt its hand as DealHand says and no other player of the list changes |
| Game.GameData.DealNextHand | src/Journey/game/GameData.java:177-200 | one round of the outer loop: player i is dealt the next hand of HandsDealt and the deck becomes what is left |
| Game.GameData.DealAll | src/Journey/game/GameData.java:177-213 | player a of the list is dealt hand a of HandsDealt of the deck, appended to its hand, its home city set from the first card if it had none; the deck becomes what all hands leave |
| Game.ShuffledColors | src/Journey/game/GameData.java:172 | the shuffle keeps the number of cards of each colour |
| Game.DealtCardsKept | src/Journey/game/GameData.java:169-217 | shuffling then dealing loses no card of the deck and makes none up |
| Game.GameData.DealCards | src/Journey/game/GameData.java:169-217 | the hands dealt are HandsDealt of the shuffled deck and the deck is what they leave; the hands and the deck left hold exactly the cards of the deck before the shuffle |
| Game.GameData.constructor | src/Journey/game/GameData.java:111-139 | a new game is not started, has no current player, no history and the die not rolled; the deck holds every city of the map |
| Game.GameData.Begin | src/Journey/game/GameData.java:148-157 | the turn counter is 0 and the game is playing |
| Game.GameData.StartGame | src/Journey/game/GameData.java:148-162 | the game is playing from turn 0; the hands are HandsDealt of the shuffled deck, appended to the players' hands, and no card is lost or made up |
| Game.GameData.PassIfSpent | src/Journey/game/GameData.java:254-258 | a player with no points left passes the turn and the die is cleared; otherwise nothing changes |
| Game.NextSeatMod | src/Journey/game/GameData.java:255 | the seat of turn t + 1 is the seat after the seat of turn t |
| Game.DeficitStep | src/Journey/game/GameData.java:261-264 | each skip lowers the total of negative points by one, so the skipping loop ends |
| Game.SkipFrom | src/Journey/game/GameData.java:261-264 | the skipping loop from a seat: the turn only grows, by exactly the deficit paid; skips only raise negative points, never past zero |
| Game.Skip | src/Journey/game/GameData.java:261-264 | the skipping loop from turn t, whose seat is t modulo the number of players |
| Game.SkipStops | src/Journey/game/GameData.java:261 | the loop stops at once on a player without negative points |
| Game.SkipOnce | src/Journey/game/GameData.java:261-264 | one skip: the player gains one point, and the loop goes on from the next turn with a smaller deficit |
| Game.SkipFromOnce | src/Journey/game/GameData.java:261-264 | the same round of the loop, stated from a seat |
| Game.NextTurn | src/Journey/game/GameData.java:251-264 | a player with points left keeps the turn and nothing changes; otherwise the turn moves on; either way skips only raise negative points |
| Game.SkipCounts | src/Journey/game/GameData.java:261-264 | each player gains exactly one point per turn of it that the loop skipped |
| Game.SkipStopsAtFirst | src/Journey/game/GameData.java:261-264 | the loop passes over exactly the turns whose player still owes points when reached and stops at the first that does not; that player has no negative points |
| Game.VisitsShift | src/Journey/game/GameData.java:261-264 | a skip at turn t shifts the count of later visits by one turn |
| Game.NextTurnExample | src/Journey/game/GameData.java:251-264 | from points 0, -1, -1 at turn 0 the first player passes, both others are skipped, and the first plays again at turn 3 with every player at 0 |
| Game.GameData.SkipNegative | src/Journey/game/GameData.java:261-264 | the turn counter and every player's points end as Skip of the points and turn before the loop; the current player has no negative points |
| Game.GameData.SkipStep | src/Journey/game/GameData.java:261-264 | one round of the loop keeps the loop's outcome and lowers the deficit |
| Game.GameData.PassTurn | src/Journey/game/GameData.java:255 | the counter moves on by one and its player plays |
| Game.GameData.SkipTurn | src/Journey/game/GameData.java:261-264 | a player with negative points gains one point and the turn passes; no other player's points change |
| Game.NextTurnSkips | src/Journey/game/GameData.java:254-264 | getNextPlayer is the skipping loop run from the next turn after a pass, or from the same turn when the player keeps it |
| Game.GameData.GetNextPlayer | src/Journey/game/GameData.java:251-270 | the turn counter and every player's points end as NextTurn of the points and turn before; a player with points left keeps the turn and the die; otherwise the die is cleared; the next player has no negative points |
| Game.GameData.EndGame | src/Journey/game/GameData.java:280-286 | the winner is recorded and the game is over; a null winner throws when it is announced |
| Game.PlayerName | src/Journey/game/GameData.java:329 | the player's name, or "N/a" for null |
| Game.GameData.CityName | src/Journey/game/GameData.java:330-331 | the city's name, or "N/a" for null |
| Game.GameData.AddTurn | src/Journey/game/GameData.java:326-336 | one line is added at the end of the history, numbered with the turn counter |
| Game.GameData.OccupyingPlayer | src/Journey/game/CityNode.java:140-152 | the first player in playing order who stands on the city, or null exactly when nobody does |
| Manager.FlightCost | src/Journey/manager/GameManager.java:526-571 | a flight costs 0, 2 or 4 points |
| Manager.FlightCostTable | src/Journey/manager/GameManager.java:526-571 | 2 within one of the six sections, 4 between bordering sections, 0 otherwise |
| Manager.FlightCostSymmetric | src/Journey/manager/GameManager.java:526-571 | a flight costs the same in both directions |
| Manager.AllowedMoves | src/Journey/manager/GameManager.java:150-197 | a move is allowed exactly when the player is at a port or has rolled and the first edge to the city is a sea edge at a port or a road elsewhere; an allowed move follows an edge |
| Manager.WonExactly | src/Journey/manager/GameManager.java:208-242 | the game is won exactly by arriving at the home city holding only its card |
| Manager.ArrivePlaysOneCard | src/Journey/manager/GameManager.java:208-242 | arriving plays at most the one card for the city and changes only the hand and the points |
| Manager.ArriveKeepsHome | src/Journey/manager/GameManager.java:208-242 | the home card stays in the hand until the game is won, and the hand runs out exactly when it is won |
| Manager.HumanMoveKeepsHome | src/Journey/manager/GameManager.java:144-270 | a move keeps the home card until the game is won; taking the ferry ends the turn and leaves the port |
| Manager.FlyKeepsHome | src/Journey/manager/GameManager.java:573-618 | a flight keeps the home card until the game is won, ends the turn and lands on the city |
| Manager.AIFerryLandingKeepsHome | src/Journey/manager/GameManager.java:302-367 | the computer player's ferry landing keeps the home card, ends the turn and lands on the first city of the route |
| Manager.AIStepFollowsMap | src/Journey/manager/GameManager.java:380-464 | the computer player only acts with points left, a city and a route whose first city is adjacent; a step lands there and a sea edge makes it wait at the port |
| Manager.AIStepKeepsHome | src/Journey/manager/GameManager.java:380-464 | the computer player's step keeps the home card until the game is won |
| Manager.RollDescription | src/Journey/ui/GamePlayPane.java:556-561 | "Rolled a " followed by the digit of the roll |
| Manager.FindCard | src/Journey/manager/GameManager.java:208-242 | the loop over the hand finds the city exactly when it is a card of the hand |
| Manager.FindEdge | src/Journey/manager/GameManager.java:161-197 | the loop over the edges stops at the first edge to the city |
| Manager.CollectCard | src/Journey/manager/GameManager.java:206-242 | the player changes as Arrive says; the game is won and over exactly when the home card was the last card |
| Manager.MovePlayer | src/Journey/manager/GameManager.java:158-260 | the player changes as HumanMove says; an allowed move is recorded once; a win ends the game with this player as winner |
| Manager.GameManager.constructor | src/Journey/manager/GameManager.java:723-727 | a new manager has no game |
| Manager.GameManager.GetCurrentPlayer | src/Journey/manager/GameManager.java:101-108 | null without a game, else the game's current player |
| Manager.GameManager.GetNextPlayer | src/Journey/manager/GameManager.java:118-142 | null without a game; the first player at turn 0 when nobody has played yet; otherwise the counter and the points end as NextTurn says and the die stays rolled only for a player with points left |
| Manager.GameManager.RollDice | src/Journey/manager/GameManager.java:275-287 | refused once the die is rolled; otherwise the die is marked rolled and, for a player, the roll is recorded and added to its points |
| Manager.GameManager.WaitAtPort | src/Journey/manager/GameManager.java:289-296 | the current player's wait for the ferry is recorded from its city |
| Manager.GameManager.PlayTurn | src/Journey/manager/GameManager.java:144-270 | without a game or player nothing happens; a player standing on no city throws; otherwise the player changes as HumanMove says, an allowed move is recorded, and a win ends the game |
| Manager.GameManager.FlyToCity | src/Journey/manager/GameManager.java:522-648 | throws without a game, a current player or a current city; a flight to another city from a flight city with enough points changes the player as Fly says and is recorded unless it wins; otherwise nothing changes |
| Manager.GameManager.AIAtPort | src/Journey/manager/GameManager.java:302-367 | a null or empty route throws; otherwise the player lands on the first city of the route as AIFerryLanding says, recorded unless it wins |
| Manager.GameManager.RollIfNeeded | src/Journey/manager/GameManager.java:374-378 | the die is rolled, and the roll recorded and added, only when it was not rolled already |
| Manager.GameManager.AIMove | src/Journey/manager/GameManager.java:380-466 | the player changes as AIStep says; a wait or a step is recorded; a win ends the game |
| Manager.GameManager.AIOnLand | src/Journey/manager/GameManager.java:369-470 | after the roll, a null route throws; otherwise the player acts as AIStep says |
| Manager.GameManager.RouteOf | src/Journey/manager/GameManager.java:300 | the cached route or the tour of the hand, which is then cached; every city of it is a city of the map |
| Manager.GameManager.AIAct | src/Journey/manager/GameManager.java:302-470 | from a port the player lands as AIAtPort says, else it rolls and acts as AIOnLand says; the roll and the move are recorded (a port landing only when it does not win), and a winning arrival ends the game with the player as winner |
| Manager.GameManager.PlayTurnAI | src/Journey/manager/GameManager.java:298-472 | the route is the cached one or the greedy tour of the hand; an exception from the route finder changes nothing; otherwise the player lands from a port or rolls and acts on the route, and the history, the winner and the state change as for AIAct |

## Left out

- User interface: animations, dialogs, status messages, the card tray's pictures, sounds and mouse handlers are not modelled. An effect that the code runs when an animation finishes happens at once: `alignToCity`, `endGame`, the card leaving the hand.
- `nextTurn`, which picks the next player and starts the computer player's turn, is not modelled. It is dispatch between UI events; its parts (`getNextPlayer`, `playTurnAI`) are modelled.
- Saving and loading games (`FileLoader`, serialisation) and building the map from files are not modelled.
- Randomness: the die roll and the shuffle's random positions are inputs. `Math.random` is not modelled.
- The deck starts in index order of the map. The code fills it from a `HashMap`, whose order is not specified. Only the cards matter to what is proved, since the dealing lemmas are measured against the deck before the shuffle.
- Game.GameData.DealCards: requires three cards of each colour per player. The code would rotate the deck forever without them; that is an endless loop, not an outcome.
- Game.GameData.StartGame: the cards are dealt before the counter and the state are set, the reverse of the code's order; the deal neither reads nor writes those two fields, so the outcome is the same. The start time (a clock) is not modelled.
- Game.GameData.GetNextPlayer: the turn counter is an unbounded integer; Java's 32-bit wrap-around of `currentTurn` is not modelled.
- Graph.CityNode.Blank: the no-argument city's null name is modelled as the empty name.
- `CityNode.prev` and `PathFinder.visitedCities` are static or shared fields in the code. In the model they are local to one search, since each search resets them before use.
- Graph.CityNode.GetEdge: proved on the resolved links of the edge list; the geometry of `Edge` (line coordinates) is not modelled.
- Players.Player.MoveToCity: the screen coordinates and scaling of the move are not modelled.
- Players.Player.PlayCard: `playTurn` plays a collected card a second time for its animation. That call finds the card, but the card leaves the hand only when the fade animation finishes (src/Journey/ui/PlayerCardsTray.java:182-189, 221-226), and the returned animation is never played, so the second call has no effect and is not modelled separately.
- Manager.GameManager.PlayTurn: a null target city is not modelled; the target is always a city of the map.
- Manager.GameManager.FlyToCity: only the city flown from must be a flight city, as in the code; the target's flight flag is not checked. A flight between sections that do not border costs 0, as written.
- Manager.HumanMoveKeepsHome: a ferry crossing leaves the player at -1 points (zeroed, then one spent by the move), as in the code.
- Manager.GameManager.RollDice: requires a game. The code reads the game's die flag without a null check and would throw without one; its only caller, the roll button's handler (src/Journey/manager/EventManager.java:145-149), rolls for the current player during a game.
- `Turn`'s timestamps and the game history's display are not modelled.

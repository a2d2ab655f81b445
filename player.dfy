/**
 * Player: a piece on the board with move points, a hand of city cards, a
 * home city, the city it stands on, the ferry flag and the cached route the
 * computer player follows.  Drawing, dragging and the card tray are not
 * modelled; a card leaves the hand as soon as it is played.
 */
module Players {
  import opened Wrappers
  import opened Graph
  import opened PathFinder

  datatype PlayerType = Human | Computer

  /** The part of a player the rules change, as a value. */
  datatype PlayerView = PlayerView(movePoints: int, hand: seq<nat>, homeCity: Option<nat>,
                                   currentCity: Option<nat>, atPort: bool, shortestPath: Option<seq<nat>>)

  /** The set holding p, or nothing for a null p. */
  function Just(p: Player?): set<Player> {
    if p == null then {} else {p}
  }

  /** The position of the first occurrence of x in s. */
  function IndexOf(s: seq<nat>, x: nat): (k: nat)
    requires x in s
    ensures k < |s| && s[k] == x && x !in s[..k]
  {
    if s[0] == x then 0 else IndexOf(s[1..], x) + 1
  }

  /**
   * ArrayList.remove(Object), as the card tray applies it to the hand: the
   * first occurrence of x is dropped, the rest keep their order.
   */
  function RemoveFirst(s: seq<nat>, x: nat): (r: seq<nat>)
    ensures x !in s ==> r == s
    ensures x in s ==> r == s[..IndexOf(s, x)] + s[IndexOf(s, x) + 1..]
  {
    if s == [] then []
    else if s[0] == x then s[1..]
    else
      var rest := RemoveFirst(s[1..], x);
      if x in s[1..] then
        var k := IndexOf(s[1..], x);
        assert IndexOf(s, x) == k + 1;
        DropAfterHead(s, k);
        [s[0]] + rest
      else
        [s[0]] + rest
  }

  /** Dropping position k of the tail is dropping position k + 1 of the whole. */
  lemma DropAfterHead(s: seq<nat>, k: nat)
    requires k + 1 < |s|
    ensures [s[0]] + (s[1..][..k] + s[1..][k + 1..]) == s[..k + 1] + s[k + 2..]
  {
    assert s[1..][..k] == s[1..k + 1];
    assert s[1..][k + 1..] == s[k + 2..];
    assert s[..k + 1] == [s[0]] + s[1..k + 1];
  }

  /** Playing a card takes exactly one copy of it out of the hand. */
  lemma {:induction false} RemoveFirstMultiset(s: seq<nat>, x: nat)
    ensures multiset(RemoveFirst(s, x)) == multiset(s) - multiset{x}
    ensures x in s ==> |RemoveFirst(s, x)| == |s| - 1
  {
    if x in s {
      var k := IndexOf(s, x);
      var r := RemoveFirst(s, x);
      assert r == s[..k] + s[k + 1..];
      assert s == s[..k] + [x] + s[k + 1..];
      calc {
        multiset(s);
        multiset(s[..k]) + multiset{x} + multiset(s[k + 1..]);
        multiset(r) + multiset{x};
      }
    } else {
      assert multiset(s)[x] == 0;
      assert multiset(s) - multiset{x} == multiset(s);
    }
  }

  class Player {
    const name: string
    var playerType: PlayerType
    var movePoints: int
    var hand: seq<nat>
    var homeCity: Option<nat>
    var currentCity: Option<nat>
    var atPort: bool
    /** The cached route of getShortestPath; None while it is null. */
    var shortestPath: Option<seq<nat>>

    function View(): PlayerView
      reads this
    {
      PlayerView(movePoints, hand, homeCity, currentCity, atPort, shortestPath)
    }

    /** A new player may make one move: the move to its home city. */
    constructor (name: string, playerType: PlayerType)
      ensures this.name == name && this.playerType == playerType
      ensures movePoints == 1 && hand == []
      ensures homeCity == None && currentCity == None
      ensures !atPort && shortestPath == None
    {
      this.name := name;
      this.playerType := playerType;
      movePoints := 1;
      hand := [];
      homeCity := None;
      currentCity := None;
      atPort := false;
      shortestPath := None;
    }

    method AddPoints(v: int)
      modifies this`movePoints
      ensures movePoints == old(movePoints) + v
    {
      movePoints := movePoints + v;
    }

    /** The home card is the first card of the hand. */
    predicate HomeFirst()
      reads this
    {
      hand != [] ==> homeCity == Some(hand[0])
    }

    /**
     * dealCity: the first city dealt becomes the home city and later deals
     * never change it; every dealt city goes to the end of the hand.
     */
    method DealCity(c: nat)
      modifies this`homeCity, this`hand
      ensures homeCity == if old(homeCity).None? then Some(c) else old(homeCity)
      ensures hand == old(hand) + [c]
      ensures old(hand == [] && homeCity.None?) ==> HomeFirst() && hand == [c]
      ensures old(HomeFirst() && hand != []) ==> HomeFirst()
    {
      if homeCity.None? {
        homeCity := Some(c);
      }
      hand := hand + [c];
    }

    /** alignToCity: a null city is ignored; otherwise the player now stands on it. */
    method AlignToCity(c: Option<nat>)
      modifies this`currentCity
      ensures currentCity == if c.None? then old(currentCity) else c
    {
      if c.Some? {
        currentCity := c;
      }
    }

    /** The state change of moveToCity: one point spent, the player stands on c. */
    method MoveToCity(c: nat)
      modifies this`movePoints, this`currentCity
      ensures movePoints == old(movePoints) - 1
      ensures currentCity == Some(c)
    {
      movePoints := movePoints - 1;
      AlignToCity(Some(c));
    }

    method SetAtPort(b: bool)
      modifies this`atPort
      ensures atPort == b
    {
      atPort := b;
    }

    /** The card tray's playCard: the card for c leaves the hand. */
    method PlayCard(c: nat)
      modifies this`hand
      ensures hand == RemoveFirst(old(hand), c)
    {
      hand := RemoveFirst(hand, c);
    }

    /**
     * getShortestPath: the route is computed from the hand only while the
     * cache is null, and a null result leaves it null; otherwise the cached
     * route is given back whatever the hand or the current city is now.  An
     * exception from the route finder leaves the cache untouched.
     */
    method GetShortestPath(g: Board) returns (r: RouteResult, ghost m: Matrix, ghost order: seq<nat>)
      requires WellFormed(g) && forall k :: 0 <= k < |hand| ==> hand[k] < |g|
      modifies this`shortestPath
      ensures old(shortestPath).Some? ==> r == Route(old(shortestPath).value) && shortestPath == old(shortestPath)
      ensures old(shortestPath).None? && r.Route? ==> shortestPath == Some(r.cities)
      ensures old(shortestPath).None? && !r.Route? ==> shortestPath == None
      ensures old(shortestPath).None? && (currentCity.None? || hand == []) ==> r == NoRoute
      ensures old(shortestPath).None? && currentCity.Some? && hand != [] ==>
                PathMatrix(g, hand, m) && IsGreedyRun(m, order) && r == TourOf(m, order)
    {
      m, order := [], [];
      if shortestPath.Some? {
        return Route(shortestPath.value), m, order;
      }
      r, m, order := FindShortestPath(g, currentCity, Some(hand));
      if r.Route? {
        shortestPath := Some(r.cities);
      }
    }

    /** The cached route loses its first city (path.remove(0) on the shared list). */
    method DropPathHead()
      requires shortestPath.Some? && shortestPath.value != []
      modifies this`shortestPath
      ensures shortestPath == Some(old(shortestPath).value[1..])
    {
      shortestPath := Some(shortestPath.value[1..]);
    }
  }
}

/**
 * The map of the game: cities (CityNode) joined by typed edges (Edge).
 *
 * A city is identified by its index in the map; an edge names its neighbour
 * and, once constructed, resolves that name to an index (or to nothing when
 * the name is not in the map).  `Board` is the resolved adjacency that the
 * route finder and the move rules read: board[c] lists the links of city c
 * in the order they were added.
 */
module Graph {
  import opened Wrappers

  /** Edge.EdgeType. */
  datatype EdgeType = Road | Sea

  /** The three card colours; `CityColor` keeps the order of CityNode.CityColor. */
  datatype Color = Red | Green | Yellow

  const CityColor: seq<Color> := [Red, Green, Yellow]

  /** What an Edge is once constructed: its resolved neighbour and its type. */
  datatype Link = Link(nbr: Option<nat>, kind: EdgeType)

  type Board = seq<seq<Link>>

  /** The immutable description of one city, as the rules read it. */
  datatype CityInfo = CityInfo(name: string, color: Color, section: int, isFlightCity: bool, links: seq<Link>)

  function BoardOf(cities: seq<CityInfo>): (g: Board)
    ensures |g| == |cities|
    ensures forall c :: 0 <= c < |cities| ==> g[c] == cities[c].links
  {
    seq(|cities|, c requires 0 <= c < |cities| => cities[c].links)
  }

  /** Every resolved neighbour is a city of the map. */
  predicate WellFormed(g: Board) {
    forall c, l :: 0 <= c < |g| && l in g[c] && l.nbr.Some? ==> l.nbr.value < |g|
  }

  /** Some edge of city a leads to city b. */
  predicate Adjacent(g: Board, a: nat, b: nat) {
    a < |g| && exists l :: l in g[a] && l.nbr == Some(b)
  }

  /** A non-empty sequence of cities, each joined to the next by an edge of the earlier one. */
  predicate IsRoute(g: Board, p: seq<nat>) {
    && |p| >= 1
    && (forall i :: 0 <= i < |p| ==> p[i] < |g|)
    && (forall i :: 0 <= i < |p| - 1 ==> Adjacent(g, p[i], p[i + 1]))
  }

  ghost predicate Reachable(g: Board, a: nat, b: nat) {
    exists p :: IsRoute(g, p) && p[0] == a && p[|p| - 1] == b
  }

  /**
   * The class comment of Edge promises an undirected map: every edge has a
   * matching edge of the same type back from its neighbour.  Nothing in the
   * code enforces it, so it is a validator the map can be checked against.
   */
  predicate Undirected(g: Board) {
    forall c, l :: 0 <= c < |g| && l in g[c] && l.nbr.Some? ==>
      l.nbr.value < |g| && exists l' :: l' in g[l.nbr.value] && l'.nbr == Some(c) && l'.kind == l.kind
  }

  function Reverse(p: seq<nat>): (r: seq<nat>)
    ensures |r| == |p|
    ensures forall i :: 0 <= i < |p| ==> r[i] == p[|p| - 1 - i]
  {
    if p == [] then [] else Reverse(p[1..]) + [p[0]]
  }

  /** On an undirected map a route can be travelled backwards. */
  lemma RouteReverses(g: Board, p: seq<nat>)
    requires Undirected(g) && IsRoute(g, p)
    ensures IsRoute(g, Reverse(p))
  {
    var r := Reverse(p);
    forall i | 0 <= i < |r| - 1
      ensures Adjacent(g, r[i], r[i + 1])
    {
      var a, b := p[|p| - 2 - i], p[|p| - 1 - i];
      assert Adjacent(g, a, b);
      var l :| l in g[a] && l.nbr == Some(b);
      var l' :| l' in g[b] && l'.nbr == Some(a) && l'.kind == l.kind;
    }
  }

  /** ... so reachability is symmetric there. */
  lemma ReachableSymmetric(g: Board, a: nat, b: nat)
    requires Undirected(g) && Reachable(g, a, b)
    ensures Reachable(g, b, a)
  {
    var p :| IsRoute(g, p) && p[0] == a && p[|p| - 1] == b;
    RouteReverses(g, p);
    assert Reverse(p)[0] == b;
  }

  /** Routes chain: a route to b followed by a route from b. */
  lemma ReachableTransitive(g: Board, a: nat, b: nat, c: nat)
    requires Reachable(g, a, b) && Reachable(g, b, c)
    ensures Reachable(g, a, c)
  {
    var p :| IsRoute(g, p) && p[0] == a && p[|p| - 1] == b;
    var q :| IsRoute(g, q) && q[0] == b && q[|q| - 1] == c;
    var r := p + q[1..];
    forall i | 0 <= i < |r| - 1
      ensures Adjacent(g, r[i], r[i + 1])
    {
      if i < |p| - 1 {
        assert r[i] == p[i] && r[i + 1] == p[i + 1];
      } else {
        assert r[i] == q[i - |p| + 1] && r[i + 1] == q[i - |p| + 2];
      }
    }
    assert r[|r| - 1] == c;
  }

  /**
   * CityNode.getEdge on the resolved links: the index of the first link, in
   * list order, whose neighbour is exactly n; nothing for a null n or when no
   * link leads to n.
   */
  function FirstEdgeTo(links: seq<Link>, n: Option<nat>): (r: Option<nat>)
    ensures r.Some? ==> n.Some? && r.value < |links| && links[r.value].nbr == n
    ensures r.Some? ==> forall k :: 0 <= k < r.value ==> links[k].nbr != n
    ensures r.None? ==> n.None? || forall k :: 0 <= k < |links| ==> links[k].nbr != n
  {
    if n.None? then None else FirstEdgeFrom(links, n, 0)
  }

  function FirstEdgeFrom(links: seq<Link>, n: Option<nat>, k: nat): (r: Option<nat>)
    requires k <= |links|
    ensures r.Some? ==> k <= r.value < |links| && links[r.value].nbr == n
    ensures r.Some? ==> forall j :: k <= j < r.value ==> links[j].nbr != n
    ensures r.None? ==> forall j :: k <= j < |links| ==> links[j].nbr != n
    decreases |links| - k
  {
    if k == |links| then None
    else if links[k].nbr == n then Some(k)
    else FirstEdgeFrom(links, n, k + 1)
  }

  /** A city has a link to b exactly when getEdge finds one. */
  lemma FirstEdgeToAdjacent(g: Board, a: nat, b: nat)
    requires a < |g|
    ensures FirstEdgeTo(g[a], Some(b)).Some? <==> Adjacent(g, a, b)
  {
    if Adjacent(g, a, b) {
      var l :| l in g[a] && l.nbr == Some(b);
      var k :| 0 <= k < |g[a]| && g[a][k] == l;
    }
  }

  /** Edge: a typed, named link to a neighbour, resolved by `Construct`. */
  class Edge {
    const neighborName: string
    const kind: EdgeType
    var neighbor: Option<nat>
    var parent: CityNode?

    constructor (neighborName: string, kind: EdgeType)
      ensures this.neighborName == neighborName && this.kind == kind
      ensures neighbor == None && parent == null
    {
      this.neighborName := neighborName;
      this.kind := kind;
      neighbor := None;
      parent := null;
    }

    /**
     * Edge.construct: remembers the owning city and resolves the neighbour by
     * name.  A name missing from the map leaves the edge unresolved; the
     * failure is swallowed, so the operation is total.
     */
    method Construct(p: CityNode, cities: map<string, nat>)
      modifies this
      ensures parent == p
      ensures neighborName in cities ==> neighbor == Some(cities[neighborName])
      ensures neighborName !in cities ==> neighbor == None
    {
      parent := p;
      neighbor := if neighborName in cities then Some(cities[neighborName]) else None;
    }

    function ToLink(): (l: Link)
      reads this
      ensures l.nbr == neighbor && l.kind == kind
    {
      Link(neighbor, kind)
    }
  }

  function LinksOf(es: seq<Edge>): (r: seq<Link>)
    reads set e | e in es
    ensures |r| == |es|
    ensures forall k :: 0 <= k < |es| ==> r[k] == es[k].ToLink()
  {
    if es == [] then [] else [es[0].ToLink()] + LinksOf(es[1..])
  }

  /** CityNode: a city of the map with its list of edges. */
  class CityNode {
    const name: string
    const color: Color
    const section: int
    const isFlightCity: bool
    /** None models the null list left by the serialisation constructor. */
    var edges: Option<seq<Edge>>

    constructor (name: string, color: Color, section: int, isFlightCity: bool)
      ensures this.name == name && this.color == color
      ensures this.section == section && this.isFlightCity == isFlightCity
      ensures edges == Some([])
    {
      this.name := name;
      this.color := color;
      this.section := section;
      this.isFlightCity := isFlightCity;
      edges := Some([]);
    }

    /** The no-argument constructor: no name, no edge list. */
    constructor Blank()
      ensures name == "" && section == 0 && !isFlightCity
      ensures edges == None
    {
      name := "";
      color := Red;
      section := 0;
      isFlightCity := false;
      edges := None;
    }

    function EdgeList(): seq<Edge>
      reads this
    {
      if edges.Some? then edges.value else []
    }

    /** CityNode.addEdge: appends at the end; a null list is left alone. */
    method AddEdge(e: Edge)
      modifies this
      ensures old(edges).Some? ==> edges == Some(old(edges).value + [e])
      ensures old(edges).None? ==> edges == None
    {
      if edges.Some? {
        edges := Some(edges.value + [e]);
      }
    }

    function Links(): (r: seq<Link>)
      reads this, set e | e in EdgeList()
      ensures |r| == |EdgeList()|
    {
      LinksOf(EdgeList())
    }

    /**
     * CityNode.getEdge: the first edge whose resolved neighbour is n, or
     * nothing.  Iterating a null list would fail, hence the requires.
     */
    function GetEdge(n: Option<nat>): (r: Option<Edge>)
      requires edges.Some?
      reads this, set e | e in EdgeList()
      ensures n.None? ==> r.None?
      ensures r.Some? ==> r.value in EdgeList() && r.value.neighbor == n
      ensures r.None? && n.Some? ==> forall e :: e in EdgeList() ==> e.neighbor != n
      ensures r.Some? ==> exists k :: 0 <= k < |EdgeList()| && EdgeList()[k] == r.value &&
                                      forall j :: 0 <= j < k ==> EdgeList()[j].neighbor != n
    {
      var k := FirstEdgeTo(Links(), n);
      if k.Some? then Some(EdgeList()[k.value]) else None
    }

    function Info(): (c: CityInfo)
      reads this, set e | e in EdgeList()
      ensures c.name == name && c.color == color && c.section == section
      ensures c.isFlightCity == isFlightCity && c.links == Links()
    {
      CityInfo(name, color, section, isFlightCity, Links())
    }
  }
}

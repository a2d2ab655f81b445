/**
 * GameData: the players, the deck of city cards, the turn counter, the
 * current player, the die flag, the game state and the record of turns.
 * The random swap positions of the shuffle are given as input; the
 * animations of the deal are not modelled.
 */
module Game {
  import opened Wrappers
  import opened Graph
  import opened Players

  /** GameManager.GameState. */
  datatype GameState = NotStarted | Playing | Over

  /** One line of the game history. */
  datatype Turn = Turn(turnNumber: int, playerName: string, fromCityName: string, toCityName: string, description: string)

  /** The part of a game the rules of a turn change, as a value. */
  datatype GameView = GameView(turns: seq<Turn>, winner: Player?, state: GameState, dieRolled: bool)

  /** Cards dealt to each player. */
  const HandSize: nat := 9

  /** Passes of the shuffle over the deck. */
  const ShuffleTimes: nat := 5

  // ---------------------------------------------------------------------
  // Shuffling.

  /** The swap of the shuffle: card i and card j change places. */
  function Swap(d: seq<nat>, i: nat, j: nat): (r: seq<nat>)
    requires i < |d| && j < |d|
    ensures |r| == |d| && r[i] == d[j] && r[j] == d[i]
    ensures forall k :: 0 <= k < |d| && k != i && k != j ==> r[k] == d[k]
  {
    seq(|d|, k requires 0 <= k < |d| => if k == i then d[j] else if k == j then d[i] else d[k])
  }

  /** Every swap position of every pass is a position of a deck of n cards. */
  predicate SwapsFit(rounds: seq<seq<nat>>, n: nat) {
    forall t :: 0 <= t < |rounds| ==> |rounds[t]| == n && forall k :: 0 <= k < n ==> rounds[t][k] < n
  }

  /** The first n swaps of one pass: card k is swapped with card round[k], for k = 0, 1, ..., n-1. */
  function Pass(d: seq<nat>, round: seq<nat>, n: nat): (r: seq<nat>)
    requires |round| == |d| && n <= |d| && forall k :: 0 <= k < |d| ==> round[k] < |d|
    ensures |r| == |d|
  {
    if n == 0 then d else Swap(Pass(d, round, n - 1), n - 1, round[n - 1])
  }

  /** The deck after all the passes. */
  function Shuffled(d: seq<nat>, rounds: seq<seq<nat>>): (r: seq<nat>)
    requires SwapsFit(rounds, |d|)
    ensures |r| == |d|
    decreases |rounds|
  {
    if rounds == [] then d else Shuffled(Pass(d, rounds[0], |d|), rounds[1..])
  }

  /** A swap only reorders the deck. */
  lemma SwapPermutes(d: seq<nat>, i: nat, j: nat)
    requires i < |d| && j < |d|
    ensures multiset(Swap(d, i, j)) == multiset(d)
  {
    var e := d[j := d[i]];
    assert Swap(d, i, j) == e[i := d[j]];
    assert multiset(e) == multiset(d) - multiset{d[j]} + multiset{d[i]};
    assert multiset(e[i := d[j]]) == multiset(e) - multiset{e[i]} + multiset{d[j]};
  }

  /** A pass only reorders the deck. */
  lemma {:induction false} PassPermutes(d: seq<nat>, round: seq<nat>, n: nat)
    requires |round| == |d| && n <= |d| && forall k :: 0 <= k < |d| ==> round[k] < |d|
    ensures multiset(Pass(d, round, n)) == multiset(d)
  {
    if n > 0 {
      var before := Pass(d, round, n - 1);
      PassPermutes(d, round, n - 1);
      SwapPermutes(before, n - 1, round[n - 1]);
    }
  }

  /** Shuffling only reorders the deck: no card is lost or duplicated. */
  lemma {:induction false} ShuffledPermutes(d: seq<nat>, rounds: seq<seq<nat>>)
    requires SwapsFit(rounds, |d|)
    ensures multiset(Shuffled(d, rounds)) == multiset(d)
    decreases |rounds|
  {
    if rounds != [] {
      PassPermutes(d, rounds[0], |d|);
      ShuffledPermutes(Pass(d, rounds[0], |d|), rounds[1..]);
    }
  }

  // ---------------------------------------------------------------------
  // Colours of the deck.

  predicate HasColor(cities: seq<CityInfo>, c: nat, col: Color) {
    c < |cities| && cities[c].color == col
  }

  /** The number of cards of colour col in s. */
  function CountColor(cities: seq<CityInfo>, s: seq<nat>, col: Color): nat {
    if s == [] then 0 else (if HasColor(cities, s[0], col) then 1 else 0) + CountColor(cities, s[1..], col)
  }

  lemma {:induction false} CountColorAppend(cities: seq<CityInfo>, a: seq<nat>, b: seq<nat>, col: Color)
    ensures CountColor(cities, a + b, col) == CountColor(cities, a, col) + CountColor(cities, b, col)
    decreases |a|
  {
    if a == [] {
      assert a + b == b;
    } else {
      assert (a + b)[0] == a[0] && (a + b)[1..] == a[1..] + b;
      CountColorAppend(cities, a[1..], b, col);
    }
  }

  /** Taking card k out of s. */
  lemma CountColorRemove(cities: seq<CityInfo>, s: seq<nat>, k: nat, col: Color)
    requires k < |s|
    ensures CountColor(cities, s, col)
         == (if HasColor(cities, s[k], col) then 1 else 0) + CountColor(cities, s[..k] + s[k + 1..], col)
  {
    assert s == s[..k] + ([s[k]] + s[k + 1..]);
    CountColorAppend(cities, s[..k], [s[k]] + s[k + 1..], col);
    CountColorAppend(cities, [s[k]], s[k + 1..], col);
    CountColorAppend(cities, s[..k], s[k + 1..], col);
    assert CountColor(cities, [s[k]], col) == if HasColor(cities, s[k], col) then 1 else 0 by {
      assert [s[k]][1..] == [];
    }
  }

  /** Taking the first card of a out of a, and the same card out of a reordering b of a, leaves the same cards. */
  lemma SameCardsRemoved(a: seq<nat>, b: seq<nat>, k: nat)
    requires multiset(a) == multiset(b) && a != [] && k < |b| && b[k] == a[0]
    ensures multiset(a[1..]) == multiset(b[..k] + b[k + 1..])
  {
    var x := a[0];
    assert a == [x] + a[1..];
    assert b == b[..k] + [x] + b[k + 1..];
    assert multiset(a[1..]) == multiset(a) - multiset{x};
    assert multiset(b[..k] + b[k + 1..]) == multiset(b) - multiset{x};
  }

  /** Reordering the deck keeps the number of cards of each colour. */
  lemma {:induction false} CountColorPermutation(cities: seq<CityInfo>, a: seq<nat>, b: seq<nat>, col: Color)
    requires multiset(a) == multiset(b)
    ensures CountColor(cities, a, col) == CountColor(cities, b, col)
    decreases |a|
  {
    if a == [] {
      assert |b| == |multiset(b)| == 0;
    } else {
      var x := a[0];
      assert x in b by {
        assert x in multiset(b);
      }
      var k :| 0 <= k < |b| && b[k] == x;
      var rest := b[..k] + b[k + 1..];
      SameCardsRemoved(a, b, k);
      assert CountColor(cities, a, col) == (if HasColor(cities, x, col) then 1 else 0) + CountColor(cities, a[1..], col);
      CountColorPermutation(cities, a[1..], rest, col);
      CountColorRemove(cities, b, k, col);
    }
  }

  /** The position of the first card of colour col. */
  function FirstOfColor(cities: seq<CityInfo>, s: seq<nat>, col: Color): (k: nat)
    requires CountColor(cities, s, col) > 0
    ensures k < |s| && HasColor(cities, s[k], col)
    ensures forall i :: 0 <= i < k ==> !HasColor(cities, s[i], col)
  {
    if HasColor(cities, s[0], col) then 0 else FirstOfColor(cities, s[1..], col) + 1
  }

  function ColorIndex(col: Color): (k: nat)
    ensures k < 3 && CityColor[k] == col
  {
    match col
    case Red => 0
    case Green => 1
    case Yellow => 2
  }

  /** How many of the first j cards of a hand have the colour of CityColor[k]: positions k, k+3, k+6, ... */
  function DealtOfColor(j: nat, k: nat): nat
    requires k < 3
  {
    (j + 2 - k) / 3
  }

  lemma DealtOfColorStep(j: nat, k: nat)
    requires k < 3
    ensures DealtOfColor(j + 1, k) == DealtOfColor(j, k) + (if j % 3 == k then 1 else 0)
    ensures j < HandSize && j % 3 == k ==> DealtOfColor(j, k) < 3
  {
  }

  /**
   * After j cards of a hand are dealt from deck0: the cards left and the
   * cards dealt are the cards of deck0, and card j' has colour CityColor[j' % 3].
   */
  ghost predicate HandDealt(cities: seq<CityInfo>, deck0: seq<nat>, deck: seq<nat>, mine: seq<nat>, j: nat) {
    && |mine| == j
    && (forall j' :: 0 <= j' < j ==> HasColor(cities, mine[j'], CityColor[j' % 3]))
    && multiset(deck0) == multiset(deck) + multiset(mine)
    && (forall col: Color :: CountColor(cities, deck, col) + CountColor(cities, mine, col) == CountColor(cities, deck0, col))
    && (forall col: Color :: j <= HandSize ==> CountColor(cities, mine, col) == DealtOfColor(j, ColorIndex(col)))
  }

  /** With three cards of each colour at the start, a card of the colour needed next is still in the deck. */
  lemma ColorAvailable(cities: seq<CityInfo>, deck0: seq<nat>, deck: seq<nat>, mine: seq<nat>, j: nat)
    requires HandDealt(cities, deck0, deck, mine, j) && j < HandSize
    requires forall col: Color :: CountColor(cities, deck0, col) >= 3
    ensures CountColor(cities, deck, CityColor[j % 3]) > 0
  {
    var col := CityColor[j % 3];
    assert ColorIndex(col) == j % 3;
    DealtOfColorStep(j, j % 3);
  }

  /** Rotating to the first card of colour col brings that card to the front and keeps the cards. */
  lemma RotationKeepsCards(cities: seq<CityInfo>, before: seq<nat>, rotated: seq<nat>, col: Color)
    requires CountColor(cities, before, col) > 0
    requires var k := FirstOfColor(cities, before, col); rotated == before[k..] + before[..k]
    ensures rotated != [] && HasColor(cities, rotated[0], col)
    ensures multiset(rotated) == multiset(before)
    ensures forall c: Color :: CountColor(cities, rotated, c) == CountColor(cities, before, c)
  {
    var k := FirstOfColor(cities, before, col);
    assert before == before[..k] + before[k..];
    forall c: Color
      ensures CountColor(cities, rotated, c) == CountColor(cities, before, c)
    {
      CountColorPermutation(cities, rotated, before, c);
    }
  }

  /** Dealing the front card of the needed colour keeps HandDealt. */
  lemma DealFront(cities: seq<CityInfo>, deck0: seq<nat>, deck: seq<nat>, mine: seq<nat>, j: nat)
    requires HandDealt(cities, deck0, deck, mine, j) && j < HandSize
    requires deck != [] && HasColor(cities, deck[0], CityColor[j % 3])
    ensures HandDealt(cities, deck0, deck[1..], mine + [deck[0]], j + 1)
  {
    var col := CityColor[j % 3];
    var card := deck[0];
    assert deck == [card] + deck[1..];
    var next := mine + [card];
    assert ColorIndex(col) == j % 3;
    forall c: Color
      ensures CountColor(cities, deck[1..], c) + CountColor(cities, next, c) == CountColor(cities, deck0, c)
      ensures CountColor(cities, next, c) == DealtOfColor(j + 1, ColorIndex(c))
    {
      CountColorAppend(cities, mine, [card], c);
      DealtOfColorStep(j, ColorIndex(c));
    }
    forall j' | 0 <= j' < j + 1
      ensures HasColor(cities, next[j'], CityColor[j' % 3])
    {
      if j' < j {
        assert next[j'] == mine[j'];
      }
    }
  }

  /** Rotating to the first card of the needed colour and dealing it keeps HandDealt. */
  lemma DealOne(cities: seq<CityInfo>, deck0: seq<nat>, before: seq<nat>, rotated: seq<nat>, mine: seq<nat>, j: nat)
    requires HandDealt(cities, deck0, before, mine, j) && j < HandSize
    requires CountColor(cities, before, CityColor[j % 3]) > 0
    requires var k := FirstOfColor(cities, before, CityColor[j % 3]); rotated == before[k..] + before[..k]
    ensures rotated != [] && HandDealt(cities, deck0, rotated[1..], mine + [rotated[0]], j + 1)
  {
    RotationKeepsCards(cities, before, rotated, CityColor[j % 3]);
    assert HandDealt(cities, deck0, rotated, mine, j);
    DealFront(cities, deck0, rotated, mine, j);
  }

  /**
   * The deck after the inner while loop of dealCards: the cards in front of
   * the first card of colour col go, in order, to the back.
   */
  function Rotated(cities: seq<CityInfo>, d: seq<nat>, col: Color): (r: seq<nat>)
    requires CountColor(cities, d, col) > 0
    ensures |r| == |d| && HasColor(cities, r[0], col)
    ensures multiset(r) == multiset(d)
    ensures forall c: Color :: CountColor(cities, r, c) == CountColor(cities, d, c)
  {
    var k := FirstOfColor(cities, d, col);
    RotationKeepsCards(cities, d, d[k..] + d[..k], col);
    d[k..] + d[..k]
  }

  /**
   * The card the inner loop of dealCards deals for colour col: the front of
   * the deck once it is rotated to its first card of that colour.  With no
   * card of that colour the loop never ends; the value is then arbitrary,
   * and the dealing methods rule that case out.
   */
  function NextCard(cities: seq<CityInfo>, d: seq<nat>, col: Color): nat {
    if CountColor(cities, d, col) > 0 then Rotated(cities, d, col)[0] else 0
  }

  /** The deck left once NextCard has been dealt from it. */
  function AfterCard(cities: seq<CityInfo>, d: seq<nat>, col: Color): seq<nat> {
    if CountColor(cities, d, col) > 0 then Rotated(cities, d, col)[1..] else d
  }

  /** The deck left after the first j cards of a hand are dealt from deck d. */
  function DeckLeft(cities: seq<CityInfo>, d: seq<nat>, j: nat): seq<nat> {
    if j == 0 then d else AfterCard(cities, DeckLeft(cities, d, j - 1), CityColor[(j - 1) % 3])
  }

  /** The first j cards of a hand dealt from deck d; card j' is dealt for colour CityColor[j' % 3]. */
  function HandCards(cities: seq<CityInfo>, d: seq<nat>, j: nat): (r: seq<nat>)
    ensures |r| == j
  {
    if j == 0 then []
    else HandCards(cities, d, j - 1) + [NextCard(cities, DeckLeft(cities, d, j - 1), CityColor[(j - 1) % 3])]
  }

  /**
   * From a deck with three cards of every colour, every card of the hand is
   * found: card j' has colour CityColor[j' % 3], and the cards dealt and the
   * cards left are the cards of d.
   */
  lemma {:induction false} HandCardsDealt(cities: seq<CityInfo>, d: seq<nat>, j: nat)
    requires j <= HandSize && forall col: Color :: CountColor(cities, d, col) >= 3
    ensures HandDealt(cities, d, DeckLeft(cities, d, j), HandCards(cities, d, j), j)
  {
    if j > 0 {
      HandCardsDealt(cities, d, j - 1);
      HandCardsNext(cities, d, j);
    }
  }

  /** Round j of the inner loop: the next card of the colour cycle is found, and HandDealt carries over. */
  lemma HandCardsNext(cities: seq<CityInfo>, d: seq<nat>, j: nat)
    requires 0 < j <= HandSize && forall col: Color :: CountColor(cities, d, col) >= 3
    requires HandDealt(cities, d, DeckLeft(cities, d, j - 1), HandCards(cities, d, j - 1), j - 1)
    ensures HandDealt(cities, d, DeckLeft(cities, d, j), HandCards(cities, d, j), j)
  {
    var prev := DeckLeft(cities, d, j - 1);
    var mine := HandCards(cities, d, j - 1);
    ColorAvailable(cities, d, prev, mine, j - 1);
    var rot := Rotated(cities, prev, CityColor[(j - 1) % 3]);
    DealOne(cities, d, prev, rot, mine, j - 1);
  }

  lemma AppendOne(a: seq<nat>, b: seq<nat>, x: nat)
    ensures (a + b) + [x] == a + (b + [x])
  {
  }

  /** The cards dealt to all players, in dealing order. */
  function Flatten(xs: seq<seq<nat>>): seq<nat> {
    if xs == [] then [] else Flatten(xs[..|xs| - 1]) + xs[|xs| - 1]
  }

  /** A full hand holds three cards of each colour. */
  lemma FullHandColors(k: nat)
    requires k < 3
    ensures DealtOfColor(HandSize, k) == 3
  {
  }

  lemma FullHandsColors()
    ensures forall col: Color :: DealtOfColor(HandSize, ColorIndex(col)) == 3
  {
    forall col: Color
      ensures DealtOfColor(HandSize, ColorIndex(col)) == 3
    {
      FullHandColors(ColorIndex(col));
    }
  }

  /** The deck left after n players are dealt a full hand each from deck d. */
  function DeckAfter(cities: seq<CityInfo>, d: seq<nat>, n: nat): seq<nat> {
    if n == 0 then d else DeckLeft(cities, DeckAfter(cities, d, n - 1), HandSize)
  }

  /** The hands of n players dealt one after the other from deck d. */
  function HandsDealt(cities: seq<CityInfo>, d: seq<nat>, n: nat): (r: seq<seq<nat>>)
    ensures |r| == n && forall a :: 0 <= a < n ==> |r[a]| == HandSize
  {
    if n == 0 then [] else HandsDealt(cities, d, n - 1) + [HandCards(cities, DeckAfter(cities, d, n - 1), HandSize)]
  }

  /** One more player's hand: the hands so far and then the next hand dealt from what they left. */
  lemma HandsDealtNext(cities: seq<CityInfo>, d: seq<nat>, n: nat, mine: seq<nat>, rest: seq<nat>)
    requires mine == HandCards(cities, DeckAfter(cities, d, n), HandSize)
    requires rest == DeckLeft(cities, DeckAfter(cities, d, n), HandSize)
    ensures HandsDealt(cities, d, n + 1) == HandsDealt(cities, d, n) + [mine]
    ensures DeckAfter(cities, d, n + 1) == rest
  {
  }

  function HandsOf(ps: seq<Player>): (r: seq<seq<nat>>)
    reads ps
    ensures |r| == |ps| && forall k :: 0 <= k < |ps| ==> r[k] == ps[k].hand
  {
    seq(|ps|, k requires 0 <= k < |ps| reads ps => ps[k].hand)
  }

  function HomesOf(ps: seq<Player>): (r: seq<Option<nat>>)
    reads ps
    ensures |r| == |ps| && forall k :: 0 <= k < |ps| ==> r[k] == ps[k].homeCity
  {
    seq(|ps|, k requires 0 <= k < |ps| reads ps => ps[k].homeCity)
  }

  /**
   * After the first i players got their hands dealt[..i]: each of their
   * hands grew by its cards and a home city was set from the first card if
   * there was none; the players still to be dealt are untouched.
   */
  ghost predicate HandsGiven(hands0: seq<seq<nat>>, homes0: seq<Option<nat>>,
                             hands: seq<seq<nat>>, homes: seq<Option<nat>>, dealt: seq<seq<nat>>, i: nat)
  {
    var n := |hands0|;
    && |homes0| == n && |hands| == n && |homes| == n && |dealt| == i <= n
    && (forall a :: 0 <= a < i ==> |dealt[a]| > 0)
    && (forall a :: 0 <= a < i ==> hands[a] == hands0[a] + dealt[a])
    && (forall a :: 0 <= a < i ==> homes[a] == if homes0[a].None? then Some(dealt[a][0]) else homes0[a])
    && (forall a :: i <= a < n ==> hands[a] == hands0[a] && homes[a] == homes0[a])
  }

  /** Giving player i the hand mine keeps HandsGiven. */
  lemma HandsGivenStep(hands0: seq<seq<nat>>, homes0: seq<Option<nat>>, hands: seq<seq<nat>>,
                       homes: seq<Option<nat>>, dealt: seq<seq<nat>>, mine: seq<nat>, i: nat)
    requires HandsGiven(hands0, homes0, hands, homes, dealt, i) && i < |hands0| && |mine| > 0
    ensures HandsGiven(hands0, homes0, hands[i := hands[i] + mine],
                       homes[i := if homes[i].None? then Some(mine[0]) else homes[i]], dealt + [mine], i + 1)
  {
  }

  /** Each full hand takes three cards of every colour from the deck. */
  lemma {:induction false} DeckAfterColors(cities: seq<CityInfo>, d: seq<nat>, n: nat)
    requires forall col: Color :: CountColor(cities, d, col) >= 3 * n
    ensures forall col: Color :: CountColor(cities, DeckAfter(cities, d, n), col) + 3 * n == CountColor(cities, d, col)
  {
    if n > 0 {
      DeckAfterColors(cities, d, n - 1);
      HandCardsDealt(cities, DeckAfter(cities, d, n - 1), HandSize);
      FullHandsColors();
    }
  }

  /** Before hand i of n is dealt, the deck still holds three cards of every colour. */
  lemma NextHandAvailable(cities: seq<CityInfo>, d: seq<nat>, n: nat, i: nat)
    requires i < n && forall col: Color :: CountColor(cities, d, col) >= 3 * n
    ensures forall col: Color :: CountColor(cities, DeckAfter(cities, d, i), col) >= 3
  {
    assert forall col: Color :: CountColor(cities, d, col) >= 3 * i;
    DeckAfterColors(cities, d, i);
  }

  /** Card j of every hand dealt has colour CityColor[j % 3]. */
  lemma {:induction false} HandsDealtColors(cities: seq<CityInfo>, d: seq<nat>, n: nat)
    requires forall col: Color :: CountColor(cities, d, col) >= 3 * n
    ensures forall a, j :: 0 <= a < n && 0 <= j < HandSize ==>
              HasColor(cities, HandsDealt(cities, d, n)[a][j], CityColor[j % 3])
  {
    if n > 0 {
      HandsDealtColors(cities, d, n - 1);
      DeckAfterColors(cities, d, n - 1);
      var prev := DeckAfter(cities, d, n - 1);
      HandCardsDealt(cities, prev, HandSize);
      var hands := HandsDealt(cities, d, n - 1);
      var mine := HandCards(cities, prev, HandSize);
      assert HandsDealt(cities, d, n) == hands + [mine];
      forall a, j | 0 <= a < n && 0 <= j < HandSize
        ensures HasColor(cities, HandsDealt(cities, d, n)[a][j], CityColor[j % 3])
      {
        if a < n - 1 {
          assert HandsDealt(cities, d, n)[a] == hands[a];
        } else {
          assert HandsDealt(cities, d, n)[a] == mine;
        }
      }
    }
  }

  /** The cards dealt and the cards left are the cards of d: none lost, none made up. */
  lemma {:induction false} HandsDealtCards(cities: seq<CityInfo>, d: seq<nat>, n: nat)
    requires forall col: Color :: CountColor(cities, d, col) >= 3 * n
    ensures multiset(d) == multiset(DeckAfter(cities, d, n)) + multiset(Flatten(HandsDealt(cities, d, n)))
  {
    if n > 0 {
      HandsDealtCards(cities, d, n - 1);
      DeckAfterColors(cities, d, n - 1);
      var prev := DeckAfter(cities, d, n - 1);
      HandCardsDealt(cities, prev, HandSize);
      var hands := HandsDealt(cities, d, n - 1);
      var mine := HandCards(cities, prev, HandSize);
      var rest := DeckLeft(cities, prev, HandSize);
      assert multiset(prev) == multiset(rest) + multiset(mine);
      assert DeckAfter(cities, d, n) == rest;
      assert HandsDealt(cities, d, n) == hands + [mine];
      assert (hands + [mine])[..n - 1] == hands;
      assert Flatten(HandsDealt(cities, d, n)) == Flatten(hands) + mine;
      assert multiset(Flatten(hands) + mine) == multiset(Flatten(hands)) + multiset(mine);
    }
  }

  /** Shuffling and then dealing n hands loses no card and makes none up. */
  lemma DealtCardsKept(cities: seq<CityInfo>, d: seq<nat>, rounds: seq<seq<nat>>, n: nat)
    requires SwapsFit(rounds, |d|) && forall col: Color :: CountColor(cities, d, col) >= 3 * n
    ensures var s := Shuffled(d, rounds);
            multiset(d) == multiset(DeckAfter(cities, s, n)) + multiset(Flatten(HandsDealt(cities, s, n)))
  {
    ShuffledColors(cities, d, rounds);
    ShuffledPermutes(d, rounds);
    HandsDealtCards(cities, Shuffled(d, rounds), n);
  }

  /** The shuffle keeps the number of cards of each colour. */
  lemma ShuffledColors(cities: seq<CityInfo>, d: seq<nat>, rounds: seq<seq<nat>>)
    requires SwapsFit(rounds, |d|)
    ensures forall col: Color :: CountColor(cities, Shuffled(d, rounds), col) == CountColor(cities, d, col)
  {
    ShuffledPermutes(d, rounds);
    forall col: Color
      ensures CountColor(cities, Shuffled(d, rounds), col) == CountColor(cities, d, col)
    {
      CountColorPermutation(cities, Shuffled(d, rounds), d, col);
    }
  }

  // ---------------------------------------------------------------------
  // Turn order.

  function PointsOf(ps: seq<Player>): (r: seq<int>)
    reads ps
    ensures |r| == |ps| && forall k :: 0 <= k < |ps| ==> r[k] == ps[k].movePoints
  {
    seq(|ps|, k requires 0 <= k < |ps| reads ps => ps[k].movePoints)
  }

  /** The turns still owed by players with negative points: the sum of their deficits. */
  function Deficit(xs: seq<int>): nat {
    if xs == [] then 0 else (if xs[0] < 0 then -xs[0] else 0) + Deficit(xs[1..])
  }

  /**
   * From points xs0 to xs by skips: non-negative points are untouched, and
   * negative points only grew, never past zero.
   */
  predicate SkipsOnly(xs0: seq<int>, xs: seq<int>) {
    && |xs| == |xs0|
    && (forall k :: 0 <= k < |xs0| && xs0[k] >= 0 ==> xs[k] == xs0[k])
    && (forall k :: 0 <= k < |xs0| && xs0[k] < 0 ==> xs0[k] <= xs[k] <= 0)
  }

  /** Skipping a player with negative points pays one turn of its deficit. */
  lemma {:induction false} DeficitStep(xs: seq<int>, k: nat)
    requires k < |xs| && xs[k] < 0
    ensures Deficit(xs[k := xs[k] + 1]) == Deficit(xs) - 1
  {
    if k == 0 {
      assert xs[k := xs[k] + 1][1..] == xs[1..];
    } else {
      assert xs[k := xs[k] + 1][1..] == xs[1..][k - 1 := xs[k] + 1];
      DeficitStep(xs[1..], k - 1);
    }
  }

  /** The seat after seat k at a table of n players. */
  function NextSeat(k: nat, n: nat): nat {
    if k + 1 >= n then 0 else k + 1
  }

  /** The turn counter modulo the number of players moves round the table one seat at a time. */
  lemma NextSeatMod(t: nat, n: nat)
    requires n >= 1
    ensures (t + 1) % n == NextSeat(t % n, n)
  {
    var q, r := t / n, t % n;
    assert t == q * n + r;
    if r + 1 < n {
      ModUnique(t + 1, n, q, r + 1);
    } else {
      assert t + 1 == (q + 1) * n;
      ModUnique(t + 1, n, q + 1, 0);
    }
  }

  /** a = q * n + r with 0 <= r < n leaves remainder r. */
  lemma ModUnique(a: nat, n: nat, q: int, r: int)
    requires n >= 1 && 0 <= r < n && a == q * n + r
    ensures a % n == r
  {
    var q', r' := a / n, a % n;
    assert a == q' * n + r';
    if q > q' {
      MulAtLeast(q - q', n);
    } else if q < q' {
      MulAtLeast(q' - q, n);
    }
  }

  lemma {:induction false} MulAtLeast(d: int, n: nat)
    requires d >= 1
    ensures d * n >= n
    decreases d
  {
    if d > 1 {
      MulAtLeast(d - 1, n);
      assert d * n == (d - 1) * n + n;
    }
  }

  /**
   * The skipping loop of getNextPlayer on the points of the players, from
   * turn t at seat k: while the player at the seat has negative points, it
   * gains one point and the turn passes on.  The result is the turn counter
   * and the points when the loop stops.
   */
  function SkipFrom(xs: seq<int>, t: nat, k: nat): (r: (nat, seq<int>))
    requires k < |xs|
    ensures r.0 >= t && |r.1| == |xs|
    ensures SkipsOnly(xs, r.1)
    ensures Deficit(xs) - Deficit(r.1) == r.0 - t
    decreases Deficit(xs)
  {
    if xs[k] >= 0 then (t, xs)
    else
      DeficitStep(xs, k);
      SkipFrom(xs[k := xs[k] + 1], t + 1, NextSeat(k, |xs|))
  }

  /** The skipping loop from turn t, whose seat is t modulo the number of players. */
  function Skip(xs: seq<int>, t: nat): (r: (nat, seq<int>))
    requires |xs| >= 1
    ensures r.0 >= t && |r.1| == |xs| && SkipsOnly(xs, r.1)
    ensures Deficit(xs) - Deficit(r.1) == r.0 - t
  {
    SkipFrom(xs, t, t % |xs|)
  }

  /** The skipping loop stops at once on a player without negative points. */
  lemma SkipStops(xs: seq<int>, t: nat)
    requires |xs| >= 1 && xs[t % |xs|] >= 0
    ensures Skip(xs, t).0 == t && Skip(xs, t).1 == xs
  {
  }

  /** One round of the skipping loop: the player at turn t gains a point and the loop goes on from turn t + 1. */
  lemma SkipOnce(xs: seq<int>, t: nat, ys: seq<int>)
    requires |xs| >= 1 && xs[t % |xs|] < 0 && ys == xs[t % |xs| := xs[t % |xs|] + 1]
    ensures Deficit(ys) < Deficit(xs)
    ensures Skip(xs, t).0 == Skip(ys, t + 1).0 && Skip(xs, t).1 == Skip(ys, t + 1).1
  {
    DeficitStep(xs, t % |xs|);
    NextSeatMod(t, |xs|);
  }

  /** One round of the skipping loop, from seat k. */
  lemma SkipFromOnce(xs: seq<int>, t: nat, k: nat, ys: seq<int>)
    requires k < |xs| && xs[k] < 0 && ys == xs[k := xs[k] + 1]
    ensures Deficit(ys) < Deficit(xs)
    ensures var r, r' := SkipFrom(xs, t, k), SkipFrom(ys, t + 1, NextSeat(k, |xs|)); r.0 == r'.0 && r.1 == r'.1
  {
    DeficitStep(xs, k);
  }

  /**
   * getNextPlayer on the points and the turn counter t: a player with no
   * points left passes the turn on, then players with negative points are
   * skipped.
   */
  function NextTurn(xs: seq<int>, t: nat): (r: (nat, seq<int>))
    requires |xs| >= 1
    ensures xs[t % |xs|] > 0 ==> r.0 == t && r.1 == xs
    ensures xs[t % |xs|] <= 0 ==> r.0 > t
    ensures |r.1| == |xs| && SkipsOnly(xs, r.1)
  {
    Skip(xs, if xs[t % |xs|] <= 0 then t + 1 else t)
  }

  /** getNextPlayer is the skipping loop from the turn after a pass, or from turn t when the player keeps it. */
  lemma NextTurnSkips(xs: seq<int>, t: nat, t': nat)
    requires |xs| >= 1 && t' == if xs[t % |xs|] <= 0 then t + 1 else t
    ensures NextTurn(xs, t) == Skip(xs, t')
  {
  }

  /** How many of the turns t, t+1, ..., u-1 fall to player k of n. */
  function Visits(t: nat, u: nat, n: nat, k: nat): nat
    requires n >= 1
    decreases u - t
  {
    if u <= t then 0 else (if t % n == k then 1 else 0) + Visits(t + 1, u, n, k)
  }

  /**
   * Every skip gives exactly one point: a player gains one point for each
   * turn of it that was skipped.
   */
  lemma {:induction false} SkipCounts(xs: seq<int>, t: nat)
    requires |xs| >= 1
    ensures var r := Skip(xs, t);
      forall k :: 0 <= k < |xs| ==> r.1[k] == xs[k] + Visits(t, r.0, |xs|, k)
    decreases Deficit(xs)
  {
    var n, j := |xs|, t % |xs|;
    if xs[j] < 0 {
      var ys := xs[j := xs[j] + 1];
      SkipOnce(xs, t, ys);
      SkipCounts(ys, t + 1);
      var r := Skip(xs, t);
      forall k | 0 <= k < n
        ensures r.1[k] == xs[k] + Visits(t, r.0, n, k)
      {
        assert Visits(t, r.0, n, k) == (if j == k then 1 else 0) + Visits(t + 1, r.0, n, k);
      }
    } else {
      SkipStops(xs, t);
    }
  }

  /**
   * The loop passes over exactly the turns whose player still has negative
   * points when reached (its points plus the skips it has had so far), and
   * stops at the first turn whose player has not; that player then has no
   * negative points.
   */
  lemma {:induction false} SkipStopsAtFirst(xs: seq<int>, t: nat)
    requires |xs| >= 1
    ensures var r, n := Skip(xs, t), |xs|;
      && (forall i :: t <= i < r.0 ==> xs[i % n] + Visits(t, i, n, i % n) < 0)
      && xs[r.0 % n] + Visits(t, r.0, n, r.0 % n) >= 0
      && r.1[r.0 % n] >= 0
    decreases Deficit(xs)
  {
    var n, j := |xs|, t % |xs|;
    var r := Skip(xs, t);
    if xs[j] < 0 {
      var ys := xs[j := xs[j] + 1];
      SkipOnce(xs, t, ys);
      SkipStopsAtFirst(ys, t + 1);
      assert r == Skip(ys, t + 1);
      assert xs[r.0 % n] + Visits(t, r.0, n, r.0 % n) >= 0 by {
        SkipCounts(xs, t);
        SkipCounts(ys, t + 1);
      }
      forall i | t + 1 <= i < r.0
        ensures xs[i % n] + Visits(t, i, n, i % n) < 0
      {
        VisitsShift(xs, ys, t, i, Visits(t + 1, i, n, i % n));
      }
    } else {
      SkipStops(xs, t);
    }
  }

  /** One skip at turn t moves the count of later visits back by one turn. */
  lemma VisitsShift(xs: seq<int>, ys: seq<int>, t: nat, i: nat, v: nat)
    requires |xs| >= 1 && t < i && xs[t % |xs|] < 0 && ys == xs[t % |xs| := xs[t % |xs|] + 1]
    requires v == Visits(t + 1, i, |xs|, i % |xs|) && ys[i % |xs|] + v < 0
    ensures xs[i % |xs|] + Visits(t, i, |xs|, i % |xs|) < 0
  {
    var n, m := |xs|, i % |xs|;
    assert Visits(t, i, n, m) == (if t % n == m then 1 else 0) + v;
  }

  /** From points [0, -1, -1] at turn 0 the first player passes and both others are skipped: the first plays again at turn 3. */
  lemma NextTurnExample()
    ensures NextTurn([0, -1, -1], 0) == (3, [0, 0, 0])
  {
    assert [0, -1, -1][1 := -1 + 1] == [0, 0, -1];
    assert [0, 0, -1][2 := -1 + 1] == [0, 0, 0];
  }

  /** The player's name, or "N/a" for a null player. */
  function PlayerName(p: Player?): (s: string)
    ensures p != null ==> s == p.name
    ensures p == null ==> s == "N/a"
  {
    if p == null then "N/a" else p.name
  }

  class GameData {
    const cities: seq<CityInfo>
    const players: seq<Player>
    var deck: seq<nat>
    var currentTurn: int
    var currentPlayer: Player?
    var state: GameState
    var dieRolled: bool
    var winner: Player?
    var turns: seq<Turn>

    /**
     * At least one player, no player twice, and the current player is the
     * one the turn counter points at.
     */
    predicate Valid()
      reads this
    {
      && |players| >= 1
      && (forall i, j :: 0 <= i < j < |players| ==> players[i] != players[j])
      && currentTurn >= 0
      && (currentPlayer == null ==> currentTurn == 0)
      && (currentPlayer != null ==> currentPlayer == players[currentTurn % |players|])
    }

    function View(): GameView
      reads this
    {
      GameView(turns, winner, state, dieRolled)
    }

    /** Every card of the deck is a city of the map. */
    predicate DeckOnMap()
      reads this
    {
      forall k :: 0 <= k < |deck| ==> deck[k] < |cities|
    }

    /** A new game: not started, no current player, the die not rolled, every city of the map in the deck. */
    constructor (cities: seq<CityInfo>, players: seq<Player>)
      requires |players| >= 1 && forall i, j :: 0 <= i < j < |players| ==> players[i] != players[j]
      ensures this.cities == cities && this.players == players
      ensures state == NotStarted && currentPlayer == null && !dieRolled
      ensures currentTurn == 0 && winner == null && turns == []
      ensures |deck| == |cities| && forall k :: 0 <= k < |cities| ==> deck[k] == k
      ensures Valid() && DeckOnMap()
    {
      this.cities := cities;
      this.players := players;
      deck := seq(|cities|, k requires 0 <= k < |cities| => k);
      currentTurn := 0;
      currentPlayer := null;
      state := NotStarted;
      dieRolled := false;
      winner := null;
      turns := [];
    }

    /** shuffle: five passes over the deck, each swapping card i with the given card. */
    method Shuffle(rounds: seq<seq<nat>>)
      requires |rounds| == ShuffleTimes && SwapsFit(rounds, |deck|)
      modifies this`deck
      ensures deck == Shuffled(old(deck), rounds)
    {
      var count := ShuffleTimes;
      while count > 0
        invariant 0 <= count <= ShuffleTimes && |deck| == |old(deck)|
        invariant Shuffled(deck, rounds[ShuffleTimes - count..]) == Shuffled(old(deck), rounds)
      {
        var t := ShuffleTimes - count;
        assert rounds[t..][0] == rounds[t] && rounds[t..][1..] == rounds[t + 1..];
        SwapPass(rounds[t]);
        count := count - 1;
      }
    }

    /** The for loop of shuffle: card i changes places with card round[i], for every i in turn. */
    method SwapPass(round: seq<nat>)
      requires |round| == |deck| && forall k :: 0 <= k < |deck| ==> round[k] < |deck|
      modifies this`deck
      ensures deck == Pass(old(deck), round, |round|)
    {
      var d := deck;
      for i := 0 to |round|
        invariant d == Pass(deck, round, i)
      {
        var j := round[i];
        var temp := d[j];
        d := d[j := d[i]];
        d := d[i := temp];
      }
      deck := d;
    }

    /**
     * The inner while loop of dealCards: cards go from the front to the back
     * of the deck until the front card has colour col.
     */
    method RotateToColor(col: Color)
      requires CountColor(cities, deck, col) > 0
      modifies this`deck
      ensures deck == Rotated(cities, old(deck), col)
    {
      ghost var k := FirstOfColor(cities, deck, col);
      ghost var moved := 0;
      var d := deck;
      while !HasColor(cities, d[0], col)
        invariant moved <= k && d == deck[moved..] + deck[..moved]
        decreases k - moved
      {
        d := d[1..] + [d[0]];
        moved := moved + 1;
        assert d == deck[moved..] + deck[..moved];
      }
      deck := d;
    }

    /**
     * The body of dealCards for one player: HandSize cards, the j-th the
     * first card of colour CityColor[j % 3] after rotating the deck.
     */
    method DealHand(p: Player) returns (ghost mine: seq<nat>)
      requires forall col: Color :: CountColor(cities, deck, col) >= 3
      modifies this`deck, p`hand, p`homeCity
      ensures mine == HandCards(cities, old(deck), HandSize) && deck == DeckLeft(cities, old(deck), HandSize)
      ensures HandDealt(cities, old(deck), deck, mine, HandSize)
      ensures p.hand == old(p.hand) + mine
      ensures p.homeCity == if old(p.homeCity).None? then Some(mine[0]) else old(p.homeCity)
    {
      mine := [];
      for j := 0 to HandSize
        invariant mine == HandCards(cities, old(deck), j) && deck == DeckLeft(cities, old(deck), j)
        invariant p.hand == old(p.hand) + mine
        invariant j > 0 ==> p.homeCity == if old(p.homeCity).None? then Some(mine[0]) else old(p.homeCity)
        invariant j == 0 ==> p.homeCity == old(p.homeCity)
      {
        var card := DealCard(p, j, old(deck), mine);
        AppendOne(old(p.hand), mine, card);
        mine := mine + [card];
      }
      HandCardsDealt(cities, old(deck), HandSize);
    }

    /** The body of the inner for loop of dealCards: card j of the hand, of colour CityColor[j % 3]. */
    method DealCard(p: Player, j: nat, ghost deck0: seq<nat>, ghost mine: seq<nat>) returns (card: nat)
      requires j < HandSize && forall col: Color :: CountColor(cities, deck0, col) >= 3
      requires HandCards(cities, deck0, j) == mine && DeckLeft(cities, deck0, j) == deck
      modifies this`deck, p`hand, p`homeCity
      ensures CountColor(cities, old(deck), CityColor[j % 3]) > 0
      ensures var r := Rotated(cities, old(deck), CityColor[j % 3]); card == r[0] && deck == r[1..]
      ensures HandCards(cities, deck0, j + 1) == mine + [card] && DeckLeft(cities, deck0, j + 1) == deck
      ensures p.hand == old(p.hand) + [card]
      ensures p.homeCity == if old(p.homeCity).None? then Some(card) else old(p.homeCity)
    {
      var col := CityColor[j % 3];
      HandCardsDealt(cities, deck0, j);
      ColorAvailable(cities, deck0, deck, mine, j);
      RotateToColor(col);
      card := deck[0];
      deck := deck[1..];
      p.DealCity(card);
    }

    /**
     * The outer loop of dealCards: a hand for every player in turn.  Each
     * player needs three cards of every colour, so the deck must hold at
     * least 3 * |ps| of each; with fewer the rotation never ends.
     */
    method DealAll(ps: seq<Player>) returns (ghost dealt: seq<seq<nat>>)
      requires forall a, b :: 0 <= a < b < |ps| ==> ps[a] != ps[b]
      requires forall col: Color :: CountColor(cities, deck, col) >= 3 * |ps|
      modifies this`deck, (set q | q in ps)`hand, (set q | q in ps)`homeCity
      ensures dealt == HandsDealt(cities, old(deck), |ps|) && deck == DeckAfter(cities, old(deck), |ps|)
      ensures forall a :: 0 <= a < |ps| ==> ps[a].hand == old(ps[a].hand) + dealt[a]
      ensures forall a :: 0 <= a < |ps| ==>
                ps[a].homeCity == if old(ps[a].homeCity).None? then Some(dealt[a][0]) else old(ps[a].homeCity)
    {
      ghost var deck0, hands0, homes0 := deck, HandsOf(ps), HomesOf(ps);
      dealt := [];
      for i := 0 to |ps|
        invariant Dealing(ps, deck0, hands0, homes0, dealt, i)
      {
        dealt := DealNextHand(ps, ps[i], i, deck0, hands0, homes0, dealt);
      }
    }

    /**
     * The state of the outer loop of dealCards before player i: the first i
     * hands of HandsDealt have been given, and the deck is what they left.
     */
    ghost predicate Dealing(ps: seq<Player>, deck0: seq<nat>, hands0: seq<seq<nat>>, homes0: seq<Option<nat>>,
                            dealt: seq<seq<nat>>, i: nat)
      reads this, ps
    {
      && dealt == HandsDealt(cities, deck0, i) && deck == DeckAfter(cities, deck0, i)
      && HandsGiven(hands0, homes0, HandsOf(ps), HomesOf(ps), dealt, i)
    }

    /** The body of the outer loop of dealCards: the hand of player i. */
    method DealNextHand(ps: seq<Player>, p: Player, i: nat, ghost deck0: seq<nat>, ghost hands0: seq<seq<nat>>,
                        ghost homes0: seq<Option<nat>>, ghost dealt: seq<seq<nat>>) returns (ghost dealt': seq<seq<nat>>)
      requires forall a, b :: 0 <= a < b < |ps| ==> ps[a] != ps[b]
      requires i < |ps| && p == ps[i] && forall col: Color :: CountColor(cities, deck0, col) >= 3 * |ps|
      requires Dealing(ps, deck0, hands0, homes0, dealt, i)
      modifies this`deck, p`hand, p`homeCity
      ensures Dealing(ps, deck0, hands0, homes0, dealt', i + 1)
    {
      ghost var hands, homes := HandsOf(ps), HomesOf(ps);
      NextHandAvailable(cities, deck0, |ps|, i);
      ghost var mine := DealHandTo(ps, p, i);
      HandsDealtNext(cities, deck0, i, mine, deck);
      HandsGivenStep(hands0, homes0, hands, homes, dealt, mine, i);
      dealt' := dealt + [mine];
    }

    /** Player i of the list is dealt a hand as DealHand says; no other player of the list changes. */
    method DealHandTo(ps: seq<Player>, p: Player, i: nat) returns (ghost mine: seq<nat>)
      requires forall a, b :: 0 <= a < b < |ps| ==> ps[a] != ps[b]
      requires i < |ps| && p == ps[i] && forall col: Color :: CountColor(cities, deck, col) >= 3
      modifies this`deck, p`hand, p`homeCity
      ensures mine == HandCards(cities, old(deck), HandSize) && deck == DeckLeft(cities, old(deck), HandSize)
      ensures HandsOf(ps) == old(HandsOf(ps))[i := old(HandsOf(ps))[i] + mine]
      ensures HomesOf(ps) == old(HomesOf(ps))[i := if old(HomesOf(ps))[i].None? then Some(mine[0]) else old(HomesOf(ps))[i]]
    {
      ghost var hands, homes := HandsOf(ps), HomesOf(ps);
      mine := DealHand(p);
      assert HandsOf(ps) == hands[i := hands[i] + mine];
      assert HomesOf(ps) == homes[i := if homes[i].None? then Some(mine[0]) else homes[i]];
    }

    /**
     * dealCards: shuffles, then deals HandSize cards to every player, card j
     * of a hand of colour red, green, yellow in turn; the first card dealt to
     * a player without a home city becomes it.
     */
    method DealCards(rounds: seq<seq<nat>>) returns (ghost dealt: seq<seq<nat>>)
      requires Valid()
      requires |rounds| == ShuffleTimes && SwapsFit(rounds, |deck|)
      requires forall col: Color :: CountColor(cities, deck, col) >= 3 * |players|
      modifies this`deck, (set q | q in players)`hand, (set q | q in players)`homeCity
      ensures var d := Shuffled(old(deck), rounds);
              dealt == HandsDealt(cities, d, |players|) && deck == DeckAfter(cities, d, |players|)
      ensures multiset(old(deck)) == multiset(deck) + multiset(Flatten(dealt))
      ensures forall a :: 0 <= a < |players| ==> players[a].hand == old(players[a].hand) + dealt[a]
      ensures forall a :: 0 <= a < |players| ==>
                players[a].homeCity == if old(players[a].homeCity).None? then Some(dealt[a][0]) else old(players[a].homeCity)
    {
      ghost var deck0 := deck;
      Shuffle(rounds);
      ShuffledColors(cities, deck0, rounds);
      assert forall col: Color :: CountColor(cities, deck, col) >= 3 * |players|;
      dealt := DealAll(players);
      DealtCardsKept(cities, deck0, rounds, |players|);
    }

    /**
     * startGame: the turn counter back to 0, the game playing, the cards
     * dealt.  The deal neither reads nor writes the turn counter or the
     * state, so the model deals first and then sets the two fields.
     */
    method StartGame(rounds: seq<seq<nat>>) returns (ghost dealt: seq<seq<nat>>)
      requires Valid() && currentPlayer == null
      requires |rounds| == ShuffleTimes && SwapsFit(rounds, |deck|)
      requires forall col: Color :: CountColor(cities, deck, col) >= 3 * |players|
      modifies this`deck, this`currentTurn, this`state, (set q | q in players)`hand, (set q | q in players)`homeCity
      ensures currentTurn == 0 && state == Playing && Valid()
      ensures var d := Shuffled(old(deck), rounds);
              dealt == HandsDealt(cities, d, |players|) && deck == DeckAfter(cities, d, |players|)
      ensures multiset(old(deck)) == multiset(deck) + multiset(Flatten(dealt))
      ensures forall a :: 0 <= a < |players| ==> players[a].hand == old(players[a].hand) + dealt[a]
      ensures forall a :: 0 <= a < |players| ==>
                players[a].homeCity == if old(players[a].homeCity).None? then Some(dealt[a][0]) else old(players[a].homeCity)
    {
      dealt := DealCards(rounds);
      Begin();
    }

    /** The first two steps of startGame: the turn counter back to 0 and the game playing. */
    method Begin()
      requires Valid() && currentPlayer == null
      modifies this`currentTurn, this`state
      ensures currentTurn == 0 && state == Playing && Valid()
    {
      currentTurn := 0;
      state := Playing;
    }

    /**
     * getNextPlayer: a player with points left keeps the turn; otherwise the
     * turn passes on and the die is cleared, and every player met with
     * negative points gains one point and is skipped.  Each skip pays one
     * point of the total deficit, so the loop ends.
     */
    method GetNextPlayer() returns (p: Player)
      requires Valid() && currentPlayer != null
      modifies this`currentTurn, this`currentPlayer, this`dieRolled, (set q | q in players)`movePoints
      ensures Valid() && p == currentPlayer && p.movePoints >= 0
      ensures var r := NextTurn(old(PointsOf(players)), old(currentTurn));
        currentTurn == r.0 && PointsOf(players) == r.1
      ensures old(currentPlayer.movePoints) > 0 ==>
                currentTurn == old(currentTurn) && p == old(currentPlayer) && dieRolled == old(dieRolled) &&
                PointsOf(players) == old(PointsOf(players))
      ensures old(currentPlayer.movePoints) <= 0 ==> currentTurn > old(currentTurn) && !dieRolled
      ensures SkipsOnly(old(PointsOf(players)), PointsOf(players))
      ensures old(currentPlayer.movePoints) <= 0 ==>
                Deficit(old(PointsOf(players))) - Deficit(PointsOf(players)) == currentTurn - old(currentTurn) - 1
    {
      ghost var xs, t0 := PointsOf(players), currentTurn;
      PassIfSpent();
      assert PointsOf(players) == xs;
      NextTurnSkips(xs, t0, currentTurn);
      SkipNegative();
      p := currentPlayer;
    }

    /** The first step of getNextPlayer: a player with no points left passes the turn, and the die is cleared. */
    method PassIfSpent()
      requires Valid() && currentPlayer != null
      modifies this`currentTurn, this`currentPlayer, this`dieRolled
      ensures Valid() && currentPlayer != null
      ensures old(currentPlayer.movePoints) > 0 ==>
                currentTurn == old(currentTurn) && currentPlayer == old(currentPlayer) && dieRolled == old(dieRolled)
      ensures old(currentPlayer.movePoints) <= 0 ==> currentTurn == old(currentTurn) + 1 && !dieRolled
    {
      if currentPlayer.movePoints <= 0 {
        PassTurn();
        dieRolled := false;
      }
    }

    /**
     * The skipping loop of getNextPlayer: while the current player has
     * negative points it gains one and the turn passes on.  Each skip pays
     * one point of the total deficit, so the loop ends.
     */
    method SkipNegative()
      requires Valid() && currentPlayer != null
      modifies this`currentTurn, this`currentPlayer, (set q | q in players)`movePoints
      ensures Valid() && currentPlayer != null && currentPlayer.movePoints >= 0
      ensures var r := Skip(old(PointsOf(players)), old(currentTurn));
        currentTurn == r.0 && PointsOf(players) == r.1
    {
      ghost var xs: seq<int>, tt: nat := PointsOf(players), currentTurn;
      ghost var seat := tt % |xs|;
      ghost var stop, points := SkipFrom(xs, tt, seat).0, SkipFrom(xs, tt, seat).1;
      while currentPlayer.movePoints < 0
        invariant Valid() && currentPlayer != null && xs == PointsOf(players) && tt == currentTurn
        invariant seat == tt % |xs|
        invariant SkipFrom(xs, tt, seat).0 == stop && SkipFrom(xs, tt, seat).1 == points
        decreases Deficit(xs)
      {
        xs, tt, seat := SkipStep(xs, tt, seat, stop, points);
      }
    }

    /** One round of the skipping loop, on the ghost copy xs of the points, the turn tt and its seat. */
    method SkipStep(ghost xs: seq<int>, ghost tt: nat, ghost seat: nat, ghost stop: nat, ghost points: seq<int>)
      returns (ghost xs': seq<int>, ghost tt': nat, ghost seat': nat)
      requires Valid() && currentPlayer != null && xs == PointsOf(players) && tt == currentTurn
      requires seat == tt % |xs| && currentPlayer.movePoints < 0
      requires SkipFrom(xs, tt, seat).0 == stop && SkipFrom(xs, tt, seat).1 == points
      modifies this`currentTurn, this`currentPlayer, (set q | q in players)`movePoints
      ensures Valid() && currentPlayer != null && xs' == PointsOf(players) && tt' == currentTurn
      ensures seat' == tt' % |xs'|
      ensures SkipFrom(xs', tt', seat').0 == stop && SkipFrom(xs', tt', seat').1 == points
      ensures Deficit(xs') < Deficit(xs)
    {
      SkipTurn();
      xs' := xs[seat := xs[seat] + 1];
      SkipFromOnce(xs, tt, seat, xs');
      NextSeatMod(tt, |xs|);
      tt', seat' := tt + 1, NextSeat(seat, |xs|);
    }

    /** The turn counter moves on and the player it points at plays. */
    method PassTurn()
      requires Valid()
      modifies this`currentTurn, this`currentPlayer
      ensures Valid() && currentTurn == old(currentTurn) + 1 && currentPlayer != null
    {
      currentTurn := currentTurn + 1;
      currentPlayer := players[currentTurn % |players|];
    }

    /**
     * The body of the skipping loop: the current player, whose points are
     * negative, gains one point and the turn passes on; no one else changes.
     */
    method SkipTurn()
      requires Valid() && currentPlayer != null && currentPlayer.movePoints < 0
      modifies this`currentTurn, this`currentPlayer, (set q | q in players)`movePoints
      ensures Valid() && currentTurn == old(currentTurn) + 1 && currentPlayer != null
      ensures var before, k := old(PointsOf(players)), old(currentTurn) % |players|;
                before[k] < 0 && PointsOf(players) == before[k := before[k] + 1]
    {
      ghost var before := PointsOf(players);
      ghost var k := currentTurn % |players|;
      var q := currentPlayer;
      q.AddPoints(1);
      ghost var after := PointsOf(players);
      forall i | 0 <= i < |players|
        ensures after[i] == before[k := before[k] + 1][i]
      {
        if i != k {
          assert players[i] != q;
        }
      }
      assert after == before[k := before[k] + 1];
      PassTurn();
      assert PointsOf(players) == after;
    }

    /**
     * endGame: the winner is recorded and the game is over; announcing the
     * winner dereferences it, so a null winner ends in an exception.
     */
    method EndGame(w: Player?) returns (crashed: bool)
      modifies this`winner, this`state
      ensures winner == w && state == Over
      ensures crashed <==> w == null
    {
      winner := w;
      state := Over;
      crashed := w == null;
    }

    /** The name recorded for a city, or "N/a" for a null city. */
    function CityName(c: Option<nat>): (s: string)
      requires c.Some? ==> c.value < |cities|
      ensures c.None? ==> s == "N/a"
      ensures c.Some? ==> s == cities[c.value].name
    {
      if c.None? then "N/a" else cities[c.value].name
    }

    /** addTurn: one line at the end of the history, numbered with the turn counter. */
    method AddTurn(p: Player?, from: Option<nat>, to: Option<nat>, description: string)
      requires (from.Some? ==> from.value < |cities|) && (to.Some? ==> to.value < |cities|)
      modifies this`turns
      ensures turns == old(turns) + [Turn(currentTurn, PlayerName(p), CityName(from), CityName(to), description)]
    {
      turns := turns + [Turn(currentTurn, PlayerName(p), CityName(from), CityName(to), description)];
    }

    /** Some player stands on city c. */
    predicate Occupied(c: nat)
      reads this, set q | q in players
    {
      exists k :: 0 <= k < |players| && players[k].currentCity == Some(c)
    }

    /**
     * CityNode.getOccupingPlayer: the first player, in playing order, standing
     * on city c, or null when there is none.
     */
    method OccupyingPlayer(c: nat) returns (p: Player?)
      ensures p == null <==> !Occupied(c)
      ensures p != null ==> exists k :: 0 <= k < |players| && players[k] == p && p.currentCity == Some(c) &&
                                        forall j :: 0 <= j < k ==> players[j].currentCity != Some(c)
    {
      for k := 0 to |players|
        invariant forall j :: 0 <= j < k ==> players[j].currentCity != Some(c)
      {
        if players[k].currentCity == Some(c) {
          return players[k];
        }
      }
      return null;
    }
  }
}

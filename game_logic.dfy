/**
 * Game state (game_logic.py): a player's hand and discard pile, the
 * single-player game and the four-seat game with its mountain and the
 * index of the seat to move.
 */
module GameLogic {
  import opened Wrappers
  import opened Tiles

  datatype PlayerType = Human | Cpu

  /** The resting hand size; a hand above it may discard. */
  const HandSize: int := 13

  const SeatCount: int := 4

  /** `tile.is_in_hand = True`. */
  function MarkInHand(t: Tile): Tile
  {
    t.(isInHand := true)
  }

  /** `tile.is_in_hand = False; tile.is_discarded = True`. */
  function MarkDiscarded(t: Tile): Tile
  {
    t.(isInHand := false, isDiscarded := true)
  }

  function Last(s: seq<Tile>): Tile
    requires s != []
  {
    s[|s| - 1]
  }

  function DropLast(s: seq<Tile>): seq<Tile>
    requires s != []
  {
    s[..|s| - 1]
  }

  /** `list.pop(i)` leaves the list without position i. */
  function RemoveAt(s: seq<Tile>, i: int): (r: seq<Tile>)
    requires 0 <= i < |s|
    ensures |r| == |s| - 1
    ensures forall k :: 0 <= k < i ==> r[k] == s[k]
    ensures forall k :: i <= k < |r| ==> r[k] == s[k + 1]
  {
    s[..i] + s[i + 1..]
  }

  /**
   * The position `list.remove(t)` removes: the first element equal to t, or
   * -1 when `t in list` is false.
   */
  function IndexOf(s: seq<Tile>, t: Tile): (k: int)
    ensures -1 <= k < |s|
    ensures k >= 0 ==> SameTile(s[k], t) && forall j :: 0 <= j < k ==> !SameTile(s[j], t)
    ensures k == -1 <==> forall j :: 0 <= j < |s| ==> !SameTile(s[j], t)
  {
    if s == [] then -1
    else if SameTile(s[0], t) then 0
    else
      var k := IndexOf(s[1..], t);
      if k < 0 then -1 else k + 1
  }

  function NextSeat(c: int): int
  {
    (c + 1) % SeatCount
  }

  /** `next_turn` moves 0 to 1, 1 to 2, 2 to 3 and 3 back to 0, and four turns are the identity. */
  lemma NextSeatCycle(c: int)
    requires 0 <= c < SeatCount
    ensures 0 <= NextSeat(c) < SeatCount
    ensures NextSeat(c) == if c == 3 then 0 else c + 1
    ensures NextSeat(NextSeat(NextSeat(NextSeat(c)))) == c
  {
  }

  // ---------------------------------------------------------------------
  // Face counts: the bookkeeping behind conservation of tiles
  // ---------------------------------------------------------------------

  lemma CountAppend(s: seq<Tile>, t: Tile, f: Face)
    ensures Count(s + [t], f) == Count(s, f) + One(t, f)
  {
    assert (s + [t])[..|s|] == s;
  }

  lemma CountPop(s: seq<Tile>, f: Face)
    requires s != []
    ensures Count(s, f) == Count(DropLast(s), f) + One(Last(s), f)
  {
  }

  /** How many tiles of a hand and a discard pile together show face f. */
  function HeldCount(hand: seq<Tile>, discarded: seq<Tile>, f: Face): nat
  {
    Count(hand, f) + Count(discarded, f)
  }

  /** Moving position i of a hand to the end of a discard pile, as an equal tile, keeps every face count of the two together. */
  lemma MoveKeepsCount(hand: seq<Tile>, discarded: seq<Tile>, i: int, moved: Tile, f: Face)
    requires 0 <= i < |hand| && SameTile(moved, hand[i])
    ensures HeldCount(RemoveAt(hand, i), discarded + [MarkDiscarded(moved)], f) == HeldCount(hand, discarded, f)
  {
    CountWithout(hand, i, f);
    CountAppend(discarded, MarkDiscarded(moved), f);
  }

  /**
   * The first n tiles seat q receives when 13 rounds are dealt round-robin
   * from the end of `deck`.
   */
  function DealtTo(deck: seq<Tile>, q: int, n: nat): (r: seq<Tile>)
    requires 0 <= q < SeatCount && 4 * n <= |deck|
    ensures |r| == n
  {
    if n == 0 then [] else DealtTo(deck, q, n - 1) + [MarkInHand(deck[|deck| - 1 - (4 * (n - 1) + q)])]
  }

  /** In round k seat q receives the (4k+q)-th tile counted from the end of the deck, marked as in hand. */
  lemma {:induction false} DealtToAt(deck: seq<Tile>, q: int, n: nat, k: int)
    requires 0 <= q < SeatCount && 4 * n <= |deck| && 0 <= k < n
    ensures DealtTo(deck, q, n)[k] == MarkInHand(deck[|deck| - 1 - (4 * k + q)])
  {
    if k < n - 1 {
      DealtToAt(deck, q, n - 1, k);
    }
  }

  /** How many tiles showing face f the four hands hold after r rounds of dealing from the end of `deck`. */
  function DealtCount(deck: seq<Tile>, r: nat, f: Face): nat
    requires 4 * r <= |deck|
  {
    Count(DealtTo(deck, 0, r), f) + Count(DealtTo(deck, 1, r), f)
      + Count(DealtTo(deck, 2, r), f) + Count(DealtTo(deck, 3, r), f)
  }

  /** Dealing r rounds moves exactly the last 4r tiles of the deck into the hands, face by face. */
  lemma {:induction false} DealSplitsCount(deck: seq<Tile>, r: nat, f: Face)
    requires 4 * r <= |deck|
    ensures Count(deck, f) == Count(deck[..|deck| - 4 * r], f) + DealtCount(deck, r, f)
  {
    if r == 0 {
      assert deck[..|deck|] == deck;
    } else {
      DealSplitsCount(deck, r - 1, f);
      var n := |deck| - 4 * r;
      assert n + 4 == |deck| - 4 * (r - 1);
      PrefixPopFour(deck, n, f);
      DealtCountStep(deck, r, f);
    }
  }

  /** How many of the four tiles at positions n..n+3 show face f. */
  function FourAt(deck: seq<Tile>, n: int, f: Face): nat
    requires 0 <= n && n + 4 <= |deck|
  {
    One(deck[n], f) + One(deck[n + 1], f) + One(deck[n + 2], f) + One(deck[n + 3], f)
  }

  lemma PrefixPopFour(deck: seq<Tile>, n: int, f: Face)
    requires 0 <= n && n + 4 <= |deck|
    ensures Count(deck[..n + 4], f) == Count(deck[..n], f) + FourAt(deck, n, f)
  {
    PrefixPop(deck, n + 4, f);
    PrefixPop(deck, n + 3, f);
    PrefixPop(deck, n + 2, f);
    PrefixPop(deck, n + 1, f);
  }

  /** Round r adds to the four hands exactly the four tiles below the last 4(r-1). */
  lemma DealtCountStep(deck: seq<Tile>, r: nat, f: Face)
    requires 0 < r && 4 * r <= |deck|
    ensures DealtCount(deck, r, f) == DealtCount(deck, r - 1, f) + FourAt(deck, |deck| - 4 * r, f)
  {
    DealStep(deck, 0, r, f);
    DealStep(deck, 1, r, f);
    DealStep(deck, 2, r, f);
    DealStep(deck, 3, r, f);
  }

  /** Round r gives seat q the (4(r-1)+q)-th tile from the end of the deck. */
  lemma DealStep(deck: seq<Tile>, q: int, r: nat, f: Face)
    requires 0 <= q < SeatCount && 0 < r && 4 * r <= |deck|
    ensures Count(DealtTo(deck, q, r), f) == Count(DealtTo(deck, q, r - 1), f) + One(deck[|deck| - 4 * r + 3 - q], f)
  {
    var k := |deck| - 4 * r + 3 - q;
    assert k == |deck| - 1 - (4 * (r - 1) + q);
    assert DealtTo(deck, q, r) == DealtTo(deck, q, r - 1) + [MarkInHand(deck[k])];
    CountAppend(DealtTo(deck, q, r - 1), MarkInHand(deck[k]), f);
  }

  lemma PrefixPop(s: seq<Tile>, k: int, f: Face)
    requires 0 < k <= |s|
    ensures Count(s[..k], f) == Count(s[..k - 1], f) + One(s[k - 1], f)
  {
    assert s[..k][..k - 1] == s[..k - 1];
  }

  /** After thirteen rounds, position r of seat q's hand is the (4r+q)-th tile from the end of the deck. */
  lemma DealtFormula(deck: seq<Tile>)
    requires |deck| == 136
    ensures forall q, r :: 0 <= q < SeatCount && 0 <= r < HandSize ==>
      DealtTo(deck, q, HandSize)[r] == MarkInHand(deck[135 - (4 * r + q)])
  {
    forall q, r | 0 <= q < SeatCount && 0 <= r < HandSize
      ensures DealtTo(deck, q, HandSize)[r] == MarkInHand(deck[135 - (4 * r + q)])
    {
      DealtToAt(deck, q, HandSize, r);
    }
  }

  // ---------------------------------------------------------------------
  // Player
  // ---------------------------------------------------------------------

  class Player {
    const playerId: int
    const playerType: PlayerType
    const name: string
    var hand: seq<Tile>
    var discarded: seq<Tile>

    constructor (playerId: int, playerType: PlayerType, name: string)
      ensures this.playerId == playerId && this.playerType == playerType && this.name == name
      ensures hand == [] && discarded == []
    {
      this.playerId := playerId;
      this.playerType := playerType;
      this.name := name;
      hand := [];
      discarded := [];
    }

    /** How many tiles showing face f this seat holds, in hand or discarded. */
    function Held(f: Face): nat
      reads this
    {
      HeldCount(hand, discarded, f)
    }

    method AddTileToHand(t: Tile)
      modifies this
      ensures hand == old(hand) + [MarkInHand(t)]
      ensures discarded == old(discarded)
      ensures |old(hand)| >= HandSize ==> CanDiscard()
      ensures forall f :: Held(f) == old(Held(f)) + One(t, f)
    {
      hand := hand + [MarkInHand(t)];
      forall f
        ensures Held(f) == old(Held(f)) + One(t, f)
      {
        CountAppend(old(hand), MarkInHand(t), f);
      }
    }

    method DiscardTile(i: int) returns (r: Option<Tile>)
      modifies this
      ensures 0 <= i < old(|hand|) ==>
        && r == Some(MarkDiscarded(old(hand)[i]))
        && hand == RemoveAt(old(hand), i)
        && discarded == old(discarded) + [r.value]
      ensures !(0 <= i < old(|hand|)) ==>
        r == None && hand == old(hand) && discarded == old(discarded)
      ensures |old(hand)| == HandSize + 1 && r.Some? ==> !CanDiscard()
      ensures forall f :: Held(f) == old(Held(f))
    {
      if 0 <= i < |hand| {
        var t := hand[i];
        forall f
          ensures HeldCount(RemoveAt(hand, i), discarded + [MarkDiscarded(t)], f) == Held(f)
        {
          MoveKeepsCount(hand, discarded, i, t, f);
        }
        hand := RemoveAt(hand, i);
        var marked := MarkDiscarded(t);
        discarded := discarded + [marked];
        return Some(marked);
      }
      return None;
    }

    method DiscardTileByObject(t: Tile) returns (ok: bool)
      modifies this
      ensures ok <==> exists j :: 0 <= j < old(|hand|) && SameTile(old(hand)[j], t)
      ensures ok ==>
        && hand == RemoveAt(old(hand), IndexOf(old(hand), t))
        && discarded == old(discarded) + [MarkDiscarded(t)]
      ensures !ok ==> hand == old(hand) && discarded == old(discarded)
      ensures forall f :: Held(f) == old(Held(f))
    {
      var k := IndexOf(hand, t);
      if k >= 0 {
        SameTileIsEquivalence(t, hand[k], t);
        forall f
          ensures HeldCount(RemoveAt(hand, k), discarded + [MarkDiscarded(t)], f) == Held(f)
        {
          MoveKeepsCount(hand, discarded, k, t, f);
        }
        hand := RemoveAt(hand, k);
        discarded := discarded + [MarkDiscarded(t)];
        return true;
      }
      return false;
    }

    predicate CanDiscard()
      reads this
    {
      |hand| > HandSize
    }
  }

  // ---------------------------------------------------------------------
  // Single-player game
  // ---------------------------------------------------------------------

  class GameState {
    var mountain: seq<Tile>
    var hand: seq<Tile>
    var discarded: seq<Tile>

    /** How many tiles showing face f the game holds: mountain, hand and discards. */
    function Pool(f: Face): nat
      reads this
    {
      Count(mountain, f) + HeldCount(hand, discarded, f)
    }

    constructor (shuffled: seq<Tile>)
      requires IsShuffledDeck(shuffled)
      ensures |hand| == HandSize && discarded == [] && |mountain| == 123
      ensures mountain == shuffled[..123]
      ensures forall k :: 0 <= k < HandSize ==> hand[k] == MarkInHand(shuffled[135 - k])
      ensures CanDraw() && !CanDiscard()
      ensures forall f :: Pool(f) == DeckCopies(f)
    {
      mountain, hand, discarded := [], [], [];
      new;
      ResetGame(shuffled);
    }

    /** Deals 13 tiles from the end of the shuffled deck. */
    method ResetGame(shuffled: seq<Tile>)
      requires IsShuffledDeck(shuffled)
      modifies this
      ensures |shuffled| == 136
      ensures mountain == shuffled[..123]
      ensures |hand| == HandSize
      ensures forall k :: 0 <= k < HandSize ==> hand[k] == MarkInHand(shuffled[135 - k])
      ensures discarded == []
      ensures forall f :: Pool(f) == Count(shuffled, f) == DeckCopies(f)
    {
      mountain := shuffled;
      hand := [];
      discarded := [];
      assert shuffled[..136] == shuffled;
      for r := 0 to HandSize
        invariant mountain == shuffled[..136 - r]
        invariant |hand| == r
        invariant forall k :: 0 <= k < r ==> hand[k] == MarkInHand(shuffled[135 - k])
        invariant discarded == []
        invariant forall f :: Pool(f) == Count(shuffled, f)
      {
        if mountain != [] {
          var t := Last(mountain);
          forall f
            ensures Count(DropLast(mountain), f) + HeldCount(hand + [MarkInHand(t)], discarded, f) == Count(shuffled, f)
          {
            CountPop(mountain, f);
            CountAppend(hand, MarkInHand(t), f);
          }
          assert DropLast(mountain) == shuffled[..136 - r - 1];
          hand := hand + [MarkInHand(t)];
          mountain := DropLast(mountain);
        }
      }
    }

    method DrawTile() returns (r: Option<Tile>)
      modifies this
      ensures old(mountain) == [] ==>
        r == None && mountain == old(mountain) && hand == old(hand)
      ensures old(mountain) != [] ==>
        && r == Some(MarkInHand(Last(old(mountain))))
        && mountain == DropLast(old(mountain))
        && hand == old(hand) + [r.value]
      ensures r.Some? <==> old(CanDraw())
      ensures |old(hand)| == HandSize && r.Some? ==> CanDiscard()
      ensures discarded == old(discarded)
      ensures forall f :: Pool(f) == old(Pool(f))
    {
      if mountain == [] {
        return None;
      }
      var t := MarkInHand(Last(mountain));
      forall f
        ensures Count(DropLast(mountain), f) + HeldCount(hand + [t], discarded, f) == Pool(f)
      {
        CountPop(mountain, f);
        CountAppend(hand, t, f);
      }
      mountain := DropLast(mountain);
      hand := hand + [t];
      return Some(t);
    }

    method DiscardTile(i: int) returns (ok: bool)
      modifies this
      ensures ok <==> 0 <= i < old(|hand|)
      ensures ok ==>
        hand == RemoveAt(old(hand), i) && discarded == old(discarded) + [MarkDiscarded(old(hand)[i])]
      ensures !ok ==> hand == old(hand) && discarded == old(discarded)
      ensures |old(hand)| == HandSize + 1 && ok ==> !CanDiscard()
      ensures mountain == old(mountain)
      ensures forall f :: Pool(f) == old(Pool(f))
    {
      if 0 <= i < |hand| {
        var t := hand[i];
        forall f
          ensures HeldCount(RemoveAt(hand, i), discarded + [MarkDiscarded(t)], f) == HeldCount(hand, discarded, f)
        {
          MoveKeepsCount(hand, discarded, i, t, f);
        }
        hand := RemoveAt(hand, i);
        discarded := discarded + [MarkDiscarded(t)];
        return true;
      }
      return false;
    }

    method DiscardTileByObject(t: Tile) returns (ok: bool)
      modifies this
      ensures ok <==> exists j :: 0 <= j < old(|hand|) && SameTile(old(hand)[j], t)
      ensures ok ==>
        && hand == RemoveAt(old(hand), IndexOf(old(hand), t))
        && discarded == old(discarded) + [MarkDiscarded(t)]
      ensures !ok ==> hand == old(hand) && discarded == old(discarded)
      ensures mountain == old(mountain)
      ensures forall f :: Pool(f) == old(Pool(f))
    {
      var k := IndexOf(hand, t);
      if k >= 0 {
        SameTileIsEquivalence(t, hand[k], t);
        forall f
          ensures HeldCount(RemoveAt(hand, k), discarded + [MarkDiscarded(t)], f) == HeldCount(hand, discarded, f)
        {
          MoveKeepsCount(hand, discarded, k, t, f);
        }
        hand := RemoveAt(hand, k);
        discarded := discarded + [MarkDiscarded(t)];
        return true;
      }
      return false;
    }

    predicate CanDraw()
      reads this
    {
      |mountain| > 0
    }

    predicate CanDiscard()
      reads this
    {
      |hand| > HandSize
    }
  }

  // ---------------------------------------------------------------------
  // Four-seat game
  // ---------------------------------------------------------------------

  datatype PlayerInfo = PlayerInfo(
    name: string,
    handCount: nat,
    discardedCount: nat,
    isCurrent: bool,
    kind: string)

  function TypeValue(k: PlayerType): string
  {
    match k
    case Human => "human"
    case Cpu => "cpu"
  }

  class MultiPlayerGameState {
    const players: seq<Player>
    var mountain: seq<Tile>
    var currentPlayer: int
    var gameActive: bool

    /** Four distinct seats, seat i has id i, seat 0 is the human, and the turn index names a seat. */
    ghost predicate Valid()
      reads this
    {
      && |players| == SeatCount
      && players[0] != players[1] && players[0] != players[2] && players[0] != players[3]
      && players[1] != players[2] && players[1] != players[3] && players[2] != players[3]
      && players[0].playerId == 0 && players[1].playerId == 1
      && players[2].playerId == 2 && players[3].playerId == 3
      && players[0].playerType == Human && players[1].playerType == Cpu
      && players[2].playerType == Cpu && players[3].playerType == Cpu
      && 0 <= currentPlayer < SeatCount
    }

    /** How many tiles showing face f the game holds: the mountain and each seat's hand and discards. */
    function Pool(f: Face): nat
      requires |players| == SeatCount
      reads this, players
    {
      Count(mountain, f)
        + HeldCount(players[0].hand, players[0].discarded, f)
        + HeldCount(players[1].hand, players[1].discarded, f)
        + HeldCount(players[2].hand, players[2].discarded, f)
        + HeldCount(players[3].hand, players[3].discarded, f)
    }

    /** How many tiles the mountain, the hands and the discard piles hold together. */
    function TileTotal(): nat
      requires |players| == SeatCount
      reads this, players
    {
      |mountain|
        + |players[0].hand| + |players[0].discarded| + |players[1].hand| + |players[1].discarded|
        + |players[2].hand| + |players[2].discarded| + |players[3].hand| + |players[3].discarded|
    }

    /** Every seat but p holds what it held. */
    twostate predicate OthersUnchanged(p: int)
      requires |players| == SeatCount
      reads players
    {
      && (p != 0 ==> players[0].hand == old(players[0].hand) && players[0].discarded == old(players[0].discarded))
      && (p != 1 ==> players[1].hand == old(players[1].hand) && players[1].discarded == old(players[1].discarded))
      && (p != 2 ==> players[2].hand == old(players[2].hand) && players[2].discarded == old(players[2].discarded))
      && (p != 3 ==> players[3].hand == old(players[3].hand) && players[3].discarded == old(players[3].discarded))
    }

    constructor (shuffled: seq<Tile>)
      requires IsShuffledDeck(shuffled)
      ensures Valid() && fresh(players)
      ensures players[0].name == "あなた" && players[1].name == "CPU1"
      ensures players[2].name == "CPU2" && players[3].name == "CPU3"
      ensures |mountain| == 84 && currentPlayer == 0 && gameActive
      ensures mountain == shuffled[..84]
      ensures forall q :: 0 <= q < SeatCount ==> |players[q].hand| == HandSize && players[q].discarded == []
      ensures forall q :: 0 <= q < SeatCount ==> players[q].hand == DealtTo(shuffled, q, HandSize)
      ensures forall f :: Pool(f) == DeckCopies(f)
    {
      var p0 := new Player(0, Human, "あなた");
      var p1 := new Player(1, Cpu, "CPU1");
      var p2 := new Player(2, Cpu, "CPU2");
      var p3 := new Player(3, Cpu, "CPU3");
      players := [p0, p1, p2, p3];
      mountain := [];
      currentPlayer := 0;
      gameActive := false;
      new;
      ResetGame(shuffled);
    }

    /**
     * Clears every seat and deals 13 rounds: in round r seat q receives the
     * (4r+q)-th tile taken from the end of the shuffled deck.
     */
    method ResetGame(shuffled: seq<Tile>)
      requires Valid() && IsShuffledDeck(shuffled)
      modifies this, players
      ensures Valid()
      ensures |shuffled| == 136
      ensures mountain == shuffled[..84]
      ensures forall q :: 0 <= q < SeatCount ==>
        players[q].hand == DealtTo(shuffled, q, HandSize) && players[q].discarded == []
      ensures forall q :: 0 <= q < SeatCount ==> |players[q].hand| == HandSize
      ensures forall q, r :: 0 <= q < SeatCount && 0 <= r < HandSize ==>
        players[q].hand[r] == MarkInHand(shuffled[135 - (4 * r + q)])
      ensures currentPlayer == 0 && gameActive
      ensures forall f :: Pool(f) == Count(shuffled, f) == DeckCopies(f)
    {
      mountain, currentPlayer, gameActive := shuffled, 0, true;
      ClearSeats();
      DealHands(shuffled);
      DealtFormula(shuffled);
    }

    /** Empties every seat's hand and discard pile. */
    method ClearSeats()
      requires Valid()
      modifies players
      ensures Valid() && mountain == old(mountain)
      ensures forall q :: 0 <= q < SeatCount ==> players[q].hand == [] && players[q].discarded == []
    {
      for q := 0 to SeatCount
        invariant Valid() && mountain == old(mountain)
        invariant forall q' :: 0 <= q' < q ==> players[q'].hand == [] && players[q'].discarded == []
      {
        players[q].hand := [];
        players[q].discarded := [];
      }
    }

    /** After n rounds of the deal seat q holds `DealtTo(shuffled, q, n)` and has discarded nothing. */
    ghost predicate HandsDealt(shuffled: seq<Tile>, n: nat)
      requires |players| == SeatCount && 4 * n <= |shuffled|
      reads players
    {
      && players[0].hand == DealtTo(shuffled, 0, n) && players[0].discarded == []
      && players[1].hand == DealtTo(shuffled, 1, n) && players[1].discarded == []
      && players[2].hand == DealtTo(shuffled, 2, n) && players[2].discarded == []
      && players[3].hand == DealtTo(shuffled, 3, n) && players[3].discarded == []
    }

    /** Thirteen rounds of one tile to each seat in turn, from the end of the mountain. */
    method DealHands(shuffled: seq<Tile>)
      requires Valid() && |shuffled| == 136 && mountain == shuffled && HandsDealt(shuffled, 0)
      modifies this, players
      ensures forall q :: 0 <= q < SeatCount ==>
        players[q].hand == DealtTo(shuffled, q, HandSize) && players[q].discarded == []
      ensures Valid() && mountain == shuffled[..84] && HandsDealt(shuffled, HandSize)
      ensures currentPlayer == old(currentPlayer) && gameActive == old(gameActive)
      ensures forall f :: Pool(f) == Count(shuffled, f)
    {
      assert shuffled[..136] == shuffled;
      for r := 0 to HandSize
        invariant Valid() && mountain == shuffled[..136 - 4 * r] && HandsDealt(shuffled, r)
        invariant currentPlayer == old(currentPlayer) && gameActive == old(gameActive)
      {
        DealRound(shuffled, r);
      }
      forall f
        ensures Pool(f) == Count(shuffled, f)
      {
        DealSplitsCount(shuffled, HandSize, f);
      }
    }

    /** Round r of the deal: one tile from the end of the mountain to each seat, seat 0 first. */
    method DealRound(shuffled: seq<Tile>, r: nat)
      requires Valid() && |shuffled| == 136 && r < HandSize
      requires mountain == shuffled[..136 - 4 * r] && HandsDealt(shuffled, r)
      modifies this, players
      ensures Valid() && mountain == shuffled[..136 - 4 * (r + 1)] && HandsDealt(shuffled, r + 1)
      ensures currentPlayer == old(currentPlayer) && gameActive == old(gameActive)
    {
      assert PartlyDealt(shuffled, r, 0);
      for q := 0 to SeatCount
        invariant Valid() && mountain == shuffled[..136 - 4 * r - q] && PartlyDealt(shuffled, r, q)
        invariant currentPlayer == old(currentPlayer) && gameActive == old(gameActive)
      {
        DealNext(shuffled, r, q);
      }
    }

    /** Within round r, seats before q have received their tile and the others have not. */
    ghost predicate PartlyDealt(shuffled: seq<Tile>, r: nat, q: int)
      requires |players| == SeatCount && |shuffled| == 136 && r < HandSize
      reads players
    {
      && players[0].hand == DealtTo(shuffled, 0, if 0 < q then r + 1 else r) && players[0].discarded == []
      && players[1].hand == DealtTo(shuffled, 1, if 1 < q then r + 1 else r) && players[1].discarded == []
      && players[2].hand == DealtTo(shuffled, 2, if 2 < q then r + 1 else r) && players[2].discarded == []
      && players[3].hand == DealtTo(shuffled, 3, if 3 < q then r + 1 else r) && players[3].discarded == []
    }

    /** Seat q's tile of round r: the (4r+q)-th from the end of the shuffled deck. */
    method DealNext(shuffled: seq<Tile>, r: nat, q: int)
      requires Valid() && |shuffled| == 136 && r < HandSize && 0 <= q < SeatCount
      requires mountain == shuffled[..136 - 4 * r - q] && PartlyDealt(shuffled, r, q)
      modifies this, players[q]
      ensures Valid() && mountain == shuffled[..136 - 4 * r - q - 1] && PartlyDealt(shuffled, r, q + 1)
      ensures currentPlayer == old(currentPlayer) && gameActive == old(gameActive)
    {
      ghost var n := 136 - 4 * r - q;
      assert Last(shuffled[..n]) == shuffled[135 - (4 * r + q)];
      assert DropLast(shuffled[..n]) == shuffled[..n - 1];
      DealTile(q);
      assert players[q].hand == DealtTo(shuffled, q, r + 1);
    }

    /** The seat to move; it is the human's exactly at seat 0. */
    function CurrentPlayer(): (p: Player)
      requires Valid()
      reads this
      ensures p == players[currentPlayer] && p.playerId == currentPlayer
      ensures p.playerType == Human <==> currentPlayer == 0
    {
      players[currentPlayer]
    }

    /** Seat 0, the only human seat. */
    function HumanPlayer(): (p: Player)
      requires Valid()
      reads this
      ensures p == players[0] && p.playerId == 0 && p.playerType == Human
      ensures forall q :: 0 <= q < SeatCount && players[q].playerType == Human ==> q == 0
    {
      players[0]
    }

    /** One deal step: pop the mountain's last tile into seat p's hand, when the mountain is not empty. */
    method DealTile(p: int)
      requires Valid() && 0 <= p < SeatCount
      modifies this, players[p]
      ensures Valid()
      ensures old(mountain) == [] ==>
        mountain == old(mountain) && players[p].hand == old(players[p].hand)
      ensures old(mountain) != [] ==>
        && mountain == DropLast(old(mountain))
        && players[p].hand == old(players[p].hand) + [MarkInHand(Last(old(mountain)))]
      ensures players[p].discarded == old(players[p].discarded)
      ensures OthersUnchanged(p)
      ensures currentPlayer == old(currentPlayer) && gameActive == old(gameActive)
      ensures forall f :: Pool(f) == old(Pool(f))
    {
      if mountain != [] {
        var t := Last(mountain);
        ghost var m0 := mountain;
        mountain := DropLast(mountain);
        players[p].AddTileToHand(t);
        assert OthersUnchanged(p);
        forall f
          ensures Pool(f) == old(Pool(f))
        {
          CountPop(m0, f);
          CountAppend(old(players[p].hand), MarkInHand(t), f);
        }
      }
    }

    method DrawTileForPlayer(p: int) returns (r: Option<Tile>)
      requires Valid()
      modifies this, players
      ensures Valid()
      ensures (old(mountain) == [] || !(0 <= p < SeatCount)) ==>
        r == None && mountain == old(mountain) && OthersUnchanged(-1)
      ensures old(mountain) != [] && 0 <= p < SeatCount ==>
        && r == Some(MarkInHand(Last(old(mountain))))
        && mountain == DropLast(old(mountain))
        && players[p].hand == old(players[p].hand) + [r.value]
        && players[p].discarded == old(players[p].discarded)
      ensures OthersUnchanged(p)
      ensures currentPlayer == old(currentPlayer) && gameActive == old(gameActive)
      ensures forall f :: Pool(f) == old(Pool(f))
    {
      if mountain == [] || p < 0 || p >= |players| {
        return None;
      }
      r := Some(MarkInHand(Last(mountain)));
      DealTile(p);
    }

    method DrawTileCurrentPlayer() returns (r: Option<Tile>)
      requires Valid()
      modifies this, players
      ensures Valid()
      ensures old(mountain) == [] ==> r == None && mountain == old(mountain) && OthersUnchanged(-1)
      ensures old(mountain) != [] ==>
        && r == Some(MarkInHand(Last(old(mountain))))
        && mountain == DropLast(old(mountain))
        && players[currentPlayer].hand == old(players[currentPlayer].hand) + [r.value]
      ensures players[currentPlayer].discarded == old(players[currentPlayer].discarded)
      ensures OthersUnchanged(currentPlayer)
      ensures currentPlayer == old(currentPlayer) && gameActive == old(gameActive)
      ensures forall f :: Pool(f) == old(Pool(f))
    {
      r := DrawTileForPlayer(currentPlayer);
    }

    method DiscardTileForPlayer(p: int, i: int) returns (ok: bool)
      requires Valid()
      modifies players
      ensures ok <==> 0 <= p < SeatCount && 0 <= i < old(|players[p].hand|)
      ensures ok ==>
        && players[p].hand == RemoveAt(old(players[p].hand), i)
        && players[p].discarded == old(players[p].discarded) + [MarkDiscarded(old(players[p].hand)[i])]
      ensures !ok ==> OthersUnchanged(-1)
      ensures OthersUnchanged(p)
      ensures forall f :: Pool(f) == old(Pool(f))
    {
      if p < 0 || p >= |players| {
        return false;
      }
      var result := players[p].DiscardTile(i);
      assert OthersUnchanged(p);
      forall f
        ensures Pool(f) == old(Pool(f))
      {
        assert players[p].Held(f) == old(players[p].Held(f));
      }
      return result.Some?;
    }

    method DiscardTileByObjectForPlayer(p: int, t: Tile) returns (ok: bool)
      requires Valid()
      modifies players
      ensures ok <==> 0 <= p < SeatCount && exists j :: 0 <= j < old(|players[p].hand|) && SameTile(old(players[p].hand)[j], t)
      ensures ok ==>
        && players[p].hand == RemoveAt(old(players[p].hand), IndexOf(old(players[p].hand), t))
        && players[p].discarded == old(players[p].discarded) + [MarkDiscarded(t)]
      ensures !ok ==> OthersUnchanged(-1)
      ensures OthersUnchanged(p)
      ensures forall f :: Pool(f) == old(Pool(f))
    {
      if p < 0 || p >= |players| {
        return false;
      }
      ok := players[p].DiscardTileByObject(t);
      assert OthersUnchanged(p);
      forall f
        ensures Pool(f) == old(Pool(f))
      {
        assert players[p].Held(f) == old(players[p].Held(f));
      }
    }

    method NextTurn()
      requires Valid()
      modifies this
      ensures Valid()
      ensures currentPlayer == NextSeat(old(currentPlayer))
      ensures mountain == old(mountain) && gameActive == old(gameActive)
    {
      currentPlayer := (currentPlayer + 1) % SeatCount;
    }

    predicate CanDraw()
      reads this
    {
      |mountain| > 0 && gameActive
    }

    predicate IsGameOver()
      reads this
    {
      |mountain| == 0 || !gameActive
    }

    /** The snapshot `get_player_info` returns; `None` for the empty dict of a bad seat id. */
    function GetPlayerInfo(p: int): (r: Option<PlayerInfo>)
      requires Valid()
      reads this, players
      ensures r.None? <==> !(0 <= p < SeatCount)
      ensures r.Some? ==>
        && r.value.handCount == |players[p].hand|
        && r.value.discardedCount == |players[p].discarded|
        && (r.value.isCurrent <==> p == currentPlayer)
        && r.value.name == players[p].name
        && (r.value.kind == "human" <==> p == 0)
        && (r.value.kind == "cpu" <==> p != 0)
    {
      if p < 0 || p >= |players| then None
      else
        var player := players[p];
        Some(PlayerInfo(player.name, |player.hand|, |player.discarded|, p == currentPlayer, TypeValue(player.playerType)))
    }
  }

  /** A single-player game whose face counts are the deck's holds 136 tiles in all. */
  lemma SingleTotal(g: GameState)
    requires forall f :: g.Pool(f) == DeckCopies(f)
    ensures |g.mountain| + |g.hand| + |g.discarded| == 136
  {
    var all := g.mountain + g.hand + g.discarded;
    forall f
      ensures Count(all, f) == DeckCopies(f)
    {
      CountConcat(g.mountain, g.hand, f);
      CountConcat(g.mountain + g.hand, g.discarded, f);
    }
    DeckCountsFixLength(all);
  }

  /** A four-seat game whose face counts are the deck's holds 136 tiles in all. */
  lemma MultiTotal(g: MultiPlayerGameState)
    requires |g.players| == SeatCount && forall f :: g.Pool(f) == DeckCopies(f)
    ensures g.TileTotal() == 136
  {
    var p0, p1, p2, p3 := g.players[0], g.players[1], g.players[2], g.players[3];
    var a := g.mountain + p0.hand + p0.discarded;
    var b := a + p1.hand + p1.discarded;
    var c := b + p2.hand + p2.discarded;
    var all := c + p3.hand + p3.discarded;
    forall f
      ensures Count(all, f) == DeckCopies(f)
    {
      CountConcat(g.mountain, p0.hand, f);
      CountConcat(g.mountain + p0.hand, p0.discarded, f);
      CountConcat(a, p1.hand, f);
      CountConcat(a + p1.hand, p1.discarded, f);
      CountConcat(b, p2.hand, f);
      CountConcat(b + p2.hand, p2.discarded, f);
      CountConcat(c, p3.hand, f);
      CountConcat(c + p3.hand, p3.discarded, f);
    }
    DeckCountsFixLength(all);
  }

  /** `can_draw` and `is_game_over` are complements. */
  lemma CanDrawIffNotOver(g: MultiPlayerGameState)
    ensures g.CanDraw() <==> !g.IsGameOver()
  {
  }
}

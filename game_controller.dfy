/**
 * The turn controller (game_controller.py) without its thread: the CPU turn,
 * the human's guarded actions and one pass of the auto-play loop as a
 * sequential step.
 */
module GameControl {
  import opened Wrappers
  import opened Tiles
  import opened GameLogic
  import opened CpuStrategy

  /** The strategies a new controller creates: a "normal" CPU for seats 1, 2 and 3. */
  function CpuSeats(): map<int, CpuPlayer>
  {
    map[1 := CpuPlayer("normal"), 2 := CpuPlayer("normal"), 3 := CpuPlayer("normal")]
  }

  /** A CPU turn draws first exactly when the hand rests at 13 and the game can draw. */
  predicate DrawsFirst(hand: seq<Tile>, mountain: seq<Tile>, active: bool)
  {
    |hand| == HandSize && mountain != [] && active
  }

  /** The hand a CPU turn discards from: the old hand, plus the drawn tile when it drew. */
  function HandAfterDraw(hand: seq<Tile>, mountain: seq<Tile>, active: bool): seq<Tile>
  {
    if DrawsFirst(hand, mountain, active) then hand + [MarkInHand(Last(mountain))] else hand
  }

  function MountainAfterDraw(hand: seq<Tile>, mountain: seq<Tile>, active: bool): seq<Tile>
  {
    if DrawsFirst(hand, mountain, active) then DropLast(mountain) else mountain
  }

  /**
   * What `_process_cpu_turn` may do to a seat holding `hand0` and `discarded0`
   * beside `mountain0`: draw when the hand rests at 13 and the game can draw,
   * then, when the hand is above 13, discard an index the strategy may choose.
   */
  ghost predicate CpuTurnOutcome(difficulty: string,
                                 hand0: seq<Tile>, discarded0: seq<Tile>, mountain0: seq<Tile>, active: bool,
                                 hand1: seq<Tile>, discarded1: seq<Tile>, mountain1: seq<Tile>)
  {
    && mountain1 == MountainAfterDraw(hand0, mountain0, active)
    && DiscardOutcome(difficulty, HandAfterDraw(hand0, mountain0, active), discarded0, hand1, discarded1)
  }

  /** The discard half of a CPU turn: a hand above 13 loses a position the strategy may choose to the discard pile. */
  ghost predicate DiscardOutcome(difficulty: string, hand0: seq<Tile>, discarded0: seq<Tile>,
                                 hand1: seq<Tile>, discarded1: seq<Tile>)
  {
    if |hand0| > HandSize then
      exists i :: DiscardChoice(difficulty, hand0, i) && 0 <= i < |hand0|
        && hand1 == RemoveAt(hand0, i) && discarded1 == discarded0 + [MarkDiscarded(hand0[i])]
    else
      hand1 == hand0 && discarded1 == discarded0
  }

  /** The controller has a strategy for exactly the seats 1, 2 and 3, and each of them plays "normal". */
  lemma CpuSeatsAreNormal(p: int)
    ensures p in CpuSeats() <==> 1 <= p <= 3
    ensures p in CpuSeats() ==> CpuSeats()[p].difficulty == "normal"
  {
  }

  /** `should_draw` is the CPU turn's draw guard once the game is active. */
  lemma ShouldDrawIsDrawGuard(hand: seq<Tile>, mountain: seq<Tile>, active: bool)
    ensures DrawsFirst(hand, mountain, active) <==> active && ShouldDraw(hand, |mountain|)
  {
  }

  /**
   * A CPU turn on a resting hand of 13 with tiles left to draw ends with 13
   * in hand, one more discard and one tile fewer in the mountain; the discard
   * is the first honour tile whenever the hand after the draw holds one.
   */
  lemma CpuTurnFromRest(difficulty: string,
                        hand0: seq<Tile>, discarded0: seq<Tile>, mountain0: seq<Tile>,
                        hand1: seq<Tile>, discarded1: seq<Tile>, mountain1: seq<Tile>)
    requires |hand0| == HandSize && mountain0 != []
    requires CpuTurnOutcome(difficulty, hand0, discarded0, mountain0, true, hand1, discarded1, mountain1)
    ensures |hand1| == HandSize && |discarded1| == |discarded0| + 1 && |mountain1| == |mountain0| - 1
    ensures UsesStrategy(difficulty) && FirstJihai(hand0 + [MarkInHand(Last(mountain0))]) >= 0 ==>
      var h := hand0 + [MarkInHand(Last(mountain0))];
      hand1 == RemoveAt(h, FirstJihai(h)) && discarded1 == discarded0 + [MarkDiscarded(h[FirstJihai(h)])]
  {
    var h := HandAfterDraw(hand0, mountain0, true);
    assert |h| == HandSize + 1;
    var i :| DiscardChoice(difficulty, h, i) && 0 <= i < |h|
      && hand1 == RemoveAt(h, i) && discarded1 == discarded0 + [MarkDiscarded(h[i])];
  }

  /** A hand below 13, or a resting hand when nothing can be drawn, goes through a CPU turn untouched. */
  lemma CpuTurnOnShortHand(difficulty: string,
                           hand0: seq<Tile>, discarded0: seq<Tile>, mountain0: seq<Tile>, active: bool,
                           hand1: seq<Tile>, discarded1: seq<Tile>, mountain1: seq<Tile>)
    requires |hand0| < HandSize || (|hand0| == HandSize && (mountain0 == [] || !active))
    requires CpuTurnOutcome(difficulty, hand0, discarded0, mountain0, active, hand1, discarded1, mountain1)
    ensures hand1 == hand0 && discarded1 == discarded0 && mountain1 == mountain0
  {
  }

  class GameController {
    const gameState: MultiPlayerGameState
    const cpuPlayers: map<int, CpuPlayer>
    var autoPlayActive: bool
    var lastPlayerId: int

    ghost predicate Valid()
      reads this, gameState
    {
      gameState.Valid() && cpuPlayers == CpuSeats()
    }

    constructor (gameState: MultiPlayerGameState)
      requires gameState.Valid()
      ensures Valid()
      ensures this.gameState == gameState && cpuPlayers == CpuSeats()
      ensures !autoPlayActive && lastPlayerId == -1
    {
      this.gameState := gameState;
      cpuPlayers := CpuSeats();
      autoPlayActive := false;
      lastPlayerId := -1;
    }

    /** `_process_cpu_turn(p)`: draw, then discard by the seat's strategy; a seat without a strategy is left alone. */
    method ProcessCpuTurn(p: int)
      requires Valid()
      modifies gameState, gameState.players
      ensures Valid()
      ensures gameState.currentPlayer == old(gameState.currentPlayer)
      ensures gameState.gameActive == old(gameState.gameActive)
      ensures p !in cpuPlayers ==> gameState.mountain == old(gameState.mountain) && gameState.OthersUnchanged(-1)
      ensures p in cpuPlayers ==>
        && 0 <= p < SeatCount
        && CpuTurnOutcome(cpuPlayers[p].difficulty,
             old(gameState.players[p].hand), old(gameState.players[p].discarded), old(gameState.mountain),
             old(gameState.gameActive),
             gameState.players[p].hand, gameState.players[p].discarded, gameState.mountain)
      ensures gameState.OthersUnchanged(p)
      ensures forall f :: gameState.Pool(f) == old(gameState.Pool(f))
    {
      if p !in cpuPlayers {
        return;
      }
      CpuDraw(p);
      CpuDiscard(p);
    }

    /** The draw half of `_process_cpu_turn`: a resting hand of 13 draws when the game can draw. */
    method CpuDraw(p: int)
      requires Valid() && 0 <= p < SeatCount
      modifies gameState, gameState.players
      ensures Valid()
      ensures gameState.currentPlayer == old(gameState.currentPlayer)
      ensures gameState.gameActive == old(gameState.gameActive)
      ensures gameState.players[p].hand == HandAfterDraw(old(gameState.players[p].hand), old(gameState.mountain), old(gameState.gameActive))
      ensures gameState.mountain == MountainAfterDraw(old(gameState.players[p].hand), old(gameState.mountain), old(gameState.gameActive))
      ensures gameState.players[p].discarded == old(gameState.players[p].discarded)
      ensures gameState.OthersUnchanged(p)
      ensures forall f :: gameState.Pool(f) == old(gameState.Pool(f))
    {
      var player := gameState.players[p];
      if |player.hand| == HandSize && gameState.CanDraw() {
        var drawn := gameState.DrawTileForPlayer(p);
      }
    }

    /** The discard half of `_process_cpu_turn`: a hand above 13 discards the index the seat's strategy chooses. */
    method CpuDiscard(p: int)
      requires Valid() && p in cpuPlayers
      modifies gameState.players
      ensures Valid() && 0 <= p < SeatCount
      ensures DiscardOutcome(cpuPlayers[p].difficulty, old(gameState.players[p].hand), old(gameState.players[p].discarded),
        gameState.players[p].hand, gameState.players[p].discarded)
      ensures gameState.OthersUnchanged(p)
      ensures forall f :: gameState.Pool(f) == old(gameState.Pool(f))
    {
      var cpu := cpuPlayers[p];
      var player := gameState.players[p];
      if |player.hand| > HandSize {
        var index := cpu.ChooseDiscardTile(player.hand);
        if 0 <= index < |player.hand| {
          var success := gameState.DiscardTileForPlayer(p, index);
        }
      }
    }

    /** `is_human_turn`: the seat to move is the human's, seat 0. */
    function IsHumanTurn(): (r: bool)
      requires Valid()
      reads this, gameState
      ensures r <==> gameState.currentPlayer == 0
    {
      gameState.CurrentPlayer().playerType == Human
    }

    /** `can_human_discard`: the human is to move and holds more than the resting 13. */
    function CanHumanDiscard(): (r: bool)
      requires Valid()
      reads this, gameState, gameState.players
      ensures r <==> gameState.currentPlayer == 0 && |gameState.players[0].hand| > HandSize
    {
      if !IsHumanTurn() then false else gameState.HumanPlayer().CanDiscard()
    }

    /**
     * `process_human_turn`: on the human's turn, a resting hand of 13 draws
     * one tile when the game can draw; everything else is refused.
     */
    method ProcessHumanTurn() returns (ok: bool)
      requires Valid()
      modifies gameState, gameState.players
      ensures Valid()
      ensures ok <==> (old(gameState.currentPlayer) == 0 && old(|gameState.players[0].hand|) == HandSize
        && old(gameState.CanDraw()))
      ensures ok ==>
        && gameState.mountain == DropLast(old(gameState.mountain))
        && gameState.players[0].hand == old(gameState.players[0].hand) + [MarkInHand(Last(old(gameState.mountain)))]
        && gameState.players[0].discarded == old(gameState.players[0].discarded)
      ensures !ok ==> gameState.mountain == old(gameState.mountain) && gameState.OthersUnchanged(-1)
      ensures gameState.OthersUnchanged(0)
      ensures gameState.currentPlayer == old(gameState.currentPlayer)
      ensures gameState.gameActive == old(gameState.gameActive)
      ensures forall f :: gameState.Pool(f) == old(gameState.Pool(f))
    {
      if !IsHumanTurn() {
        return false;
      }
      var human := gameState.HumanPlayer();
      if |human.hand| >= 14 {
        return false;
      }
      if |human.hand| == HandSize && gameState.CanDraw() {
        var drawn := gameState.DrawTileForPlayer(0);
        return drawn.Some?;
      }
      return false;
    }

    /** `human_discard_tile(i)`: on the human's turn, discard position i and pass the turn on success. */
    method HumanDiscardTile(i: int) returns (ok: bool)
      requires Valid()
      modifies gameState, gameState.players
      ensures Valid()
      ensures ok <==> old(gameState.currentPlayer) == 0 && 0 <= i < old(|gameState.players[0].hand|)
      ensures ok ==>
        && gameState.players[0].hand == RemoveAt(old(gameState.players[0].hand), i)
        && gameState.players[0].discarded == old(gameState.players[0].discarded) + [MarkDiscarded(old(gameState.players[0].hand)[i])]
        && gameState.currentPlayer == 1
      ensures !ok ==> gameState.currentPlayer == old(gameState.currentPlayer) && gameState.OthersUnchanged(-1)
      ensures gameState.OthersUnchanged(0)
      ensures gameState.mountain == old(gameState.mountain) && gameState.gameActive == old(gameState.gameActive)
      ensures forall f :: gameState.Pool(f) == old(gameState.Pool(f))
    {
      if !IsHumanTurn() {
        return false;
      }
      ok := gameState.DiscardTileForPlayer(0, i);
      if ok {
        gameState.NextTurn();
      }
    }

    /** `human_discard_tile_by_object(t)`: on the human's turn, discard the first tile equal to t and pass the turn on success. */
    method HumanDiscardTileByObject(t: Tile) returns (ok: bool)
      requires Valid()
      modifies gameState, gameState.players
      ensures Valid()
      ensures ok <==> (old(gameState.currentPlayer) == 0
        && exists j :: 0 <= j < old(|gameState.players[0].hand|) && SameTile(old(gameState.players[0].hand)[j], t))
      ensures ok ==>
        && gameState.players[0].hand == RemoveAt(old(gameState.players[0].hand), IndexOf(old(gameState.players[0].hand), t))
        && gameState.players[0].discarded == old(gameState.players[0].discarded) + [MarkDiscarded(t)]
        && gameState.currentPlayer == 1
      ensures !ok ==> gameState.currentPlayer == old(gameState.currentPlayer) && gameState.OthersUnchanged(-1)
      ensures gameState.OthersUnchanged(0)
      ensures gameState.mountain == old(gameState.mountain) && gameState.gameActive == old(gameState.gameActive)
      ensures forall f :: gameState.Pool(f) == old(gameState.Pool(f))
    {
      if !IsHumanTurn() {
        return false;
      }
      ok := gameState.DiscardTileByObjectForPlayer(0, t);
      if ok {
        gameState.NextTurn();
      }
    }

    /**
     * One pass of `_auto_play_loop`. It answers whether the loop condition
     * held. On the human's seat nothing moves; on a CPU seat that seat plays
     * its turn and the turn passes on.
     */
    method AutoPlayStep() returns (running: bool)
      requires Valid()
      modifies this, gameState, gameState.players
      ensures Valid() && autoPlayActive == old(autoPlayActive)
      ensures running <==> old(autoPlayActive) && !old(gameState.IsGameOver())
      ensures running ==> lastPlayerId == old(gameState.currentPlayer)
      ensures !running ==> lastPlayerId == old(lastPlayerId)
      ensures gameState.gameActive == old(gameState.gameActive)
      ensures !running || old(gameState.currentPlayer) == 0 ==>
        && gameState.currentPlayer == old(gameState.currentPlayer)
        && gameState.mountain == old(gameState.mountain)
        && gameState.OthersUnchanged(-1)
      ensures running && old(gameState.currentPlayer) != 0 ==>
        && gameState.currentPlayer == NextSeat(old(gameState.currentPlayer))
        && CpuTurnOutcome("normal",
             old(gameState.players[gameState.currentPlayer].hand),
             old(gameState.players[gameState.currentPlayer].discarded),
             old(gameState.mountain), old(gameState.gameActive),
             gameState.players[old(gameState.currentPlayer)].hand,
             gameState.players[old(gameState.currentPlayer)].discarded,
             gameState.mountain)
        && gameState.OthersUnchanged(old(gameState.currentPlayer))
      ensures forall f :: gameState.Pool(f) == old(gameState.Pool(f))
    {
      if !autoPlayActive || gameState.IsGameOver() {
        return false;
      }
      var current := gameState.CurrentPlayer();
      if lastPlayerId != current.playerId {
        lastPlayerId := current.playerId;
      }
      if current.playerType == Human {
        return true;
      }
      CpuSeatStep(current.playerId);
      return true;
    }

    /** The CPU branch of the loop body: seat p, which is to move, plays its turn and the turn passes on. */
    method CpuSeatStep(p: int)
      requires Valid() && gameState.currentPlayer == p && p != 0
      modifies gameState, gameState.players
      ensures Valid()
      ensures gameState.gameActive == old(gameState.gameActive)
      ensures gameState.currentPlayer == NextSeat(p)
      ensures CpuTurnOutcome("normal",
        old(gameState.players[p].hand), old(gameState.players[p].discarded), old(gameState.mountain),
        old(gameState.gameActive),
        gameState.players[p].hand, gameState.players[p].discarded, gameState.mountain)
      ensures gameState.OthersUnchanged(p)
      ensures forall f :: gameState.Pool(f) == old(gameState.Pool(f))
    {
      CpuSeatsAreNormal(p);
      ProcessCpuTurn(p);
      gameState.NextTurn();
    }
  }
}

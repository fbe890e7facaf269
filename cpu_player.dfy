/**
 * The CPU discard strategy (cpu_player.py): honour tiles first, then an
 * isolated number tile, then any tile. The random picks of the source
 * (`random.randint`, `random.choice`) are nondeterministic choices from the
 * set of indices the source can return.
 */
module CpuStrategy {
  import opened Tiles

  /** An honour tile ("jihai"). */
  predicate IsJihai(t: Tile)
  {
    t.tileType == Jihai
  }

  function Abs(x: int): nat
  {
    if x < 0 then -x else x
  }

  /** `other` is the same suit as t and one number above or below it. */
  predicate Adjacent(other: Tile, t: Tile)
  {
    other.tileType == t.tileType && Abs(other.number - t.number) == 1
  }

  /** Some tile of the hand sits next to position i. */
  predicate HasNeighbor(hand: seq<Tile>, i: int)
    requires 0 <= i < |hand|
  {
    exists j :: 0 <= j < |hand| && Adjacent(hand[j], hand[i])
  }

  /** Position i holds a number tile with no same-suit tile at number plus or minus one. */
  predicate IsIsolated(hand: seq<Tile>, i: int)
  {
    0 <= i < |hand| && !IsJihai(hand[i]) && !HasNeighbor(hand, i)
  }

  predicate StrictlyIncreasing(s: seq<int>)
  {
    forall a, b :: 0 <= a < b < |s| ==> s[a] < s[b]
  }

  /** The first honour tile of the hand, or -1 when there is none. */
  function FirstJihai(hand: seq<Tile>): (k: int)
    ensures -1 <= k < |hand|
    ensures k >= 0 ==> IsJihai(hand[k]) && forall j :: 0 <= j < k ==> !IsJihai(hand[j])
    ensures k == -1 <==> forall j :: 0 <= j < |hand| ==> !IsJihai(hand[j])
  {
    if hand == [] then -1
    else if IsJihai(hand[0]) then 0
    else
      var k := FirstJihai(hand[1..]);
      if k < 0 then -1 else k + 1
  }

  /**
   * The indices `_choose_strategic_discard` may return: the first honour
   * tile; failing that, any isolated tile; failing that, any position.
   */
  predicate StrategicChoice(hand: seq<Tile>, i: int)
  {
    if FirstJihai(hand) >= 0 then i == FirstJihai(hand)
    else if exists k :: 0 <= k < |hand| && IsIsolated(hand, k) then IsIsolated(hand, i)
    else 0 <= i < |hand|
  }

  /** "normal" and "hard" play the strategy; every other difficulty picks at random. */
  predicate UsesStrategy(difficulty: string)
  {
    difficulty == "normal" || difficulty == "hard"
  }

  /** The indices `choose_discard_tile` may return for a hand. */
  predicate DiscardChoice(difficulty: string, hand: seq<Tile>, i: int)
  {
    if hand == [] then i == -1
    else if UsesStrategy(difficulty) then StrategicChoice(hand, i)
    else 0 <= i < |hand|
  }

  /** Every strategic choice names a position of the hand. */
  lemma StrategicChoiceInRange(hand: seq<Tile>, i: int)
    requires hand != []
    ensures StrategicChoice(hand, i) ==> 0 <= i < |hand|
  {
  }

  /** `choose_discard_tile` answers -1 exactly for the empty hand, and an index of the hand otherwise. */
  lemma DiscardChoiceBounds(difficulty: string, hand: seq<Tile>, i: int)
    requires DiscardChoice(difficulty, hand, i)
    ensures i == -1 <==> hand == []
    ensures hand != [] ==> 0 <= i < |hand|
  {
  }

  /** With an honour tile in hand, "normal" and "hard" discard the first one. */
  lemma StrategyPrefersJihai(difficulty: string, hand: seq<Tile>, i: int, j: int)
    requires UsesStrategy(difficulty) && DiscardChoice(difficulty, hand, i)
    requires 0 <= j < |hand| && IsJihai(hand[j])
    ensures 0 <= i <= j && IsJihai(hand[i])
    ensures forall k :: 0 <= k < i ==> !IsJihai(hand[k])
  {
  }

  /** Without honour tiles, an isolated tile in hand means an isolated tile is discarded. */
  lemma StrategyPrefersIsolated(difficulty: string, hand: seq<Tile>, i: int, j: int)
    requires UsesStrategy(difficulty) && DiscardChoice(difficulty, hand, i)
    requires forall k :: 0 <= k < |hand| ==> !IsJihai(hand[k])
    requires IsIsolated(hand, j)
    ensures IsIsolated(hand, i)
  {
  }

  /** "hard" allows exactly what "normal" allows, and an unknown difficulty exactly what "easy" allows. */
  lemma DifficultyFallbacks(difficulty: string, hand: seq<Tile>, i: int)
    ensures DiscardChoice("hard", hand, i) <==> DiscardChoice("normal", hand, i)
    ensures difficulty != "easy" && difficulty != "normal" && difficulty != "hard" ==>
      (DiscardChoice(difficulty, hand, i) <==> DiscardChoice("easy", hand, i))
  {
  }

  /** `should_draw`: draw only from a non-empty mountain onto a resting hand of 13. */
  predicate ShouldDraw(hand: seq<Tile>, mountainCount: int)
  {
    mountainCount > 0 && |hand| == 13
  }

  /** A CPU opponent; the difficulty is fixed when it is created. */
  datatype CpuPlayer = CpuPlayer(difficulty: string)
  {
    method ChooseDiscardTile(hand: seq<Tile>) returns (i: int)
      ensures DiscardChoice(difficulty, hand, i)
      ensures i == -1 <==> hand == []
      ensures hand != [] ==> 0 <= i < |hand|
    {
      if hand == [] {
        return -1;
      }
      if difficulty == "easy" {
        i := RandomDiscard(hand);
      } else if difficulty == "normal" {
        i := StrategicDiscard(hand);
      } else if difficulty == "hard" {
        i := AdvancedDiscard(hand);
      } else {
        i := RandomDiscard(hand);
      }
    }

    /** `random.randint(0, len(hand) - 1)`: some position of the hand, which must not be empty. */
    static method RandomDiscard(hand: seq<Tile>) returns (i: int)
      requires hand != []
      ensures 0 <= i < |hand|
    {
      i :| 0 <= i < |hand|;
    }

    static method StrategicDiscard(hand: seq<Tile>) returns (i: int)
      requires hand != []
      ensures StrategicChoice(hand, i)
      ensures 0 <= i < |hand|
    {
      for k := 0 to |hand|
        invariant forall j :: 0 <= j < k ==> !IsJihai(hand[j])
      {
        if IsJihai(hand[k]) {
          return k;
        }
      }
      var isolated := FindIsolatedTiles(hand);
      if isolated != [] {
        var j :| 0 <= j < |isolated|;
        return isolated[j];
      }
      assert forall k :: 0 <= k < |hand| ==> !IsIsolated(hand, k);
      i := RandomDiscard(hand);
    }

    /** The advanced strategy is the strategic one. */
    static method AdvancedDiscard(hand: seq<Tile>) returns (i: int)
      requires hand != []
      ensures StrategicChoice(hand, i)
      ensures 0 <= i < |hand|
    {
      i := StrategicDiscard(hand);
    }
  }

  /**
   * `_find_isolated_tiles`: the positions of the isolated tiles, in hand
   * order.
   */
  method FindIsolatedTiles(hand: seq<Tile>) returns (isolated: seq<int>)
    ensures StrictlyIncreasing(isolated)
    ensures forall k :: 0 <= k < |isolated| ==> IsIsolated(hand, isolated[k])
    ensures forall i :: IsIsolated(hand, i) ==> i in isolated
  {
    isolated := [];
    for i := 0 to |hand|
      invariant StrictlyIncreasing(isolated)
      invariant forall k :: 0 <= k < |isolated| ==> 0 <= isolated[k] < i && IsIsolated(hand, isolated[k])
      invariant forall i' :: 0 <= i' < i && IsIsolated(hand, i') ==> i' in isolated
    {
      if IsJihai(hand[i]) {
        continue;
      }
      var hasNeighbor := false;
      for j := 0 to |hand|
        invariant !hasNeighbor ==> forall j' :: 0 <= j' < j ==> !Adjacent(hand[j'], hand[i])
      {
        if Adjacent(hand[j], hand[i]) {
          hasNeighbor := true;
          break;
        }
      }
      if !hasNeighbor {
        isolated := isolated + [i];
      }
    }
  }
}

# Donjara tile game engine in Dafny

This project models the turn-driven engine of the donjara tile game (a
simplified mahjong) and proves properties of it. The thread, the sleeps, the
logging and the GUI are not modelled.

- **Tiles and the deck** (`tile.dfy`, module `Tiles`, from `tile.py`)
  - A tile is a value with a type (MANZU, PINZU, SOUZU, JIHAI), a number, an optional image path and two flags.
  - Equality looks only at type and number.
  - `str(tile)` is the number followed by the suit's mark.
  - `create_all_tiles` builds the ordered 136-tile deck with nested loops (`CreateAllTiles`, `AppendSuit`). Those loops are proved to produce `FullDeck()`.
- **Game state** (`game_logic.dfy`, module `GameLogic`, from `game_logic.py`)
  - `Player`, `GameState` and `MultiPlayerGameState` are classes whose sequence fields are updated in place, as in the source.
  - The four-seat game deals 13 rounds round-robin from the end of the mountain. It also draws and discards for a seat and rotates the turn modulo 4.
- **CPU strategy** (`cpu_player.dfy`, module `CpuStrategy`, from `cpu_player.py`)
  - The order of preference is: the first honour tile in hand order, then an isolated number tile, then any tile.
  - `_find_isolated_tiles` keeps its nested loops with `continue` and `break`.
- **Controller** (`game_controller.dfy`, module `GameControl`, from `game_controller.py`)
  - The CPU turn (draw, then discard by strategy).
  - The human's guarded actions.
  - One pass of the auto-play loop as a sequential step.

**Conservation of tiles.** Tiles change their flags as they move, so conservation is stated face by face. A face is the pair (type, number). For every face f, `Pool(f)` counts the tiles showing f in the mountain, the hands and the discard piles. Every draw, discard, deal and CPU or human turn keeps `Pool(f)` unchanged for every f. After a reset, `Pool(f)` equals the deck's count: 4 for each valid face and 0 otherwise. The lemmas `SingleTotal` and `MultiTotal` then give the total of 136 tiles.

**Guards.** `can_discard` (game_logic.py:46-47, 109-110) and `can_draw` (game_logic.py:106-107, 182-183) are predicates used inside contracts: the constructors, draws and discards above state when they hold afterwards, and `CanDrawIffNotOver` relates the four-seat `can_draw` to `is_game_over`.

**Randomness and nondeterminism.**
- `random.shuffle` is modelled by a `shuffled` parameter that must satisfy `IsShuffledDeck`. `ShuffleIsShuffledDeck` proves that every permutation of `FullDeck()` satisfies it.
- `random.randint` and `random.choice` are nondeterministic picks (`:|`) from the index set the source can return. The strategy's contracts name that set: `StrategicChoice` and `DiscardChoice`.

**Points of the code the model keeps as written:**
- The app's docstring (app.py:5) speaks of 144 tiles, but `create_all_tiles` builds 136.
- `game_active` is set only in `__init__` (game_logic.py:122) and in `reset_game` (game_logic.py:142). Nothing clears it when the mountain empties. An empty mountain ends the game only through the mountain tests in `is_game_over` and `can_draw` (game_logic.py:182-186); `draw_tile_for_player` (game_logic.py:151) also refuses to draw from it.
- Neither `human_discard_tile` (game_controller.py:145-158) nor `human_discard_tile_by_object` (game_controller.py:160-179) checks the hand size. On the human's turn either one discards from a resting hand of 13 as well, leaving 12 tiles and passing the turn, so "every hand holds 13 or 14 tiles" is not an invariant of the controller. `HumanDiscardTile` and `HumanDiscardTileByObject` model that behaviour.

## Model

| member | source | states |
|---|---|---|
| Tiles.EqualsIffSameFace | tile.py:28-31 | `==` holds iff the other operand is a tile with the same type and number; it is false against a non-tile |
| Tiles.EqualsIgnoresHints | tile.py:28-31 | equality ignores the image path and both flags on either side |
| Tiles.SameTileIsEquivalence | tile.py:28-31 | tile equality is reflexive, symmetric and transitive |
| Tiles.MarkType | tile.py:20-25 | reading a mark back gives the suit whose mark it is, and nothing for other characters |
| Tiles.Decimal | tile.py:26 | the decimal form of a number is a non-empty digit string without a leading zero |
| Tiles.DecimalRoundTrip | tile.py:26 | reading back the decimal digits of n gives n |
| Tiles.IntToStringRoundTrip | tile.py:26 | reading back Python's `str` of any int, negative or not, gives it back |
| Tiles.ToStringRoundTrip | tile.py:19-26 | the printed form of a tile (number, then mark) determines its type and number |
| Tiles.ToStringMatchesEquality | tile.py:19-31 | two tiles print alike exactly when they are equal |
| Tiles.ToStringOneDigit | tile.py:19-26 | a one-digit tile prints as that digit followed by its suit's mark |
| Tiles.SuitRun | tile.py:52-54 | one suit block of n numbers holds 4n tiles |
| Tiles.SuitRunAt | tile.py:52-54 | position i of a suit block is a fresh tile of number i/4+1 |
| Tiles.DeckSize | tile.py:48-71 | the deck has 136 tiles |
| Tiles.DeckLayout | tile.py:48-71 | position i of the deck is MANZU, PINZU or SOUZU of number (i mod 36)/4+1 in the first three blocks of 36, else JIHAI |
| Tiles.DeckOrder | tile.py:48-71 | deck tiles are fresh and valid; the suits come in order MANZU, PINZU, SOUZU, JIHAI; numbers ascend within a suit; copies sit in aligned groups of four |
| Tiles.DeckFresh | tile.py:12-17 | every tile of the new deck has no image path and both flags cleared |
| Tiles.CountRepeat | tile.py:53-54 | four copies of a tile count four for its face and nothing for others |
| Tiles.SuitRunCount | tile.py:52-64 | a suit block counts 4 for each of its numbers and 0 for any other face |
| Tiles.DeckCounts | tile.py:52-69 | each (suit, 1..9) and (JIHAI, 1..7) occurs exactly 4 times and no other face occurs |
| Tiles.DeckCountsFixLength | tile.py:48-71 | tiles whose face counts are the deck's are exactly 136 tiles |
| Tiles.CreateAllTiles | tile.py:48-71 | the four nested-loop blocks build exactly the deck |
| Tiles.AppendSuit | tile.py:52-54 | one `for number` / `for _ in range(4)` block appends that suit's block to the list |
| Tiles.PermutedCount | game_logic.py:126-127 | shuffling keeps the count of every face |
| Tiles.PermutationKeepsDeck | game_logic.py:126-127 | a shuffled deck keeps the length, the freshness and the face counts |
| Tiles.ShuffleIsShuffledDeck | game_logic.py:126-127 | every permutation of the deck is a 136-tile fresh deck with the deck's face counts |
| GameLogic.RemoveAt | game_logic.py:24 | `pop(i)` keeps the elements before i and shifts those after it down by one |
| GameLogic.IndexOf | game_logic.py:32-33 | `remove(t)` targets the first element equal to t; -1 exactly when `t in hand` is false |
| GameLogic.NextSeatCycle | game_logic.py:176-177 | `next_turn` maps 0→1→2→3→0, stays in 0..3, and four turns are the identity |
| GameLogic.MoveKeepsCount | game_logic.py:22-38 | moving a hand position to the end of the discards, as an equal tile, keeps every face count of the seat |
| GameLogic.DealtToAt | game_logic.py:135-139 | in round k, seat q receives the (4k+q)-th tile counted from the end of the deck |
| GameLogic.DealtFormula | game_logic.py:135-139 | after 13 rounds, position r of seat q's hand is the (4r+q)-th tile from the end |
| GameLogic.DealSplitsCount | game_logic.py:135-139 | dealing r rounds moves exactly the last 4r tiles of the deck into the four hands, face by face |
| GameLogic.SingleTotal | game_logic.py:56-95 | a single-player game with the deck's face counts holds 136 tiles in mountain, hand and discards |
| GameLogic.MultiTotal | game_logic.py:125-174 | a four-seat game with the deck's face counts holds 136 tiles in all |
| GameLogic.CanDrawIffNotOver | game_logic.py:182-186 | `can_draw` holds exactly when `is_game_over` does not |
| GameLogic.Player.constructor | game_logic.py:11-16 | a new player has its id, type and name, and an empty hand and discard pile |
| GameLogic.Player.AddTileToHand | game_logic.py:18-20 | the hand gains the tile, marked in hand, at its end; the discards are unchanged; face counts grow by that tile; a hand of 13 or more can then discard |
| GameLogic.Player.DiscardTile | game_logic.py:22-29 | a position in range leaves the hand and goes, marked discarded, to the end of the discards and is returned; otherwise None and no change; face counts kept; a hand of 14 can no longer discard after it |
| GameLogic.Player.DiscardTileByObject | game_logic.py:31-38 | if an equal tile is in hand, the first one is removed, the argument is appended to the discards and True is returned; otherwise False and no change; face counts kept |
| GameLogic.GameState.constructor | game_logic.py:50-68 | a new single-player game is the reset game: the first 123 deck tiles form the mountain, hand position k is the (k+1)-th tile from the end, the discards are empty, the deck's face counts hold; it can draw and cannot discard |
| GameLogic.GameState.ResetGame | game_logic.py:56-68 | the hand gets the last 13 tiles of the shuffled deck, last first; 123 remain; no discards; face counts are the deck's |
| GameLogic.GameState.DrawTile | game_logic.py:70-77 | an empty mountain gives None; otherwise the last mountain tile moves to the end of the hand and is returned; a tile comes back exactly when `can_draw` held; from 13 in hand the game can then discard; face counts kept |
| GameLogic.GameState.DiscardTile | game_logic.py:79-86 | True exactly for a position in range, which moves to the end of the discards; otherwise no change; from 14 in hand `can_discard` then fails; face counts kept |
| GameLogic.GameState.DiscardTileByObject | game_logic.py:88-95 | True exactly when an equal tile is in hand; the first is removed and the argument discarded; face counts kept |
| GameLogic.MultiPlayerGameState.constructor | game_logic.py:113-142 | seats "あなた", "CPU1", "CPU2", "CPU3" with ids 0..3 (seat 0 human), then the reset game: the first 84 deck tiles form the mountain, each seat holds its round-robin share `DealtTo` of 13 with empty discards, seat 0 to move, game active, deck's face counts |
| GameLogic.MultiPlayerGameState.ResetGame | game_logic.py:125-142 | every discard pile is empty and every hand holds 13; 84 remain; round r gives seat q the (4r+q)-th tile from the end; seat 0 to move; active; face counts are the deck's |
| GameLogic.MultiPlayerGameState.ClearSeats | game_logic.py:130-132 | every hand and discard pile is emptied |
| GameLogic.MultiPlayerGameState.DealHands | game_logic.py:135-139 | 13 rounds leave each seat with its round-robin share and the first 84 tiles in the mountain, with face counts kept |
| GameLogic.MultiPlayerGameState.DealRound | game_logic.py:136-139 | one round gives each seat in order its next tile from the end of the mountain |
| GameLogic.MultiPlayerGameState.DealNext | game_logic.py:137-139 | seat q's tile of round r is the (4r+q)-th from the end of the shuffled deck |
| GameLogic.MultiPlayerGameState.DealTile | game_logic.py:137-139 | with a non-empty mountain its last tile moves, marked in hand, to the end of seat p's hand; other seats untouched; face counts kept |
| GameLogic.MultiPlayerGameState.DrawTileForPlayer | game_logic.py:150-156 | an empty mountain or a seat outside 0..3 gives None and no change; otherwise the last mountain tile goes to that seat's hand and is returned; other seats untouched; face counts kept |
| GameLogic.MultiPlayerGameState.DrawTileCurrentPlayer | game_logic.py:158-159 | the same draw for the seat to move |
| GameLogic.MultiPlayerGameState.DiscardTileForPlayer | game_logic.py:161-169 | True exactly for a seat in 0..3 and a position in range of its hand, which is discarded; otherwise no change; face counts kept |
| GameLogic.MultiPlayerGameState.DiscardTileByObjectForPlayer | game_logic.py:171-174 | True exactly for a seat in 0..3 holding an equal tile; the first such one is removed and the argument discarded; otherwise no change; face counts kept |
| GameLogic.MultiPlayerGameState.NextTurn | game_logic.py:176-177 | the turn moves to the next seat modulo 4; nothing else changes |
| GameLogic.MultiPlayerGameState.CurrentPlayer | game_logic.py:144-145 | the seat to move has the turn index as its id and is human exactly at seat 0 |
| GameLogic.MultiPlayerGameState.HumanPlayer | game_logic.py:147-148 | seat 0 has id 0, is human, and is the only human seat |
| GameLogic.MultiPlayerGameState.GetPlayerInfo | game_logic.py:188-199 | nothing (the empty dict) for a seat outside 0..3; otherwise the seat's name, hand and discard counts, whether it is to move, and "human" exactly for seat 0 |
| CpuStrategy.FirstJihai | cpu_player.py:33-35 | the first honour tile in hand order, -1 exactly when there is none |
| CpuStrategy.StrategicChoiceInRange | cpu_player.py:30-43 | every strategic choice is a position of the hand |
| CpuStrategy.DiscardChoiceBounds | cpu_player.py:14-28 | the choice is -1 exactly for the empty hand and a position of the hand otherwise |
| CpuStrategy.StrategyPrefersJihai | cpu_player.py:30-48 | with an honour tile in hand, "normal" and "hard" discard the first one |
| CpuStrategy.StrategyPrefersIsolated | cpu_player.py:37-40 | without honour tiles but with an isolated tile, the discard is an isolated tile |
| CpuStrategy.DifficultyFallbacks | cpu_player.py:17-24 | "hard" allows what "normal" allows; an unknown difficulty allows what "easy" allows |
| CpuStrategy.CpuPlayer.ChooseDiscardTile | cpu_player.py:9-24 | the result is allowed for the difficulty: -1 exactly for the empty hand, otherwise a position of the hand by the difficulty's rule |
| CpuStrategy.CpuPlayer.RandomDiscard | cpu_player.py:26-28 | some position of the non-empty hand |
| CpuStrategy.CpuPlayer.StrategicDiscard | cpu_player.py:30-43 | the first honour tile; failing that, a member of the isolated list; failing that, any position |
| CpuStrategy.CpuPlayer.AdvancedDiscard | cpu_player.py:45-48 | the same choices as the strategic discard |
| CpuStrategy.FindIsolatedTiles | cpu_player.py:50-73 | strictly increasing indices that are exactly the non-honour positions with no same-suit tile at number ±1 |
| GameControl.CpuSeatsAreNormal | game_controller.py:11-15 | strategies exist exactly for seats 1, 2 and 3, all "normal" |
| GameControl.ShouldDrawIsDrawGuard | cpu_player.py:75-80 | `should_draw` (mountain non-empty and 13 in hand) is the CPU turn's draw guard in an active game |
| GameControl.CpuTurnFromRest | game_controller.py:89-103 | a CPU turn on 13 tiles with something to draw ends at 13 in hand, one more discard, one tile fewer in the mountain, and discards the first honour tile when there is one |
| GameControl.CpuTurnOnShortHand | game_controller.py:89-107 | a hand below 13, or 13 with nothing to draw, is left untouched |
| GameControl.GameController.constructor | game_controller.py:8-19 | CPU strategies for seats 1..3, auto-play off, last player id -1 |
| GameControl.GameController.ProcessCpuTurn | game_controller.py:76-113 | a seat without a strategy is left alone; otherwise draw if resting at 13 and drawing is possible, then a hand above 13 discards an index the strategy allows; other seats and the turn index untouched; face counts kept |
| GameControl.GameController.CpuDraw | game_controller.py:89-94 | the draw half: seat p's hand and the mountain become their after-draw values |
| GameControl.GameController.CpuDiscard | game_controller.py:97-107 | the discard half: a hand above 13 loses an allowed position to the discards, otherwise no change |
| GameControl.GameController.IsHumanTurn | game_controller.py:181-183 | the human is to move exactly when the turn index is 0 |
| GameControl.GameController.CanHumanDiscard | game_controller.py:185-189 | true exactly when seat 0 is to move and holds more than 13 tiles |
| GameControl.GameController.ProcessHumanTurn | game_controller.py:115-143 | True exactly when seat 0 is to move, holds 13 and can draw, and then one tile is drawn to seat 0; otherwise no change; seat 0's discards and the other seats are unchanged; the turn index never changes |
| GameControl.GameController.HumanDiscardTile | game_controller.py:145-158 | True exactly on the human's turn with a position in range; then that tile is discarded and the turn goes to seat 1; otherwise no change |
| GameControl.GameController.HumanDiscardTileByObject | game_controller.py:160-179 | True exactly on the human's turn with an equal tile in hand; then it is discarded and the turn goes to seat 1; otherwise no change |
| GameControl.GameController.AutoPlayStep | game_controller.py:36-69 | runs exactly when auto-play is on and the game is not over; records the seat to move; on the human's seat nothing moves; on a CPU seat that seat plays its turn and the turn advances by one |
| GameControl.GameController.CpuSeatStep | game_controller.py:56-65 | the CPU branch: the seat's turn as `_process_cpu_turn` does it, then `next_turn` |

## Left out

- Threads, `time.sleep`, `start_auto_play`, `stop_auto_play` and the thread join: the auto-play loop is modelled as one sequential pass, `AutoPlayStep`.
- `update_callback`: `AutoPlayStep` treats the callback as inert. In the application the callback is `MultiPlayerMahjongGUI.update_display` (multiplayer_gui.py:179, 294). It has two effects on the game state. It makes the human's draw through `process_human_turn` (multiplayer_gui.py:278-279), which `ProcessHumanTurn` models as its own operation. It also sets `image_path` on every tile of the human's hand and of every discard pile whose face has a custom image (multiplayer_gui.py:129-134, 160-164; settings.py:39-41); the model leaves `imagePath` as the deck set it, which equality and the face counts ignore.
- All `print` and `traceback` output: these have no effect on the game state.
- The `except` blocks of the auto-play loop and `_process_cpu_turn`, including the forced `next_turn` after an error: no operation of the model raises.
- `turn_delay` and `set_turn_delay`: floating-point timing only.
- `get_game_status`: a dictionary of values the accessors already give.
- `get_hand_count`, `get_discarded_count` and `get_mountain_count`: these are plain `len(...)` and appear as `|...|` in the contracts.
- `get_image_path` and `get_default_image_path`: they depend on the file system. The image path is kept as an optional field that equality ignores.
- `gui.py`, `multiplayer_gui.py`, `settings.py` and `app.py`: presentation, settings I/O and start-up checks are not part of this model.
- Randomness:
  - `random.shuffle` becomes the `shuffled` parameter with its `IsShuffledDeck` precondition.
  - `random.randint` and `random.choice` become nondeterministic picks. Their distribution, including uniformity, is not modelled.
- Object identity and aliasing of tiles: tiles are values, so setting `is_in_hand`/`is_discarded` on a shared tile object is modelled as storing the re-flagged tile where the source stores it. `discard_tile_by_object` stores the argument with its flags updated. It leaves the removed element untouched, and no other reference to that object is tracked.
- Conservation is stated per face (type and number), not on whole tile objects. The flags change as tiles move. More than that, object-level conservation fails in the source itself: `discard_tile_by_object` (game_logic.py:31-38) removes the first equal tile from the hand but appends the argument object to the discards. When the argument is not the very object removed, the removed object leaves the game, and the argument, which may still sit in the hand or elsewhere, is now in the discards as well. Only the face counts are kept.
- The human branch of the auto-play loop (game_controller.py:48-53) calls the callback when the human holds 13 tiles and sleeps. `AutoPlayStep` changes no game state there; the human's draw that the application's callback triggers is `ProcessHumanTurn`.
- The "index out of range, no discard" branch of `_process_cpu_turn` is kept in `CpuDiscard`, but it cannot be taken: `DiscardChoiceBounds` shows every non-empty hand gets an index in range.

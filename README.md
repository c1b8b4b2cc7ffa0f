# Gungi rules engine in Dafny

This project models the rules engine of a two-player Gungi-style game on a
9×9 board whose cells hold ordered stacks of pieces (bottom first). The
model has six modules, one per part of the engine:

- `Wrappers` (`wrappers.dfy`): the `Option` type.
- `Pieces` (`pieces.dfy`): the piece catalogue of `src/Piece.js`.
  - It has the two sides, `Self` and `Opponent`, and the fourteen piece types.
  - It has the eight unit directions and the `def` helper.
  - `Definitions` gives each type's ray table as a function of its tier, the height of the stack it stands on.
- `StackBoard` (`board.dfy`): the stack board of `src/Board.js`.
  - The pure functions `Push`, `Pop` and `Clear` act on a `Grid` value.
  - The class `Board` keeps a 9×9 `array2` of stacks. Its methods update the array in place, and each is proved to match the functions through the ghost field `Cells`.
- `MoveGen` (`movegen.dfy`): move and drop generation from `src/Game.js` as pure functions, together with:
  - the exact characterisation of the move list, ray by ray and cell by cell;
  - what each tag (`move`, `attack`, `stack`, `betrayal`) requires of its cell;
  - the frontline drop rule.
- `GameRules` (`rules.dfy`): the whole game as a `State` value. Every operation of `src/Game.js` is a transition on it:
  - a move, with consecutive capture, the Marshal win and the betrayal exchange;
  - a drop during play;
  - the draft state machine;
  - the per-level setup.

  The lemmas state what each transition guarantees: frames, effects, the height cap, the draft invariant and the opening layout.
- `GameEngine` (`game.dfy`): the class `Game`, whose fields `board`, `hands`, `turn`, `phase`, `draft`, `winner` and the level configuration are updated in place.
  - Each method is written like its source function, loops included.
  - Each is proved to take the game from the state `s` to the state the matching `GameRules` transition gives for `s`.
  - So everything proved about the transitions holds of the object.

Conventions that follow the source:
- Rows grow towards `Self`, and `Self` moves towards row 0.
- A ray of the `Opponent` side is the point reflection of the catalogue entry: both the direction and the origin offset are negated. So on an empty board a piece of `Opponent` moves exactly like the same piece of `Self` turned half-way round the board (`MoveGen.MirrorMoves`).
- An unbounded range (`Infinity` in the source) is the `Unbounded` variant. The board edge stops the walk.
- The action kind for a destination that offers several comes from a `Choice` parameter:
  - `Local(answer)` is the player's answer to the prompt. It is `None` when cancelled or when the answer is not among the offered kinds.
  - `Remote(kind)` is the kind received from the peer.

Behaviour of the code that the model keeps as written:
- `tryDraftDrop` checks the row but not the column. A placement on an allowed row with an off-board column uses up the hand piece without putting it on the board (`GameRules.ApplyDraftDrop`).
- For an unknown level, `startLevel` falls back to the basic fixed opening. It keeps the previous phase, stack cap and Marshal-stacking flag (`GameRules.StartUnknownLevel`).
- The sweep of `setupFixedBoard` tests the bottom piece of each stack (`stack[0]`). On the fixed layout every stack has a single piece, so bottom and top agree (`GameRules.OpeningCell`).
- The draft set has 24 pieces.
- The Cannon's forward ray is anchored two rows ahead, so its first cell is three rows ahead.
- There is no separate finished phase. A win only sets the winner.

## Model

| member | source | states |
|---|---|---|
| Pieces.Side.Other | src/Game.js:735-736 | the other side is never the same side |
| Pieces.DirectionsAreUnit | src/Piece.js:7-41 | every direction has components in {-1, 0, 1} and is not (0, 0); the cross and diagonal sets together are exactly the eight directions, and every unit vector is one of them |
| Pieces.Def | src/Piece.js:47-49 | one definition per direction, in order, each carrying the given range, jump flag and origin offset |
| Pieces.DirsOfDef | src/Piece.js:47-49 | the directions covered by `def(dirs, …)` are exactly those of `dirs` |
| Pieces.Definitions | src/Piece.js:64-202 | every catalogue ray is a unit step, reaches `tier`, `tier + 1` or without bound, and has a non-zero origin offset exactly when it may leap; such an offset lies straight ahead, in a ray that also points ahead |
| Pieces.LeapingPieces | src/Piece.js:72-194 | exactly Cannon, Archer and Musket have a leaping ray, and exactly General and LtGeneral have an unbounded one, at every tier |
| Pieces.MarshalTable | src/Piece.js:64-69 | the Marshal moves in all eight directions at range `tier`, without leaping |
| Pieces.GeneralTable | src/Piece.js:72-80 | the General covers all eight directions: the cross ones without bound, the diagonals at `tier` |
| Pieces.LtGeneralTable | src/Piece.js:83-91 | the LtGeneral covers all eight directions: the diagonals without bound, the cross ones at `tier` |
| Pieces.MajorTable | src/Piece.js:94-100 | the Major moves up, left, right, up-left, up-right and down at `tier` |
| Pieces.SamuraiTable | src/Piece.js:103-109 | the Samurai moves up, up-left, up-right and down at `tier` |
| Pieces.LanceTable | src/Piece.js:112-120 | the Lance moves up at `tier + 1` and up-left, up-right and down at `tier` |
| Pieces.KnightTable | src/Piece.js:123-128 | the Knight moves in the four cross directions at `tier + 1` |
| Pieces.NinjaTable | src/Piece.js:131-136 | the Ninja moves in the four diagonals at `tier + 1` |
| Pieces.FortressTable | src/Piece.js:139-145 | the Fortress moves up, left, right, down-left and down-right at `tier` |
| Pieces.PawnTable | src/Piece.js:148-153 | the Pawn moves up and down at `tier` |
| Pieces.CannonTable | src/Piece.js:156-165 | the Cannon's up ray leaps from offset (-2, 0); its left, right and down rays neither leap nor have an offset; all reach `tier` |
| Pieces.ArcherTable | src/Piece.js:170-182 | the Archer's up, up-left and up-right rays leap from offset (-1, 0); its down ray does not; all reach `tier` |
| Pieces.MusketTable | src/Piece.js:185-194 | the Musket's up ray leaps from offset (-1, 0); its two down-diagonal rays do not; all reach `tier` |
| Pieces.SpyTable | src/Piece.js:197-202 | the Spy moves up-left, up-right and down at `tier` |
| StackBoard.EmptyGrid | src/Board.js:11-20 | every one of the 81 cells holds an empty stack |
| StackBoard.Push | src/Board.js:42-46 | on the board, the piece goes on top of that stack and every other cell is unchanged; off the board nothing changes |
| StackBoard.Pop | src/Board.js:55-61 | the result is the top piece, or nothing for an empty or off-board cell; the stack loses exactly its top and every other cell is unchanged |
| StackBoard.Clear | src/Board.js:64-72 | hands back the whole stack in order and leaves the cell empty; off the board it returns the empty stack and changes nothing |
| StackBoard.PushThenPop | src/Board.js:42-61 | pushing a piece and popping it again returns that piece and the original board |
| StackBoard.PopThenPush | src/Board.js:42-61 | popping a non-empty cell and pushing the piece back restores the board |
| StackBoard.Board.constructor | src/Board.js:4-9 | a fresh 9×9 board with every cell empty |
| StackBoard.Board.InitBoard | src/Board.js:11-20 | after the nested loops every cell holds an empty stack |
| StackBoard.Board.GetPiece | src/Board.js:23-31 | the last element of the cell's stack; nothing exactly when the stack is empty or the position is off the board |
| StackBoard.Board.GetStack | src/Board.js:34-39 | the cell's stack, or the empty stack off the board |
| StackBoard.Board.PushPiece | src/Board.js:42-46 | the array now holds `Push` of the previous board |
| StackBoard.Board.PlacePiece | src/Board.js:50-52 | pushes, exactly as `pushPiece` does |
| StackBoard.Board.PopPiece | src/Board.js:55-61 | returns the piece and leaves the board `Pop` describes |
| StackBoard.Board.ClearCell | src/Board.js:64-72 | returns the captured stack and leaves the board `Clear` describes |
| MoveGen.Oriented | src/Game.js:525-529 | for `Self` the definition is used as catalogued; for `Opponent` both the direction and the origin offset are negated; the range and the jump flag are kept either way, and so are unit directions |
| MoveGen.OrientedEither | src/Game.js:525-529 | the ray a piece plays is its catalogue entry or that entry's point reflection |
| MoveGen.CanStackOn | src/Game.js:552-559 | stacking is refused onto a stack at the height cap, onto a Marshal of either side, and for a moving Marshal unless the level allows Marshal stacking |
| MoveGen.CellActions | src/Game.js:542-580 | one cell yields at most three actions (`attack`, `stack`, `betrayal`); which ones is stated by `CellActionsTags` |
| MoveGen.CellActionsTags | src/Game.js:546-580 | at one cell: `move` exactly when it is empty; `attack` exactly on an opposing top with the target no taller than the mover; `stack` exactly where stacking is allowed, onto an own top or a target no taller than the mover; `betrayal` exactly alongside `attack` and `stack`, by a Spy at the intermediate level whose hand holds a piece named like the top; no duplicates |
| MoveGen.Passable | src/Game.js:582-588 | a ray only continues past a cell on the board; an occupied cell stops it unless the ray leaps and the stack there is lower than the mover's |
| MoveGen.Ray | src/Game.js:538-591 | the walk of one ray emits at most three actions for each cell left before the board edge |
| MoveGen.RayFrom | src/Game.js:531-591 | a ray started from the first cell past its origin emits at most three actions per row of the board |
| MoveGen.DefsMoves | src/Game.js:524-592 | the rays of a list of definitions emit at most 27 actions per definition |
| MoveGen.Moves | src/Game.js:519-594 | a piece emits at most 27 actions per catalogue ray it has at its tier |
| MoveGen.DefsMovesStep | src/Game.js:524-592 | processing one more definition appends exactly its ray's actions |
| MoveGen.RaySound | src/Game.js:531-591 | everything a ray emits belongs to a cell that is within range, on the board and reached past passable cells only |
| MoveGen.RayComplete | src/Game.js:531-591 | every action of every cell the ray reaches within range is emitted |
| MoveGen.DefsMovesExact | src/Game.js:519-594 | the actions of a list of definitions are exactly those on the reached cells of its mirrored rays |
| MoveGen.DefsMovesSound | src/Game.js:524-592 | every action of a list of definitions lies on a reached cell of one of its rays, within range |
| MoveGen.DefsMovesComplete | src/Game.js:524-592 | every action on a reached cell of one of the rays is emitted |
| MoveGen.MovesExact | src/Game.js:519-594 | an action is generated if and only if it is an action of the `k`-th cell of some catalogue ray, mirrored and offset for the mover's side, with `k` in range and every earlier cell on the board and passable (empty, or lower than the mover for a leaping ray) |
| MoveGen.MovesSound | src/Game.js:519-594 | every generated coordinate is on the board, and a cell's actions are generated all together or not at all |
| MoveGen.CellTag | src/Game.js:546-580 | each action of a cell satisfies what its tag promises |
| MoveGen.MoveTagsJustified | src/Game.js:546-580 | every generated action satisfies what its tag promises, so nothing is emitted on a taller opposing stack, no stack onto a full stack or a Marshal, and no Marshal stacks unless the level allows it; every betrayal comes with the attack and the stack on its cell |
| MoveGen.AwayFromOrigin | src/Game.js:525-540 | no cell of a catalogue ray, as catalogued or point-reflected, is the piece's own cell |
| MoveGen.NoActionAtOrigin | src/Game.js:519-594 | no generated action targets the mover's own cell |
| MoveGen.MirrorOnRay | src/Game.js:525-591 | on an empty board, an action lies on the `k`-th cell of a ray from (r, c) exactly when its point reflection lies on the `k`-th cell of the reflected ray from (8 - r, 8 - c) |
| MoveGen.MirrorMoves | src/Game.js:519-594 | on an empty board, a piece of `Self` at (r, c) is offered an action exactly when the same piece of `Opponent` at (8 - r, 8 - c) is offered the point reflection of that action |
| MoveGen.DropAllowed | src/Game.js:596-640 | for a side with no piece on top anywhere, a drop is allowed exactly on the empty cells of the board |
| MoveGen.FrontlineRow | src/Game.js:599-630 | every row is open to a side with no piece on the board, and a row where the side has a piece on top is never beyond its front line |
| GameRules.Initial | src/Game.js:6-39 | a new game has an empty board and empty hands, `Self` to move, the setup phase, no winner, a fresh draft record, a cap of 2 and no Marshal stacking |
| GameRules.RemoveAt | src/Game.js:686-688 | `splice(i, 1)`: one element shorter, the same multiset less the removed piece, the order of the others kept |
| GameRules.FindName | src/Game.js:684 | `findIndex`: none exactly when no piece has the name; otherwise the first such position |
| GameRules.AtCell | src/Game.js:644 | keeps exactly the actions aimed at the given cell |
| GameRules.ValidMoves | src/Game.js:511-517 | no moves for an empty cell; every move offered is on the board and none is a drop |
| GameRules.ResolveKind | src/Game.js:648-662 | a remote kind is taken as received; locally, a single offered kind is taken, and with several kinds the answer is taken if it is offered; nothing happens exactly when several kinds are offered and the answer is missing or not offered |
| GameRules.ResolvedKindOffered | src/Game.js:648-662 | the kind a move performs is always one its destination offers |
| GameRules.KeepLen | src/Game.js:668-677 | the capture stops at the highest piece of the side to move, or the floor: everything above it belongs to the other side |
| GameRules.TargetFacts | src/Game.js:643-646 | when the destination is offered, the source is an occupied board cell, the destination another board cell, and each offered tag is justified |
| GameRules.TargetTag | src/Game.js:643-646 | an offered action at the destination comes from an occupied source on the board and satisfies what its tag promises |
| GameRules.TargetCells | src/Game.js:643-662 | an offered kind involves an occupied source and a different destination on the board, which is occupied for a betrayal |
| GameRules.Land | src/Game.js:664-704 | landing keeps the turn, phase, draft record, configuration and the other side's hand; only an attack can change the winner |
| GameRules.ApplyMove | src/Game.js:642-717 | a move either changes nothing or passes the turn; it never changes the phase, draft record, configuration or the other side's hand |
| GameRules.MoveSteps | src/Game.js:664-707 | a move that happens pops the source, lands the popped piece as its kind and passes the turn |
| GameRules.MoveSkipped | src/Game.js:643-662 | a destination not offered, or a prompt left unanswered, changes nothing |
| GameRules.LandFrame | src/Game.js:664-704 | landing changes only the destination cell, the winner and the hand of the side to move |
| GameRules.MoveFrame | src/Game.js:642-717 | nothing changes unless the move happens; then the source loses exactly its top piece, every other cell except the destination is unchanged, the turn passes, and the phase, draft record, configuration and the other side's hand are unchanged |
| GameRules.LandAttack | src/Game.js:666-678 | an attack landing cuts the destination to `KeepLen` and puts the attacker on top; the side to move becomes the winner when a removed piece is a Marshal, and the winner is otherwise kept; hands are untouched |
| GameRules.LandBetrayal | src/Game.js:681-701 | a betrayal landing grows the destination by one: when the hand holds a piece named like the top, the first such piece replaces the top under the mover and the hand loses exactly that position, the other hand unchanged; otherwise the mover is simply pushed; the winner is kept |
| GameRules.AttackEffect | src/Game.js:666-678 | a whole attack move: the destination keeps its pieces up to `KeepLen` and gets the attacker on top; the side to move wins when a removed piece is a Marshal, otherwise the winner is kept; hands are untouched; an attack by a piece of the side to move removes at least one piece |
| GameRules.AttackTargetOccupied | src/Game.js:561-563 | an attack's destination has an opposing piece on top and is no taller than the attacker's stack |
| GameRules.OfferedAttack | src/Game.js:561-563 | an attack offered for a destination means that destination is attackable from the source |
| GameRules.AttackJustified | src/Game.js:561-563 | an attack tag from the top of the source makes its destination attackable |
| GameRules.BetrayalEffect | src/Game.js:681-701 | a whole betrayal move lands as `LandBetrayal` states: the first same-named hand piece replaces the top under the mover and leaves the hand by `splice`, or the mover is pushed when the hand has none |
| GameRules.PlainEffect | src/Game.js:679-704 | a `move` or `stack` (or a received `drop`) puts the mover on top of the destination and leaves hands and winner alone |
| GameRules.MoveKeepsHeightBound | src/Game.js:552-579 | a move by the side to move keeps every stack within the level's height cap |
| GameRules.DestinationHeight | src/Game.js:552-579 | the destination of such a move stays within the cap |
| GameRules.AttackHeight | src/Game.js:666-678 | an attack removes at least one piece before adding the attacker |
| GameRules.BetrayalHeight | src/Game.js:564-573 | a betrayal is only offered where stacking is, below the cap |
| GameRules.PlainHeight | src/Game.js:548-579 | a plain move lands on an empty cell, and a stack below the cap |
| GameRules.ApplyDrop | src/Game.js:719-733 | the turn passes exactly when the frontline rule allows the cell; phase, draft record, winner, configuration and the other side's hand never change |
| GameRules.DropEffect | src/Game.js:719-733 | a drop the frontline rule forbids changes nothing; an allowed one puts exactly the chosen hand piece on the empty cell, the hand loses it, every other cell and the other hand are unchanged, the turn passes, and the height cap is kept |
| GameRules.StartGame | src/Game.js:466-475 | play begins with `Self` to move; board, hands, draft record, winner and configuration are unchanged |
| GameRules.SwitchTurn | src/Game.js:735-738 | only the turn changes, to the other side |
| GameRules.MarkMarshalPlaced | src/Game.js:388-391 | marks the side's Marshal as placed and changes no other flag |
| GameRules.ApplyDraftDrop | src/Game.js:355-408 | a placement is refused exactly when the hand of the side to move keeps its size; configuration, winner and the other side's hand never change |
| GameRules.DraftDropEffect | src/Game.js:355-408 | a refused placement (wrong row, occupied cell, or a non-Marshal before the Marshal) changes nothing; an accepted one moves exactly the chosen hand piece onto the empty target cell; the turn stays and `turnMoved` is set, unless `Opponent` places while `Self` is done, which starts play |
| GameRules.SwitchDraftTurnSkipsDone | src/Game.js:410-431 | passing never hands the turn to a side that is done, clears `turnMoved`, and keeps the turn exactly when the other side is done; `Opponent` passing after `Self` is done starts play |
| GameRules.SwitchDraftTurn | src/Game.js:410-431 | passing leaves board, hands, winner, configuration and both done flags as they were |
| GameRules.DeclareSetupDone | src/Game.js:433-464 | nothing happens outside the draft or before the side to move has placed its Marshal; `Self` finishing hands the draft to `Opponent`, and `Opponent` finishing starts play; board and hands are untouched |
| GameRules.DraftDropKeepsInvariant | src/Game.js:355-408 | a placement keeps the draft invariant: each side holds its Marshal exactly until it has placed it, and finishes only after placing it |
| GameRules.SwitchDraftTurnKeepsInvariant | src/Game.js:410-431 | passing keeps the draft invariant |
| GameRules.DeclareSetupDoneKeepsInvariant | src/Game.js:433-464 | finishing keeps the draft invariant |
| GameRules.SetupDraft | src/Game.js:157-187 | each side holds the full draft set, the draft record starts afresh, and nothing else changes |
| GameRules.HandFrom | src/Game.js:280-286 | the dealt hand is never longer than the list of names, and as long when no type is removed |
| GameRules.HandFromContents | src/Game.js:280-286 | the dealt hand holds only the side's pieces of listed types that are not removed, each kept type as many times as it is listed, and no removed type |
| GameRules.Sweep | src/Game.js:252-264 | a cell is cleared exactly when its bottom piece is of a removed type; every other cell is unchanged |
| GameRules.FixedLayoutShape | src/Game.js:207-238 | every placement of the fixed opening is on its side's three back rows, and no two share a cell |
| GameRules.FixedLayoutOnBackRows | src/Game.js:207-238 | every placement is on the board, `Self` on rows 6-8 and `Opponent` on rows 0-2 |
| GameRules.FixedLayoutSorted | src/Game.js:207-238 | the placements come in strictly increasing cell order |
| GameRules.PlacedAt | src/Game.js:197-238 | the piece the layout places on a cell is one of its entries for that cell, and there is none exactly when no entry names the cell |
| GameRules.PlaceAllDistinct | src/Game.js:197-238 | placing a layout with distinct cells adds exactly one piece to each named cell and nothing elsewhere |
| GameRules.PlacedCell | src/Game.js:197-238 | on an empty board, each cell ends up holding exactly the piece the layout names for it, if any |
| GameRules.OpeningCell | src/Game.js:190-264 | after placing and sweeping, a cell holds at most the one piece the layout names for it, never of a removed type, and on its owner's back rows |
| GameRules.OpeningEntry | src/Game.js:190-264 | every layout entry of a kept type stands alone on its cell |
| GameRules.PlaceAll | src/Game.js:197-238 | placing a layout keeps a 9×9 board of stacks |
| GameRules.PlaceAllExtends | src/Game.js:197-238 | placing only adds pieces on top: each stack before is a prefix of the same stack after |
| GameRules.SetupFixed | src/Game.js:190-287 | setting up the fixed opening changes only board and hands: turn, phase, draft record, winner and configuration are kept |
| GameRules.FixedOpening | src/Game.js:190-287 | what the fixed opening yields on an empty board: at most one piece per cell, the one the layout names, none of a removed type, each on its owner's back rows |
| GameRules.FixedLayoutMarshals | src/Game.js:207-238 | the layout has 30 entries, with the Marshals at (0, 4) and (8, 4) |
| GameRules.FixedMarshals | src/Game.js:190-264 | in the fixed opening each Marshal stands alone on the middle of its back row |
| GameRules.DraftHandMarshal | src/Game.js:162-178 | each side drafts from a set holding exactly one Marshal |
| GameRules.StartFixedLevel | src/Game.js:101-127 | the beginner and novice levels start play at once with `Self` to move, no winner, a cap of 2 and no Marshal stacking, from the fixed opening without the archers (beginner) or with them (novice), within the height cap |
| GameRules.StartDraftLevel | src/Game.js:101-133 | the intermediate level drafts from an empty board with `Self` to move, a cap of 2 and Marshal stacking allowed; each side holds the full draft set and the draft invariant holds |
| GameRules.StartUnknownLevel | src/Game.js:134-138 | an unknown level gets the basic fixed opening and keeps the previous phase, cap and Marshal-stacking flag |
| GameRules.StartLevel | src/Game.js:84-144 | a started level has `Self` to move, no winner, and the level recorded |
| GameRules.ConfigureLevel | src/Game.js:115-139 | turn, winner and recorded level are kept; a known level sets the cap to 2 and allows Marshal stacking exactly at the intermediate level; an unknown one keeps phase and configuration |
| GameEngine.Game.constructor | src/Game.js:6-39 | the new game is `GameRules.Initial` |
| GameEngine.Game.ScanCell | src/Game.js:542-588 | the actions the loop body pushes for one cell are that cell's actions, and it breaks exactly when the cell cannot be passed |
| GameEngine.Game.WalkRay | src/Game.js:531-591 | the `while` loop of one definition emits exactly that ray's actions |
| GameEngine.Game.CalculateMoves | src/Game.js:519-594 | `calculateMoves` returns exactly `MoveGen.Moves` for the piece, its stack height and its owner's hand |
| GameEngine.Game.GetValidMoves | src/Game.js:511-517 | the moves of whatever tops the cell; none for an empty cell |
| GameEngine.Game.FindFrontline | src/Game.js:599-613 | whether the side has a piece on top somewhere, and the lowest and highest rows holding one |
| GameEngine.Game.EmptyCells | src/Game.js:632-639 | exactly the empty cells of the row band, in row-major order |
| GameEngine.Game.GetValidDrops | src/Game.js:596-640 | exactly the cells the frontline rule allows (empty, not beyond the side's front line; anywhere for a side with no pieces), in row-major order |
| GameEngine.Game.SwitchTurn | src/Game.js:735-738 | performs `GameRules.SwitchTurn` |
| GameEngine.Game.CaptureStack | src/Game.js:668-677 | the capture loop leaves the destination cut to `KeepLen` and reports whether a Marshal was removed |
| GameEngine.Game.ExchangeTop | src/Game.js:690-697 | the top is replaced by the hand piece with the mover above it |
| GameEngine.Game.LandPiece | src/Game.js:664-704 | performs the landing `GameRules.Land` prescribes for the kind |
| GameEngine.Game.AttackLanding | src/Game.js:666-678 | performs the attack landing of `GameRules.Land` |
| GameEngine.Game.BetrayalLanding | src/Game.js:681-701 | performs the betrayal landing of `GameRules.Land` |
| GameEngine.Game.TryMovePiece | src/Game.js:642-717 | performs `GameRules.ApplyMove` for the choice given |
| GameEngine.Game.MakeMove | src/Game.js:664-707 | pops the source, lands the piece as its kind and passes the turn |
| GameEngine.Game.TryDropPiece | src/Game.js:719-733 | performs `GameRules.ApplyDrop` |
| GameEngine.Game.StartGame | src/Game.js:466-475 | performs `GameRules.StartGame` |
| GameEngine.Game.TryDraftDrop | src/Game.js:355-408 | performs `GameRules.ApplyDraftDrop`, refusals included |
| GameEngine.Game.PlaceDraftPiece | src/Game.js:385-407 | the accepted branch of the placement performs `GameRules.ApplyDraftDrop` |
| GameEngine.Game.SwitchDraftTurn | src/Game.js:410-431 | performs `GameRules.SwitchDraftTurn` |
| GameEngine.Game.DeclareSetupDone | src/Game.js:433-464 | performs `GameRules.DeclareSetupDone` |
| GameEngine.Game.SetupDraftBoard | src/Game.js:157-187 | performs `GameRules.SetupDraft` |
| GameEngine.Game.PlaceLayout | src/Game.js:197-238 | the board afterwards is `PlaceAll` of the board before |
| GameEngine.Game.RemoveTypes | src/Game.js:242-264 | the board afterwards is `Sweep` of the board before |
| GameEngine.Game.DealHand | src/Game.js:280-286 | the side's hand is extended by `HandFrom` of the initial names, and nothing else changes |
| GameEngine.Game.SetupFixedBoard | src/Game.js:190-287 | performs `GameRules.SetupFixed` |
| GameEngine.Game.StartLevel | src/Game.js:84-144 | performs `GameRules.StartLevel` on a fresh board |
| GameEngine.Game.ConfigureLevel | src/Game.js:115-139 | performs the level switch `GameRules.ConfigureLevel` |

## Left out

- `src/View.js`, `src/main.js` and `src/Network.js` are not part of this model: rendering, prompts, the lobby and the peer-to-peer transport.
- Side effects into those collaborators inside `src/Game.js` are left out, because they do not change the rules state:
  - every `network.send`, `view.*`, `alert`, `confirm` and `setTimeout` call;
  - the `async`/`await` of `tryMovePiece`;
  - the online guards of `startLevel` (only the host configures; the host chooses a side).
- `setNetwork` and `onNetworkData` are left out: they only route received messages to the modelled operations.
- The `selected` field and the selection handlers are left out. These are `handleBoardClick`, `handleHandClick`, `handleDraftClick`, `selectPieceOnBoard` and `selectPieceInHand`, including the guards that only the side to move's pieces are selectable and that a remote `tryDraftDrop` skips the selection check. They are presentation state.
- `restart` is left out. It only returns to the level selection screen, setting the phase to setup.
- `clearBoard` and `debugPlacePiece` are left out as debug helpers.
- `createPieceInstance` and its dynamic class lookup are replaced by the closed `PieceType` datatype. Pieces are values, so the object identity of two pieces of the same type and owner is not modelled.
- `initBoard` is called twice by the source and appends rows without resetting the grid, so the grid grows beyond nine rows. `isValidPos` keeps those extra rows unreachable, and the model has a fixed 9×9 board.
- StackBoard.Board.InitBoard: sets rows 0-8 to empty stacks, where the source appends nine empty rows. Both call sites run it on a freshly constructed board, whose rows 0-8 are already empty, so the reachable cells agree.
- A remote move whose action kind is missing falls back to the local prompt in the source. The model's `Remote` choice always carries a kind.
- GameEngine.Game.TryMovePiece: requires that a kind received from the peer is among the kinds offered for the destination. The source trusts the peer here, and an unoffered `betrayal` onto an empty cell would fail.
- GameEngine.Game.TryDropPiece: requires a valid hand index. The caller always passes the index of a selected hand piece, and with any other index the source would push `undefined`.
- GameEngine.Game.TryDraftDrop: requires a valid hand index, for the same reason. With any other index the source reads `undefined`. It either throws at the Marshal check, or pushes `undefined` onto the board and then throws.
- GameRules.MoveKeepsHeightBound: assumes that the moving piece belongs to the side to move. The selection handlers enforce this for local moves, and the peer is trusted for remote ones.

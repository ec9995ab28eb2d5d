# Piet interpreter engine, modelled in Dafny

This project models the execution engine of the `piedit` Piet interpreter
(`Interpreter`, `ColorBlock` and `Pixel` in `piedit/interpreter.py`). A Piet
program is an image. Its colour blocks are found once. Then the direction
pointer (dp, 0..3 for right, down, left, up) and the codel chooser (cc, 0 for
left, 1 for right) walk from block to block. Each colour change between
blocks selects one of 17 stack instructions.

The model has four parts:

- **Block discovery.** `find_color_blocks` runs two raster-order passes over
  the codel grid:
  - Pass 1 gives each coloured codel a label. It uses `neighbours`, which
    looks only above and to the left.
  - Pass 2 gives each codel its block's size. It builds one `ColorBlock` per
    label and feeds each codel to `ColorBlock.update_boundaries`. That method
    keeps the eight exit codels, one per (dp, cc), by running comparisons,
    some strict and some not.

  The model proves the following:
  - Pass 1 leaves exactly the coloured codels labelled, with same-coloured
    neighbours sharing a label and codels sharing a label sharing a colour.
  - Every size is its block's codel count.
  - Each block's table is the fold of `update_boundaries` over the block's
    codels in raster order.
  - Because the codels arrive in raster order, every table entry is the one
    exit codel the Piet rules choose for its (dp, cc).
- **The dp/cc state machine.** `do_next_step` alternates between two phases:
  - moving to the block's exit codel: `move_within_color`, or
    `move_within_white` for a white slide;
  - leaving the block: `move_out_of_block`.

  `hit_obstruction` counts failed exits, alternately toggles cc and turns
  dp, and stops the run at the eighth. `rotate_dp` and `toggle_cc` are
  written with `divmod`, and are modelled as written.
- **The instruction set.** The 17-entry dispatch table (no entry for
  (0, 0)) and every `op_*` method act on the stack, a list whose last entry
  is the top. What each instruction does to the stack, dp, cc, input, output
  and the exception that ends the run is one function, `Executed`; each
  `op_*` method is proved to leave exactly that state. Python 2 floor
  division and remainder are written out in `PyInt`.
- **`roll`.** Single rolls shift the stack in place with index loops, forwards
  or in reverse.

The stateful parts are Dafny classes, as in the source. `Interpreter` has the
same fields, and its methods update them. `ColorBlock` has the
`boundary_pixels` table. Value-level definitions and lemmas sit in their own
modules:
- `Colors`, `Codels` and `Operations`: colours, coordinates, and the table
  from colour change to instruction;
- `Instructions`: the effect of each instruction on the interpreter state;
- `Boundary`: the exit-codel table;
- `Discovery`: the two passes;
- `Retry`: the obstruction protocol;
- `Roll`: single rolls.

Representation choices:
- **Pixels.** A `Pixel` is a value (x, y, colour). Its per-codel `set_label`
  and `set_size` attributes are the interpreter's `labels` and `sizes` maps,
  keyed by place.
- **Run end.** `sys.exit` in `stop_execution` sets a `terminated` flag. An
  exception sets a `fault`: a `KeyError` for a black codel in
  `move_within_color`, `ZeroDivisionError`, an `IndexError` in `roll`, or
  input that has run out.
- **I/O.** Input is a sequence of characters still to be read. Output is the
  sequence of numbers and character codes written.

Where the code and the intended Piet semantics differ, the model follows the
code:
- A **reverse roll** moves the *bottom* entry of the stack up to index
  `depth`. It does not rotate the top `depth` entries the other way, so it
  does not undo a forward roll (`Roll.ReverseRollDoesNotUndoForward`). When
  `depth` reaches the stack's length, it raises `IndexError` after shifting.
- **`op_switch`** toggles cc `a` times only for a positive `a`, because
  `range(a)` is empty otherwise. It does not toggle `|a|` times.
- **`op_divide` and `op_mod`** pop both entries before dividing, so a zero
  divisor leaves the stack two entries shorter.

## Model

| member | source | states |
|---|---|---|
| Colors.HueLightDiff | piedit/interpreter.py:237 | the key of a colour change lies in 0..5 × 0..2, and it is (0, 0) exactly when the two colours are equal |
| Colors.HueLightDiffDeterminesTarget | piedit/interpreter.py:237 | the key and the first colour together give back the second colour |
| Operations.Operation | piedit/interpreter.py:41-59 | the dispatch table has an entry for exactly the 17 keys in 0..5 × 0..2 other than (0, 0) |
| Operations.KeyOf | piedit/interpreter.py:41-59 | every instruction has a key in the table, other than (0, 0), that maps back to it |
| Operations.OperationKeyOf | piedit/interpreter.py:41-59 | the table is one-to-one: a key's instruction maps back to that key |
| Instructions.DigitValue | piedit/interpreter.py:409 | `int` of one character succeeds exactly on '0'..'9', and gives the digit that many places after '0' |
| Instructions.Executed | piedit/interpreter.py:291-417 | every instruction keeps dp and cc in range; only divide and mod raise a division by zero, only roll raises `IndexError`, only the input instructions run out of input; only pointer changes dp, only switch changes cc, only the input instructions read and only the output instructions write |
| Instructions.ShortStackIsNoOp | piedit/interpreter.py:291-417 | an instruction short of operands changes nothing |
| Instructions.BinaryKeepsRest | piedit/interpreter.py:291-390 | each two-operand instruction other than roll consumes both operands and leaves the entries below them as they were |
| Instructions.DivideModAgree | piedit/interpreter.py:298-339 | for a non-zero top `a` and second entry `b`, divide pushes `q` and mod pushes `r` with b = a·q + r and `r` of `a`'s sign and smaller than `a` in size |
| Instructions.ZeroDivisorRaises | piedit/interpreter.py:298-339 | a zero top makes divide and mod raise after popping both operands, leaving the same state |
| Instructions.RollPermutes | piedit/interpreter.py:347-372 | a roll that does not raise loses and duplicates none of the entries below its two operands |
| Instructions.SwitchParity | piedit/interpreter.py:398-403 | switch flips cc exactly when its operand is positive and odd |
| Instructions.PopUndoesPush | piedit/interpreter.py:312-383 | pop after duplicate, and pop after push, give back the state before |
| Instructions.InCharOutCharEchoes | piedit/interpreter.py:318-417 | in-char followed by out-char moves one input character to the output and leaves the stack as it was |
| Instructions.InNumberReadsDigit | piedit/interpreter.py:405-411 | in-number consumes one character and pushes its value when it is a digit; any other character is only consumed |
| PyInt.FloorDiv | piedit/interpreter.py:298-303 | Python 2 `/` on ints: the quotient rounds toward minus infinity for either sign of the divisor |
| PyInt.FloorMod | piedit/interpreter.py:334-339 | Python 2 `%` on ints: dividend = divisor × floor quotient + remainder, and the remainder takes the divisor's sign |
| Codels.NextCoords | piedit/interpreter.py:245-257 | `next_pixel_coords` moves exactly one unit along dp and none across it |
| Codels.NextCoordsReversible | piedit/interpreter.py:245-257 | one step along dp and one step back along the opposite direction return to the start |
| Codels.ChooserDirection | piedit/interpreter.py:428-460 | the direction cc points to is perpendicular to dp |
| Codels.ExitRules | piedit/interpreter.py:428-460 | the exit ranking for each of the eight (dp, cc) pairs, written out as "further along dp first, then further towards the chooser side" |
| Codels.RanksAtMostAntisymmetric | piedit/interpreter.py:428-460 | the exit ranking breaks every tie: two codels that each rank at most the other share a place |
| Codels.OnRayStep | piedit/interpreter.py:178-196 | a slide step along dp keeps the codel on the line it started from, no nearer than the start |
| Codels.OnRayUnique | piedit/interpreter.py:178-196 | two codels on the same ray from one start, the same distance along dp, are the same codel |
| Boundary.Updated | piedit/interpreter.py:428-460 | `update_boundaries` as a value: the table stays 4 × 2, and each entry is replaced by the new codel exactly under its own test (strict or non-strict, at most once for up/left, same row for up/right) |
| Boundary.UpdatedKeepsExit | piedit/interpreter.py:428-460 | if an entry was the exit codel of the codels so far, and the new codel comes after all of them in raster order, the updated entry is the exit codel of them all |
| Boundary.FoldIsExitTable | piedit/interpreter.py:428-460 | feeding a non-empty block's codels in raster order fills every entry, and each entry is the block's exit codel for its (dp, cc) |
| Boundary.ExitIsUnique | piedit/interpreter.py:428-460 | a block of distinct places has only one exit codel per (dp, cc) |
| Boundary.ColorBlock.constructor | piedit/interpreter.py:422-426 | a new block stores its size and has a 4 × 2 table of `None` |
| Boundary.ColorBlock.UpdateBoundaries | piedit/interpreter.py:428-460 | updating in place leaves the table that `Updated` gives for the old table and the codel |
| Discovery.Neighbours | piedit/interpreter.py:132-149 | at most two codels, each the one above or the one to the left with the same colour; each of those is included exactly when it exists and its colour matches |
| Discovery.WallCheck | piedit/interpreter.py:216-226 | the wall test of `move_out_of_block` holds exactly when the next codel along dp is outside the image, so the lookup after it stays in range |
| Discovery.IsBackground | piedit/interpreter.py:125-130 | a colour is background exactly when it is white or black |
| Discovery.SlidOverStart | piedit/interpreter.py:178-186 | a slide starts on its white start codel |
| Discovery.SlidOverStep | piedit/interpreter.py:186-196 | a white next codel along dp extends the slide |
| Discovery.SlideStopIsUnique | piedit/interpreter.py:186-196 | a white slide has one stopping place: two slides from the same start along dp that cannot go on end on the same codel |
| Discovery.SlideStopPrecedes | piedit/interpreter.py:186-196 | no slide from the same start reaches further along dp than one that cannot go on |
| Discovery.Unioned | piedit/interpreter.py:99-100 | a union adds `b` and no other key; `a` and `b`, and every codel that shared `b`'s label, end with `a`'s label; every other codel keeps its label; codels that shared a label still do |
| Discovery.UnionedKeeps | piedit/interpreter.py:99-100 | a union keeps same-coloured labelled neighbours joined and keeps labels below the next fresh one |
| Discovery.UnionedUniform | piedit/interpreter.py:99-100 | a union of two codels of one colour keeps "same label, same colour" |
| Discovery.UnitedStep | piedit/interpreter.py:99-100 | each union of pass 1 joins one more neighbour to the codel and keeps the pass's invariant, under which every label is an old one or a neighbour block's and a codel outside the neighbours' blocks keeps its label |
| Discovery.FreshLabelKeeps | piedit/interpreter.py:94-97 | a coloured codel with no same-coloured neighbour above or to the left can take the next fresh label without breaking the labelling invariants, including "same label, same colour" |
| Discovery.NoEarlierNeighbour | piedit/interpreter.py:94-97 | for such a codel, every already labelled neighbour has a different colour |
| Discovery.EarlierNeighbour | piedit/interpreter.py:132-149 | an already labelled neighbour lies above or to the left, and it is among `neighbours` when its colour matches |
| Discovery.UnionsJoin | piedit/interpreter.py:98-100 | once the codel is united with all its `neighbours`, the labelling covers it and every same-coloured labelled neighbour pair shares a label |
| Discovery.RowDone | piedit/interpreter.py:88-89 | finishing a row of pass 1 is starting the next |
| Discovery.LabelledIffColoured | piedit/interpreter.py:88-100 | after pass 1, a codel is labelled exactly when it is neither white nor black |
| Discovery.SeenIsScan | piedit/interpreter.py:103-106 | the codels of a block met before (x, y) are in raster order, and are exactly the block's codels before (x, y) |
| Discovery.BlockCodels | piedit/interpreter.py:103-113 | a block's codels in the order pass 2 meets them: raster order, exactly the codels with that label |
| Discovery.TablesAtIsFold | piedit/interpreter.py:103-113 | up to any point of pass 2, a label has a table exactly when one of its codels has been met, and that table is the fold of `update_boundaries` over them |
| Discovery.TablesAtStart | piedit/interpreter.py:103 | pass 2 starts with no tables |
| Discovery.TablesAtSkip | piedit/interpreter.py:106 | a white or black codel leaves the tables unchanged |
| Discovery.TablesAtFeed | piedit/interpreter.py:109-113 | a coloured codel is fed to its label's table, which starts empty the first time the label is met |
| Discovery.TablesAtNextRow | piedit/interpreter.py:103-104 | the end of one row of pass 2 is the start of the next |
| Discovery.SeenNextCodel | piedit/interpreter.py:104-106 | one more codel adds itself to its own block's list and to no other |
| Discovery.SizedStart | piedit/interpreter.py:103 | before pass 2 no codel needs a size |
| Discovery.SizedCodel | piedit/interpreter.py:106-108 | a coloured codel takes its block's codel count as its size, and a background codel takes none |
| Discovery.SizedNextRow | piedit/interpreter.py:103-104 | sizes are complete row by row |
| Discovery.FedOnce | piedit/interpreter.py:111-113 | creating a block's table only when it is missing, and then feeding it, feeds the old table or an empty one |
| Discovery.TablesAtEnd | piedit/interpreter.py:102-113 | after pass 2, a label has a table exactly when its block is non-empty, and the table is the fold over the whole block |
| Discovery.LabelledInBlock | piedit/interpreter.py:102-113 | every labelled codel is among its block's codels |
| Discovery.BlockIsOneColour | piedit/interpreter.py:102-113 | when codels sharing a label share a colour, all codels of one block have one colour |
| Discovery.TableEntryIsExit | piedit/interpreter.py:204-209 | the (dp, cc) entry of a complete block table is a codel of the image, in that block, and the block's exit codel |
| Discovery.NextCodelLeavesBlock | piedit/interpreter.py:224-240 | the codel after an exit codel along dp never has the exit codel's colour |
| Retry.Toggled | piedit/interpreter.py:278-282 | toggling moves cc to the other chooser value |
| Retry.ToggledIsQuotient | piedit/interpreter.py:278-282 | the toggle equals the quotient of `divmod(1 - cc, 1)`, as written |
| Retry.Rotated | piedit/interpreter.py:284-289 | the rotated dp is in 0..3 and congruent to dp + times mod 4, for negative `times` too |
| Retry.RotatedIsFloorRemainder | piedit/interpreter.py:284-289 | the rotation equals the remainder of `divmod(dp + times, 4)`, as written |
| Retry.RotatedTwice | piedit/interpreter.py:284-289 | two rotations add up |
| Retry.Obstructed | piedit/interpreter.py:259-271 | an obstruction adds one stop, ends the run exactly at the eighth stop, and keeps dp and cc in range |
| Retry.ObstructedOnceMore | piedit/interpreter.py:259-271 | k + 1 obstructions are one more after k |
| Retry.ToggleStep | piedit/interpreter.py:266-268 | before the eighth stop, with `switch_cc` set, an obstruction toggles cc and clears `switch_cc` |
| Retry.TurnStep | piedit/interpreter.py:269-271 | before the eighth stop, with `switch_cc` clear, an obstruction turns dp once and sets `switch_cc` |
| Retry.ToggledTimes | piedit/interpreter.py:398-403 | toggling cc any number of times keeps it a chooser value |
| Retry.ToggledTimesParity | piedit/interpreter.py:398-403 | only the parity of the number of toggles matters |
| Retry.ToggledTimesIsParity | piedit/interpreter.py:398-403 | `n` toggles flip the chooser exactly when `n` is odd |
| Retry.RetriesAfterCrossing | piedit/interpreter.py:259-271 | after a crossing (lines 241-243), 2m obstructions (m < 4) have turned dp m times and toggled cc m times; 2m + 1 have toggled cc m + 1 times |
| Retry.EighthObstructionStops | piedit/interpreter.py:259-276 | the eighth obstruction after a crossing stops the run |
| Roll.Clamped | piedit/interpreter.py:358-359 | the depth a roll works to is the smaller of the requested depth and the stack's length |
| Roll.ForwardRolled | piedit/interpreter.py:367-372 | a forward single roll keeps the stack's length |
| Roll.ForwardRolledMoves | piedit/interpreter.py:367-372 | entries below index len − depth stay put, the old top lands there, and the entries above it each move up one place |
| Roll.ForwardRolledPermutes | piedit/interpreter.py:367-372 | a forward single roll keeps the stack's multiset |
| Roll.ForwardRollExample | piedit/interpreter.py:367-372 | [1, 2, 3, 4] rolled once to depth 3 becomes [1, 4, 2, 3] |
| Roll.ReverseRolled | piedit/interpreter.py:361-366 | a reverse single roll, for depth < len, keeps the stack's length |
| Roll.ReverseRolledMoves | piedit/interpreter.py:361-366 | entries above index depth stay put, the bottom entry lands at depth, and entries 1..depth each move down one place |
| Roll.ReverseRolledPermutes | piedit/interpreter.py:361-366 | a reverse single roll keeps the stack's multiset |
| Roll.ReverseRollDoesNotUndoForward | piedit/interpreter.py:361-366 | the reverse roll as written does not undo a forward roll of the same depth |
| Roll.RolledTimes | piedit/interpreter.py:352-353 | any number of single rolls keep the stack's length |
| Roll.RolledTimesPermutes | piedit/interpreter.py:352-353 | any number of single rolls that do not raise keep the stack's multiset |
| Roll.ForwardRollRotatesOnce | piedit/interpreter.py:367-372 | one forward roll at depth d rotates the top d entries one more place |
| Roll.ForwardRollsRotate | piedit/interpreter.py:352-353 | k ≤ d forward rolls at depth d rotate the top d entries k places and leave the rest |
| Roll.FullCycleRestores | piedit/interpreter.py:352-353 | d forward rolls at depth d give back the original stack |
| Piet.CrossingHasOperation | piedit/interpreter.py:237-238 | leaving a block at its exit codel into another coloured codel always finds an entry in the dispatch table, so (0, 0) is never looked up |
| Piet.Interpreter.constructor | piedit/interpreter.py:29-40 | the initial state: dp 0, cc 0, `switch_cc` set, step 0, no stops, empty stack and no blocks, 1000000 as the step limit |
| Piet.Interpreter.StopExecution | piedit/interpreter.py:273-276 | the run is over |
| Piet.Interpreter.ToggleCc | piedit/interpreter.py:278-282 | cc becomes its toggle |
| Piet.Interpreter.RotateDp | piedit/interpreter.py:284-289 | dp becomes its rotation by `times` |
| Piet.Interpreter.HitObstruction | piedit/interpreter.py:259-271 | the control fields move exactly as `Retry.Obstructed` says, and step returns to 0 |
| Piet.Interpreter.OpAdd | piedit/interpreter.py:291-296 | the new stack, dp, cc, input, output and fault are `Instructions.Executed` for this instruction: with two or more entries, the top two are replaced by their sum; otherwise the stack is unchanged |
| Piet.Interpreter.OpDivide | piedit/interpreter.py:298-303 | the new stack, dp, cc, input, output and fault are `Instructions.Executed` for this instruction: with two or more entries, the top two are replaced by the floor quotient of the second by the top; a zero top raises after both pops; otherwise the stack is unchanged |
| Piet.Interpreter.OpGreater | piedit/interpreter.py:305-310 | the new stack, dp, cc, input, output and fault are `Instructions.Executed` for this instruction: with two or more entries, the top two are replaced by 1 if the second exceeds the top, else 0; otherwise the stack is unchanged |
| Piet.Interpreter.OpDuplicate | piedit/interpreter.py:312-316 | the new stack, dp, cc, input, output and fault are `Instructions.Executed` for this instruction: a non-empty stack gains a copy of its top; otherwise the stack is unchanged |
| Piet.Interpreter.OpInChar | piedit/interpreter.py:318-321 | the new stack, dp, cc, input, output and fault are `Instructions.Executed` for this instruction: the next input character's code is pushed and consumed; with no input left, the run ends |
| Piet.Interpreter.OpPush | piedit/interpreter.py:323-325 | the new stack, dp, cc, input, output and fault are `Instructions.Executed` for this instruction: the current codel's block size is pushed |
| Piet.Interpreter.OpSubtract | piedit/interpreter.py:327-332 | the new stack, dp, cc, input, output and fault are `Instructions.Executed` for this instruction: with two or more entries, the top two are replaced by the second minus the top; otherwise the stack is unchanged |
| Piet.Interpreter.OpMod | piedit/interpreter.py:334-339 | the new stack, dp, cc, input, output and fault are `Instructions.Executed` for this instruction: with two or more entries, the top two are replaced by the floor remainder of the second by the top; a zero top raises after both pops; otherwise the stack is unchanged |
| Piet.Interpreter.OpPointer | piedit/interpreter.py:341-345 | the new stack, dp, cc, input, output and fault are `Instructions.Executed` for this instruction: a non-empty stack loses its top, and dp turns by it, negative values included; otherwise nothing changes |
| Piet.Interpreter.OpRoll | piedit/interpreter.py:347-354 | the new stack, dp, cc, input, output and fault are `Instructions.Executed` for this instruction: with two or more entries both are popped; then for depth > 0 and rolls ≠ 0, \|rolls\| single rolls are applied (reverse ones for negative rolls), raising on an empty stack, and for a reverse roll as deep as the stack raising after one shift; otherwise the two pops are all |
| Piet.Interpreter.Roll | piedit/interpreter.py:356-372 | an empty stack raises `IndexError`; otherwise the in-place loops leave `ForwardRolled` or `ReverseRolled` of the old stack, or, for a reverse roll as deep as the stack, raise after shifting all but the top entry down |
| Piet.Interpreter.RollRepeatedly | piedit/interpreter.py:352-354 | `times` single rolls leave `RolledTimes` of the old stack, or the first roll raises: on an empty stack, or for a reverse roll as deep as the stack |
| Piet.Interpreter.RollForward | piedit/interpreter.py:367-372 | the in-place shifting loop leaves `ForwardRolled` of the old stack |
| Piet.Interpreter.RollReverse | piedit/interpreter.py:361-366 | the in-place shifting loop leaves `ReverseRolled` of the old stack for a depth below its length, and otherwise raises `IndexError` after shifting all but the top entry down |
| Piet.Interpreter.OpOutNumber | piedit/interpreter.py:374-378 | the new stack, dp, cc, input, output and fault are `Instructions.Executed` for this instruction: a non-empty stack loses its top, which is written as a number; otherwise nothing changes |
| Piet.Interpreter.OpPop | piedit/interpreter.py:380-383 | the new stack, dp, cc, input, output and fault are `Instructions.Executed` for this instruction: a non-empty stack loses its top; otherwise the stack is unchanged |
| Piet.Interpreter.OpMultiply | piedit/interpreter.py:385-390 | the new stack, dp, cc, input, output and fault are `Instructions.Executed` for this instruction: with two or more entries, the top two are replaced by their product; otherwise the stack is unchanged |
| Piet.Interpreter.OpNot | piedit/interpreter.py:392-396 | the new stack, dp, cc, input, output and fault are `Instructions.Executed` for this instruction: a non-empty stack's top becomes 1 if it was 0 and 0 otherwise; otherwise the stack is unchanged |
| Piet.Interpreter.OpSwitch | piedit/interpreter.py:398-403 | the new stack, dp, cc, input, output and fault are `Instructions.Executed` for this instruction: a non-empty stack loses its top `a`, and cc is toggled max(a, 0) times; otherwise nothing changes |
| Piet.Interpreter.OpInNumber | piedit/interpreter.py:405-411 | the new stack, dp, cc, input, output and fault are `Instructions.Executed` for this instruction: one input character is consumed, and its value is pushed if it is a digit; with no input left, the run ends |
| Piet.Interpreter.OpOutChar | piedit/interpreter.py:413-417 | the new stack, dp, cc, input, output and fault are `Instructions.Executed` for this instruction: a non-empty stack loses its top, which is written as a character code; otherwise nothing changes |
| Piet.Interpreter.Perform | piedit/interpreter.py:238-240 | the stack, dp, cc, input, output and fault after dispatching become `Instructions.Executed` of the instruction, run with the current block's size |
| Piet.Interpreter.CheckPixel | piedit/interpreter.py:198-202 | the answer is "inside the image"; outside, it is one obstruction, and inside nothing changes |
| Piet.Interpreter.MoveWithinColor | piedit/interpreter.py:204-209 | a black codel raises `KeyError`; any other codel of a block jumps to that same block's exit codel for (dp, cc) |
| Piet.Interpreter.MoveWithinBlock | piedit/interpreter.py:171-176 | discovery and the state invariant are kept; the only exception is `KeyError` from a black codel; a coloured start ends on the exit codel of the same block with the control state unchanged; a white start slides over white codels only and stops before a non-white codel with the control state unchanged, or at the image's edge after one obstruction that sends step back to 0 |
| Piet.Interpreter.MoveWithinWhite | piedit/interpreter.py:178-196 | every codel from the start along dp up to the one the slide stops on is white (`Discovery.SlidOver`); the slide stops before a non-white codel without changing the control state, or at the image edge after one obstruction |
| Piet.Interpreter.MoveOutOfBlock | piedit/interpreter.py:211-243 | at a wall or before black, one obstruction and no move, with stack, input and output untouched; otherwise the stack, dp, cc, input, output and fault become `Piet.Crossed`: `Executed` of the instruction the colour change selects, or no change to or from white; unless that raised, the next codel becomes current, with the stop count reset and `switch_cc` set; a coloured crossing always changes colour |
| Piet.Interpreter.EnterNext | piedit/interpreter.py:232-243 | the stack, dp, cc, input, output and fault become `Piet.Crossed` of the two colours, and unless the instruction raised, the next codel becomes current with the counters reset |
| Piet.Interpreter.DoNextStep | piedit/interpreter.py:156-176 | discovery is kept, dp/cc/step stay in range, the current codel stays in the image and at its block's edge after phase 0, and step alternates unless an obstruction sent it back to 0; the only `KeyError` is from a black start |
| Piet.Interpreter.LeaveBlock | piedit/interpreter.py:163-165 | phase 1 leaves the block from its edge: when the next codel along dp is off the image or black, one obstruction turns dp or cc with the codel, stack, input and output unchanged; otherwise the next codel becomes current (unless the instruction raised), `times_stopped` is reset, cc switching is armed, and the machine is the crossing's instruction applied to the old one; discovery and the state invariant are kept and no `KeyError` is raised |
| Piet.Interpreter.StartExecution | piedit/interpreter.py:151-154 | at most `max_steps` steps are taken, stopping early only when the run has ended, and the state invariant holds throughout |
| Piet.Interpreter.FindColorBlocks | piedit/interpreter.py:84-113 | afterwards the image is discovered: exactly the coloured codels are labelled, same-coloured neighbours share a label, codels sharing a label share a colour, sizes are block counts, and each block's table is the fold over its codels in raster order |
| Piet.Interpreter.LabelCodels | piedit/interpreter.py:86-100 | pass 1 labels exactly the coloured codels, with non-negative labels; same-coloured neighbours share a label, and codels sharing a label share a colour |
| Piet.Interpreter.LabelRow | piedit/interpreter.py:88-100 | one row of pass 1 keeps the labelling invariants and extends them to that row |
| Piet.Interpreter.LabelCodel | piedit/interpreter.py:90-100 | a background codel changes nothing; the fresh label is used exactly when the codel is coloured and has no same-coloured neighbour above or to the left, and then only that codel takes it; otherwise every label is the codel's old one or the old label of a neighbour's block, and a codel outside its neighbours' blocks keeps its label; the labelling invariants, "same label, same colour" among them, are kept |
| Piet.Interpreter.UnionNeighbours | piedit/interpreter.py:99-100 | the unions with all `neighbours` label the codel, keep same-coloured neighbours joined and keep "same label, same colour"; every label is the codel's old one or the old label of a neighbour's block, and a codel outside the neighbours' blocks keeps its label |
| Piet.Interpreter.BuildBlocks | piedit/interpreter.py:102-113 | pass 2 completes the discovery of pass 1's labelling |
| Piet.Interpreter.BuildRow | piedit/interpreter.py:104-113 | one row of pass 2 extends sizes and tables to the row's end |
| Piet.Interpreter.BuildCodel | piedit/interpreter.py:105-113 | one codel of pass 2 extends sizes and tables past it |
| Piet.Interpreter.BuildColouredCodel | piedit/interpreter.py:106-113 | a coloured codel takes its block's size and is fed to its block's table |
| Piet.Interpreter.FeedCodel | piedit/interpreter.py:108-113 | the codel's size is set, a missing block is created empty, and exactly that block's table is fed the codel |
| Piet.Interpreter.AddBlock | piedit/interpreter.py:111-112 | a new label gets a new block with an empty table, and no other table changes |
| Piet.Interpreter.FeedBlock | piedit/interpreter.py:113 | `update_boundaries` on one block changes only that block's table |
| Piet.Interpreter.BuiltSkip | piedit/interpreter.py:106 | pass 2 passes over a white or black codel |
| Piet.Interpreter.BuiltStart | piedit/interpreter.py:102-103 | pass 2 starts from no sizes and no blocks |
| Piet.Interpreter.BuiltNextRow | piedit/interpreter.py:103-104 | the end of one row of pass 2 is the start of the next |
| Piet.Interpreter.BuiltIsDiscovered | piedit/interpreter.py:102-113 | a finished pass 2 gives each labelled codel a block and its size, and each block its full table |

## Left out

- The `colors` module is not part of this model. Colours are White, Black or
  one of the 18 hue/lightness pairs, and `hue_light_diff` is the Piet
  difference (hue steps mod 6, lightness steps mod 3), defined only for two
  of those 18.
- The `unionfind` module is not part of this model. Its result is modelled as
  a label map: a union gives the codel its neighbour's label and relabels the
  codel's former set. The `parent` links and `find` are not modelled.
- Image loading (`load_image`, PIL) and `piedit/ui.py` are left out: they are
  I/O and editor code. The interpreter starts from a given grid of codels,
  each of which knows its own place.
- `getchr.get_chr` and `sys.stdout.write` are modelled as an input sequence
  and an output sequence. A blocked read becomes "input has run out".
- Piet.Interpreter.OpOutChar: does not model the `ValueError` that `chr`
  raises outside 0..255; every popped value is written as a character code.
- `sys.exit`, `ErrorHandler`, `run_program`, `print_usage` and the script
  entry point are left out. Exits and exceptions become the `terminated`
  flag and the `fault` field.
- The `handle_error` branches for a step outside {0, 1} or a dp outside 0..3
  are left out: the proved invariant `StateOk` rules them out.
- Piet.Interpreter.FindColorBlocks: proves that codels sharing a label share
  a colour and that same-coloured neighbours share a label, but not that each
  block is connected, which would need the paths behind each union.
- Piet.Interpreter.LabelCodels: the same; "same label" is not proved to mean
  "connected".
- Piet.Interpreter.LabelRow: does not state which codels keep their label
  across a whole row. Each codel's unions may relabel blocks that earlier
  codels of the row changed, so that frame is stated per codel, in
  `LabelCodel` and `UnionNeighbours`.
- Piet.Interpreter.DoNextStep: does not restate the effects of the moves. It
  states the invariants they keep and the alternation of step.
- The eight-entry `ColorBlock.boundary_pixels` table is a 4 × 2 sequence
  value that `UpdateBoundaries` reassigns, not a nested Python list updated
  cell by cell. Aliasing between those lists is not modelled.
- Integers are unbounded, like Python's.

/**
 * The Piet interpreter's execution engine (`Interpreter` in
 * piedit/interpreter.py): block discovery, the direction-pointer /
 * codel-chooser state machine, and the stack instructions.
 */
module Piet {
  import opened Options
  import opened Colors
  import opened PyInt
  import opened Codels
  import opened Boundary
  import opened Discovery
  import opened Retry
  import opened Roll
  import opened Operations
  import opened Instructions

  /**
   * Leaving a colour block at its exit codel for (dp, cc) into another
   * colour never produces the key (0, 0), the one the instruction table
   * lacks: same-coloured neighbours share a block, and the exit codel's
   * neighbour along dp lies outside the block.
   */
  lemma CrossingHasOperation(g: Grid, labels: Labels, e: Pixel, dp: int, cc: int)
    requires GridOk(g) && Covered(g, labels, 0, |g[0]|) && Joined(g, labels)
    requires IsDirection(dp) && IsChooser(cc) && (e.x, e.y) in labels
    requires IsExitOf(dp, cc, e, BlockCodels(g, labels, labels[(e.x, e.y)]))
    requires var (x, y) := NextCoords(e.x, e.y, dp); InGrid(g, x, y) && !IsBackground(g[x][y].color)
    requires e.color.Hued?
    ensures var (x, y) := NextCoords(e.x, e.y, dp); Operation(HueLightDiff(e.color, g[x][y].color)).Some?
  {
    NextCodelLeavesBlock(g, labels, e, dp, cc);
  }

  /**
   * What a crossing from a codel of colour `from` into one of colour `to`
   * does to the machine: nothing to or from white, otherwise the
   * instruction the colour change selects.
   */
  function Crossed(from: Color, to: Color, size: int, m: Machine): Machine
    requires !IsBlack(from) && !IsBlack(to)
  {
    if IsWhite(from) || IsWhite(to) then m
    else match Operation(HueLightDiff(from, to))
      case Some(op) => Executed(op, size, m)
      case None => m
  }

  class Interpreter {
    const pixels: Grid
    const width: int
    const height: int
    const max_steps: int
    var current_pixel: Pixel
    var dp: int
    var cc: int
    var switch_cc: bool
    var step: int
    var times_stopped: int
    var stack: seq<int>
    var color_blocks: map<int, ColorBlock>
    /** `set_label` of each labelled codel, by place (`-1`, no label, is left out of the map). */
    var labels: Labels
    /** `set_size` of each labelled codel, by place (`1`, the initial value, is left out of the map). */
    var sizes: map<Coord, int>
    /** Set where `stop_execution` calls `sys.exit`. */
    var terminated: bool
    /** The exception that ended the run, if one did. */
    var fault: Option<Fault>
    /** What `getchr.get_chr` has still to deliver. */
    var input: seq<char>
    /** What has been written to standard output. */
    var output: seq<Written>

    /** `__init__` followed by loading the image `grid`. */
    constructor (grid: Grid, input: seq<char>)
      requires GridOk(grid)
      ensures pixels == grid && width == |grid| && height == |grid[0]| && max_steps == 1000000
      ensures current_pixel == grid[0][0]
      ensures dp == 0 && cc == 0 && switch_cc && step == 0 && times_stopped == 0
      ensures stack == [] && color_blocks == map[] && labels == map[] && sizes == map[]
      ensures !terminated && fault == None && this.input == input && output == []
      ensures ImageOk() && StateOk() && Running()
    {
      pixels := grid;
      width, height := |grid|, |grid[0]|;
      max_steps := 1000000;
      current_pixel := grid[0][0];
      dp, cc, switch_cc, step, times_stopped := 0, 0, true, 0, 0;
      stack := [];
      color_blocks, labels, sizes := map[], map[], map[];
      terminated, fault := false, None;
      this.input, output := input, [];
    }

    /** The loaded image is well formed and `width`, `height` are its sides. */
    predicate ImageOk() {
      GridOk(pixels) && width == |pixels| && height == |pixels[0]|
    }

    /** The fields the retry protocol reads and writes. */
    function ControlState(): Control
      reads this`dp, this`cc, this`switch_cc, this`times_stopped, this`terminated
    {
      Control(dp, cc, switch_cc, times_stopped, terminated)
    }

    /** Neither `sys.exit` nor an exception has ended the run. */
    predicate Running()
      reads this`terminated, this`fault
    {
      !terminated && fault.None?
    }

    /** `pixel.set_label`: `-1` for a codel pass 1 never labelled. */
    function LabelOf(c: Coord): int
      reads this`labels
    {
      if c in labels then labels[c] else -1
    }

    /** `pixel.set_size`: `1` for a codel pass 2 never sized. */
    function SizeOf(c: Coord): int
      reads this`sizes
    {
      if c in sizes then sizes[c] else 1
    }

    /** The size of the current codel's block, as `op_push` reads it. */
    function CurrentSize(): int
      reads this`current_pixel, this`sizes
    {
      SizeOf((current_pixel.x, current_pixel.y))
    }

    /** The fields an instruction reads and writes. */
    function Snapshot(): Machine
      reads this`stack, this`dp, this`cc, this`input, this`output, this`fault
    {
      Machine(stack, dp, cc, input, output, fault)
    }

    /**
     * What `find_color_blocks` leaves behind: exactly the coloured codels
     * are labelled, same-coloured neighbours share a label, each codel's
     * size is its block's codel count, and each block's table is what its
     * codels fed in raster order make of it.
     */
    ghost predicate Discovered()
      reads this`labels, this`sizes, this`color_blocks, color_blocks.Values`boundary_pixels
    {
      ImageOk() && Covered(pixels, labels, 0, height) && Joined(pixels, labels) &&
      (forall c :: c in labels ==>
        labels[c] in color_blocks && c in sizes && sizes[c] == BlockSize(pixels, labels, labels[c])) &&
      (forall l :: l in color_blocks ==>
        0 <= l && BlockCodels(pixels, labels, l) != [] &&
        color_blocks[l].boundary_pixels == Fold(BlockCodels(pixels, labels, l)))
    }

    /** Discovery holds for as long as no label, size or block table changes. */
    twostate lemma DiscoveredKept()
      requires old(Discovered())
      requires unchanged(this`labels, this`sizes, this`color_blocks)
      requires unchanged(color_blocks.Values)
      ensures Discovered()
    {
    }

    /** The current codel is the exit codel of its block for the current (dp, cc). */
    ghost predicate CurrentIsExit()
      requires ImageOk() && IsDirection(dp) && IsChooser(cc)
      reads this`current_pixel, this`dp, this`cc, this`labels
    {
      var c := (current_pixel.x, current_pixel.y);
      c in labels && IsExitOf(dp, cc, current_pixel, BlockCodels(pixels, labels, labels[c]))
    }

    /**
     * Where `move_within_block` leaves the current codel: on the edge of a
     * colour block, at its exit codel, or on a white codel; never on black.
     */
    ghost predicate AtEdge()
      requires ImageOk() && IsDirection(dp) && IsChooser(cc)
      reads this`current_pixel, this`dp, this`cc, this`labels
    {
      !IsBlack(current_pixel.color) && (!IsWhite(current_pixel.color) ==> CurrentIsExit())
    }

    /**
     * The control state stays in range: dp in 0..3, cc in {0, 1}, step in
     * {0, 1}, fewer than eight stops unless stopped; the current codel is a
     * codel of the image, at its block's edge whenever step is 1 (unless
     * the move there raised).
     */
    ghost predicate StateOk()
      reads this`current_pixel, this`dp, this`cc, this`step, this`times_stopped,
        this`terminated, this`fault, this`labels
    {
      ImageOk() && IsDirection(dp) && IsChooser(cc) && (step == 0 || step == 1) &&
      0 <= times_stopped && (!terminated ==> times_stopped < 8) &&
      IsGridPixel(pixels, current_pixel) && (step == 1 && fault.None? ==> AtEdge())
    }

    /** `stop_execution`: the `sys.exit` becomes the `terminated` flag. */
    method StopExecution()
      modifies this`terminated
      ensures terminated
    {
      terminated := true;
    }

    /** `toggle_cc`: the quotient of `divmod(1 - cc, 1)`. */
    method ToggleCc()
      modifies this`cc
      ensures cc == Toggled(old(cc))
    {
      ToggledIsQuotient(cc);
      cc := FloorDiv(1 - cc, 1);
    }

    /** `rotate_dp(times)`: the remainder of `divmod(dp + times, 4)`. */
    method RotateDp(times: int)
      modifies this`dp
      ensures dp == Rotated(old(dp), times)
    {
      RotatedIsFloorRemainder(dp, times);
      dp := FloorMod(dp + times, 4);
    }

    /** `hit_obstruction`: one more stop, step back to 0, and the retry protocol. */
    method HitObstruction()
      modifies this`times_stopped, this`step, this`terminated, this`cc, this`dp, this`switch_cc
      ensures ControlState() == Obstructed(old(ControlState())) && step == 0
    {
      times_stopped := times_stopped + 1;
      step := 0;
      if times_stopped >= 8 {
        StopExecution();
      } else if switch_cc {
        ToggleCc();
        switch_cc := false;
      } else {
        RotateDp(1);
        switch_cc := true;
      }
    }

    /** `list.pop()`: removes and returns the top. */
    method Pop() returns (item: int)
      requires |stack| > 0
      modifies this`stack
      ensures item == Top(old(stack)) && stack == Below(old(stack), 1)
    {
      item := stack[|stack| - 1];
      stack := stack[..|stack| - 1];
    }

    /** `op_add`: the sum of the top two entries replaces them. */
    method OpAdd()
      modifies this`stack
      ensures Snapshot() == Executed(Op.Add, CurrentSize(), old(Snapshot()))
    {
      if |stack| >= 2 {
        var item1 := Pop();
        var item2 := Pop();
        stack := stack + [item1 + item2];
      }
    }

    /**
     * `op_divide`: Python 2 floor division, the second entry by the top; a
     * zero top raises after both entries are popped.
     */
    method OpDivide()
      requires fault.None?
      modifies this`stack, this`fault
      ensures Snapshot() == Executed(Op.Divide, CurrentSize(), old(Snapshot()))
    {
      if |stack| >= 2 {
        var top_item := Pop();
        var second_item := Pop();
        if top_item == 0 {
          fault := Some(ZeroDivision);
          return;
        }
        stack := stack + [FloorDiv(second_item, top_item)];
      }
    }

    /** `op_greater`: 1 if the second entry exceeds the top, else 0, replaces them. */
    method OpGreater()
      modifies this`stack
      ensures Snapshot() == Executed(Op.Greater, CurrentSize(), old(Snapshot()))
    {
      if |stack| >= 2 {
        var top_item := Pop();
        var second_item := Pop();
        stack := stack + [if second_item > top_item then 1 else 0];
      }
    }

    /** `op_duplicate`: a copy of the top goes on top. */
    method OpDuplicate()
      modifies this`stack
      ensures Snapshot() == Executed(Op.Duplicate, CurrentSize(), old(Snapshot()))
    {
      if |stack| >= 1 {
        var item := stack[|stack| - 1];
        stack := stack + [item];
      }
    }

    /** `op_in_char`: the code of the next input character goes on top. */
    method OpInChar()
      requires fault.None?
      modifies this`stack, this`input, this`fault
      ensures Snapshot() == Executed(Op.InChar, CurrentSize(), old(Snapshot()))
    {
      if input == [] {
        fault := Some(EndOfInput);
        return;
      }
      var c := input[0];
      input := input[1..];
      stack := stack + [c as int];
    }

    /** `op_push`: the size of the current codel's block goes on top. */
    method OpPush()
      modifies this`stack
      ensures Snapshot() == Executed(Op.Push, CurrentSize(), old(Snapshot()))
    {
      stack := stack + [SizeOf((current_pixel.x, current_pixel.y))];
    }

    /** `op_subtract`: the second entry minus the top replaces them. */
    method OpSubtract()
      modifies this`stack
      ensures Snapshot() == Executed(Op.Subtract, CurrentSize(), old(Snapshot()))
    {
      if |stack| >= 2 {
        var top_item := Pop();
        var second_item := Pop();
        stack := stack + [second_item - top_item];
      }
    }

    /**
     * `op_mod`: Python 2 remainder, which takes the sign of the top; a zero
     * top raises after both entries are popped.
     */
    method OpMod()
      requires fault.None?
      modifies this`stack, this`fault
      ensures Snapshot() == Executed(Op.Mod, CurrentSize(), old(Snapshot()))
    {
      if |stack| >= 2 {
        var top_item := Pop();
        var second_item := Pop();
        if top_item == 0 {
          fault := Some(ZeroDivision);
          return;
        }
        stack := stack + [FloorMod(second_item, top_item)];
      }
    }

    /** `op_pointer`: pops `a` and turns dp `a` quarter turns clockwise. */
    method OpPointer()
      modifies this`stack, this`dp
      ensures Snapshot() == Executed(Op.Pointer, CurrentSize(), old(Snapshot()))
    {
      if |stack| >= 1 {
        var item := Pop();
        RotateDp(item);
      }
    }

    /**
     * `op_roll`: pops the number of rolls, then the depth; with a positive
     * depth it performs `|rolls|` single rolls, in reverse for negative
     * rolls, and stops at the first that raises.
     */
    method OpRoll()
      requires fault.None?
      modifies this`stack, this`fault
      ensures Snapshot() == Executed(Op.Roll, CurrentSize(), old(Snapshot()))
    {
      ghost var m := Snapshot();
      if |stack| >= 2 {
        var num_rolls := Pop();
        var depth := Pop();
        assert stack == Below(m.stack, 2) && depth == Second(m.stack) && num_rolls == Top(m.stack);
        if depth > 0 {
          RollRepeatedly(depth, Abs(num_rolls), num_rolls < 0);
        }
        assert Snapshot() == RollExecuted(m);
        RollIsRollExecuted(CurrentSize(), m);
      }
    }

    /**
     * The loop of `op_roll`: `times` single rolls to `depth`, stopping at the
     * first that raises, which can only be the first one.
     */
    method RollRepeatedly(depth: int, times: nat, reverse: bool)
      requires depth > 0 && fault.None?
      modifies this`stack, this`fault
      ensures times > 0 && old(stack) == [] ==> stack == [] && fault == Some(RollIndex)
      ensures times > 0 && old(stack) != [] && reverse && depth >= |old(stack)| ==>
        stack == old(stack)[1..] + [Top(old(stack))] && fault == Some(RollIndex)
      ensures times == 0 || (old(stack) != [] && !(reverse && depth >= |old(stack)|)) ==>
        stack == RolledTimes(old(stack), depth, times, reverse) && fault.None?
    {
      ghost var s := stack;
      var i := 0;
      while i < times
        invariant 0 <= i <= times
        invariant fault.None?
        invariant i > 0 ==> (if reverse then depth < |s| else |s| > 0)
        invariant stack == RolledTimes(s, depth, i, reverse)
      {
        Roll(depth, reverse);
        if fault.Some? {
          return;
        }
        i := i + 1;
      }
    }

    /**
     * `roll`: one roll in place, with the depth cut down to the stack's
     * length. Forwards, the top entry is buried at index `len - depth`. In
     * reverse, as written, the bottom entry is lifted to index `depth`; that
     * reads one entry past the top when `depth` reaches the length, and it
     * raises there after shifting all but the top entry down.
     */
    method Roll(depth: int, reverse: bool)
      requires depth > 0 && fault.None?
      modifies this`stack, this`fault
      ensures old(stack) == [] ==> stack == old(stack) && fault == Some(RollIndex)
      ensures old(stack) != [] && !reverse ==> stack == ForwardRolled(old(stack), depth) && fault.None?
      ensures old(stack) != [] && reverse && depth < |old(stack)| ==>
        stack == ReverseRolled(old(stack), depth) && fault.None?
      ensures old(stack) != [] && reverse && depth >= |old(stack)| ==>
        stack == old(stack)[1..] + [Top(old(stack))] && fault == Some(RollIndex)
    {
      if stack == [] {
        fault := Some(RollIndex);
      } else if reverse {
        RollReverse(depth);
      } else {
        RollForward(depth);
      }
    }

    /** The forward branch of `roll`: entries shift up one place and the top goes down. */
    method RollForward(depth: int)
      requires depth > 0 && stack != []
      modifies this`stack
      ensures stack == ForwardRolled(old(stack), depth)
    {
      ghost var s := stack;
      var n := |stack|;
      var d := Clamped(depth, n);
      var top_item := stack[n - 1];
      var index := n - d;
      var i := n - 1;
      while i > index
        invariant index <= i <= n - 1 && |stack| == n
        invariant forall j :: 0 <= j <= i ==> stack[j] == s[j]
        invariant forall j :: i < j < n ==> stack[j] == s[j - 1]
      {
        stack := stack[i := stack[i - 1]];
        i := i - 1;
      }
      stack := stack[index := top_item];
      ForwardRolledMoves(s, depth);
      assert stack == ForwardRolled(s, depth);
    }

    /**
     * The reverse branch of `roll`: entries shift down one place and the
     * bottom goes up, raising when the shifting reaches the top.
     */
    method RollReverse(depth: int)
      requires depth > 0 && stack != [] && fault.None?
      modifies this`stack, this`fault
      ensures depth < |old(stack)| ==> stack == ReverseRolled(old(stack), depth) && fault.None?
      ensures depth >= |old(stack)| ==> stack == old(stack)[1..] + [Top(old(stack))] && fault == Some(RollIndex)
    {
      ghost var s := stack;
      var n := |stack|;
      var d := Clamped(depth, n);
      var bottom_item := stack[0];
      var index := d;
      var i := 0;
      while i < index
        invariant 0 <= i <= index && i < n && |stack| == n && fault.None?
        invariant forall j :: 0 <= j < i ==> stack[j] == s[j + 1]
        invariant forall j :: i <= j < n ==> stack[j] == s[j]
      {
        if i + 1 >= n {
          fault := Some(RollIndex);
          assert stack == s[1..] + [Top(s)];
          return;
        }
        stack := stack[i := stack[i + 1]];
        i := i + 1;
      }
      stack := stack[index := bottom_item];
      ReverseRolledMoves(s, depth);
      assert stack == ReverseRolled(s, depth);
    }

    /** `op_out_number`: pops the top and writes it as a number. */
    method OpOutNumber()
      modifies this`stack, this`output
      ensures Snapshot() == Executed(Op.OutNumber, CurrentSize(), old(Snapshot()))
    {
      if |stack| >= 1 {
        var item := Pop();
        output := output + [Number(item)];
      }
    }

    /** `op_pop`: drops the top. */
    method OpPop()
      modifies this`stack
      ensures Snapshot() == Executed(Op.Pop, CurrentSize(), old(Snapshot()))
    {
      if |stack| >= 1 {
        var _ := Pop();
      }
    }

    /** `op_multiply`: the product of the top two entries replaces them. */
    method OpMultiply()
      modifies this`stack
      ensures Snapshot() == Executed(Op.Multiply, CurrentSize(), old(Snapshot()))
    {
      if |stack| >= 2 {
        var item1 := Pop();
        var item2 := Pop();
        stack := stack + [item1 * item2];
      }
    }

    /** `op_not`: the top becomes 1 if it was 0 and 0 otherwise. */
    method OpNot()
      modifies this`stack
      ensures Snapshot() == Executed(Op.Not, CurrentSize(), old(Snapshot()))
    {
      if |stack| >= 1 {
        var item := Pop();
        stack := stack + [if item == 0 then 1 else 0];
      }
    }

    /**
     * `op_switch`: pops `a` and toggles cc `a` times; `range(a)` is empty
     * for a negative `a`, so only a positive `a` toggles.
     */
    method OpSwitch()
      modifies this`stack, this`cc
      ensures Snapshot() == Executed(Op.Switch, CurrentSize(), old(Snapshot()))
    {
      if |stack| >= 1 {
        var item := Pop();
        var i := 0;
        while i < item
          invariant i == 0 || 0 < i <= item
          invariant stack == Below(old(stack), 1)
          invariant cc == ToggledTimes(old(cc), i)
        {
          ToggleCc();
          i := i + 1;
        }
      }
    }

    /** `op_in_number`: reads a character and pushes its value when it is a digit. */
    method OpInNumber()
      requires fault.None?
      modifies this`stack, this`input, this`fault
      ensures Snapshot() == Executed(Op.InNumber, CurrentSize(), old(Snapshot()))
    {
      if input == [] {
        fault := Some(EndOfInput);
        return;
      }
      var c := input[0];
      input := input[1..];
      match DigitValue(c)
      case Some(v) => stack := stack + [v];
      case None =>
    }

    /** `op_out_char`: pops the top and writes it as a character code. */
    method OpOutChar()
      modifies this`stack, this`output
      ensures Snapshot() == Executed(Op.OutChar, CurrentSize(), old(Snapshot()))
    {
      if |stack| >= 1 {
        var item := Pop();
        output := output + [Char(item)];
      }
    }

    /** `do_next_step`'s dispatch of an instruction the colour change selects. */
    method Perform(op: Op)
      requires fault.None?
      modifies this`stack, this`fault, this`input, this`output, this`dp, this`cc
      ensures Snapshot() == Executed(op, CurrentSize(), old(Snapshot()))
    {
      match op
      case Add => OpAdd();
      case Divide => OpDivide();
      case Greater => OpGreater();
      case Duplicate => OpDuplicate();
      case InChar => OpInChar();
      case Push => OpPush();
      case Subtract => OpSubtract();
      case Mod => OpMod();
      case Pointer => OpPointer();
      case Roll => OpRoll();
      case OutNumber => OpOutNumber();
      case Pop => OpPop();
      case Multiply => OpMultiply();
      case Not => OpNot();
      case Switch => OpSwitch();
      case InNumber => OpInNumber();
      case OutChar => OpOutChar();
    }

    /** `check_pixel`: (x, y) is inside the image, or else an obstruction. */
    method CheckPixel(x: int, y: int) returns (ok: bool)
      requires ImageOk()
      modifies this`times_stopped, this`step, this`terminated, this`cc, this`dp, this`switch_cc
      ensures ok <==> InGrid(pixels, x, y)
      ensures ok ==> ControlState() == old(ControlState()) && step == old(step)
      ensures !ok ==> ControlState() == Obstructed(old(ControlState())) && step == 0
    {
      if x < 0 || y < 0 || x >= width || y >= height {
        HitObstruction();
        return false;
      }
      return true;
    }

    /**
     * `move_within_color`: jumps to the entry (dp, cc) of the current
     * block's table, which is the block's exit codel; a codel in no block
     * (black) raises.
     */
    method MoveWithinColor()
      requires Discovered() && IsDirection(dp) && IsChooser(cc) && fault.None?
      requires IsGridPixel(pixels, current_pixel) && !IsWhite(current_pixel.color)
      modifies this`current_pixel, this`fault
      ensures IsBlack(old(current_pixel).color) ==>
        fault == Some(NoColorBlock) && current_pixel == old(current_pixel)
      ensures !IsBlack(old(current_pixel).color) ==>
        fault.None? && CurrentIsExit() &&
        LabelOf((current_pixel.x, current_pixel.y)) == LabelOf((old(current_pixel).x, old(current_pixel).y))
    {
      var c := (current_pixel.x, current_pixel.y);
      LabelledIffColoured(pixels, labels, current_pixel);
      var block_label := LabelOf(c);
      if block_label !in color_blocks {
        assert c !in labels;
        fault := Some(NoColorBlock);
        return;
      }
      assert c in labels;
      ghost var ps := BlockCodels(pixels, labels, block_label);
      assert ps != [] && color_blocks[block_label].boundary_pixels == Fold(ps);
      TableEntryIsExit(pixels, labels, block_label, dp, cc);
      current_pixel := color_blocks[block_label].boundary_pixels[dp][cc].value;
    }

    /**
     * `move_within_white`: slides across white codels along dp and stops
     * on the last white codel before a coloured or black one, or meets the
     * image edge, which is an obstruction.
     */
    method MoveWithinWhite()
      requires ImageOk() && IsDirection(dp) && IsChooser(cc)
      requires IsGridPixel(pixels, current_pixel) && IsWhite(current_pixel.color)
      modifies this`current_pixel, this`times_stopped, this`step, this`terminated, this`cc, this`dp, this`switch_cc
      ensures IsGridPixel(pixels, current_pixel) && IsWhite(current_pixel.color)
      ensures SlidOver(pixels, old(dp), old(current_pixel).x, old(current_pixel).y, current_pixel.x, current_pixel.y)
      ensures var (x, y) := NextCoords(current_pixel.x, current_pixel.y, old(dp));
        if InGrid(pixels, x, y) then
          !IsWhite(pixels[x][y].color) && ControlState() == old(ControlState()) && step == old(step)
        else
          ControlState() == Obstructed(old(ControlState())) && step == 0
    {
      SlidOverStart(pixels, dp, current_pixel.x, current_pixel.y);
      var (x, y) := NextCoords(current_pixel.x, current_pixel.y, dp);
      var ok := CheckPixel(x, y);
      if !ok {
        return;
      }
      var next_pixel := pixels[x][y];
      while IsWhite(next_pixel.color)
        invariant ControlState() == old(ControlState()) && step == old(step)
        invariant IsGridPixel(pixels, current_pixel) && IsWhite(current_pixel.color)
        invariant (x, y) == NextCoords(current_pixel.x, current_pixel.y, dp)
        invariant InGrid(pixels, x, y) && next_pixel == pixels[x][y]
        invariant SlidOver(pixels, dp, old(current_pixel).x, old(current_pixel).y, current_pixel.x, current_pixel.y)
        decreases |pixels| + |pixels[0]| - Along(dp, current_pixel.x, current_pixel.y)
      {
        SlidOverStep(pixels, dp, old(current_pixel).x, old(current_pixel).y, current_pixel.x, current_pixel.y);
        current_pixel := next_pixel;
        var (nx, ny) := NextCoords(x, y, dp);
        x, y := nx, ny;
        ok := CheckPixel(x, y);
        if !ok {
          return;
        }
        next_pixel := pixels[x][y];
      }
    }

    /**
     * `move_within_block`: to the block's exit codel for (dp, cc), or along
     * a white slide; either ends on a codel that is not black, at the
     * block's edge unless an obstruction sent the step back to 0, or the
     * move raises on a black codel.
     */
    method MoveWithinBlock()
      requires Discovered() && IsDirection(dp) && IsChooser(cc) && fault.None? && step == 1
      requires IsGridPixel(pixels, current_pixel) && !terminated && 0 <= times_stopped < 8
      modifies this`current_pixel, this`times_stopped, this`step, this`terminated, this`cc, this`dp,
        this`switch_cc, this`fault
      ensures Discovered() && StateOk()
      ensures fault.None? || (fault == Some(NoColorBlock) && IsBlack(old(current_pixel).color))
      ensures fault.None? ==> !IsBlack(current_pixel.color)
      ensures IsWhite(old(current_pixel).color) ==>
        SlidOver(pixels, old(dp), old(current_pixel).x, old(current_pixel).y, current_pixel.x, current_pixel.y)
      ensures IsWhite(old(current_pixel).color) ==>
        var (x, y) := NextCoords(current_pixel.x, current_pixel.y, old(dp));
        if InGrid(pixels, x, y) then
          !IsWhite(pixels[x][y].color) && step == 1 && ControlState() == old(ControlState())
        else
          step == 0 && ControlState() == Obstructed(old(ControlState()))
      ensures !IsWhite(old(current_pixel).color) && !IsBlack(old(current_pixel).color) ==>
        step == 1 && ControlState() == old(ControlState()) && CurrentIsExit() &&
        LabelOf((current_pixel.x, current_pixel.y)) == LabelOf((old(current_pixel).x, old(current_pixel).y))
      ensures (step == 1 && ControlState() == old(ControlState())) ||
        (step == 0 && ControlState() == Obstructed(old(ControlState())))
    {
      if IsWhite(current_pixel.color) {
        MoveWithinWhite();
      } else {
        MoveWithinColor();
      }
      DiscoveredKept();
    }

    /**
     * `move_out_of_block`: at the image edge or before a black codel, an
     * obstruction; otherwise the instruction the colour change selects (none
     * to or from white) runs, and the next codel becomes current with the
     * retry counters reset.
     */
    method MoveOutOfBlock()
      requires ImageOk() && Covered(pixels, labels, 0, height) && Joined(pixels, labels)
      requires IsDirection(dp) && IsChooser(cc) && IsGridPixel(pixels, current_pixel) && AtEdge()
      requires 0 <= times_stopped < 8 && !terminated && fault.None? && step == 0
      modifies this`current_pixel, this`dp, this`cc, this`switch_cc, this`step, this`times_stopped,
        this`terminated, this`fault, this`stack, this`input, this`output
      ensures IsDirection(dp) && IsChooser(cc) && IsGridPixel(pixels, current_pixel) && step == 0
      ensures fault.None? || fault == Some(ZeroDivision) || fault == Some(RollIndex) || fault == Some(EndOfInput)
      ensures var (x, y) := NextCoords(old(current_pixel).x, old(current_pixel).y, old(dp));
        if !InGrid(pixels, x, y) || IsBlack(pixels[x][y].color) then
          ControlState() == Obstructed(old(ControlState())) && step == 0 &&
          current_pixel == old(current_pixel) && fault.None? &&
          stack == old(stack) && input == old(input) && output == old(output)
        else
          (if fault.Some? then
            current_pixel == old(current_pixel) && times_stopped == old(times_stopped) && !terminated
          else
            current_pixel == pixels[x][y] && times_stopped == 0 && switch_cc && !terminated) &&
          Snapshot() == Crossed(old(current_pixel).color, pixels[x][y].color, old(CurrentSize()), old(Snapshot())) &&
          (!IsWhite(old(current_pixel).color) && !IsWhite(pixels[x][y].color) ==>
            Operation(HueLightDiff(old(current_pixel).color, pixels[x][y].color)).Some?)
    {
      var x, y := current_pixel.x, current_pixel.y;
      WallCheck(pixels, x, y, dp);
      if (dp == 0 && x >= width - 1) || (dp == 1 && y >= height - 1) || (dp == 2 && x <= 0) || (dp == 3 && y <= 0) {
        HitObstruction();
        return;
      }
      var current := current_pixel;
      var (n_x, n_y) := NextCoords(x, y, dp);
      assert InGrid(pixels, n_x, n_y);
      var next_pixel := pixels[n_x][n_y];
      assert IsGridPixel(pixels, next_pixel);
      if IsBlack(next_pixel.color) {
        HitObstruction();
        return;
      }
      if !(IsWhite(current.color) || IsWhite(next_pixel.color)) {
        CrossingHasOperation(pixels, labels, current, dp, cc);
      }
      EnterNext(current, next_pixel);
    }

    /**
     * The end of `move_out_of_block`: the instruction the colour change
     * from `current` to `next_pixel` selects runs (none to or from white),
     * then `next_pixel` becomes current with the retry counters reset.
     */
    method EnterNext(current: Pixel, next_pixel: Pixel)
      requires IsDirection(dp) && IsChooser(cc) && fault.None?
      requires !IsBlack(current.color) && !IsBlack(next_pixel.color)
      requires !IsWhite(current.color) && !IsWhite(next_pixel.color) ==>
        Operation(HueLightDiff(current.color, next_pixel.color)).Some?
      modifies this`current_pixel, this`dp, this`cc, this`switch_cc, this`times_stopped,
        this`fault, this`stack, this`input, this`output
      ensures IsDirection(dp) && IsChooser(cc)
      ensures fault.None? || fault == Some(ZeroDivision) || fault == Some(RollIndex) || fault == Some(EndOfInput)
      ensures fault.Some? ==> current_pixel == old(current_pixel) && times_stopped == old(times_stopped)
      ensures fault.None? ==> current_pixel == next_pixel && times_stopped == 0 && switch_cc
      ensures Snapshot() == Crossed(current.color, next_pixel.color, old(CurrentSize()), old(Snapshot()))
    {
      if !(IsWhite(current.color) || IsWhite(next_pixel.color)) {
        var op := Operation(HueLightDiff(current.color, next_pixel.color)).value;
        Perform(op);
        if fault.Some? {
          return;
        }
      }
      current_pixel := next_pixel;
      times_stopped := 0;
      switch_cc := true;
    }

    /**
     * `do_next_step`: phase 0 moves to the edge of the current block, phase
     * 1 leaves it; `step` alternates except where an obstruction puts it
     * back to 0. The (0, 0) colour change is never looked up, and only a
     * black starting codel lies outside every block.
     */
    method DoNextStep()
      requires Discovered() && StateOk() && Running()
      modifies this`current_pixel, this`dp, this`cc, this`switch_cc, this`step, this`times_stopped,
        this`terminated, this`fault, this`stack, this`input, this`output
      ensures Discovered() && StateOk()
      ensures fault == Some(NoColorBlock) ==> IsBlack(old(current_pixel).color)
      ensures fault.None? ==> !IsBlack(current_pixel.color)
      ensures step == 1 - old(step) || (step == 0 && ControlState() == Obstructed(old(ControlState())))
    {
      if step == 0 {
        step := 1;
        MoveWithinBlock();
      } else {
        step := 0;
        LeaveBlock();
      }
    }

    /**
     * The second phase of `do_next_step`, once `step` is back to 0:
     * `move_out_of_block` from the edge the first phase reached.
     */
    method LeaveBlock()
      requires Discovered() && StateOk() && Running() && step == 0 && AtEdge()
      modifies this`current_pixel, this`dp, this`cc, this`switch_cc, this`step, this`times_stopped,
        this`terminated, this`fault, this`stack, this`input, this`output
      ensures Discovered() && StateOk() && step == 0
      ensures fault != Some(NoColorBlock)
      ensures fault.None? ==> !IsBlack(current_pixel.color)
      ensures var (x, y) := NextCoords(old(current_pixel).x, old(current_pixel).y, old(dp));
        if !InGrid(pixels, x, y) || IsBlack(pixels[x][y].color) then
          ControlState() == Obstructed(old(ControlState())) &&
          current_pixel == old(current_pixel) && fault.None? &&
          stack == old(stack) && input == old(input) && output == old(output)
        else
          (if fault.Some? then
            current_pixel == old(current_pixel) && times_stopped == old(times_stopped) && !terminated
          else
            current_pixel == pixels[x][y] && times_stopped == 0 && switch_cc && !terminated) &&
          Snapshot() == Crossed(old(current_pixel).color, pixels[x][y].color, old(CurrentSize()), old(Snapshot()))
    {
      MoveOutOfBlock();
      DiscoveredKept();
    }

    /**
     * `start_execution`: up to `max_steps` steps, the run ending early at
     * the eighth obstruction in a row or at an exception. Returns how many
     * steps were taken.
     */
    method StartExecution() returns (steps: int)
      requires Discovered() && StateOk() && Running()
      modifies this`current_pixel, this`dp, this`cc, this`switch_cc, this`step, this`times_stopped,
        this`terminated, this`fault, this`stack, this`input, this`output
      ensures Discovered() && StateOk()
      ensures 0 <= steps && (max_steps >= 0 ==> steps <= max_steps)
      ensures Running() ==> steps >= max_steps
    {
      steps := 0;
      while steps < max_steps && Running()
        invariant 0 <= steps && (max_steps >= 0 ==> steps <= max_steps)
        invariant Discovered() && StateOk()
      {
        DoNextStep();
        steps := steps + 1;
      }
    }

    /** The exit-codel table of each block built so far, by label. */
    ghost function Tables(): map<int, Table>
      reads this`color_blocks, color_blocks.Values`boundary_pixels
    {
      map l | l in color_blocks :: color_blocks[l].boundary_pixels
    }

    /** No two labels share one `ColorBlock`. */
    ghost predicate OneBlockEach()
      reads this`color_blocks
    {
      forall l, l' :: l in color_blocks && l' in color_blocks && l != l' ==> color_blocks[l] != color_blocks[l']
    }

    /**
     * Pass 2 of `find_color_blocks` has handled the codels before (x, y),
     * with one `ColorBlock` per block met so far.
     */
    ghost predicate Built(x: int, y: int)
      reads this`labels, this`sizes, this`color_blocks, color_blocks.Values`boundary_pixels
    {
      ImageOk() && 0 <= x <= width && 0 <= y <= height && (y == height ==> x == 0) &&
      Covered(pixels, labels, 0, height) && OneBlockEach() && SizedUpTo(pixels, labels, sizes, x, y) && Tables() == TablesAt(pixels, labels, x, y)
    }

    /** Both passes done: the image is discovered. */
    lemma BuiltIsDiscovered()
      requires ImageOk() && Covered(pixels, labels, 0, height) && Joined(pixels, labels)
      requires (forall c :: c in labels ==> 0 <= labels[c]) && Built(0, height)
      ensures Discovered()
    {
      forall c | c in labels
        ensures labels[c] in color_blocks && c in sizes && sizes[c] == BlockSize(pixels, labels, labels[c])
      {
        LabelledInBlock(pixels, labels, c);
        TablesAtEnd(pixels, labels, labels[c]);
      }
      forall l | l in color_blocks
        ensures 0 <= l && BlockCodels(pixels, labels, l) != []
        ensures color_blocks[l].boundary_pixels == Fold(BlockCodels(pixels, labels, l))
      {
        TablesAtEnd(pixels, labels, l);
        assert color_blocks[l].boundary_pixels == Tables()[l];
      }
    }

    /** Pass 1 of `find_color_blocks` on row `y`, codel by codel. */
    method LabelRow(y: int, next_label: int) returns (next: int)
      requires ImageOk() && 0 <= y < height && 0 <= next_label
      requires Covered(pixels, labels, 0, y) && Joined(pixels, labels) && LabelsBelow(labels, next_label)
      requires Uniform(pixels, labels)
      modifies this`labels
      ensures Covered(pixels, labels, 0, y + 1) && Joined(pixels, labels) && LabelsBelow(labels, next)
      ensures Uniform(pixels, labels)
      ensures next_label <= next
    {
      next := next_label;
      var x := 0;
      while x < width
        invariant 0 <= x <= width && next_label <= next
        invariant Covered(pixels, labels, x, y) && Joined(pixels, labels) && LabelsBelow(labels, next)
        invariant Uniform(pixels, labels)
      {
        next := LabelCodel(x, y, next);
        x := x + 1;
      }
      RowDone(pixels, labels, y);
    }

    /**
     * Pass 1 of `find_color_blocks` on the codel at (x, y): a coloured codel
     * with no same-coloured neighbour above or to the left gets the next
     * fresh label; one with such neighbours is united with each of them.
     */
    method LabelCodel(x: int, y: int, next_label: int) returns (next: int)
      requires ImageOk() && InGrid(pixels, x, y) && 0 <= next_label
      requires Covered(pixels, labels, x, y) && Joined(pixels, labels) && LabelsBelow(labels, next_label)
      requires Uniform(pixels, labels)
      modifies this`labels
      ensures Covered(pixels, labels, x + 1, y) && Joined(pixels, labels) && LabelsBelow(labels, next)
      ensures Uniform(pixels, labels)
      ensures IsBackground(pixels[x][y].color) ==> labels == old(labels) && next == next_label
      ensures next == next_label + 1 <==> !IsBackground(pixels[x][y].color) && Neighbours(pixels, pixels[x][y]) == []
      ensures next == next_label || (next == next_label + 1 && labels == old(labels)[(x, y) := next_label])
      ensures forall c :: c in old(labels) && old(labels)[c] !in BlockLabels(old(labels), Neighbours(pixels, pixels[x][y])) ==>
        labels[c] == old(labels)[c]
      ensures next == next_label ==> forall c :: c in labels ==>
        (c in old(labels) && labels[c] == old(labels)[c]) || labels[c] in BlockLabels(old(labels), Neighbours(pixels, pixels[x][y]))
    {
      next := next_label;
      var pixel := pixels[x][y];
      if !IsBackground(pixel.color) {
        var neighbours := Neighbours(pixels, pixel);
        if neighbours == [] {
          FreshLabelKeeps(pixels, labels, x, y, next);
          labels := labels[(x, y) := next];
          next := next + 1;
        } else {
          UnionNeighbours(x, y, neighbours, next);
        }
      }
    }

    /** The `unionfind.union(n, pixel)` calls of pass 1, one per neighbour `n` of the codel at (x, y). */
    method UnionNeighbours(x: int, y: int, neighbours: seq<Pixel>, ghost next: int)
      requires ImageOk() && InGrid(pixels, x, y) && !IsBackground(pixels[x][y].color)
      requires neighbours == Neighbours(pixels, pixels[x][y]) && neighbours != []
      requires Covered(pixels, labels, x, y) && Joined(pixels, labels) && LabelsBelow(labels, next)
      requires Uniform(pixels, labels)
      modifies this`labels
      ensures Covered(pixels, labels, x + 1, y) && Joined(pixels, labels) && LabelsBelow(labels, next)
      ensures Uniform(pixels, labels)
      ensures forall c :: c in old(labels) && old(labels)[c] !in BlockLabels(old(labels), neighbours) ==>
        labels[c] == old(labels)[c]
      ensures forall c :: c in labels ==>
        (c in old(labels) && labels[c] == old(labels)[c]) || labels[c] in BlockLabels(old(labels), neighbours)
    {
      ghost var labels0 := labels;
      var i := 0;
      while i < |neighbours|
        invariant UnitedUpTo(pixels, labels0, labels, neighbours, i, x, y, next)
      {
        var n := neighbours[i];
        UnitedStep(pixels, labels0, labels, neighbours, i, x, y, next);
        labels := Unioned(labels, (n.x, n.y), (x, y));
        i := i + 1;
      }
      UnionsJoin(pixels, labels0, labels, x, y);
    }

    /** Pass 2 of `find_color_blocks` on row `y`, codel by codel. */
    method BuildRow(y: int)
      requires Built(0, y) && y < height
      modifies this`sizes, this`color_blocks, color_blocks.Values
      ensures Built(width, y)
      ensures forall b :: b in color_blocks.Values ==> b in old(color_blocks).Values || fresh(b)
    {
      var x := 0;
      while x < width
        invariant Built(x, y)
        invariant forall b :: b in color_blocks.Values ==> b in old(color_blocks).Values || fresh(b)
      {
        BuildCodel(x, y);
        x := x + 1;
      }
    }

    /**
     * Pass 2 of `find_color_blocks` on the codel at (x, y): a coloured codel
     * takes its block's size, its block gets a `ColorBlock` the first time
     * one of its codels is met, and the codel is fed to that block's table.
     */
    method BuildCodel(x: int, y: int)
      requires Built(x, y) && x < width && y < height
      modifies this`sizes, this`color_blocks, color_blocks.Values
      ensures Built(x + 1, y)
      ensures forall b :: b in color_blocks.Values ==> b in old(color_blocks).Values || fresh(b)
    {
      var pixel := pixels[x][y];
      LabelledIffColoured(pixels, labels, pixel);
      if IsBackground(pixel.color) {
        BuiltSkip(x, y);
      } else {
        BuildColouredCodel(x, y);
      }
    }

    /** Pass 2 leaves a codel of no block as it is. */
    lemma BuiltSkip(x: int, y: int)
      requires ImageOk() && InGrid(pixels, x, y) && (x, y) !in labels && Built(x, y)
      ensures Built(x + 1, y)
    {
      SizedCodel(pixels, labels, sizes, x, y);
      TablesAtSkip(pixels, labels, x, y);
    }

    /** Pass 2 on a coloured codel at (x, y). */
    method BuildColouredCodel(x: int, y: int)
      requires ImageOk() && InGrid(pixels, x, y) && (x, y) in labels && Built(x, y)
      modifies this`sizes, this`color_blocks, color_blocks.Values
      ensures Built(x + 1, y)
      ensures forall b :: b in color_blocks.Values ==> b in old(color_blocks).Values || fresh(b)
    {
      var pixel := pixels[x][y];
      SizedCodel(pixels, labels, sizes, x, y);
      var block_label := labels[(x, y)];
      TablesAtFeed(pixels, labels, x, y);
      var size := BlockSize(pixels, labels, block_label);
      FeedCodel(x, y, block_label, pixel, size, TablesAt(pixels, labels, x, y));
    }

    /**
     * The codel at (x, y), of block `block_label`, is given the block's
     * `size`; the block gets a `ColorBlock` of that size if it has none
     * yet, and the codel is fed to its table.
     */
    method FeedCodel(x: int, y: int, block_label: int, pixel: Pixel, size: int, ghost t0: map<int, Table>)
      requires OneBlockEach() && Tables() == t0 && (block_label in t0 ==> Shaped(t0[block_label]))
      modifies this`sizes, this`color_blocks, color_blocks.Values
      ensures sizes == old(sizes)[(x, y) := size]
      ensures OneBlockEach()
      ensures var t := if block_label in t0 then t0[block_label] else EmptyTable();
        Tables() == t0[block_label := Updated(t, pixel)]
      ensures forall b :: b in color_blocks.Values ==> b in old(color_blocks).Values || fresh(b)
    {
      if block_label !in color_blocks {
        var block := new ColorBlock(size);
        AddBlock(block_label, block);
      }
      ghost var mid := Tables();
      FedOnce(t0, mid, block_label, pixel);
      FeedBlock(block_label, pixel);
      ghost var fed := Tables();
      sizes := sizes[(x, y) := size];
      assert Tables() == fed;
    }

    /** `color_blocks[block_label] = block` for a new block_label and a fresh block. */
    method AddBlock(block_label: int, block: ColorBlock)
      requires OneBlockEach() && block_label !in color_blocks && block !in color_blocks.Values
      requires block.boundary_pixels == EmptyTable()
      modifies this`color_blocks
      ensures color_blocks == old(color_blocks)[block_label := block]
      ensures OneBlockEach() && Tables() == old(Tables())[block_label := EmptyTable()]
    {
      color_blocks := color_blocks[block_label := block];
      forall l
        ensures l in Tables() <==> l in old(Tables())[block_label := EmptyTable()]
        ensures l in Tables() ==> Tables()[l] == old(Tables())[block_label := EmptyTable()][l]
      {
      }
      SameMaps(Tables(), old(Tables())[block_label := EmptyTable()]);
    }

    /** `color_blocks[block_label].update_boundaries(pixel)`: only that block's table changes. */
    method FeedBlock(block_label: int, pixel: Pixel)
      requires OneBlockEach() && block_label in color_blocks && Shaped(color_blocks[block_label].boundary_pixels)
      modifies color_blocks[block_label]
      ensures Tables() == old(Tables())[block_label := Updated(old(Tables())[block_label], pixel)]
    {
      ghost var t := Tables();
      color_blocks[block_label].UpdateBoundaries(pixel);
      forall l | l in color_blocks && l != block_label
        ensures color_blocks[l].boundary_pixels == t[l]
      {
      }
      forall l
        ensures l in Tables() <==> l in t[block_label := Updated(t[block_label], pixel)]
        ensures l in Tables() ==> Tables()[l] == t[block_label := Updated(t[block_label], pixel)][l]
      {
      }
      SameMaps(Tables(), t[block_label := Updated(t[block_label], pixel)]);
    }

    /**
     * `find_color_blocks`: pass 1 labels the codels in raster order, pass
     * 2 sizes them and builds one `ColorBlock` per label.
     */
    method FindColorBlocks()
      requires ImageOk() && labels == map[] && sizes == map[] && color_blocks == map[]
      modifies this`labels, this`sizes, this`color_blocks
      ensures Discovered() && Uniform(pixels, labels)
    {
      LabelCodels();
      BuildBlocks();
    }

    /** Pass 1 of `find_color_blocks`, row by row. */
    method LabelCodels()
      requires ImageOk() && labels == map[]
      modifies this`labels
      ensures Covered(pixels, labels, 0, height) && Joined(pixels, labels) && Uniform(pixels, labels)
      ensures forall c :: c in labels ==> 0 <= labels[c]
    {
      var next_label := 0;
      var y := 0;
      while y < height
        invariant 0 <= y <= height && 0 <= next_label
        invariant Covered(pixels, labels, 0, y) && Joined(pixels, labels) && LabelsBelow(labels, next_label)
        invariant Uniform(pixels, labels)
      {
        next_label := LabelRow(y, next_label);
        y := y + 1;
      }
    }

    /** Pass 2 of `find_color_blocks`, row by row. */
    method BuildBlocks()
      requires ImageOk() && Covered(pixels, labels, 0, height) && Joined(pixels, labels)
      requires forall c :: c in labels ==> 0 <= labels[c]
      requires sizes == map[] && color_blocks == map[]
      modifies this`sizes, this`color_blocks
      ensures Discovered()
    {
      BuiltStart();
      var y := 0;
      while y < height
        invariant 0 <= y <= height && Built(0, y)
        invariant forall b :: b in color_blocks.Values ==> fresh(b)
      {
        BuildRow(y);
        BuiltNextRow(y);
        y := y + 1;
      }
      BuiltIsDiscovered();
    }

    /** Pass 2 starts with no codel sized and no block built. */
    lemma BuiltStart()
      requires ImageOk() && Covered(pixels, labels, 0, height) && sizes == map[] && color_blocks == map[]
      ensures Built(0, 0)
    {
      SizedStart(pixels, labels);
      TablesAtStart(pixels, labels);
    }

    /** Finishing row `y` of pass 2 is starting row `y + 1`. */
    lemma BuiltNextRow(y: int)
      requires ImageOk() && 0 <= y < height && Covered(pixels, labels, 0, height) && Built(width, y)
      ensures Built(0, y + 1)
    {
      SizedNextRow(pixels, labels, sizes, y);
      TablesAtNextRow(pixels, labels, y);
    }
  }
}

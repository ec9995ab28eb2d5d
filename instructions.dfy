/**
 * What each of the 17 `op_*` methods of `Interpreter` does to the part of
 * the interpreter an instruction can touch: the stack (a list whose last
 * entry is the top), dp, cc, the input still unread, the output written so
 * far, and the exception that ends the run.
 */
module Instructions {
  import opened Options
  import opened PyInt
  import opened Codels
  import opened Retry
  import opened Roll
  import opened Operations

  /** The exceptions that end a run early. */
  datatype Fault =
    | NoColorBlock  // KeyError in move_within_color: the codel belongs to no block
    | ZeroDivision  // divide or mod by zero
    | RollIndex     // IndexError inside roll
    | EndOfInput    // get_chr with nothing left to read

  /** What an out-instruction writes to standard output. */
  datatype Written = Number(n: int) | Char(code: int)

  /** The top of a stack whose last entry is its top. */
  function Top(s: seq<int>): int
    requires |s| > 0
  {
    s[|s| - 1]
  }

  /** The entry just below the top. */
  function Second(s: seq<int>): int
    requires |s| > 1
  {
    s[|s| - 2]
  }

  /** The stack without its top `k` entries. */
  function Below(s: seq<int>, k: nat): seq<int>
    requires k <= |s|
  {
    s[..|s| - k]
  }

  /** Python's `abs`. */
  function Abs(n: int): nat {
    if n < 0 then -n else n
  }

  /**
   * Python's `int(c)` on a one-character string: it succeeds exactly on the
   * ten decimal digits, and the digit is the character that many places
   * after '0'.
   */
  function DigitValue(c: char): (r: Option<int>)
    ensures r.Some? <==> '0' <= c <= '9'
    ensures r.Some? ==> 0 <= r.value <= 9 && c as int == '0' as int + r.value
  {
    if '0' <= c <= '9' then Some(c as int - '0' as int) else None
  }

  /** The interpreter state an instruction reads and writes. */
  datatype Machine = Machine(
    stack: seq<int>, dp: int, cc: int, input: seq<char>, output: seq<Written>, fault: Option<Fault>)

  /** Which instructions can raise which exception. */
  predicate Raises(op: Op, f: Fault) {
    (f == ZeroDivision && (op.Divide? || op.Mod?)) ||
    (f == RollIndex && op.Roll?) ||
    (f == EndOfInput && (op.InChar? || op.InNumber?))
  }

  /**
   * `op_roll` on a stack of two or more entries: it pops the number of
   * rolls, then the depth; with a positive depth it performs `|rolls|`
   * single rolls, in reverse for negative rolls, and stops at the first
   * that raises.
   */
  function RollExecuted(m: Machine): Machine
    requires |m.stack| >= 2
  {
    var s, depth, rolls := Below(m.stack, 2), Second(m.stack), Top(m.stack);
    if depth <= 0 || rolls == 0 then m.(stack := s)
    else if s == [] then m.(stack := s, fault := Some(RollIndex))
    else if rolls < 0 && depth >= |s| then m.(stack := s[1..] + [Top(s)], fault := Some(RollIndex))
    else m.(stack := RolledTimes(s, depth, Abs(rolls), rolls < 0))
  }

  /** roll with both operands present is `RollExecuted`. */
  lemma RollIsRollExecuted(size: int, m: Machine)
    requires |m.stack| >= 2
    ensures Executed(Roll, size, m) == RollExecuted(m)
  {
  }

  /**
   * The effect of instruction `op`, run while the current block has `size`
   * codels. An instruction short of operands does nothing; only pointer
   * moves dp, only switch moves cc, only the input instructions read, only
   * the output instructions write, and each exception comes from the
   * instructions that can raise it.
   */
  function Executed(op: Op, size: int, m: Machine): (r: Machine)
    ensures IsDirection(m.dp) ==> IsDirection(r.dp)
    ensures IsChooser(m.cc) ==> IsChooser(r.cc)
    ensures r.fault == m.fault || (r.fault.Some? && Raises(op, r.fault.value))
    ensures !op.Pointer? ==> r.dp == m.dp
    ensures !op.Switch? ==> r.cc == m.cc
    ensures !op.InChar? && !op.InNumber? ==> r.input == m.input
    ensures !op.OutNumber? && !op.OutChar? ==> r.output == m.output
  {
    var s := m.stack;
    match op
    case Add =>
      if |s| < 2 then m else m.(stack := Below(s, 2) + [Top(s) + Second(s)])
    case Divide =>
      if |s| < 2 then m
      else if Top(s) == 0 then m.(stack := Below(s, 2), fault := Some(ZeroDivision))
      else m.(stack := Below(s, 2) + [FloorDiv(Second(s), Top(s))])
    case Greater =>
      if |s| < 2 then m else m.(stack := Below(s, 2) + [if Second(s) > Top(s) then 1 else 0])
    case Duplicate =>
      if |s| < 1 then m else m.(stack := s + [Top(s)])
    case InChar =>
      if m.input == [] then m.(fault := Some(EndOfInput))
      else m.(stack := s + [m.input[0] as int], input := m.input[1..])
    case Push =>
      m.(stack := s + [size])
    case Subtract =>
      if |s| < 2 then m else m.(stack := Below(s, 2) + [Second(s) - Top(s)])
    case Mod =>
      if |s| < 2 then m
      else if Top(s) == 0 then m.(stack := Below(s, 2), fault := Some(ZeroDivision))
      else m.(stack := Below(s, 2) + [FloorMod(Second(s), Top(s))])
    case Pointer =>
      if |s| < 1 then m else m.(stack := Below(s, 1), dp := Rotated(m.dp, Top(s)))
    case Roll =>
      if |s| < 2 then m else RollExecuted(m)
    case OutNumber =>
      if |s| < 1 then m else m.(stack := Below(s, 1), output := m.output + [Number(Top(s))])
    case Pop =>
      if |s| < 1 then m else m.(stack := Below(s, 1))
    case Multiply =>
      if |s| < 2 then m else m.(stack := Below(s, 2) + [Top(s) * Second(s)])
    case Not =>
      if |s| < 1 then m else m.(stack := Below(s, 1) + [if Top(s) == 0 then 1 else 0])
    case Switch =>
      if |s| < 1 then m
      else m.(stack := Below(s, 1), cc := ToggledTimes(m.cc, if Top(s) > 0 then Top(s) else 0))
    case InNumber =>
      if m.input == [] then m.(fault := Some(EndOfInput))
      else
        var c := m.input[0];
        m.(stack := s + (match DigitValue(c) case Some(v) => [v] case None => []), input := m.input[1..])
    case OutChar =>
      if |s| < 1 then m else m.(stack := Below(s, 1), output := m.output + [Char(Top(s))])
  }

  /** The instructions that take two operands. */
  predicate Binary(op: Op) {
    op.Add? || op.Divide? || op.Greater? || op.Subtract? || op.Mod? || op.Roll? || op.Multiply?
  }

  /** The instructions that take one operand. */
  predicate Unary(op: Op) {
    op.Duplicate? || op.Pointer? || op.OutNumber? || op.Pop? || op.Not? || op.Switch? || op.OutChar?
  }

  /** An instruction short of operands leaves the stack and everything else as it was. */
  lemma ShortStackIsNoOp(op: Op, size: int, m: Machine)
    requires (Binary(op) && |m.stack| < 2) || (Unary(op) && |m.stack| < 1)
    ensures Executed(op, size, m) == m
  {
  }

  /**
   * Every instruction of two operands consumes both: whatever it leaves is
   * stacked on the entries below them, which it leaves alone (roll aside,
   * which permutes them).
   */
  lemma BinaryKeepsRest(op: Op, size: int, m: Machine)
    requires Binary(op) && !op.Roll? && |m.stack| >= 2
    ensures var r := Executed(op, size, m).stack;
      |r| <= |m.stack| - 1 && r[..|m.stack| - 2] == Below(m.stack, 2)
  {
  }

  /**
   * divide and mod agree with each other: for a non-zero top `a` and second
   * entry `b`, they push the `q` and `r` of `b == a * q + r` with `r` of
   * the sign of `a` and smaller than it in size.
   */
  lemma DivideModAgree(size: int, m: Machine)
    requires |m.stack| >= 2 && Top(m.stack) != 0
    ensures var a, b := Top(m.stack), Second(m.stack);
      var q, r := Top(Executed(Divide, size, m).stack), Top(Executed(Mod, size, m).stack);
      b == a * q + r && (a > 0 ==> 0 <= r < a) && (a < 0 ==> a < r <= 0)
  {
  }

  /** divide and mod by a zero top both raise, after popping both operands. */
  lemma ZeroDivisorRaises(size: int, m: Machine)
    requires |m.stack| >= 2 && Top(m.stack) == 0
    ensures Executed(Divide, size, m) == Executed(Mod, size, m)
    ensures Executed(Divide, size, m) == m.(stack := Below(m.stack, 2), fault := Some(ZeroDivision))
  {
  }

  /**
   * roll loses and duplicates none of the entries below its two operands,
   * unless it raises (a reverse roll as deep as the stack raises after
   * shifting all but the top entry down, which loses the bottom entry).
   */
  lemma RollPermutes(size: int, m: Machine)
    requires |m.stack| >= 2 && m.fault.None?
    ensures var r := Executed(Op.Roll, size, m);
      r.fault.None? ==> multiset(r.stack) == multiset(Below(m.stack, 2))
  {
    var s, depth, rolls := Below(m.stack, 2), Second(m.stack), Top(m.stack);
    if depth > 0 && rolls != 0 && s != [] && !(rolls < 0 && depth >= |s|) {
      RolledTimesPermutes(s, depth, Abs(rolls), rolls < 0);
    }
  }

  /** switch flips cc exactly when its operand is positive and odd. */
  lemma SwitchParity(size: int, m: Machine)
    requires |m.stack| >= 1 && IsChooser(m.cc)
    ensures var a := Top(m.stack);
      Executed(Switch, size, m).cc == if a > 0 && a % 2 == 1 then 1 - m.cc else m.cc
  {
    var a := Top(m.stack);
    ToggledTimesIsParity(m.cc, if a > 0 then a else 0);
  }

  /** duplicate followed by pop, and push followed by pop, give back the machine. */
  lemma PopUndoesPush(size: int, m: Machine)
    ensures |m.stack| >= 1 ==> Executed(Pop, size, Executed(Duplicate, size, m)) == m
    ensures Executed(Pop, size, Executed(Push, size, m)) == m
  {
    assert Below(m.stack + [size], 1) == m.stack;
    if |m.stack| >= 1 {
      assert Below(m.stack + [Top(m.stack)], 1) == m.stack;
    }
  }

  /** in-char followed by out-char echoes one input character to the output. */
  lemma InCharOutCharEchoes(size: int, m: Machine)
    requires m.input != []
    ensures Executed(OutChar, size, Executed(InChar, size, m)) ==
      m.(input := m.input[1..], output := m.output + [Char(m.input[0] as int)])
  {
    assert Below(m.stack + [m.input[0] as int], 1) == m.stack;
  }

  /** in-number on a digit pushes the digit's value; on anything else it only consumes it. */
  lemma InNumberReadsDigit(size: int, m: Machine)
    requires m.input != []
    ensures var r, c := Executed(InNumber, size, m), m.input[0];
      r.input == m.input[1..] && r.fault == m.fault &&
      ('0' <= c <= '9' ==> r.stack == m.stack + [c as int - '0' as int]) &&
      (!('0' <= c <= '9') ==> r.stack == m.stack)
  {
  }
}

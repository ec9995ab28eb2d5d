/**
 * The instruction table of `Interpreter.__init__`: which Piet instruction a
 * crossing performs, keyed by (hue change, lightness change) between the
 * colour left and the colour entered.
 */
module Operations {
  import opened Options

  /** The seventeen Piet instructions. */
  datatype Op =
    | Add | Divide | Greater | Duplicate | InChar
    | Push | Subtract | Mod | Pointer | Roll | OutNumber
    | Pop | Multiply | Not | Switch | InNumber | OutChar

  /** A key (hue change, lightness change) as `hue_light_diff` produces them. */
  predicate IsKey(key: (int, int)) {
    0 <= key.0 < 6 && 0 <= key.1 < 3
  }

  /**
   * `self.operations[key]`, or `None` where the dictionary has no entry. The
   * table has an entry for every key a colour change can produce except
   * (0, 0), "no change", and for nothing else.
   */
  function Operation(key: (int, int)): (r: Option<Op>)
    ensures r.Some? <==> IsKey(key) && key != (0, 0)
  {
    match key
    case (1, 0) => Some(Add)
    case (2, 0) => Some(Divide)
    case (3, 0) => Some(Greater)
    case (4, 0) => Some(Duplicate)
    case (5, 0) => Some(InChar)
    case (0, 1) => Some(Push)
    case (1, 1) => Some(Subtract)
    case (2, 1) => Some(Mod)
    case (3, 1) => Some(Pointer)
    case (4, 1) => Some(Roll)
    case (5, 1) => Some(OutNumber)
    case (0, 2) => Some(Pop)
    case (1, 2) => Some(Multiply)
    case (2, 2) => Some(Not)
    case (3, 2) => Some(Switch)
    case (4, 2) => Some(InNumber)
    case (5, 2) => Some(OutChar)
    case _ => None
  }

  /** The key under which the table files an instruction. */
  function KeyOf(op: Op): (key: (int, int))
    ensures IsKey(key) && key != (0, 0)
    ensures Operation(key) == Some(op)
  {
    match op
    case Add => (1, 0)
    case Divide => (2, 0)
    case Greater => (3, 0)
    case Duplicate => (4, 0)
    case InChar => (5, 0)
    case Push => (0, 1)
    case Subtract => (1, 1)
    case Mod => (2, 1)
    case Pointer => (3, 1)
    case Roll => (4, 1)
    case OutNumber => (5, 1)
    case Pop => (0, 2)
    case Multiply => (1, 2)
    case Not => (2, 2)
    case Switch => (3, 2)
    case InNumber => (4, 2)
    case OutChar => (5, 2)
  }

  /** Each entry is filed under one key only: no two keys share an instruction. */
  lemma OperationKeyOf(key: (int, int))
    requires Operation(key).Some?
    ensures KeyOf(Operation(key).value) == key
  {
  }
}

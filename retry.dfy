/**
 * The direction-pointer / codel-chooser bookkeeping of the interpreter:
 * `toggle_cc`, `rotate_dp` and the retry protocol of `hit_obstruction`.
 */
module Retry {
  import opened PyInt
  import opened Codels

  /** `toggle_cc`: the chooser flipped between left (0) and right (1). */
  function Toggled(cc: int): (r: int)
    ensures IsChooser(cc) ==> IsChooser(r) && r != cc
  {
    1 - cc
  }

  /** The code computes the toggle as the quotient of `divmod(1 - cc, 1)`; that is `Toggled`. */
  lemma ToggledIsQuotient(cc: int)
    ensures Toggled(cc) == FloorDiv(1 - cc, 1)
  {
  }

  /**
   * `rotate_dp(times)`: the remainder of `divmod(dp + times, 4)`, a
   * direction whatever the sign of `times`, `times` quarter turns clockwise
   * from `dp`.
   */
  function Rotated(dp: int, times: int): (r: int)
    ensures IsDirection(r)
    ensures (dp + times - r) % 4 == 0
  {
    (dp + times) % 4
  }

  /**
   * The code computes the rotation as the remainder of Python's
   * `divmod(dp + times, 4)`, which floors; for the divisor 4 that is `Rotated`
   * for every sign of `times`.
   */
  lemma RotatedIsFloorRemainder(dp: int, times: int)
    ensures Rotated(dp, times) == FloorMod(dp + times, 4)
  {
  }

  /** Rotating twice is rotating by the sum. */
  lemma RotatedTwice(dp: int, a: int, b: int)
    ensures Rotated(Rotated(dp, a), b) == Rotated(dp, a + b)
  {
  }

  /** The interpreter fields the retry protocol reads and writes. */
  datatype Control = Control(dp: int, cc: int, switch_cc: bool, times_stopped: int, terminated: bool)

  /** The control state right after a successful crossing: no obstruction yet, chooser first. */
  function AfterCrossing(dp: int, cc: int): Control {
    Control(dp, cc, true, 0, false)
  }

  /**
   * `hit_obstruction`: count the obstruction; at the eighth, stop the
   * program; otherwise toggle the chooser or, every other time, turn the
   * direction pointer a quarter clockwise.
   */
  function Obstructed(s: Control): (r: Control)
    ensures r.times_stopped == s.times_stopped + 1
    ensures r.terminated <==> s.terminated || r.times_stopped >= 8
    ensures IsDirection(s.dp) && IsChooser(s.cc) ==> IsDirection(r.dp) && IsChooser(r.cc)
  {
    var t := s.times_stopped + 1;
    if t >= 8 then s.(times_stopped := t, terminated := true)
    else if s.switch_cc then s.(times_stopped := t, cc := Toggled(s.cc), switch_cc := false)
    else s.(times_stopped := t, dp := Rotated(s.dp, 1), switch_cc := true)
  }

  /** The control state after `k` consecutive obstructions. */
  function ObstructedTimes(s: Control, k: nat): Control {
    if k == 0 then s else Obstructed(ObstructedTimes(s, k - 1))
  }

  lemma ObstructedOnceMore(s: Control, k: nat)
    ensures ObstructedTimes(s, k + 1) == Obstructed(ObstructedTimes(s, k))
  {
  }

  /** An obstruction with the chooser's turn pending toggles the chooser. */
  lemma ToggleStep(s: Control)
    requires s.switch_cc && s.times_stopped < 7
    ensures Obstructed(s) == Control(s.dp, Toggled(s.cc), false, s.times_stopped + 1, s.terminated)
  {
  }

  /** An obstruction with the direction pointer's turn pending turns it a quarter clockwise. */
  lemma TurnStep(s: Control)
    requires !s.switch_cc && s.times_stopped < 7
    ensures Obstructed(s) == Control(Rotated(s.dp, 1), s.cc, true, s.times_stopped + 1, s.terminated)
  {
  }

  /** The chooser after `n` toggles. */
  function ToggledTimes(cc: int, n: nat): (r: int)
    ensures IsChooser(cc) ==> IsChooser(r)
  {
    if n == 0 then cc else Toggled(ToggledTimes(cc, n - 1))
  }

  /** Two toggles give back the chooser, so only the parity of `n` matters. */
  lemma {:induction false} ToggledTimesParity(cc: int, n: nat)
    ensures ToggledTimes(cc, n + 2) == ToggledTimes(cc, n)
    ensures ToggledTimes(cc, n) == cc || ToggledTimes(cc, n) == 1 - cc
  {
    if n > 0 {
      ToggledTimesParity(cc, n - 1);
    }
  }

  /** `n` toggles flip a chooser exactly when `n` is odd. */
  lemma {:induction false} ToggledTimesIsParity(cc: int, n: nat)
    ensures ToggledTimes(cc, n) == if n % 2 == 0 then cc else Toggled(cc)
  {
    if n >= 2 {
      ToggledTimesIsParity(cc, n - 2);
      ToggledTimesParity(cc, n - 2);
    } else if n == 1 {
      assert ToggledTimes(cc, 0) == cc;
    }
  }

  /**
   * Fewer than eight obstructions in a row after a crossing: after `2m`
   * of them the chooser has been toggled `m` times and the direction
   * pointer turned `m` quarter turns; the next one toggles the chooser once
   * more; and the program still runs.
   */
  lemma {:induction false} RetriesAfterCrossing(dp: int, cc: int, m: nat)
    requires IsDirection(dp) && IsChooser(cc) && m < 4
    ensures ObstructedTimes(AfterCrossing(dp, cc), 2 * m) ==
      Control(Rotated(dp, m), ToggledTimes(cc, m), true, 2 * m, false)
    ensures ObstructedTimes(AfterCrossing(dp, cc), 2 * m + 1) ==
      Control(Rotated(dp, m), ToggledTimes(cc, m + 1), false, 2 * m + 1, false)
  {
    var start := AfterCrossing(dp, cc);
    var even := Control(Rotated(dp, m), ToggledTimes(cc, m), true, 2 * m, false);
    if m > 0 {
      RetriesAfterCrossing(dp, cc, m - 1);
      // the direction pointer's turn
      var odd := Control(Rotated(dp, m - 1), ToggledTimes(cc, m), false, 2 * m - 1, false);
      assert ObstructedTimes(start, 2 * m - 1) == odd;
      ObstructedOnceMore(start, 2 * m - 1);
      assert ObstructedTimes(start, 2 * m) == Obstructed(odd);
      TurnStep(odd);
      RotatedTwice(dp, m - 1, 1);
      assert Obstructed(odd) == even;
    }
    // the chooser's turn
    ObstructedOnceMore(start, 2 * m);
    ToggleStep(even);
    assert ToggledTimes(cc, m + 1) == Toggled(ToggledTimes(cc, m));
  }

  /**
   * The eighth obstruction in a row after a crossing stops the program
   * (the seven before it do not: see `RetriesAfterCrossing`).
   */
  lemma EighthObstructionStops(dp: int, cc: int)
    requires IsDirection(dp) && IsChooser(cc)
    ensures ObstructedTimes(AfterCrossing(dp, cc), 8).terminated
    ensures ObstructedTimes(AfterCrossing(dp, cc), 8).times_stopped == 8
  {
    RetriesAfterCrossing(dp, cc, 3);
    ObstructedOnceMore(AfterCrossing(dp, cc), 7);
  }
}

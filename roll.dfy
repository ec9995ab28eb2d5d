/**
 * The Piet roll instruction as `Interpreter.roll` performs it: a single roll
 * of the stack (a list whose last element is the top), forwards or, as the
 * code does it, "in reverse".
 */
module Roll {

  /** The depth a single roll works to: `depth`, cut down to the stack's length. */
  function Clamped(depth: int, n: nat): (d: int)
    ensures d <= n && d <= depth && (d == n || d == depth)
  {
    if depth > n then n else depth
  }

  /**
   * A forward single roll: the top entry is buried at index `|s| - d`
   * (`d` the clamped depth) and the entries from there up move one place up.
   */
  function ForwardRolled(s: seq<int>, depth: int): (r: seq<int>)
    requires |s| > 0 && depth > 0
    ensures |r| == |s|
  {
    var k := |s| - Clamped(depth, |s|);
    s[..k] + [s[|s| - 1]] + s[k..|s| - 1]
  }

  /**
   * What a forward single roll does, entry by entry: the entries below index
   * `|s| - d` stay put, the old top lands at that index, and each entry from
   * there to the second from the top moves one place up.
   */
  lemma ForwardRolledMoves(s: seq<int>, depth: int)
    requires |s| > 0 && depth > 0
    ensures var r, k := ForwardRolled(s, depth), |s| - Clamped(depth, |s|);
      (forall i :: 0 <= i < k ==> r[i] == s[i]) && r[k] == s[|s| - 1] &&
      (forall i :: k < i < |s| ==> r[i] == s[i - 1])
  {
  }

  /** A forward single roll loses and duplicates nothing. */
  lemma ForwardRolledPermutes(s: seq<int>, depth: int)
    requires |s| > 0 && depth > 0
    ensures multiset(ForwardRolled(s, depth)) == multiset(s)
  {
    var k := |s| - Clamped(depth, |s|);
    assert s == s[..k] + s[k..|s| - 1] + [s[|s| - 1]];
  }

  /**
   * A single roll with `reverse` set, as written: the BOTTOM entry moves up
   * to index `depth` and the `depth` entries above it each move one place
   * down. It reads `s[depth]`, so it needs `depth < |s|`.
   */
  function ReverseRolled(s: seq<int>, depth: int): (r: seq<int>)
    requires 0 < depth < |s|
    ensures |r| == |s|
  {
    s[1..depth + 1] + [s[0]] + s[depth + 1..]
  }

  /**
   * What a reverse single roll does, entry by entry: everything above index
   * `depth` stays put, the bottom entry lands at `depth`, and the entries
   * from index 1 to `depth` move one place down.
   */
  lemma ReverseRolledMoves(s: seq<int>, depth: int)
    requires 0 < depth < |s|
    ensures var r := ReverseRolled(s, depth);
      (forall i :: depth < i < |s| ==> r[i] == s[i]) && r[depth] == s[0] &&
      (forall i :: 0 <= i < depth ==> r[i] == s[i + 1])
  {
  }

  /** A reverse single roll loses and duplicates nothing. */
  lemma ReverseRolledPermutes(s: seq<int>, depth: int)
    requires 0 < depth < |s|
    ensures multiset(ReverseRolled(s, depth)) == multiset(s)
  {
    assert s == [s[0]] + s[1..depth + 1] + s[depth + 1..];
  }

  /** `k` single rolls in a row. */
  function RolledTimes(s: seq<int>, depth: int, k: nat, reverse: bool): (r: seq<int>)
    requires k > 0 ==> depth > 0 && (if reverse then depth < |s| else |s| > 0)
    ensures |r| == |s|
  {
    if k == 0 then s
    else
      var t := RolledTimes(s, depth, k - 1, reverse);
      if reverse then ReverseRolled(t, depth) else ForwardRolled(t, depth)
  }

  /** One more single roll loses and duplicates nothing. */
  lemma RolledOnceMorePermutes(s: seq<int>, depth: int, k: nat, reverse: bool)
    requires k > 0 && depth > 0 && (if reverse then depth < |s| else |s| > 0)
    requires multiset(RolledTimes(s, depth, k - 1, reverse)) == multiset(s)
    ensures multiset(RolledTimes(s, depth, k, reverse)) == multiset(s)
  {
    var t := RolledTimes(s, depth, k - 1, reverse);
    if reverse {
      ReverseRolledPermutes(t, depth);
    } else {
      ForwardRolledPermutes(t, depth);
    }
  }

  /** Any number of single rolls in a row loses and duplicates nothing. */
  lemma RolledTimesPermutes(s: seq<int>, depth: int, k: nat, reverse: bool)
    requires k > 0 ==> depth > 0 && (if reverse then depth < |s| else |s| > 0)
    ensures multiset(RolledTimes(s, depth, k, reverse)) == multiset(s)
  {
    var i := 0;
    while i < k
      invariant 0 <= i <= k
      invariant multiset(RolledTimes(s, depth, i, reverse)) == multiset(s)
    {
      i := i + 1;
      RolledOnceMorePermutes(s, depth, i, reverse);
    }
  }

  /** The top `d` entries of `s` rotated `k` places towards the top-to-bottom direction. */
  function RotatedTop(s: seq<int>, d: nat, k: nat): seq<int>
    requires d <= |s| && k <= d
  {
    var n := |s|;
    s[..n - d] + s[n - k..] + s[n - d..n - k]
  }

  lemma RotatedTopNone(s: seq<int>, d: nat)
    requires d <= |s|
    ensures RotatedTop(s, d, 0) == s
  {
    assert s[|s|..] == [] && s[|s| - d..|s|] == s[|s| - d..];
    assert s == s[..|s| - d] + s[|s| - d..];
  }

  lemma RotatedTopFull(s: seq<int>, d: nat)
    requires d <= |s|
    ensures RotatedTop(s, d, d) == s
  {
    assert s[|s| - d..|s| - d] == [];
    assert s == s[..|s| - d] + s[|s| - d..];
  }

  /** Dropping the last entry of a concatenation with a non-empty right part. */
  lemma DropLastOfConcat(b: seq<int>, c: seq<int>)
    requires |c| > 0
    ensures (b + c)[..|b + c| - 1] == b + c[..|c| - 1]
  {
  }

  lemma Regrouped(a: seq<int>, b: seq<int>, c: seq<int>, e: seq<int>)
    ensures a + b + (c + e) == a + (b + c) + e
  {
  }

  /** One more forward roll at depth `d` rotates the top `d` entries one place further. */
  lemma ForwardRollRotatesOnce(s: seq<int>, d: int, k: nat)
    requires 0 < d <= |s| && 0 < k <= d
    ensures ForwardRolled(RotatedTop(s, d, k - 1), d) == RotatedTop(s, d, k)
  {
    var n, m := |s|, |s| - d;
    // RotatedTop(s, d, k - 1) is below + moved + rest
    var below, moved, rest := s[..m], s[n - k + 1..], s[m..n - k + 1];
    var t := RotatedTop(s, d, k - 1);
    assert |t| == n && Clamped(d, n) == d;
    assert t == below + (moved + rest);
    assert |rest| > 0 && rest[|rest| - 1] == s[n - k] && rest[..|rest| - 1] == s[m..n - k];
    assert t[..m] == below;
    assert t[m..] == moved + rest;
    assert t[n - 1] == s[n - k];
    DropLastOfConcat(moved, rest);
    assert t[m..n - 1] == (moved + rest)[..|moved + rest| - 1];
    assert [s[n - k]] + moved == s[n - k..];
    assert ForwardRolled(t, d) == below + [s[n - k]] + (moved + s[m..n - k]);
    Regrouped(below, [s[n - k]], moved, s[m..n - k]);
  }

  /** After `k <= d` forward rolls at depth `d`, the top `d` entries are rotated by `k`. */
  lemma {:induction false} ForwardRollsRotate(s: seq<int>, d: int, k: nat)
    requires 0 < d <= |s| && k <= d
    ensures RolledTimes(s, d, k, false) == RotatedTop(s, d, k)
  {
    if k == 0 {
      RotatedTopNone(s, d);
    } else {
      var t := RolledTimes(s, d, k - 1, false);
      ForwardRollsRotate(s, d, k - 1);
      assert t == RotatedTop(s, d, k - 1);
      ForwardRollRotatesOnce(s, d, k);
      calc {
        RolledTimes(s, d, k, false);
        ForwardRolled(t, d);
        ForwardRolled(RotatedTop(s, d, k - 1), d);
      }
    }
  }

  /** `d` forward rolls at depth `d` give back the original stack. */
  lemma FullCycleRestores(s: seq<int>, d: int)
    requires 0 < d <= |s|
    ensures RolledTimes(s, d, d, false) == s
  {
    ForwardRollsRotate(s, d, d);
    RotatedTopFull(s, d);
  }

  /** Example: [1, 2, 3, 4] rolled once to depth 3. */
  lemma ForwardRollExample()
    ensures ForwardRolled([1, 2, 3, 4], 3) == [1, 4, 2, 3]
  {
  }

  /**
   * The reverse roll as written does not undo the forward roll: it works
   * at the bottom of the stack, not on the top `depth` entries.
   */
  lemma ReverseRollDoesNotUndoForward()
    ensures ReverseRolled([1, 2, 3, 4], 3) == [2, 3, 4, 1]
    ensures ReverseRolled(ForwardRolled([1, 2, 3, 4], 3), 3) != [1, 2, 3, 4]
  {
    assert ForwardRolled([1, 2, 3, 4], 3) == [1, 4, 2, 3];
  }
}

/** The two edge sweeps of the per-bit deskew of the DDR3 sequencer.
  *
  * A test is an oracle on (sweep, bit, DQ delay, DQS delay).  Within one run of the deskew
  * every setting is tested at most once per sweep, so an arbitrary oracle is an arbitrarily
  * noisy interface.
  */
module EdgeSweeps {

  datatype Sweep = LeftSweep | RightSweep

  /** The read and the write deskew share one scheme but seed and stop it differently. */
  datatype Side = ReadSide | WriteSide

  type Tester = (Sweep, nat, int, int) -> bool

  /** Answer for one bit `d` taps into a sweep: the left sweep raises every DQ delay from 0, the
    * right sweep leaves the DQ delays at 0 and raises DQS from where it started.
    */
  function Answer(t: Tester, sw: Sweep, start: int, i: nat, d: nat): bool {
    match sw
    case LeftSweep => t(sw, i, d, start)
    case RightSweep => t(sw, i, 0, start + d)
  }

  /** The last of the first `k` taps on which the bit passed, or -1. */
  ghost function LastPass(t: Tester, sw: Sweep, start: int, i: nat, k: nat): (r: int)
    ensures -1 <= r < k
    ensures r >= 0 ==> Answer(t, sw, start, i, r)
    ensures forall d: nat :: r < d < k ==> !Answer(t, sw, start, i, d)
  {
    if k == 0 then -1
    else if Answer(t, sw, start, i, k - 1) then k - 1
    else LastPass(t, sw, start, i, k - 1)
  }

  /** The first of the first `k` taps on which the bit passed, or `k`. */
  ghost function FirstPass(t: Tester, sw: Sweep, start: int, i: nat, k: nat): (r: int)
    ensures 0 <= r <= k
    ensures r < k ==> Answer(t, sw, start, i, r)
    ensures forall d: nat :: d < r ==> !Answer(t, sw, start, i, d)
  {
    if k == 0 then 0
    else
      var r := FirstPass(t, sw, start, i, k - 1);
      if r < k - 1 || Answer(t, sw, start, i, k - 1) then r else k
  }

  /** The bit passed one of the first `k` taps of the sweep. */
  ghost predicate Seen(t: Tester, sw: Sweep, start: int, i: nat, k: nat) {
    LastPass(t, sw, start, i, k) != -1
  }

  ghost predicate NonePass(t: Tester, sw: Sweep, start: int, n: nat, d: nat) {
    forall i: nat :: i < n ==> !Answer(t, sw, start, i, d)
  }

  /** Edges of one bit after `k` recorded taps of the left sweep, before and after the
    * meaningless right edges are withdrawn.
    */
  ghost function LeftSoFar(t: Tester, start: int, i: nat, k: nat, none: int): int {
    var l := LastPass(t, LeftSweep, start, i, k);
    if l == -1 then none else l
  }

  ghost function RawRight(t: Tester, start: int, i: nat, k: nat, none: int): int {
    var f := FirstPass(t, LeftSweep, start, i, k);
    if f == 0 then none else -f
  }

  ghost function SeedRight(t: Tester, start: int, i: nat, k: nat, none: int): int {
    if LastPass(t, LeftSweep, start, i, k) == -1 then none else RawRight(t, start, i, k, none)
  }

  /** Edges of one bit after `k` recorded taps of the left and `m` of the right sweep. */
  ghost function LeftEdge(t: Tester, start: int, i: nat, k: nat, m: nat, none: int): int {
    if LastPass(t, LeftSweep, start, i, k) != -1 then LastPass(t, LeftSweep, start, i, k)
    else if FirstPass(t, RightSweep, start, i, m) == 0 then none
    else -FirstPass(t, RightSweep, start, i, m)
  }

  ghost function RightSoFar(t: Tester, start: int, i: nat, k: nat, m: nat, none: int): int {
    if LastPass(t, RightSweep, start, i, m) != -1 then LastPass(t, RightSweep, start, i, m)
    else if SeedRight(t, start, i, k, none) != none then SeedRight(t, start, i, k, none)
    else if LastPass(t, LeftSweep, start, i, k) != -1 && m > 0 then -1
    else none
  }

  ghost function RightEdge(t: Tester, start: int, i: nat, k: nat, m: nat, none: int): int {
    if LastPass(t, RightSweep, start, i, m) != -1 then LastPass(t, RightSweep, start, i, m)
    else if SeedRight(t, start, i, k, none) != none then SeedRight(t, start, i, k, none)
    else if LastPass(t, LeftSweep, start, i, k) != -1 then -1
    else none
  }

  /** The left sweep may stop at tap `k`: nothing passes there and every bit has passed before. */
  ghost predicate LeftStop(t: Tester, start: int, n: nat, k: nat) {
    && NonePass(t, LeftSweep, start, n, k)
    && forall i: nat :: i < n ==> Seen(t, LeftSweep, start, i, k)
  }

  /** A bit that the right sweep need not wait for. */
  ghost predicate Settled(t: Tester, side: Side, start: int, i: nat, k: nat, none: int) {
    && LastPass(t, LeftSweep, start, i, k) != -1
    && (side == ReadSide ==> SeedRight(t, start, i, k, none) != none)
  }

  ghost predicate RightStop(t: Tester, side: Side, start: int, n: nat, k: nat, m: nat, none: int) {
    && NonePass(t, RightSweep, start, n, m)
    && forall i: nat :: i < n ==> Settled(t, side, start, i, k, none) || Seen(t, RightSweep, start, i, m)
  }

  /** How many taps each sweep records: all of them, or up to the first permitted stop. */
  ghost predicate LeftTaps(t: Tester, start: int, n: nat, dqMax: nat, k: nat) {
    && k <= dqMax + 1
    && (k <= dqMax ==> LeftStop(t, start, n, k))
    && NoEarlierLeftStop(t, start, n, k)
  }

  ghost predicate NoEarlierLeftStop(t: Tester, start: int, n: nat, k: nat) {
    forall d: nat :: d < k ==> !LeftStop(t, start, n, d)
  }

  ghost predicate RightTaps(t: Tester, side: Side, start: int, n: nat, k: nat, room: nat, m: nat, none: int) {
    && m <= room + 1
    && (m <= room ==> RightStop(t, side, start, n, k, m, none))
    && NoEarlierStop(t, side, start, n, k, m, none)
  }

  ghost predicate NoEarlierStop(t: Tester, side: Side, start: int, n: nat, k: nat, m: nat, none: int) {
    forall d: nat :: d < m ==> !RightStop(t, side, start, n, k, d, none)
  }

  lemma NoStopYet(t: Tester, side: Side, start: int, n: nat, k: nat, m: nat, none: int)
    requires NoEarlierStop(t, side, start, n, k, m, none) && !RightStop(t, side, start, n, k, m, none)
    ensures NoEarlierStop(t, side, start, n, k, m + 1, none)
  {
    forall d: nat | d < m + 1
      ensures !RightStop(t, side, start, n, k, d, none)
    {
      if d == m {
        assert !RightStop(t, side, start, n, k, m, none);
      }
    }
  }

  // ------------------------------------------------------------------ registers

  /** A snapshot of the delay registers of one group. */
  datatype Regs = Regs(n: nat, bgn: nat, dqMax: nat, dqsMax: nat, dq: seq<int>, dqs: int) {
    ghost predicate Valid() {
      && 0 < n
      && bgn + n <= |dq|
      && dqsMax <= dqMax
      && 0 <= dqs <= dqsMax
      && forall p :: 0 <= p < |dq| ==> 0 <= dq[p] <= dqMax
    }
  }

  /** SCC delay registers of one group: one DQ register a pin, the group's pins starting at
    * `bgn`, and the DQS register.
    */
  class SccGroup {
    const n: nat
    const bgn: nat
    const dqMax: nat
    const dqsMax: nat
    const dq: array<int>
    var dqs: int

    ghost predicate Valid()
      reads this, dq
    {
      && 0 < n
      && bgn + n <= dq.Length
      && dqsMax <= dqMax
      && 0 <= dqs <= dqsMax
      && forall p :: 0 <= p < dq.Length ==> 0 <= dq[p] <= dqMax
    }

    ghost function State(): (s: Regs)
      reads this, dq
      ensures Valid() <==> s.Valid()
    {
      Regs(n, bgn, dqMax, dqsMax, dq[..], dqs)
    }

    constructor (pins: nat, bgn: nat, n: nat, dqMax: nat, dqsMax: nat, dqs: nat)
      requires 0 < n && bgn + n <= pins && dqs <= dqsMax <= dqMax
      ensures Valid() && fresh(dq)
      ensures this.n == n && this.bgn == bgn && this.dqMax == dqMax && this.dqsMax == dqsMax
      ensures this.dqs == dqs && dq.Length == pins && forall p :: 0 <= p < pins ==> dq[p] == 0
    {
      this.n, this.bgn, this.dqMax, this.dqsMax, this.dqs := n, bgn, dqMax, dqsMax, dqs;
      this.dq := new int[pins](_ => 0);
    }

    /** All DQ registers of the group hold `delay`. */
    ghost predicate GroupAt(delay: int)
      requires bgn + n <= dq.Length
      reads dq
    {
      forall p :: bgn <= p < bgn + n ==> dq[p] == delay
    }

    method ApplyGroupDq(delay: int)
      requires Valid() && 0 <= delay <= dqMax
      modifies dq
      ensures Valid() && GroupAt(delay)
      ensures forall p :: 0 <= p < dq.Length && !(bgn <= p < bgn + n) ==> dq[p] == old(dq[p])
    {
      for i := 0 to n
        invariant Valid()
        invariant forall p :: bgn <= p < bgn + i ==> dq[p] == delay
        invariant forall p :: 0 <= p < dq.Length && !(bgn <= p < bgn + n) ==> dq[p] == old(dq[p])
      {
        dq[bgn + i] := delay;
      }
    }

    /** One test at the present register settings: a result a bit, and whether any bit passed. */
    method Test(t: Tester, sw: Sweep) returns (bits: seq<bool>, any: bool)
      requires Valid()
      ensures |bits| == n
      ensures forall i: nat :: i < n ==> bits[i] == t(sw, i, dq[bgn + i], dqs)
      ensures any <==> exists i: nat :: i < n && bits[i]
    {
      var delays, strobe := dq[bgn..bgn + n], dqs;
      bits := seq(n, i requires 0 <= i < |delays| => t(sw, i, delays[i], strobe));
      any := exists i :: 0 <= i < n && bits[i];
    }

    // ---------------------------------------------------------------- left sweep

    /** Records one tap of the left sweep. */
    method RecordLeft(t: Tester, d: nat, bits: seq<bool>, left: array<int>, right: array<int>)
      requires left.Length == n && right.Length == n && left != right && |bits| == n && d <= dqMax
      requires forall i: nat :: i < n ==> bits[i] == Answer(t, LeftSweep, dqs, i, d)
      requires forall i: nat :: i < n ==> left[i] == LeftSoFar(t, dqs, i, d, dqMax + 1)
      requires forall i: nat :: i < n ==> right[i] == RawRight(t, dqs, i, d, dqMax + 1)
      modifies left, right
      ensures forall i: nat :: i < n ==> left[i] == LeftSoFar(t, dqs, i, d + 1, dqMax + 1)
      ensures forall i: nat :: i < n ==> right[i] == RawRight(t, dqs, i, d + 1, dqMax + 1)
    {
      for i := 0 to n
        invariant forall j: nat :: j < i ==> left[j] == LeftSoFar(t, dqs, j, d + 1, dqMax + 1)
        invariant forall j: nat :: j < i ==> right[j] == RawRight(t, dqs, j, d + 1, dqMax + 1)
        invariant forall j: nat :: i <= j < n ==> left[j] == LeftSoFar(t, dqs, j, d, dqMax + 1)
        invariant forall j: nat :: i <= j < n ==> right[j] == RawRight(t, dqs, j, d, dqMax + 1)
      {
        if bits[i] {
          left[i] := d;
        } else if left[i] == dqMax + 1 {
          right[i] := -(d + 1);
        }
      }
    }

    /** Withdraws the right edge of every bit whose left edge was never found. */
    method WithdrawRight(t: Tester, ghost k: nat, left: array<int>, right: array<int>)
      requires left.Length == n && right.Length == n && left != right && k <= dqMax + 1
      requires forall i: nat :: i < n ==> left[i] == LeftSoFar(t, dqs, i, k, dqMax + 1)
      requires forall i: nat :: i < n ==> right[i] == RawRight(t, dqs, i, k, dqMax + 1)
      modifies right
      ensures forall i: nat :: i < n ==> right[i] == SeedRight(t, dqs, i, k, dqMax + 1)
    {
      for i := 0 to n
        invariant forall j: nat :: j < i ==> right[j] == SeedRight(t, dqs, j, k, dqMax + 1)
        invariant forall j: nat :: i <= j < n ==> right[j] == RawRight(t, dqs, j, k, dqMax + 1)
      {
        if left[i] == dqMax + 1 && right[i] != dqMax + 1 {
          right[i] := dqMax + 1;
        }
      }
    }

    /** One test of the left sweep, with every DQ delay at `d`. */
    method TestDelayed(t: Tester, d: nat) returns (bits: seq<bool>, any: bool)
      requires Valid() && d <= dqMax
      modifies dq
      ensures Valid()
      ensures forall p :: 0 <= p < dq.Length && !(bgn <= p < bgn + n) ==> dq[p] == old(dq[p])
      ensures |bits| == n && forall i: nat :: i < n ==> bits[i] == Answer(t, LeftSweep, dqs, i, d)
      ensures any <==> exists i: nat :: i < n && bits[i]
    {
      ApplyGroupDq(d);
      bits, any := Test(t, LeftSweep);
    }

    method ClearEdges(t: Tester, left: array<int>, right: array<int>)
      requires left.Length == n && right.Length == n && left != right
      modifies left, right
      ensures forall i: nat :: i < n ==> left[i] == LeftSoFar(t, dqs, i, 0, dqMax + 1)
      ensures forall i: nat :: i < n ==> right[i] == RawRight(t, dqs, i, 0, dqMax + 1)
    {
      for i := 0 to n
        invariant forall j :: 0 <= j < i ==> left[j] == dqMax + 1 && right[j] == dqMax + 1
      {
        left[i], right[i] := dqMax + 1, dqMax + 1;
      }
    }

    method LeftEdges(t: Tester, left: array<int>, right: array<int>) returns (ghost k: nat)
      requires Valid()
      requires left.Length == n && right.Length == n && left != right && left != dq && right != dq
      modifies dq, left, right
      ensures Valid() && GroupAt(0)
      ensures forall p :: 0 <= p < dq.Length && !(bgn <= p < bgn + n) ==> dq[p] == old(dq[p])
      ensures LeftTaps(t, dqs, n, dqMax, k)
      ensures forall i: nat :: i < n ==> left[i] == LeftSoFar(t, dqs, i, k, dqMax + 1)
      ensures forall i: nat :: i < n ==> right[i] == SeedRight(t, dqs, i, k, dqMax + 1)
    {
      var sticky: seq<bool> := seq(n, _ => false);
      ClearEdges(t, left, right);
      k := 0;
      var d := 0;
      while d <= dqMax
        invariant Valid() && 0 <= d <= dqMax + 1 && k == d
        invariant forall p :: 0 <= p < dq.Length && !(bgn <= p < bgn + n) ==> dq[p] == old(dq[p])
        invariant |sticky| == n
        invariant forall i: nat :: i < n ==> (sticky[i] <==> Seen(t, LeftSweep, dqs, i, d))
        invariant NoEarlierLeftStop(t, dqs, n, d)
        invariant forall i: nat :: i < n ==> left[i] == LeftSoFar(t, dqs, i, d, dqMax + 1)
        invariant forall i: nat :: i < n ==> right[i] == RawRight(t, dqs, i, d, dqMax + 1)
      {
        var bits, any := TestDelayed(t, d);
        LeftStopIff(t, dqs, d, sticky, bits);
        sticky := Or(sticky, bits);
        if !any && AllSet(sticky) {
          break;
        }
        RecordLeft(t, d, bits, left, right);
        d := d + 1;
        k := d;
      }
      ApplyGroupDq(0);
      WithdrawRight(t, k, left, right);
    }

    // ---------------------------------------------------------------- right sweep

    /** The bits the right sweep need not wait for.  The source walks the bits from the highest
      * down, shifting the mask left.
      */
    method SeedSticky(t: Tester, side: Side, ghost start: int, ghost k: nat, left: array<int>, right: array<int>)
      returns (sticky: seq<bool>)
      requires left.Length == n && right.Length == n && k <= dqMax + 1
      requires forall i: nat :: i < n ==> left[i] == LeftSoFar(t, start, i, k, dqMax + 1)
      requires forall i: nat :: i < n ==> right[i] == SeedRight(t, start, i, k, dqMax + 1)
      ensures |sticky| == n
      ensures forall i: nat :: i < n ==> (sticky[i] <==> Settled(t, side, start, i, k, dqMax + 1))
    {
      sticky := [];
      var i := n;
      while i > 0
        invariant 0 <= i <= n && |sticky| == n - i
        invariant forall x: nat :: x < n - i ==> (sticky[x] <==> Settled(t, side, start, i + x, k, dqMax + 1))
      {
        i := i - 1;
        var known := left[i] != dqMax + 1 && (side == ReadSide ==> right[i] != dqMax + 1);
        ghost var above := sticky;
        sticky := [known] + sticky;
        assert forall x: nat :: 0 < x < n - i ==> sticky[x] == above[x - 1];
      }
    }

    /** Records one tap of the right sweep. */
    method RecordRight(t: Tester, ghost start: int, ghost k: nat, d: nat, bits: seq<bool>,
                       left: array<int>, right: array<int>)
      requires left.Length == n && right.Length == n && left != right && |bits| == n
      requires d <= dqMax && k <= dqMax + 1
      requires forall i: nat :: i < n ==> bits[i] == Answer(t, RightSweep, start, i, d)
      requires forall i: nat :: i < n ==> left[i] == LeftEdge(t, start, i, k, d, dqMax + 1)
      requires forall i: nat :: i < n ==> right[i] == RightSoFar(t, start, i, k, d, dqMax + 1)
      modifies left, right
      ensures forall i: nat :: i < n ==> left[i] == LeftEdge(t, start, i, k, d + 1, dqMax + 1)
      ensures forall i: nat :: i < n ==> right[i] == RightSoFar(t, start, i, k, d + 1, dqMax + 1)
    {
      for i := 0 to n
        invariant forall j: nat :: j < i ==> left[j] == LeftEdge(t, start, j, k, d + 1, dqMax + 1)
        invariant forall j: nat :: j < i ==> right[j] == RightSoFar(t, start, j, k, d + 1, dqMax + 1)
        invariant forall j: nat :: i <= j < n ==> left[j] == LeftEdge(t, start, j, k, d, dqMax + 1)
        invariant forall j: nat :: i <= j < n ==> right[j] == RightSoFar(t, start, j, k, d, dqMax + 1)
      {
        if bits[i] {
          right[i] := d;
        } else if d != 0 {
          if right[i] == dqMax + 1 {
            left[i] := -(d + 1);
          }
        } else if right[i] == dqMax + 1 && left[i] != dqMax + 1 {
          right[i] := -1;
        } else if right[i] == dqMax + 1 {
          left[i] := -(d + 1);
        }
      }
    }

    /** The write deskew marks a bit that fails at the origin on a stop at the very first tap. */
    method MarkMarginal(t: Tester, ghost start: int, ghost k: nat, left: array<int>, right: array<int>)
      requires left.Length == n && right.Length == n && left != right && k <= dqMax + 1
      requires forall i: nat :: i < n ==> left[i] == LeftEdge(t, start, i, k, 0, dqMax + 1)
      requires forall i: nat :: i < n ==> right[i] == RightSoFar(t, start, i, k, 0, dqMax + 1)
      modifies right
      ensures forall i: nat :: i < n ==> right[i] == RightEdge(t, start, i, k, 0, dqMax + 1)
    {
      for i := 0 to n
        invariant forall j: nat :: j < i ==> right[j] == RightEdge(t, start, j, k, 0, dqMax + 1)
        invariant forall j: nat :: i <= j < n ==> right[j] == RightSoFar(t, start, j, k, 0, dqMax + 1)
      {
        if right[i] == dqMax + 1 && left[i] != dqMax + 1 {
          right[i] := -1;
        }
      }
    }

    /** The right sweep stops at tap `d`. */
    method StopRight(t: Tester, side: Side, ghost start: int, ghost k: nat, d: nat, left: array<int>, right: array<int>)
      requires left.Length == n && right.Length == n && left != right && k <= dqMax + 1
      requires RightStop(t, side, start, n, k, d, dqMax + 1)
      requires forall i: nat :: i < n ==> left[i] == LeftEdge(t, start, i, k, d, dqMax + 1)
      requires forall i: nat :: i < n ==> right[i] == RightSoFar(t, start, i, k, d, dqMax + 1)
      modifies right
      ensures forall i: nat :: i < n ==> right[i] == RightEdge(t, start, i, k, d, dqMax + 1)
    {
      if side == WriteSide && d == 0 {
        MarkMarginal(t, start, k, left, right);
      } else {
        SettledEdges(t, side, start, n, k, d, dqMax + 1);
      }
    }

    method RightEdges(t: Tester, side: Side, ghost k: nat, left: array<int>, right: array<int>)
      returns (ghost m: nat)
      requires Valid() && GroupAt(0) && k <= dqMax + 1
      requires left.Length == n && right.Length == n && left != right && left != dq && right != dq
      requires forall i: nat :: i < n ==> left[i] == LeftSoFar(t, dqs, i, k, dqMax + 1)
      requires forall i: nat :: i < n ==> right[i] == SeedRight(t, dqs, i, k, dqMax + 1)
      modifies `dqs, left, right
      ensures Valid()
      ensures RightTaps(t, side, old(dqs), n, k, dqsMax - old(dqs), m, dqMax + 1)
      ensures dqs == if m <= dqsMax - old(dqs) then old(dqs) + m else dqsMax
      ensures forall i: nat :: i < n ==> left[i] == LeftEdge(t, old(dqs), i, k, m, dqMax + 1)
      ensures forall i: nat :: i < n ==> right[i] == RightEdge(t, old(dqs), i, k, m, dqMax + 1)
    {
      var start := dqs;
      var sticky := SeedSticky(t, side, start, k, left, right);
      m := 0;
      var d := 0;
      while d <= dqsMax - start
        modifies `dqs, left, right
        invariant 0 <= d <= dqsMax - start + 1 && m == d
        invariant dqs == if d == 0 then start else start + d - 1
        invariant |sticky| == n
        invariant forall i: nat :: i < n ==>
          (sticky[i] <==> Settled(t, side, start, i, k, dqMax + 1) || Seen(t, RightSweep, start, i, d))
        invariant NoEarlierStop(t, side, start, n, k, d, dqMax + 1)
        invariant forall i: nat :: i < n ==> left[i] == LeftEdge(t, start, i, k, d, dqMax + 1)
        invariant forall i: nat :: i < n ==> right[i] == RightSoFar(t, start, i, k, d, dqMax + 1)
      {
        var bits, any := TestShifted(t, start, d);
        RightStopIff(t, side, start, k, d, sticky, bits, dqMax + 1);
        sticky := Or(sticky, bits);
        if !any && AllSet(sticky) {
          StopRight(t, side, start, k, d, left, right);
          return;
        }
        NoStopYet(t, side, start, n, k, d, dqMax + 1);
        RecordRight(t, start, k, d, bits, left, right);
        d := d + 1;
        m := d;
      }
      SettledEdges(t, side, start, n, k, d, dqMax + 1);
    }

    /** One test of the right sweep, `d` taps from where DQS started. */
    method TestShifted(t: Tester, start: int, d: nat) returns (bits: seq<bool>, any: bool)
      requires Valid() && GroupAt(0) && 0 <= start && start + d <= dqsMax
      modifies `dqs
      ensures dqs == start + d
      ensures |bits| == n && forall i: nat :: i < n ==> bits[i] == Answer(t, RightSweep, start, i, d)
      ensures any <==> exists i: nat :: i < n && bits[i]
    {
      dqs := d + start;
      bits, any := Test(t, RightSweep);
    }
  }

  /** Once a tap is recorded, or the read sweep stops at once, the right edges need no marking. */
  lemma SettledEdges(t: Tester, side: Side, start: int, n: nat, k: nat, m: nat, none: int)
    requires m > 0 || (side == ReadSide && RightStop(t, side, start, n, k, m, none))
    ensures forall i: nat :: i < n ==> RightSoFar(t, start, i, k, m, none) == RightEdge(t, start, i, k, m, none)
  {
    if m == 0 {
      forall i: nat | i < n
        ensures SeedRight(t, start, i, k, none) != none
      {
        assert !Seen(t, RightSweep, start, i, m);
        assert Settled(t, side, start, i, k, none);
      }
    }
  }

  function Or(a: seq<bool>, b: seq<bool>): (r: seq<bool>)
    requires |a| == |b|
    ensures |r| == |a| && forall i :: 0 <= i < |a| ==> r[i] == (a[i] || b[i])
  {
    seq(|a|, i requires 0 <= i < |a| => a[i] || b[i])
  }

  predicate AllSet(a: seq<bool>) {
    forall i :: 0 <= i < |a| ==> a[i]
  }

  /** One tap of the left sweep: what the new mask means, and when the stop test fires. */
  lemma LeftStopIff(t: Tester, start: int, d: nat, sticky: seq<bool>, bits: seq<bool>)
    requires |sticky| == |bits|
    requires forall i: nat :: i < |bits| ==> bits[i] == Answer(t, LeftSweep, start, i, d)
    requires forall i: nat :: i < |bits| ==> (sticky[i] <==> Seen(t, LeftSweep, start, i, d))
    ensures forall i: nat :: i < |bits| ==> (Or(sticky, bits)[i] <==> Seen(t, LeftSweep, start, i, d + 1))
    ensures LeftStop(t, start, |bits|, d)
       <==> !(exists i: nat :: i < |bits| && bits[i]) && AllSet(Or(sticky, bits))
  {
    var now := Or(sticky, bits);
    if LeftStop(t, start, |bits|, d) {
      assert forall i: nat :: i < |bits| ==> sticky[i] && now[i];
    }
  }

  /** One tap of the right sweep: what the new mask means, and when the stop test fires. */
  lemma RightStopIff(t: Tester, side: Side, start: int, k: nat, d: nat, sticky: seq<bool>, bits: seq<bool>, none: int)
    requires |sticky| == |bits|
    requires forall i: nat :: i < |bits| ==> bits[i] == Answer(t, RightSweep, start, i, d)
    requires forall i: nat :: i < |bits| ==>
      (sticky[i] <==> Settled(t, side, start, i, k, none) || Seen(t, RightSweep, start, i, d))
    ensures forall i: nat :: i < |bits| ==>
      (Or(sticky, bits)[i] <==> Settled(t, side, start, i, k, none) || Seen(t, RightSweep, start, i, d + 1))
    ensures RightStop(t, side, start, |bits|, k, d, none)
       <==> !(exists i: nat :: i < |bits| && bits[i]) && AllSet(Or(sticky, bits))
  {
    var now := Or(sticky, bits);
    if RightStop(t, side, start, |bits|, k, d, none) {
      assert forall i: nat :: i < |bits| ==> sticky[i] && now[i];
    }
  }
}

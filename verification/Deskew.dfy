/** Per-bit read and write deskew: edge search, rejection, and centring of every bit. */
module Deskew {
  import opened EdgeSweeps
  import opened Centring
  import opened DataMask

  /** Outcome of one deskew: the first bit without a window, or the two exported margins. */
  datatype Verdict = NoWindow(bit: nat) | Centred(dqMargin: int, dqsMargin: int) {
    predicate Ok() {
      Centred? && dqMargin >= 0 && dqsMargin >= 0
    }
  }

  // ------------------------------------------------------------------ edges, for any noise

  ghost predicate HasBothEdges(t: Tester, start: int, i: nat, k: nat, m: nat, dqMax: nat) {
    LeftEdge(t, start, i, k, m, dqMax + 1) != dqMax + 1 && RightEdge(t, start, i, k, m, dqMax + 1) != dqMax + 1
  }

  /** The sweeps of a group of `n` bits recorded `k` left and `m` right taps, the right sweep
    * having `room` taps of DQS left.
    */
  ghost predicate Swept(t: Tester, side: Side, start: int, n: nat, dqMax: nat, room: nat, k: nat, m: nat) {
    && 0 < n && room <= dqMax
    && LeftTaps(t, start, n, dqMax, k)
    && RightTaps(t, side, start, n, k, room, m, dqMax + 1)
  }

  /** The left sweep never stops on its first tap: no bit can have passed before. */
  lemma FirstTapRecorded(t: Tester, start: int, n: nat, dqMax: nat, k: nat)
    requires 0 < n && LeftTaps(t, start, n, dqMax, k)
    ensures k >= 1
  {
    assert !Seen(t, LeftSweep, start, 0, 0);
  }

  /** On a stop at the first tap of the right sweep every bit was settled by the left sweep. */
  lemma SettledOnImmediateStop(t: Tester, side: Side, start: int, n: nat, k: nat, none: int, i: nat)
    requires RightStop(t, side, start, n, k, 0, none) && i < n
    ensures Settled(t, side, start, i, k, none) && !Answer(t, RightSweep, start, i, 0)
  {
    assert !Seen(t, RightSweep, start, i, 0);
  }

  /** A bit is left without an edge exactly when it failed every recorded test of the left sweep
    * and, in the right sweep, failed every test too or passed at the origin it had failed before.
    */
  lemma EdgelessExactly(t: Tester, side: Side, start: int, n: nat, dqMax: nat, room: nat, k: nat, m: nat, i: nat)
    requires Swept(t, side, start, n, dqMax, room, k, m) && i < n
    ensures !HasBothEdges(t, start, i, k, m, dqMax) <==>
      && !Seen(t, LeftSweep, start, i, k)
      && (!Seen(t, RightSweep, start, i, m) || Answer(t, RightSweep, start, i, 0))
  {
    if m == 0 {
      SettledOnImmediateStop(t, side, start, n, k, dqMax + 1, i);
    }
  }

  /** With the same answer both times at the origin, a bit is rejected exactly when it passed none
    * of the tests the two sweeps executed; a test that stops a sweep is executed too.
    */
  lemma RejectedIffNeverPassed(t: Tester, side: Side, start: int, n: nat, dqMax: nat, room: nat, k: nat, m: nat, i: nat)
    requires Swept(t, side, start, n, dqMax, room, k, m) && i < n
    requires Answer(t, LeftSweep, start, i, 0) == Answer(t, RightSweep, start, i, 0)
    ensures !HasBothEdges(t, start, i, k, m, dqMax) <==>
      && (forall d: nat :: d <= k && d <= dqMax ==> !Answer(t, LeftSweep, start, i, d))
      && (forall d: nat :: d <= m && d <= room ==> !Answer(t, RightSweep, start, i, d))
  {
    EdgelessExactly(t, side, start, n, dqMax, room, k, m, i);
    FirstTapRecorded(t, start, n, dqMax, k);
    assert Answer(t, LeftSweep, start, i, 0) ==> Seen(t, LeftSweep, start, i, k);
    assert m <= room ==> !Answer(t, RightSweep, start, i, m);
    assert k <= dqMax ==> !Answer(t, LeftSweep, start, i, k);
  }

  /** Every bit fails until the right sweep tests the origin again. */
  predicate OnlySecondTry(sw: Sweep, i: nat, dq: int, dqs: int) {
    sw == RightSweep && dqs == 0
  }

  /** All bits of such a group pass a test, and all are left without an edge. */
  lemma PassedYetEdgeless(side: Side, n: nat, dqMax: nat, room: nat, k: nat, m: nat, i: nat)
    requires Swept(OnlySecondTry, side, 0, n, dqMax, room, k, m) && i < n
    ensures m > 0 && Answer(OnlySecondTry, RightSweep, 0, i, 0)
    ensures !HasBothEdges(OnlySecondTry, 0, i, k, m, dqMax)
  {
    assert Answer(OnlySecondTry, RightSweep, 0, i, 0);
    EdgelessExactly(OnlySecondTry, side, 0, n, dqMax, room, k, m, i);
  }

  // ------------------------------------------------------------------ edges, for a fixed eye

  /** The bit at position `x` of the sweep axis: DQ delay minus the shift of DQS. */
  predicate At(t: Tester, start: int, i: nat, x: int) {
    t(LeftSweep, i, x, start)
  }

  /** A bit whose answer depends on DQ delay minus DQS shift only and whose passing positions have
    * no hole.  An interval [-R, L] of either sign is the usual case.
    */
  ghost predicate Eye(t: Tester, start: int, i: nat) {
    && (forall sw, dq, dqs, x :: dq - (dqs - start) == x ==> t(sw, i, dq, dqs) == At(t, start, i, x))
    && forall x, z :: At(t, start, i, x) && At(t, start, i, z) ==> PassesBetween(t, start, i, x, z)
  }

  ghost predicate PassesBetween(t: Tester, start: int, i: nat, x: int, z: int) {
    forall y :: x <= y <= z ==> At(t, start, i, y)
  }

  lemma Positions(t: Tester, start: int, i: nat, d: nat)
    requires Eye(t, start, i)
    ensures Answer(t, LeftSweep, start, i, d) == At(t, start, i, d)
    ensures Answer(t, RightSweep, start, i, d) == At(t, start, i, 0 - d)
  {
    assert t(RightSweep, i, 0, start + d) == At(t, start, i, 0 - (start + d - start));
  }

  lemma LeftEdgePasses(t: Tester, side: Side, start: int, n: nat, dqMax: nat, room: nat, k: nat, m: nat, i: nat)
    requires Swept(t, side, start, n, dqMax, room, k, m) && i < n && Eye(t, start, i)
    requires HasBothEdges(t, start, i, k, m, dqMax)
    ensures var l := LeftEdge(t, start, i, k, m, dqMax + 1);
      At(t, start, i, l) && 0 - room <= l <= dqMax
  {
    var lp := LastPass(t, LeftSweep, start, i, k);
    var rf := FirstPass(t, RightSweep, start, i, m);
    if lp != -1 {
      Positions(t, start, i, lp);
    } else {
      EdgelessExactly(t, side, start, n, dqMax, room, k, m, i);
      Positions(t, start, i, rf);
    }
  }

  lemma RightEdgePasses(t: Tester, side: Side, start: int, n: nat, dqMax: nat, room: nat, k: nat, m: nat, i: nat)
    requires Swept(t, side, start, n, dqMax, room, k, m) && i < n && Eye(t, start, i)
    requires HasBothEdges(t, start, i, k, m, dqMax)
    ensures var r := RightEdge(t, start, i, k, m, dqMax + 1);
      At(t, start, i, -r) && 0 - dqMax <= r <= room
  {
    var lf := FirstPass(t, LeftSweep, start, i, k);
    var rp := LastPass(t, RightSweep, start, i, m);
    if rp != -1 {
      Positions(t, start, i, rp);
    } else if LastPass(t, LeftSweep, start, i, k) != -1 {
      Positions(t, start, i, lf);
      if m == 0 {
        SettledOnImmediateStop(t, side, start, n, k, dqMax + 1, i);
      }
    }
  }

  /** No position within reach above the left edge passes. */
  lemma NoneAboveLeft(t: Tester, side: Side, start: int, n: nat, dqMax: nat, room: nat, k: nat, m: nat, i: nat, x: int)
    requires Swept(t, side, start, n, dqMax, room, k, m) && i < n && Eye(t, start, i)
    requires HasBothEdges(t, start, i, k, m, dqMax)
    requires LeftEdge(t, start, i, k, m, dqMax + 1) < x <= dqMax
    ensures !At(t, start, i, x)
  {
    var l := LeftEdge(t, start, i, k, m, dqMax + 1);
    LeftEdgePasses(t, side, start, n, dqMax, room, k, m, i);
    assert !At(t, start, i, l + 1) by {
      if l >= 0 {
        Positions(t, start, i, l + 1);
        if l + 1 == k {
          assert NonePass(t, LeftSweep, start, n, k);
        }
      } else {
        Positions(t, start, i, -(l + 1));
      }
    }
  }

  /** No position within reach below the right edge passes. */
  lemma NoneBelowRight(t: Tester, side: Side, start: int, n: nat, dqMax: nat, room: nat, k: nat, m: nat, i: nat, x: int)
    requires Swept(t, side, start, n, dqMax, room, k, m) && i < n && Eye(t, start, i)
    requires HasBothEdges(t, start, i, k, m, dqMax)
    requires 0 - room <= x < -RightEdge(t, start, i, k, m, dqMax + 1)
    ensures !At(t, start, i, x)
  {
    var r := RightEdge(t, start, i, k, m, dqMax + 1);
    RightEdgePasses(t, side, start, n, dqMax, room, k, m, i);
    assert !At(t, start, i, -r - 1) by {
      if r >= 0 {
        Positions(t, start, i, r + 1);
        if r + 1 == m {
          assert NonePass(t, RightSweep, start, n, m);
        }
      } else {
        Positions(t, start, i, -r - 1);
      }
    }
  }

  /** Between positions `from` and `to` the bit passes exactly on [-r, l], which is not empty. */
  ghost predicate WindowIs(t: Tester, start: int, i: nat, from: int, to: int, r: int, l: int) {
    && from <= -r <= l <= to
    && forall x :: from <= x <= to ==> (At(t, start, i, x) <==> -r <= x <= l)
  }

  /** A window is determined by where passing begins and ends. */
  lemma WindowEnds(t: Tester, start: int, i: nat, from: int, to: int, r: int, l: int, a: int, b: int)
    requires WindowIs(t, start, i, from, to, r, l) && from <= a <= b <= to
    requires At(t, start, i, a) && At(t, start, i, b)
    requires (a == from || !At(t, start, i, a - 1)) && (b == to || !At(t, start, i, b + 1))
    ensures r == -a && l == b
  {
  }

  /** Both edges are passing positions, and they are the two ends of the part of the window that
    * the sweeps can reach, although either sweep may stop early.
    */
  lemma EdgesAreTheWindow(t: Tester, side: Side, start: int, n: nat, dqMax: nat, room: nat, k: nat, m: nat, i: nat)
    requires Swept(t, side, start, n, dqMax, room, k, m) && i < n && Eye(t, start, i)
    requires HasBothEdges(t, start, i, k, m, dqMax)
    ensures var l := LeftEdge(t, start, i, k, m, dqMax + 1);
      var r := RightEdge(t, start, i, k, m, dqMax + 1);
      && At(t, start, i, l) && At(t, start, i, -r)
      && WindowIs(t, start, i, 0 - room, dqMax, r, l)
  {
    var l := LeftEdge(t, start, i, k, m, dqMax + 1);
    var r := RightEdge(t, start, i, k, m, dqMax + 1);
    LeftEdgePasses(t, side, start, n, dqMax, room, k, m, i);
    RightEdgePasses(t, side, start, n, dqMax, room, k, m, i);
    forall x | 0 - room <= x <= dqMax && !(-r <= x <= l)
      ensures !At(t, start, i, x)
    {
      if x > l {
        NoneAboveLeft(t, side, start, n, dqMax, room, k, m, i, x);
      } else {
        NoneBelowRight(t, side, start, n, dqMax, room, k, m, i, x);
      }
    }
  }

  // ------------------------------------------------------------------ centring

  /** One run: how far the sweeps got from which DQS delay, the edges, and the smallest offset. */
  datatype Run = Run(side: Side, start: int, k: nat, m: nat, left: seq<int>, right: seq<int>, lo: int)

  /** The DQS delay chosen from the smallest offset: only the read side moves DQS. */
  function NewDqs(side: Side, start: int, lo: int, dqsMax: nat): int {
    if side == ReadSide then ClampInto(start - HalfOffset(lo), dqsMax) else start
  }

  /** The DQ delay a bit wants, before it is clamped into its chain. */
  ghost function Wanted(run: Run, dqsMax: nat, i: nat): int
    requires i < |run.left| == |run.right|
  {
    CDiv(run.left[i] - run.right[i] - run.lo, 2) + HalfOffset(run.lo)
    - (run.start - NewDqs(run.side, run.start, run.lo, dqsMax))
  }

  /** The DQ delay programmed.  The upper clamp subtracts `other`, what the register with the
    * bit's own number holds: the read side reads register `i` there, not register `bgn + i`.
    */
  function Programmed(wanted: int, dqMax: nat, other: int): int {
    if wanted > dqMax then dqMax - other else if wanted < 0 then 0 else wanted
  }

  /** The DQ register of bit `i` holds what the centring rule programs. */
  ghost predicate BitProgrammed(s: Regs, run: Run, i: nat)
    requires i < s.n && s.bgn + s.n <= |s.dq| && |run.left| == |run.right| == s.n
  {
    s.dq[s.bgn + i] == Programmed(Wanted(run, s.dqsMax, i), s.dqMax, if s.bgn == 0 then 0 else s.dq[i])
  }

  /** Where a bit ends up on the sweep axis once the registers are programmed. */
  ghost function Placed(s: Regs, start: int, i: nat): int
    requires s.bgn + i < |s.dq|
  {
    s.dq[s.bgn + i] - (s.dqs - start)
  }

  ghost function PlacedBits(s: Regs, start: int): (r: seq<int>)
    requires s.bgn + s.n <= |s.dq|
    ensures |r| == s.n && forall i: nat :: i < s.n ==> r[i] == Placed(s, start, i)
  {
    seq(s.n, i requires 0 <= i < s.n => Placed(s, start, i))
  }

  /** The margin each bit keeps above and below its final position. */
  ghost function DqMargins(left: seq<int>, placed: seq<int>): (r: seq<int>)
    requires |placed| <= |left|
    ensures |r| == |placed| && forall i :: 0 <= i < |r| ==> r[i] == left[i] - placed[i]
  {
    seq(|placed|, i requires 0 <= i < |placed| => left[i] - placed[i])
  }

  ghost function DqsMargins(right: seq<int>, placed: seq<int>): (r: seq<int>)
    requires |placed| <= |right|
    ensures |r| == |placed| && forall i :: 0 <= i < |r| ==> r[i] == right[i] + placed[i]
  {
    seq(|placed|, i requires 0 <= i < |placed| => right[i] + placed[i])
  }

  /** `v` is the least of `cap` and the members of `a`. */
  ghost predicate IsLeast(v: int, cap: int, a: seq<int>) {
    v <= cap && (v == cap || v in a) && forall i :: 0 <= i < |a| ==> v <= a[i]
  }

  lemma LeastExtends(v: int, cap: int, a: seq<int>, x: int)
    requires IsLeast(v, cap, a)
    ensures IsLeast(if x < v then x else v, cap, a + [x])
  {
    assert (a + [x])[|a|] == x;
    assert v in a ==> v in a + [x];
  }

  method FindSmallestOffset(left: seq<int>, right: seq<int>) returns (minIndex: nat)
    requires |left| == |right| > 0
    ensures minIndex < |left|
    ensures forall i :: 0 <= i < |left| ==> left[minIndex] - right[minIndex] <= left[i] - right[i]
  {
    var midMin := left[0] - right[0];
    minIndex := 0;
    for i := 1 to |left|
      invariant 0 <= minIndex < |left| && midMin == left[minIndex] - right[minIndex]
      invariant forall j :: 0 <= j < i ==> midMin <= left[j] - right[j]
    {
      var mid := left[i] - right[i];
      if mid < midMin {
        midMin := mid;
        minIndex := i;
      }
    }
  }

  /** The position DQS moves to, in the source's order of steps. */
  method ChooseDqs(side: Side, start: int, lo: int, dqsMax: nat) returns (origMidMin: int, midMin: int, newDqs: int)
    requires 0 <= start <= dqsMax
    ensures newDqs == NewDqs(side, start, lo, dqsMax) && 0 <= newDqs <= dqsMax
    ensures origMidMin == HalfOffset(lo) && midMin == start - newDqs
  {
    midMin := lo;
    if midMin > 0 {
      midMin := midMin + 1;
    }
    midMin := CDiv(midMin, 2);
    origMidMin := midMin;
    newDqs := start;
    if side == ReadSide {
      newDqs := start - midMin;
      if newDqs > dqsMax {
        newDqs := dqsMax;
      } else if newDqs < 0 {
        newDqs := 0;
      }
    }
    midMin := start - newDqs;
  }

  /** Programs the DQ register of one bit, which still holds 0. */
  method PlaceBit(g: SccGroup, i: nat, wanted: int) returns (shift: int)
    requires g.Valid() && i < g.n && g.dq[g.bgn + i] == 0
    modifies g.dq
    ensures g.Valid()
    ensures g.dq[..] == old(g.dq[..])[g.bgn + i := shift]
    ensures shift == Programmed(wanted, g.dqMax, old(g.dq[i]))
  {
    var p := g.bgn + i;
    shift := wanted;
    if shift + g.dq[p] > g.dqMax {
      shift := g.dqMax - g.dq[i];
    } else if shift + g.dq[p] < 0 {
      shift := -g.dq[p];
    }
    g.dq[p] := g.dq[p] + shift;
  }

  /** Takes one more bit into the two exported margins. */
  method ExportMargins(ghost cap: int, left: seq<int>, right: seq<int>, ghost placed: seq<int>, i: nat,
                       shift: int, midMin: int, dqMargin: int, dqsMargin: int)
    returns (dqMargin': int, dqsMargin': int)
    requires i == |placed| < |left| == |right|
    requires IsLeast(dqMargin, cap, DqMargins(left, placed)) && IsLeast(dqsMargin, cap, DqsMargins(right, placed))
    ensures IsLeast(dqMargin', cap, DqMargins(left, placed + [shift + midMin]))
    ensures IsLeast(dqsMargin', cap, DqsMargins(right, placed + [shift + midMin]))
  {
    var l, r := left[i] - shift + (-midMin), right[i] + shift - (-midMin);
    LeastExtends(dqMargin, cap, DqMargins(left, placed), l);
    LeastExtends(dqsMargin, cap, DqsMargins(right, placed), r);
    assert DqMargins(left, placed + [shift + midMin]) == DqMargins(left, placed) + [l];
    assert DqsMargins(right, placed + [shift + midMin]) == DqsMargins(right, placed) + [r];
    dqMargin' := if l < dqMargin then l else dqMargin;
    dqsMargin' := if r < dqsMargin then r else dqsMargin;
  }

  /** The first `i` bits have been programmed, to the positions `placed`; the others still hold 0. */
  ghost predicate CentredUpTo(s: Regs, run: Run, i: nat, placed: seq<int>)
    requires s.bgn + s.n <= |s.dq| && |run.left| == |run.right| == s.n && i <= s.n
  {
    && |placed| == i
    && (forall p :: s.bgn + i <= p < s.bgn + s.n ==> s.dq[p] == 0)
    && (forall j: nat :: j < i ==> BitProgrammed(s, run, j))
    && var after := s.(dqs := NewDqs(run.side, run.start, run.lo, s.dqsMax));
       forall j: nat :: j < i ==> placed[j] == Placed(after, run.start, j)
  }

  /** Programming one more register keeps what was programmed before. */
  lemma OneMoreBit(s: Regs, run: Run, i: nat, placed: seq<int>, shift: int)
    requires s.bgn + s.n <= |s.dq| && |run.left| == |run.right| == s.n && i < s.n
    requires CentredUpTo(s, run, i, placed)
    requires shift == Programmed(Wanted(run, s.dqsMax, i), s.dqMax, s.dq[i])
    ensures CentredUpTo(s.(dq := s.dq[s.bgn + i := shift]), run, i + 1,
              placed + [shift + (run.start - NewDqs(run.side, run.start, run.lo, s.dqsMax))])
  {
    var s' := s.(dq := s.dq[s.bgn + i := shift]);
    forall j: nat | j < i
      ensures BitProgrammed(s', run, j)
    {
      assert BitProgrammed(s, run, j);
      assert s'.dq[j] == s.dq[j] || s.bgn == 0;
    }
    assert BitProgrammed(s', run, i);
  }

  /** The registers and the exported margins follow from the edges by the centring rule. */
  ghost predicate Programming(s: Regs, v: Verdict, run: Run)
    requires v.Centred?
  {
    && s.Valid() && |run.left| == |run.right| == s.n
    && SmallestOffset(run.left, run.right, run.lo)
    && s.dqs == NewDqs(run.side, run.start, run.lo, s.dqsMax)
    && (forall i: nat :: i < s.n ==> BitProgrammed(s, run, i))
    && IsLeast(v.dqMargin, s.dqMax + 1, DqMargins(run.left, PlacedBits(s, run.start)))
    && IsLeast(v.dqsMargin, s.dqMax + 1, DqsMargins(run.right, PlacedBits(s, run.start)))
  }

  /** Setting DQS completes the programming. */
  lemma AllBitsDone(s: Regs, run: Run, placed: seq<int>, v: Verdict)
    requires v.Centred? && s.Valid() && |run.left| == |run.right| == s.n
    requires CentredUpTo(s, run, s.n, placed)
    requires SmallestOffset(run.left, run.right, run.lo)
    requires IsLeast(v.dqMargin, s.dqMax + 1, DqMargins(run.left, placed))
    requires IsLeast(v.dqsMargin, s.dqMax + 1, DqsMargins(run.right, placed))
    requires 0 <= NewDqs(run.side, run.start, run.lo, s.dqsMax) <= s.dqsMax
    ensures Programming(s.(dqs := NewDqs(run.side, run.start, run.lo, s.dqsMax)), v, run)
  {
    var s' := s.(dqs := NewDqs(run.side, run.start, run.lo, s.dqsMax));
    assert placed == PlacedBits(s', run.start);
    forall i: nat | i < s.n
      ensures BitProgrammed(s', run, i)
    {
      assert BitProgrammed(s, run, i);
    }
  }

  /** One pass of the centring loop: the register of bit `i`. */
  method CentreBit(g: SccGroup, ghost run: Run, i: nat, ghost placed: seq<int>, wanted: int) returns (shift: int)
    requires g.Valid() && |run.left| == |run.right| == g.n && i < g.n
    requires wanted == Wanted(run, g.dqsMax, i)
    requires CentredUpTo(g.State(), run, i, placed)
    modifies g.dq
    ensures g.Valid()
    ensures CentredUpTo(g.State(), run, i + 1,
              placed + [shift + (run.start - NewDqs(run.side, run.start, run.lo, g.dqsMax))])
    ensures forall p :: 0 <= p < g.dq.Length && p != g.bgn + i ==> g.dq[p] == old(g.dq[p])
  {
    ghost var before := g.State();
    shift := PlaceBit(g, i, wanted);
    OneMoreBit(before, run, i, placed, shift);
    assert g.State() == before.(dq := before.dq[before.bgn + i := shift]);
    assert forall p :: 0 <= p < g.dq.Length ==> g.dq[p] == before.dq[g.bgn + i := shift][p];
  }

  /** The centring loop: programs every DQ register and gathers the two exported margins. */
  method CentreDq(g: SccGroup, ghost run: Run, left: seq<int>, right: seq<int>, minIndex: nat,
                  origMidMin: int, midMin: int)
    returns (dqMargin: int, dqsMargin: int, ghost placed: seq<int>)
    requires g.Valid() && g.GroupAt(0)
    requires run.left == left && run.right == right && |left| == |right| == g.n
    requires minIndex < g.n && run.lo == left[minIndex] - right[minIndex] && origMidMin == HalfOffset(run.lo)
    requires midMin == run.start - NewDqs(run.side, run.start, run.lo, g.dqsMax)
    modifies g.dq
    ensures g.Valid() && CentredUpTo(g.State(), run, g.n, placed)
    ensures forall p :: 0 <= p < g.dq.Length && !(g.bgn <= p < g.bgn + g.n) ==> g.dq[p] == old(g.dq[p])
    ensures IsLeast(dqMargin, g.dqMax + 1, DqMargins(left, placed))
    ensures IsLeast(dqsMargin, g.dqMax + 1, DqsMargins(right, placed))
  {
    dqMargin, dqsMargin := g.dqMax + 1, g.dqMax + 1;
    placed := [];
    for i := 0 to g.n
      invariant g.Valid() && CentredUpTo(g.State(), run, i, placed)
      invariant forall p :: 0 <= p < g.dq.Length && !(g.bgn <= p < g.bgn + g.n) ==> g.dq[p] == old(g.dq[p])
      invariant IsLeast(dqMargin, g.dqMax + 1, DqMargins(left, placed))
      invariant IsLeast(dqsMargin, g.dqMax + 1, DqsMargins(right, placed))
    {
      var wanted := CDiv(left[i] - right[i] - (left[minIndex] - right[minIndex]), 2) + (origMidMin - midMin);
      var shift := CentreBit(g, run, i, placed, wanted);
      dqMargin, dqsMargin :=
        ExportMargins(g.dqMax + 1, left, right, placed, i, shift, midMin, dqMargin, dqsMargin);
      placed := placed + [shift + midMin];
    }
  }

  /** Programs the DQ registers, then DQS, and returns the two exported margins. */
  method CentreBits(g: SccGroup, side: Side, left: seq<int>, right: seq<int>, start: int, ghost k: nat, ghost m: nat)
    returns (v: Verdict, ghost run: Run)
    requires g.Valid() && g.GroupAt(0) && 0 <= start <= g.dqsMax
    requires |left| == g.n && |right| == g.n
    modifies g`dqs, g.dq
    ensures g.Valid()
    ensures forall p :: 0 <= p < g.dq.Length && !(g.bgn <= p < g.bgn + g.n) ==> g.dq[p] == old(g.dq[p])
    ensures run == Run(side, start, k, m, left, right, run.lo)
    ensures v.Centred? && Programming(g.State(), v, run)
  {
    var minIndex := FindSmallestOffset(left, right);
    var lo := left[minIndex] - right[minIndex];
    run := Run(side, start, k, m, left, right, lo);
    assert SmallestOffset(left, right, run.lo);
    var origMidMin, midMin, newDqs := ChooseDqs(side, start, lo, g.dqsMax);
    var dqMargin, dqsMargin, placed := CentreDq(g, run, left, right, minIndex, origMidMin, midMin);
    v := Centred(dqMargin, dqsMargin);
    ghost var before := g.State();
    AllBitsDone(before, run, placed, v);
    g.dqs := newDqs;
    assert g.State() == before.(dqs := newDqs);
  }

  // ------------------------------------------------------------------ the whole deskew

  /** The first bit, if any, that lacks an edge. */
  method FindEdgeless(left: seq<int>, right: seq<int>, none: int) returns (bit: nat)
    requires |left| == |right|
    ensures bit <= |left|
    ensures bit < |left| ==> left[bit] == none || right[bit] == none
    ensures forall i: nat :: i < bit ==> left[i] != none && right[i] != none
  {
    for i := 0 to |left|
      invariant forall j: nat :: j < i ==> left[j] != none && right[j] != none
    {
      if left[i] == none || right[i] == none {
        return i;
      }
    }
    bit := |left|;
  }

  /** The sweeps of the run, over a group with these chains. */
  ghost predicate RunSwept(t: Tester, s: Regs, run: Run) {
    && s.Valid() && 0 <= run.start <= s.dqsMax
    && Swept(t, run.side, run.start, s.n, s.dqMax, s.dqsMax - run.start, run.k, run.m)
  }

  ghost predicate Edged(t: Tester, s: Regs, run: Run, i: nat) {
    HasBothEdges(t, run.start, i, run.k, run.m, s.dqMax)
  }

  /** The first bit without an edge is named, and the DQ delays are still at 0. */
  ghost predicate Rejected(t: Tester, s: Regs, v: Verdict, run: Run) {
    && s.Valid() && v.NoWindow? && v.bit < s.n
    && !Edged(t, s, run, v.bit)
    && (forall i: nat :: i < v.bit ==> Edged(t, s, run, i))
    && forall p :: s.bgn <= p < s.bgn + s.n ==> s.dq[p] == 0
  }

  /** Every bit has its edges, and the run records them. */
  ghost predicate EdgesRecorded(t: Tester, s: Regs, run: Run) {
    && |run.left| == |run.right| == s.n
    && forall i: nat :: i < s.n ==>
      && Edged(t, s, run, i)
      && run.left[i] == LeftEdge(t, run.start, i, run.k, run.m, s.dqMax + 1)
      && run.right[i] == RightEdge(t, run.start, i, run.k, run.m, s.dqMax + 1)
  }

  /** The registers and margins follow from the edges of every bit. */
  ghost predicate Accepted(t: Tester, s: Regs, v: Verdict, run: Run) {
    v.Centred? && Programming(s, v, run) && EdgesRecorded(t, s, run)
  }

  /** Where a right sweep that recorded `m` taps leaves DQS. */
  function DqsAfter(start: int, m: nat, dqsMax: nat): int {
    if m <= dqsMax - start then start + m else dqsMax
  }

  /** A group is never rejected at the first tap of its right sweep, so DQS has moved if it could. */
  lemma RejectionMovesDqs(t: Tester, side: Side, start: int, n: nat, dqMax: nat, dqsMax: nat, k: nat, m: nat, i: nat)
    requires 0 <= start <= dqsMax && Swept(t, side, start, n, dqMax, dqsMax - start, k, m)
    requires i < n && !HasBothEdges(t, start, i, k, m, dqMax)
    ensures m > 0 && start <= DqsAfter(start, m, dqsMax) <= dqsMax
    ensures DqsAfter(start, m, dqsMax) == start <==> start == dqsMax
  {
    EdgelessExactly(t, side, start, n, dqMax, dqsMax - start, k, m, i);
    if m == 0 {
      SettledOnImmediateStop(t, side, start, n, k, dqMax + 1, i);
      assert false;
    }
  }

  /** Both sweeps: the edges of every bit. */
  method SearchEdges(g: SccGroup, side: Side, t: Tester)
    returns (left: seq<int>, right: seq<int>, ghost k: nat, ghost m: nat)
    requires g.Valid()
    modifies g`dqs, g.dq
    ensures g.Valid() && g.GroupAt(0) && g.dqs == DqsAfter(old(g.dqs), m, g.dqsMax)
    ensures Swept(t, side, old(g.dqs), g.n, g.dqMax, g.dqsMax - old(g.dqs), k, m)
    ensures |left| == |right| == g.n
    ensures forall i: nat :: i < g.n ==> left[i] == LeftEdge(t, old(g.dqs), i, k, m, g.dqMax + 1)
    ensures forall i: nat :: i < g.n ==> right[i] == RightEdge(t, old(g.dqs), i, k, m, g.dqMax + 1)
    ensures forall p :: 0 <= p < g.dq.Length && !(g.bgn <= p < g.bgn + g.n) ==> g.dq[p] == old(g.dq[p])
  {
    var leftEdge, rightEdge := new int[g.n], new int[g.n];
    k := g.LeftEdges(t, leftEdge, rightEdge);
    m := g.RightEdges(t, side, k, leftEdge, rightEdge);
    left, right := leftEdge[..], rightEdge[..];
  }

  lemma EdgedIff(t: Tester, s: Regs, run: Run, bit: nat)
    requires |run.left| == |run.right| == s.n && bit <= s.n
    requires forall i: nat :: i < s.n ==> run.left[i] == LeftEdge(t, run.start, i, run.k, run.m, s.dqMax + 1)
    requires forall i: nat :: i < s.n ==> run.right[i] == RightEdge(t, run.start, i, run.k, run.m, s.dqMax + 1)
    requires forall i: nat :: i < bit ==> run.left[i] != s.dqMax + 1 && run.right[i] != s.dqMax + 1
    ensures forall i: nat :: i < bit ==> Edged(t, s, run, i)
    ensures bit == s.n ==> EdgesRecorded(t, s, run)
  {
    forall i: nat | i < bit
      ensures Edged(t, s, run, i)
    {
      assert run.left[i] != s.dqMax + 1 && run.right[i] != s.dqMax + 1;
    }
  }

  /** What the sweeps found does not depend on what is programmed afterwards. */
  lemma SameRun(t: Tester, s: Regs, run: Run, s': Regs, run': Run)
    requires RunSwept(t, s, run) && EdgesRecorded(t, s, run)
    requires s'.Valid() && s' == s.(dq := s'.dq, dqs := s'.dqs) && run' == run.(lo := run'.lo)
    ensures RunSwept(t, s', run') && EdgesRecorded(t, s', run')
  {
    forall i: nat | i < s'.n
      ensures Edged(t, s', run', i)
    {
      assert Edged(t, s, run, i);
    }
  }

  /** What both deskews do up to the verdict. */
  method DeskewGroup(g: SccGroup, side: Side, t: Tester) returns (v: Verdict, ghost run: Run)
    requires g.Valid()
    modifies g`dqs, g.dq
    ensures run.side == side && run.start == old(g.dqs) && RunSwept(t, g.State(), run)
    ensures v.NoWindow? ==> Rejected(t, g.State(), v, run) && g.dqs == DqsAfter(run.start, run.m, g.dqsMax)
    ensures v.NoWindow? ==> run.start <= g.dqs && (g.dqs == run.start <==> run.start == g.dqsMax)
    ensures v.Centred? ==> Accepted(t, g.State(), v, run)
    ensures forall p :: 0 <= p < g.dq.Length && !(g.bgn <= p < g.bgn + g.n) ==> g.dq[p] == old(g.dq[p])
  {
    var start := g.dqs;
    var left, right, k, m := SearchEdges(g, side, t);
    var bit := FindEdgeless(left, right, g.dqMax + 1);
    run := Run(side, start, k, m, left, right, 0);
    EdgedIff(t, g.State(), run, bit);
    if bit < g.n {
      v := NoWindow(bit);
      RejectionMovesDqs(t, side, start, g.n, g.dqMax, g.dqsMax, k, m, bit);
    } else {
      ghost var before, sought := g.State(), run;
      v, run := CentreBits(g, side, left, right, start, k, m);
      SameRun(t, before, sought, g.State(), run);
    }
  }

  // ------------------------------------------------------------------ what the verdict means

  /** The bit passes at the settings now programmed. */
  ghost predicate PassesHere(t: Tester, s: Regs, i: nat)
    requires s.bgn + i < |s.dq|
  {
    t(RightSweep, i, s.dq[s.bgn + i], s.dqs)
  }

  ghost predicate AllPassHere(t: Tester, s: Regs)
    requires s.bgn + s.n <= |s.dq|
  {
    forall i: nat :: i < s.n ==> PassesHere(t, s, i)
  }

  ghost predicate AllEyes(t: Tester, s: Regs, run: Run) {
    forall i: nat :: i < s.n ==> Eye(t, run.start, i)
  }

  lemma AtPlaced(t: Tester, s: Regs, start: int, i: nat)
    requires s.bgn + i < |s.dq| && Eye(t, start, i)
    ensures t(RightSweep, i, s.dq[s.bgn + i], s.dqs) == At(t, start, i, Placed(s, start, i))
  {
  }

  /** The edges recorded in an accepted run are the ends of the reachable window. */
  lemma RunEdges(t: Tester, s: Regs, run: Run, i: nat)
    requires RunSwept(t, s, run) && EdgesRecorded(t, s, run) && i < s.n && Eye(t, run.start, i)
    ensures run.left[i] + run.right[i] >= 0
    ensures WindowIs(t, run.start, i, run.start - s.dqsMax, s.dqMax, run.right[i], run.left[i])
  {
    assert Edged(t, s, run, i);
    EdgesAreTheWindow(t, run.side, run.start, s.n, s.dqMax, s.dqsMax - run.start, run.k, run.m, i);
  }

  /** The rule never puts a bit beyond its left edge, unless it leaves its delay at 0. */
  lemma PlacedInReach(t: Tester, s: Regs, v: Verdict, run: Run, i: nat)
    requires RunSwept(t, s, run) && Accepted(t, s, v, run) && i < s.n && Eye(t, run.start, i)
    ensures run.start - s.dqsMax <= Placed(s, run.start, i) <= s.dqMax
  {
    assert run.left[i] + run.right[i] >= 0 && run.left[i] <= s.dqMax by {
      RunEdges(t, s, run, i);
    }
    PlacedByRule(s, v, run, i);
  }

  lemma PlacedByRule(s: Regs, v: Verdict, run: Run, i: nat)
    requires v.Centred? && Programming(s, v, run) && i < s.n && 0 <= run.start <= s.dqsMax
    requires run.left[i] + run.right[i] >= 0 && run.left[i] <= s.dqMax
    ensures run.start - s.dqsMax <= Placed(s, run.start, i) <= s.dqMax
  {
    BitFollowsRule(s, v, run, i);
    var other := if s.bgn == 0 then 0 else s.dq[i];
    RuleInReach(run.left[i], run.right[i], run.lo, s.dqs - run.start, s.dqMax, other, -run.start);
  }

  lemma RuleInReach(l: int, r: int, lo: int, d: int, dqMax: nat, other: nat, least: int)
    requires lo <= l - r && l + r >= 0 && l <= dqMax && d >= least && 0 - dqMax <= least
    ensures Programmed(Aim(l, r, lo) + d, dqMax, other) - d <= dqMax
  {
    AimCentres(l, r, lo);
  }

  lemma PassesIffMargins(t: Tester, s: Regs, v: Verdict, run: Run, i: nat)
    requires RunSwept(t, s, run) && Accepted(t, s, v, run) && i < s.n && Eye(t, run.start, i)
    ensures PassesHere(t, s, i) <==>
      run.left[i] - Placed(s, run.start, i) >= 0 && run.right[i] + Placed(s, run.start, i) >= 0
  {
    RunEdges(t, s, run, i);
    AtPlaced(t, s, run.start, i);
    PlacedInReach(t, s, v, run, i);
  }

  /** The verdict in terms of the single margins. */
  lemma OkIffMargins(s: Regs, v: Verdict, run: Run)
    requires v.Centred? && Programming(s, v, run)
    ensures v.Ok() <==> forall i: nat :: i < s.n ==>
      run.left[i] - Placed(s, run.start, i) >= 0 && run.right[i] + Placed(s, run.start, i) >= 0
  {
    var a, b := DqMargins(run.left, PlacedBits(s, run.start)), DqsMargins(run.right, PlacedBits(s, run.start));
    assert v.Ok() <==> forall i: nat :: i < s.n ==> a[i] >= 0 && b[i] >= 0;
  }

  /** Whatever is clamped and however early a sweep stops, a centred group is accepted exactly when
    * every bit passes at the delays finally programmed.
    */
  lemma AcceptedIffAllPass(t: Tester, s: Regs, v: Verdict, run: Run)
    requires RunSwept(t, s, run) && Accepted(t, s, v, run) && AllEyes(t, s, run)
    ensures v.Ok() <==> AllPassHere(t, s)
  {
    OkIffMargins(s, v, run);
    forall i: nat | i < s.n
      ensures PassesHere(t, s, i) <==>
        run.left[i] - Placed(s, run.start, i) >= 0 && run.right[i] + Placed(s, run.start, i) >= 0
    {
      PassesIffMargins(t, s, v, run, i);
    }
  }

  /** A bit that lacks an edge fails at every position the sweeps reach. */
  lemma EdgelessFails(t: Tester, side: Side, start: int, n: nat, dqMax: nat, room: nat, k: nat, m: nat, i: nat, x: int)
    requires Swept(t, side, start, n, dqMax, room, k, m) && i < n && Eye(t, start, i)
    requires !HasBothEdges(t, start, i, k, m, dqMax)
    requires 0 - room <= x <= dqMax
    ensures !At(t, start, i, x)
  {
    Positions(t, start, i, 0);
    Positions(t, start, i, if x >= 0 then x else -x);
    EdgelessExactly(t, side, start, n, dqMax, room, k, m, i);
    FirstTapRecorded(t, start, n, dqMax, k);
    assert !Answer(t, LeftSweep, start, i, 0);
    assert !Seen(t, RightSweep, start, i, m);
    if m <= room {
      assert Settled(t, side, start, i, k, dqMax + 1) || Seen(t, RightSweep, start, i, m);
    }
  }

  /** The verdict of either deskew is exact: it is success if and only if every bit passes at the
    * settings the deskew leaves programmed.
    */
  lemma VerdictIsExact(t: Tester, s: Regs, v: Verdict, run: Run)
    requires RunSwept(t, s, run) && AllEyes(t, s, run)
    requires Rejected(t, s, v, run) || Accepted(t, s, v, run)
    requires v.NoWindow? ==> run.start <= s.dqs
    ensures v.Ok() <==> AllPassHere(t, s)
  {
    if v.Centred? {
      AcceptedIffAllPass(t, s, v, run);
    } else {
      var i := v.bit;
      var room := s.dqsMax - run.start;
      EdgelessFails(t, run.side, run.start, s.n, s.dqMax, room, run.k, run.m, i, Placed(s, run.start, i));
      assert !PassesHere(t, s, i);
    }
  }

  /** If every window reaches into the sweeps and no DQ delay had to be clamped, the group is
    * accepted with every bit centred to one tap, even if DQS was clamped.
    */
  lemma UnclampedIsAccepted(t: Tester, s: Regs, v: Verdict, run: Run)
    requires RunSwept(t, s, run) && Accepted(t, s, v, run) && AllEyes(t, s, run)
    requires forall i: nat :: i < s.n ==> 0 <= Wanted(run, s.dqsMax, i) <= s.dqMax
    ensures v.Ok()
    ensures forall i: nat :: i < s.n ==>
      -1 <= DqMargins(run.left, PlacedBits(s, run.start))[i] - DqsMargins(run.right, PlacedBits(s, run.start))[i] <= 1
  {
    var a, b := DqMargins(run.left, PlacedBits(s, run.start)), DqsMargins(run.right, PlacedBits(s, run.start));
    forall i: nat | i < s.n
      ensures -1 <= a[i] - b[i] <= 1 && a[i] >= 0 && b[i] >= 0
    {
      UnclampedBitIsCentred(t, s, v, run, i);
      RunEdges(t, s, run, i);
    }
  }

  /** Centring is optimal bit by bit, for any noise and whether or not DQS was clamped: a bit whose
    * own DQ delay was not clamped has margins at most one tap apart.
    */
  lemma UnclampedBitIsCentred(t: Tester, s: Regs, v: Verdict, run: Run, i: nat)
    requires Accepted(t, s, v, run) && i < s.n
    requires 0 <= Wanted(run, s.dqsMax, i) <= s.dqMax
    ensures var a := DqMargins(run.left, PlacedBits(s, run.start))[i];
      var b := DqsMargins(run.right, PlacedBits(s, run.start))[i];
      && -1 <= a - b <= 1
      && (run.left[i] + run.right[i] >= 0 ==> a >= 0 && b >= 0)
  {
    assert BitProgrammed(s, run, i);
    assert Placed(s, run.start, i) == Aim(run.left[i], run.right[i], run.lo);
    AimCentres(run.left[i], run.right[i], run.lo);
  }

  /** DQS moves from `start` by half the smallest offset, rounded up, as far as its chain goes. */
  ghost predicate DqsHalves(start: int, dqs: int, dqsMax: nat, lo: int) {
    && (0 < dqs < dqsMax ==> 0 <= 2 * (start - dqs) - lo <= 1)
    && (dqs == 0 < dqsMax ==> 2 * start <= lo + 1)
    && (dqs == dqsMax > 0 ==> lo <= 2 * (start - dqsMax))
    && (2 * (start - dqsMax) - 1 <= lo <= 2 * start ==> 0 <= 2 * (start - dqs) - lo <= 1)
  }

  lemma ReadDqsHalves(s: Regs, v: Verdict, run: Run)
    requires v.Centred? && Programming(s, v, run) && run.side == ReadSide
    ensures DqsHalves(run.start, s.dqs, s.dqsMax, run.lo)
  {
    assert 0 <= 2 * HalfOffset(run.lo) - run.lo <= 1;
  }

  /** If half the smallest offset fits into the DQS chain, and no offset exceeds the smallest by more
    * than twice the DQ chain, nothing is clamped: the group is accepted and every bit passes.
    */
  lemma InReachIsAccepted(t: Tester, s: Regs, v: Verdict, run: Run)
    requires RunSwept(t, s, run) && Accepted(t, s, v, run) && AllEyes(t, s, run) && run.side == ReadSide
    requires 2 * (run.start - s.dqsMax) - 1 <= run.lo <= 2 * run.start
    requires forall i: nat :: i < s.n ==> run.left[i] - run.right[i] <= run.lo + 2 * s.dqMax + 1
    ensures v.Ok() && AllPassHere(t, s)
    ensures 0 <= 2 * (run.start - s.dqs) - run.lo <= 1
    ensures forall i: nat :: i < s.n ==>
      0 <= run.left[i] - run.right[i] - run.lo - 2 * s.dq[s.bgn + i] <= 1
  {
    ReadDqsHalves(s, v, run);
    forall i: nat | i < s.n
      ensures 0 <= Wanted(run, s.dqsMax, i) <= s.dqMax
      ensures 0 <= run.left[i] - run.right[i] - run.lo - 2 * s.dq[s.bgn + i] <= 1
    {
      BitFollowsRule(s, v, run, i);
      UnclampedWants(run, s.dqsMax, i);
    }
    UnclampedIsAccepted(t, s, v, run);
    AcceptedIffAllPass(t, s, v, run);
  }

  /** With DQS unclamped a bit wants half of what its offset exceeds the smallest by. */
  lemma UnclampedWants(run: Run, dqsMax: nat, i: nat)
    requires i < |run.left| == |run.right| && run.lo <= run.left[i] - run.right[i] && run.side == ReadSide
    requires 2 * (run.start - dqsMax) - 1 <= run.lo <= 2 * run.start
    ensures 0 <= run.left[i] - run.right[i] - run.lo - 2 * Wanted(run, dqsMax, i) <= 1
  {
    assert 0 <= 2 * HalfOffset(run.lo) - run.lo <= 1;
  }

  /** Wherever a bit is put, clamped or not, its two margins share out the width of its window. */
  lemma MarginsAddUp(s: Regs, v: Verdict, run: Run)
    requires v.Centred? && Programming(s, v, run)
    ensures forall i: nat :: i < s.n ==>
      DqMargins(run.left, PlacedBits(s, run.start))[i] + DqsMargins(run.right, PlacedBits(s, run.start))[i]
        == run.left[i] + run.right[i]
    ensures forall i: nat :: i < s.n ==> v.dqMargin + v.dqsMargin <= run.left[i] + run.right[i]
  {
    var a, b := DqMargins(run.left, PlacedBits(s, run.start)), DqsMargins(run.right, PlacedBits(s, run.start));
    forall i: nat | i < s.n
      ensures a[i] + b[i] == run.left[i] + run.right[i] >= v.dqMargin + v.dqsMargin
    {
      assert v.dqMargin <= a[i] && v.dqsMargin <= b[i];
    }
  }

  /** The smaller margin of a bit with edges `l` and `r` at DQ delay `x`, DQS having moved by `d`. */
  function MarginAt(l: int, r: int, d: int, x: int): int {
    MinMargin(l, r, x - d)
  }

  /** No delay of the chain gives the bit a larger smaller margin than `p` does. */
  ghost predicate BestDelay(l: int, r: int, d: int, dqMax: nat, p: int) {
    forall x :: 0 <= x <= dqMax ==> MarginAt(l, r, d, x) <= MarginAt(l, r, d, p)
  }

  lemma RuleIsBestIff(l: int, r: int, lo: int, d: int, dqMax: nat, other: nat)
    requires lo <= l - r
    ensures BestDelay(l, r, d, dqMax, Programmed(Aim(l, r, lo) + d, dqMax, other)) <==>
      Aim(l, r, lo) + d <= dqMax || other == 0
  {
    var p := Programmed(Aim(l, r, lo) + d, dqMax, other);
    AimIsBest(l, r, lo, p - d);
    if Aim(l, r, lo) + d <= dqMax || other == 0 {
      forall x | 0 <= x <= dqMax
        ensures MarginAt(l, r, d, x) <= MarginAt(l, r, d, p)
      {
        AimIsBest(l, r, lo, x - d);
      }
    } else {
      AimIsBest(l, r, lo, dqMax - d);
      assert MarginAt(l, r, d, dqMax) > MarginAt(l, r, d, p);
    }
  }

  lemma BitFollowsRule(s: Regs, v: Verdict, run: Run, i: nat)
    requires v.Centred? && Programming(s, v, run) && i < s.n
    ensures var l, r, d := run.left[i], run.right[i], s.dqs - run.start;
      && run.lo <= l - r
      && Wanted(run, s.dqsMax, i) == Aim(l, r, run.lo) + d
      && s.dq[i] >= 0
      && s.dq[s.bgn + i] == Programmed(Aim(l, r, run.lo) + d, s.dqMax, if s.bgn == 0 then 0 else s.dq[i])
  {
    assert BitProgrammed(s, run, i);
  }

  /** The delay programmed for a bit is the best its chain offers, DQS being where it is, exactly if
    * the bit was not clamped from above, or the register read by that clamp held 0.
    */
  lemma BestInChainIff(s: Regs, v: Verdict, run: Run, i: nat)
    requires v.Centred? && Programming(s, v, run) && i < s.n
    ensures BestDelay(run.left[i], run.right[i], s.dqs - run.start, s.dqMax, s.dq[s.bgn + i]) <==>
      Wanted(run, s.dqsMax, i) <= s.dqMax || s.bgn == 0 || s.dq[i] == 0
  {
    BitFollowsRule(s, v, run, i);
    RuleIsBestIff(run.left[i], run.right[i], run.lo, s.dqs - run.start, s.dqMax, if s.bgn == 0 then 0 else s.dq[i]);
  }

  ghost predicate AllBest(s: Regs, run: Run)
    requires s.Valid() && |run.left| == |run.right| == s.n
  {
    forall i: nat :: i < s.n ==>
      BestDelay(run.left[i], run.right[i], s.dqs - run.start, s.dqMax, s.dq[s.bgn + i])
  }

  lemma BestFromZero(s: Regs, v: Verdict, run: Run)
    requires v.Centred? && Programming(s, v, run) && s.bgn == 0
    ensures AllBest(s, run)
  {
    forall i: nat | i < s.n
      ensures BestDelay(run.left[i], run.right[i], s.dqs - run.start, s.dqMax, s.dq[s.bgn + i])
    {
      BestInChainIff(s, v, run, i);
    }
  }

  // ------------------------------------------------------------------ the two entry points

  lemma RejectedKept(t: Tester, s: Regs, v: Verdict, run: Run, dqs: int)
    requires Rejected(t, s, v, run) && 0 <= dqs <= s.dqsMax
    ensures Rejected(t, s.(dqs := dqs), v, run)
  {
    forall i: nat | i < v.bit
      ensures Edged(t, s.(dqs := dqs), run, i)
    {
      assert Edged(t, s, run, i);
    }
  }

  /** Read deskew.  A rejected group gets its old DQS delay back before the next attempt. */
  method VfifoCenter(g: SccGroup, t: Tester) returns (v: Verdict, ghost run: Run)
    requires g.Valid()
    modifies g`dqs, g.dq
    ensures run.side == ReadSide && run.start == old(g.dqs) && RunSwept(t, g.State(), run)
    ensures v.NoWindow? ==> Rejected(t, g.State(), v, run) && g.dqs == old(g.dqs)
    ensures v.Centred? ==> Accepted(t, g.State(), v, run) && DqsHalves(old(g.dqs), g.dqs, g.dqsMax, run.lo)
    ensures AllEyes(t, g.State(), run) ==> (v.Ok() <==> AllPassHere(t, g.State()))
    ensures forall p :: 0 <= p < g.dq.Length && !(g.bgn <= p < g.bgn + g.n) ==> g.dq[p] == old(g.dq[p])
  {
    var start := g.dqs;
    v, run := DeskewGroup(g, ReadSide, t);
    if v.NoWindow? {
      ghost var before := g.State();
      g.dqs := start;
      assert g.State() == before.(dqs := start);
      RejectedKept(t, before, v, run, start);
    } else {
      ReadDqsHalves(g.State(), v, run);
    }
    if AllEyes(t, g.State(), run) {
      VerdictIsExact(t, g.State(), v, run);
    }
  }

  /** The DQ half of the write deskew.  A rejected group keeps the DQS delay the sweep ended on.
    * Its DQ registers are numbered from 0 within the write group, so every bit gets the best delay
    * of its chain.
    */
  method WritesDq(g: SccGroup, t: Tester) returns (v: Verdict, ghost run: Run)
    requires g.Valid() && g.bgn == 0
    modifies g`dqs, g.dq
    ensures run.side == WriteSide && run.start == old(g.dqs) && RunSwept(t, g.State(), run)
    ensures v.NoWindow? ==> Rejected(t, g.State(), v, run) && g.dqs == DqsAfter(old(g.dqs), run.m, g.dqsMax)
    ensures v.NoWindow? ==> (g.dqs == old(g.dqs) <==> old(g.dqs) == g.dqsMax)
    ensures v.Centred? ==> Accepted(t, g.State(), v, run) && g.dqs == old(g.dqs) && AllBest(g.State(), run)
    ensures forall p :: g.n <= p < g.dq.Length ==> g.dq[p] == old(g.dq[p])
    ensures AllEyes(t, g.State(), run) ==> (v.Ok() <==> AllPassHere(t, g.State()))
  {
    v, run := DeskewGroup(g, WriteSide, t);
    if v.Centred? {
      BestFromZero(g.State(), v, run);
    }
    if AllEyes(t, g.State(), run) {
      VerdictIsExact(t, g.State(), v, run);
    }
  }

  /** Write deskew: the DQ half, then the DM half unless the group was rejected. */
  method WritesCenter(g: SccGroup, pins: DmPins, t: Tester, dm: DmTester)
    returns (ok: bool, v: Verdict, dmMargin: int, ghost run: Run, ghost w: Window)
    requires g.Valid() && g.bgn == 0 && g.dqsMax == g.dqMax
    modifies g`dqs, g.dq, pins
    ensures run.side == WriteSide && run.start == old(g.dqs) && RunSwept(t, g.State(), run)
    ensures v.NoWindow? ==> !ok && Rejected(t, g.State(), v, run) && pins.dm == old(pins.dm)
    ensures v.NoWindow? ==> g.dqs == DqsAfter(old(g.dqs), run.m, g.dqsMax)
    ensures v.NoWindow? ==> (g.dqs == old(g.dqs) <==> old(g.dqs) == g.dqsMax)
    ensures forall p :: g.n <= p < g.dq.Length ==> g.dq[p] == old(g.dq[p])
    ensures v.Centred? ==> Accepted(t, g.State(), v, run) && g.dqs == old(g.dqs) && AllBest(g.State(), run)
    ensures v.Centred? ==> IsBest(dm, g.dqs, g.dqMax, w) && pins.dm == DmMid(w) && 0 <= pins.dm <= g.dqMax
    ensures v.Centred? ==> (ok <==> v.Ok() && w.winBest > 0 && w.bgnBest <= -pins.dm <= w.endBest)
    ensures v.Centred? ==> (ok <==> v.Ok() && Usable(dm, g.dqs, g.dqMax))
    ensures ok && Steady(dm) ==> dm(DmPhase, pins.dm, g.dqs)
    ensures AllEyes(t, g.State(), run) ==>
      (ok <==> AllPassHere(t, g.State()) && Usable(dm, g.dqs, g.dqMax))
  {
    w := Window(0, 0, 0, 0, 0);
    v, run := WritesDq(g, t);
    if v.NoWindow? {
      return false, v, 0, run, w;
    }
    ghost var before := g.State();
    dmMargin, w := CentreDm(g, pins, dm);
    assert g.State() == before;
    ok := v.Ok() && dmMargin >= 0;
    if ok && Steady(dm) {
      MarginMeansPass(dm, g.dqs, g.dqMax, w, pins.dm);
    }
  }

  // ------------------------------------------------------------------ a clamp that costs a group

  /** Two bits: bit 0 passes at position -2 only, bit 1 from 0 to 2; DQS starts at 0. */
  predicate TwoEyes(sw: Sweep, i: nat, dq: int, dqs: int) {
    if i == 0 then dq - dqs == -2 else 0 <= dq - dqs <= 2
  }

  /** The second read group of a write group, where register 1 of the first group holds 1. */
  ghost predicate SecondGroup(s: Regs, run: Run) {
    && s.n == 2 && s.bgn == 2 && s.dqMax == s.dqsMax == 2 && |s.dq| == 4 && s.dq[1] == 1
    && run.side == ReadSide && run.start == 0
  }

  lemma TwoEyesAreEyes()
    ensures forall i: nat :: Eye(TwoEyes, 0, i)
  {
  }

  lemma TwoEyesFound(s: Regs, v: Verdict, run: Run)
    requires SecondGroup(s, run) && RunSwept(TwoEyes, s, run)
    ensures !Rejected(TwoEyes, s, v, run)
    ensures Accepted(TwoEyes, s, v, run) ==> run.left == [-2, 2] && run.right == [2, 0] && run.lo == -4
  {
    TwoEyesAreEyes();
    if Rejected(TwoEyes, s, v, run) {
      var x := if v.bit == 0 then -2 else 0;
      EdgelessFails(TwoEyes, ReadSide, 0, 2, 2, 2, run.k, run.m, v.bit, x);
      assert At(TwoEyes, 0, v.bit, x);
      assert false;
    }
    if Accepted(TwoEyes, s, v, run) {
      RunEdges(TwoEyes, s, run, 0);
      RunEdges(TwoEyes, s, run, 1);
      WindowEnds(TwoEyes, 0, 0, -2, 2, run.right[0], run.left[0], -2, -2);
      WindowEnds(TwoEyes, 0, 1, -2, 2, run.right[1], run.left[1], 0, 2);
    }
  }

  /** Bit 1 wants a delay of 3.  The end of the chain, 2, would do; the clamp subtracts the 1 of the
    * other group's register, and the group fails.
    */
  lemma ClampCostsGroup(s: Regs, v: Verdict, run: Run)
    requires SecondGroup(s, run) && RunSwept(TwoEyes, s, run)
    requires Rejected(TwoEyes, s, v, run) || Accepted(TwoEyes, s, v, run)
    ensures v.Centred? && !v.Ok()
    ensures Wanted(run, s.dqsMax, 1) == 3 && s.dq[3] == 1 && s.dqs == 2
    ensures PassesHere(TwoEyes, s, 0) && !PassesHere(TwoEyes, s, 1) && PassesHere(TwoEyes, s.(dq := s.dq[3 := 2]), 1)
  {
    TwoEyesFound(s, v, run);
    TwoEyesAreEyes();
    BitFollowsRule(s, v, run, 0);
    BitFollowsRule(s, v, run, 1);
    AcceptedIffAllPass(TwoEyes, s, v, run);
    assert !PassesHere(TwoEyes, s, 1);
  }

  /** The case arises: a read deskew of such a group. */
  method ClampExample() returns (g: SccGroup, v: Verdict)
    ensures g.Valid() && !v.Ok() && g.dq.Length == 4 && g.dq[3] == 1 && g.dqs == 2
    ensures !TwoEyes(RightSweep, 1, 1, g.dqs) && TwoEyes(RightSweep, 1, 2, g.dqs)
  {
    g := new SccGroup(4, 2, 2, 2, 2, 0);
    g.dq[1] := 1;
    ghost var run;
    v, run := VfifoCenter(g, TwoEyes);
    ClampCostsGroup(g.State(), v, run);
  }

  // ------------------------------------------------------------------ a group that starts off 0

  /** One bit that passes from -6 to -2 taps, where DQS starts at 4. */
  predicate LateEye(sw: Sweep, i: nat, dq: int, dqs: int) {
    -6 <= dq - (dqs - 4) <= -2
  }

  lemma LateEyeHasEdges(s: Regs, v: Verdict, run: Run)
    requires s.n == 1 && s.dqMax == s.dqsMax == 31 && run.side == ReadSide && run.start == 4
    requires RunSwept(LateEye, s, run)
    ensures !Rejected(LateEye, s, v, run)
  {
    assert At(LateEye, 4, 0, -2);
    if Rejected(LateEye, s, v, run) {
      EdgelessFails(LateEye, ReadSide, 4, 1, 31, 27, run.k, run.m, 0, -2);
      assert false;
    }
  }

  lemma LateEyeEdges(s: Regs, v: Verdict, run: Run)
    requires s.n == 1 && s.dqMax == s.dqsMax == 31 && run.side == ReadSide && run.start == 4
    requires RunSwept(LateEye, s, run) && Accepted(LateEye, s, v, run)
    ensures run.left == [-2] && run.right == [6] && run.lo == -8
  {
    RunEdges(LateEye, s, run, 0);
    WindowEnds(LateEye, 4, 0, -27, 31, run.right[0], run.left[0], -6, -2);
  }

  lemma LateEyeFound(s: Regs, v: Verdict, run: Run)
    requires s.n == 1 && s.dqMax == s.dqsMax == 31 && run.side == ReadSide && run.start == 4
    requires RunSwept(LateEye, s, run) && (Rejected(LateEye, s, v, run) || Accepted(LateEye, s, v, run))
    ensures v.Ok() && s.dqs == 8 && s.dq[s.bgn] == 0
  {
    LateEyeHasEdges(s, v, run);
    LateEyeEdges(s, v, run);
    InReachIsAccepted(LateEye, s, v, run);
  }

  /** DQS moves from its reserve of 4 taps to 8, and the group is accepted. */
  method LateEyeExample() returns (g: SccGroup, v: Verdict)
    ensures g.Valid() && v.Ok() && g.dqs == 8 && g.dq.Length == 1 && g.dq[0] == 0
  {
    g := new SccGroup(1, 0, 1, 31, 31, 4);
    ghost var run;
    v, run := VfifoCenter(g, LateEye);
    LateEyeFound(g.State(), v, run);
  }
}

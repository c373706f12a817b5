/** The data-mask window search of the write deskew: a longest run over two joined sweeps. */
module DataMask {
  import opened EdgeSweeps
  import opened Centring

  /** The DM sweep lowers the DM delay to 0; the DQS sweep then raises DQS with DM at 0. */
  datatype DmSweep = DmPhase | DqsPhase

  /** Answer of the write test at a DM delay and a DQS delay.  No setting is tested twice in one
    * phase, so an arbitrary oracle is an arbitrarily noisy interface.
    */
  type DmTester = (DmSweep, int, int) -> bool

  class DmPins {
    var dm: int
    constructor () { dm := 0; }
  }

  /** The joined axis: position -d is DM delay d, position d is a DQS shift of d. */
  predicate DmPass(t: DmTester, dqs: int, x: int) { t(DmPhase, -x, dqs) }
  predicate DqsPass(t: DmTester, dqs: int, x: int) { t(DqsPhase, 0, dqs + x) }

  ghost predicate AllDm(t: DmTester, dqs: int, b: int, e: int) {
    forall x :: b <= x <= e ==> DmPass(t, dqs, x)
  }

  ghost predicate AllDqs(t: DmTester, dqs: int, b: int, e: int) {
    forall x :: b <= x <= e ==> DqsPass(t, dqs, x)
  }

  /** A run that ends in the DQS phase; one that starts before the origin passes there twice. */
  ghost predicate RunInDqs(t: DmTester, dqs: int, b: int, e: int) {
    && b <= e
    && AllDqs(t, dqs, if b < 0 then 0 else b, e)
    && (b < 0 ==> AllDm(t, dqs, b, 0))
  }

  /** A contiguous run of passing tests on the joined axis. */
  ghost predicate IsRun(t: DmTester, dqs: int, b: int, e: int) {
    || (b <= e <= 0 && AllDm(t, dqs, b, e))
    || (0 <= e && RunInDqs(t, dqs, b, e))
  }

  /** The search variables of the source; `max + 1` stands for "no edge". */
  datatype Window = Window(bgnCurr: int, endCurr: int, bgnBest: int, endBest: int, winBest: int)

  predicate NoLonger(b: int, e: int, w: Window) {
    e - b + 1 < w.winBest || (e - b + 1 == w.winBest && w.bgnBest <= b)
  }

  ghost predicate WellFormed(t: DmTester, dqs: int, max: nat, limit: int, w: Window) {
    && w.winBest >= 0
    && (w.winBest == 0 ==> w.bgnBest == w.endBest == max + 1)
    && (w.winBest > 0 ==>
          && 0 - max <= w.bgnBest && w.endBest - w.bgnBest + 1 == w.winBest && w.endBest < limit && w.endBest <= max
          && IsRun(t, dqs, w.bgnBest, w.endBest))
  }

  /** Runs recorded before tap `d` of the DQS phase end before this position. */
  function Limit(d: nat): nat {
    if d == 0 then 1 else d
  }

  /** No run of the DM phase that ends before `x` beats the best window. */
  ghost predicate BestDm(t: DmTester, dqs: int, max: nat, x: int, w: Window) {
    forall b, e :: 0 - max <= b <= e < x && AllDm(t, dqs, b, e) ==> NoLonger(b, e, w)
  }

  /** No run that ends in the first `d` taps of the DQS phase beats the best window. */
  ghost predicate BestDqs(t: DmTester, dqs: int, max: nat, d: int, w: Window) {
    forall b, e :: 0 - max <= b <= e < d && 0 <= e && RunInDqs(t, dqs, b, e) ==> NoLonger(b, e, w)
  }

  /** The current run ends just before position `x` of the DM phase. */
  ghost predicate CurrentDm(t: DmTester, dqs: int, max: nat, x: int, w: Window) {
    if w.bgnCurr == max + 1 then w.endCurr == max + 1 && (x == 0 - max || !DmPass(t, dqs, x - 1))
    else
      && 0 - max <= w.bgnCurr <= w.endCurr == x - 1
      && AllDm(t, dqs, w.bgnCurr, w.endCurr) && (w.bgnCurr == 0 - max || !DmPass(t, dqs, w.bgnCurr - 1))
  }

  /** A run that ends just before tap `d` of the DQS phase, or at the origin of the DM phase. */
  ghost predicate Ends(t: DmTester, dqs: int, b: int, d: nat) {
    if d == 0 then b <= 0 && AllDm(t, dqs, b, 0) else RunInDqs(t, dqs, b, d - 1)
  }

  /** The current run is the longest that ends just before tap `d` of the DQS phase. */
  ghost predicate CurrentDqs(t: DmTester, dqs: int, max: nat, d: nat, w: Window) {
    && (w.bgnCurr != max + 1 ==> 0 - max <= w.bgnCurr && Ends(t, dqs, w.bgnCurr, d))
    && forall b :: 0 - max <= b && Ends(t, dqs, b, d) ==> w.bgnCurr != max + 1 && w.bgnCurr <= b
  }

  lemma EndsNext(t: DmTester, dqs: int, b: int, d: nat)
    requires b <= d
    ensures Ends(t, dqs, b, d + 1) <==> DqsPass(t, dqs, d) && (b == d || Ends(t, dqs, b, d))
  {
    if Ends(t, dqs, b, d + 1) {
      assert DqsPass(t, dqs, d);
    }
  }

  /** What the source does with the outcome of one test at position `x`. */
  ghost predicate Recorded(max: nat, x: int, pass: bool, w: Window, w': Window) {
    var bgn := if !pass then max + 1 else if w.bgnCurr == max + 1 then x else w.bgnCurr;
    var end := if pass then x else max + 1;
    && w'.bgnCurr == bgn && w'.endCurr == end
    && if pass && end - bgn + 1 > w.winBest
       then w'.winBest == end - bgn + 1 && w'.bgnBest == bgn && w'.endBest == end
       else w'.winBest == w.winBest && w'.bgnBest == w.bgnBest && w'.endBest == w.endBest
  }

  /** One tap of the DM phase. */
  lemma DmStep(t: DmTester, dqs: int, max: nat, x: int, w: Window, w': Window)
    requires 0 - max <= x <= 0 && Recorded(max, x, DmPass(t, dqs, x), w, w')
    requires CurrentDm(t, dqs, max, x, w) && WellFormed(t, dqs, max, x, w) && BestDm(t, dqs, max, x, w)
    ensures CurrentDm(t, dqs, max, x + 1, w') && WellFormed(t, dqs, max, x + 1, w') && BestDm(t, dqs, max, x + 1, w')
  {
    if DmPass(t, dqs, x) {
      assert AllDm(t, dqs, w'.bgnCurr, x);
    }
    forall b, e | 0 - max <= b <= e < x + 1 && AllDm(t, dqs, b, e)
      ensures NoLonger(b, e, w')
    {
      if e < x {
        assert NoLonger(b, e, w);
      } else {
        assert DmPass(t, dqs, x);
        assert b < w'.bgnCurr ==> DmPass(t, dqs, w'.bgnCurr - 1);
      }
    }
  }

  lemma DqsCurrent(t: DmTester, dqs: int, max: nat, d: nat, w: Window, w': Window)
    requires d <= max && Recorded(max, d, DqsPass(t, dqs, d), w, w') && CurrentDqs(t, dqs, max, d, w)
    ensures CurrentDqs(t, dqs, max, d + 1, w')
    ensures DqsPass(t, dqs, d) ==> w'.bgnCurr <= d && RunInDqs(t, dqs, w'.bgnCurr, d)
  {
    if DqsPass(t, dqs, d) {
      EndsNext(t, dqs, w'.bgnCurr, d);
    }
    var next := d + 1;
    forall b | 0 - max <= b && Ends(t, dqs, b, next)
      ensures w'.bgnCurr != max + 1 && w'.bgnCurr <= b
    {
      EndsNext(t, dqs, b, d);
    }
  }

  /** One tap of the DQS phase. */
  lemma DqsStep(t: DmTester, dqs: int, max: nat, d: nat, w: Window, w': Window)
    requires d <= max && Recorded(max, d, DqsPass(t, dqs, d), w, w')
    requires CurrentDqs(t, dqs, max, d, w) && WellFormed(t, dqs, max, Limit(d), w) && BestDqs(t, dqs, max, d, w)
    requires BestDm(t, dqs, max, 1, w)
    ensures BestDm(t, dqs, max, 1, w')
    ensures CurrentDqs(t, dqs, max, d + 1, w') && WellFormed(t, dqs, max, Limit(d + 1), w')
    ensures BestDqs(t, dqs, max, d + 1, w')
  {
    DqsCurrent(t, dqs, max, d, w, w');
    BestDmKept(t, dqs, max, d, DqsPass(t, dqs, d), w, w');
    forall b, e | 0 - max <= b <= e < d + 1 && 0 <= e && RunInDqs(t, dqs, b, e)
      ensures NoLonger(b, e, w')
    {
      if e < d {
        assert NoLonger(b, e, w);
      } else {
        assert Ends(t, dqs, b, d + 1);
        assert DqsPass(t, dqs, d);
      }
    }
  }

  // ------------------------------------------------------------------ the search

  /** The best window is the leftmost of the longest runs on the whole joined axis. */
  ghost predicate IsBest(t: DmTester, dqs: int, max: nat, w: Window) {
    && w.winBest >= 0
    && (w.winBest > 0 ==>
          && 0 - max <= w.bgnBest <= w.endBest <= max - dqs && w.endBest - w.bgnBest + 1 == w.winBest
          && IsRun(t, dqs, w.bgnBest, w.endBest))
    && (w.winBest == 0 ==> w.bgnBest == w.endBest == max + 1)
    && forall b, e :: 0 - max <= b <= e <= max - dqs && IsRun(t, dqs, b, e) ==> NoLonger(b, e, w)
  }

  /** Only a run that touches the origin is carried from the DM phase into the DQS phase. */
  lemma JoinAtOrigin(t: DmTester, dqs: int, max: nat, w: Window)
    requires CurrentDm(t, dqs, max, 1, w) || (w.bgnCurr == max + 1 && !DmPass(t, dqs, 0))
    ensures CurrentDqs(t, dqs, max, 0, w)
  {
    forall b | 0 - max <= b && Ends(t, dqs, b, 0)
      ensures w.bgnCurr != max + 1 && w.bgnCurr <= b
    {
      assert DmPass(t, dqs, 0);
      assert b < w.bgnCurr ==> DmPass(t, dqs, w.bgnCurr - 1);
    }
  }

  /** Recording another test never lowers the best window. */
  lemma BestDmKept(t: DmTester, dqs: int, max: nat, d: nat, pass: bool, w: Window, w': Window)
    requires Recorded(max, d, pass, w, w') && BestDm(t, dqs, max, 1, w) && (pass ==> w'.bgnCurr <= d)
    ensures BestDm(t, dqs, max, 1, w')
  {
    forall b, e | 0 - max <= b <= e < 1 && AllDm(t, dqs, b, e)
      ensures NoLonger(b, e, w')
    {
      assert NoLonger(b, e, w);
    }
  }

  /** Runs that end after a failing tap are too short to matter once the exit test fires. */
  lemma ExitIsSafe(t: DmTester, dqs: int, max: nat, d: nat, w: Window)
    requires 0 <= dqs && d <= max - dqs
    requires !DqsPass(t, dqs, d) && w.winBest - 1 > max - dqs - d
    requires BestDqs(t, dqs, max, d + 1, w)
    ensures BestDqs(t, dqs, max, max - dqs + 1, w)
  {
    forall b, e | 0 - max <= b <= e < max - dqs + 1 && 0 <= e && RunInDqs(t, dqs, b, e)
      ensures NoLonger(b, e, w)
    {
      if e > d {
        assert b > d;
      } else {
        assert NoLonger(b, e, w);
      }
    }
  }

  /** What the source does with the outcome of one test. */
  method Record(max: nat, x: int, pass: bool, w: Window) returns (w': Window)
    ensures Recorded(max, x, pass, w, w')
  {
    w' := w;
    if pass {
      w' := w'.(endCurr := x);
      if w'.bgnCurr == max + 1 {
        w' := w'.(bgnCurr := x);
      }
      if w'.endCurr - w'.bgnCurr + 1 > w'.winBest {
        w' := w'.(winBest := w'.endCurr - w'.bgnCurr + 1, bgnBest := w'.bgnCurr, endBest := w'.endCurr);
      }
    } else {
      w' := w'.(bgnCurr := max + 1, endCurr := max + 1);
    }
  }

  /** First phase: DM delay from its maximum down to 0. */
  method SearchDm(pins: DmPins, max: nat, dqs: int, t: DmTester) returns (w: Window)
    modifies pins
    ensures pins.dm == 0
    ensures CurrentDqs(t, dqs, max, 0, w) && WellFormed(t, dqs, max, 1, w) && BestDm(t, dqs, max, 1, w)
  {
    w := Window(max + 1, max + 1, max + 1, max + 1, 0);
    var d: int := max;
    while d >= 0
      invariant -1 <= d <= max
      invariant CurrentDm(t, dqs, max, -d, w) && WellFormed(t, dqs, max, -d, w) && BestDm(t, dqs, max, -d, w)
    {
      pins.dm := d;
      var was := w;
      w := Record(max, -d, t(DmPhase, pins.dm, dqs), w);
      DmStep(t, dqs, max, -d, was, w);
      d := d - 1;
    }
    pins.dm := 0;
    if w.endCurr != 0 {
      w := w.(bgnCurr := max + 1, endCurr := max + 1);
    }
    JoinAtOrigin(t, dqs, max, w);
  }

  /** Second phase: DQS up from where it was, with the early exit. */
  method SearchDqs(g: SccGroup, pins: DmPins, t: DmTester, w0: Window) returns (w: Window)
    requires g.Valid() && g.dqsMax == g.dqMax && pins.dm == 0
    requires CurrentDqs(t, g.dqs, g.dqMax, 0, w0) && WellFormed(t, g.dqs, g.dqMax, 1, w0)
    requires BestDm(t, g.dqs, g.dqMax, 1, w0)
    modifies g`dqs
    ensures g.Valid() && g.dqs >= old(g.dqs)
    ensures WellFormed(t, old(g.dqs), g.dqMax, Limit(g.dqMax - old(g.dqs) + 1), w)
    ensures BestDm(t, old(g.dqs), g.dqMax, 1, w) && BestDqs(t, old(g.dqs), g.dqMax, g.dqMax - old(g.dqs) + 1, w)
  {
    var max, newDqs := g.dqMax, g.dqs;
    w := w0;
    var d := 0;
    while d <= max - newDqs
      invariant 0 <= d <= max - newDqs + 1 && newDqs <= g.dqs <= max
      invariant CurrentDqs(t, newDqs, max, d, w) && WellFormed(t, newDqs, max, Limit(d), w)
      invariant BestDqs(t, newDqs, max, d, w) && BestDm(t, newDqs, max, 1, w)
    {
      g.dqs := d + newDqs;
      var was, pass := w, t(DqsPhase, pins.dm, g.dqs);
      w := Record(max, d, pass, w);
      DqsStep(t, newDqs, max, d, was, w);
      if !pass && w.winBest - 1 > max - newDqs - d {
        ExitIsSafe(t, newDqs, max, d, w);
        return;
      }
      d := d + 1;
    }
  }

  lemma BothPhases(t: DmTester, dqs: int, max: nat, w: Window)
    requires 0 <= dqs <= max
    requires WellFormed(t, dqs, max, Limit(max - dqs + 1), w)
    requires BestDm(t, dqs, max, 1, w) && BestDqs(t, dqs, max, max - dqs + 1, w)
    ensures IsBest(t, dqs, max, w)
  {
    forall b, e | 0 - max <= b <= e <= max - dqs && IsRun(t, dqs, b, e)
      ensures NoLonger(b, e, w)
    {
      if e <= 0 && AllDm(t, dqs, b, e) {
      } else {
        assert RunInDqs(t, dqs, b, e);
      }
    }
  }

  /** The middle of the window as a DM delay, or 0 if the middle lies in the DQS phase. */
  function DmMid(w: Window): int {
    var mid := CDiv(-1 * w.bgnBest - w.endBest, 2);
    if mid < 0 then 0 else mid
  }

  /** A run that starts at a mask delay, and is no shorter than any run beyond the origin. */
  ghost predicate UsableRun(t: DmTester, dqs: int, max: nat, b: int, e: int) {
    && 0 - max <= b <= 0 && b <= e <= max - dqs && IsRun(t, dqs, b, e)
    && forall b', e' :: 0 < b' <= e' <= max - dqs && IsRun(t, dqs, b', e') ==> e' - b' <= e - b
  }

  ghost predicate Usable(t: DmTester, dqs: int, max: nat) {
    exists b, e :: UsableRun(t, dqs, max, b, e)
  }

  /** The window found starts at a mask delay exactly if such a run exists. */
  lemma UsableIff(t: DmTester, dqs: int, max: nat, w: Window)
    requires IsBest(t, dqs, max, w) && 0 <= dqs <= max
    ensures w.winBest > 0 && w.bgnBest <= 0 <==> Usable(t, dqs, max)
  {
    if w.winBest > 0 && w.bgnBest <= 0 {
      forall b', e' | 0 < b' <= e' <= max - dqs && IsRun(t, dqs, b', e')
        ensures e' - b' <= w.endBest - w.bgnBest
      {
        assert NoLonger(b', e', w);
      }
      assert UsableRun(t, dqs, max, w.bgnBest, w.endBest);
    }
    if b, e :| UsableRun(t, dqs, max, b, e) {
      assert NoLonger(b, e, w);
    }
  }

  /** Passes at mask delay 2, and for a DQS shift of one or two taps. */
  predicate OnlyBeyondOrigin(sw: DmSweep, dm: int, dqs: int) {
    dm == 2 || (dm == 0 && 1 <= dqs <= 2)
  }

  /** A mask delay that works, on a steady interface, and a search that fails all the same. */
  lemma UsableDelayMissed(w: Window)
    requires IsBest(OnlyBeyondOrigin, 0, 3, w)
    ensures Steady(OnlyBeyondOrigin) && OnlyBeyondOrigin(DmPhase, 2, 0)
    ensures !Usable(OnlyBeyondOrigin, 0, 3) && w.bgnBest > 0
  {
    var t: DmTester := OnlyBeyondOrigin;
    assert IsRun(t, 0, 1, 2);
    assert !DqsPass(t, 0, 0) && !DmPass(t, 0, 0) && !DmPass(t, 0, -1) && !DmPass(t, 0, -3);
    forall b, e | -3 <= b <= 0 && b < e <= 3
      ensures !IsRun(t, 0, b, e)
    {
      assert AllDm(t, 0, b, e) ==> DmPass(t, 0, b) && DmPass(t, 0, b + 1);
    }
    UsableIff(t, 0, 3, w);
    assert NoLonger(1, 2, w);
  }

  /** Centres the DM delay: the longest window is searched, DQS is put back, and DM moves to the
    * middle of the window, but never below 0.
    */
  method CentreDm(g: SccGroup, pins: DmPins, t: DmTester) returns (dmMargin: int, w: Window)
    requires g.Valid() && g.dqsMax == g.dqMax
    modifies g`dqs, pins
    ensures g.dqs == old(g.dqs) && IsBest(t, g.dqs, g.dqMax, w)
    ensures pins.dm == DmMid(w) && 0 <= pins.dm <= g.dqMax
    ensures dmMargin >= 0 <==> w.winBest > 0 && w.bgnBest <= -pins.dm <= w.endBest
    ensures dmMargin >= 0 <==> Usable(t, g.dqs, g.dqMax)
    ensures w.winBest == 0 || w.bgnBest + w.endBest > 0 ==> pins.dm == 0
    ensures dmMargin == if w.winBest == 0 then -1 else -w.bgnBest - pins.dm
    ensures w.winBest > 0 && w.bgnBest + w.endBest <= 0 ==> 0 <= (-pins.dm - w.bgnBest) - (w.endBest + pins.dm) <= 1
  {
    var newDqs := g.dqs;
    w := SearchDm(pins, g.dqMax, newDqs, t);
    w := SearchDqs(g, pins, t, w);
    BothPhases(t, newDqs, g.dqMax, w);
    var leftEdge, rightEdge := -1 * w.bgnBest, w.endBest;
    g.dqs := newDqs;
    var mid := CDiv(leftEdge - rightEdge, 2);
    if mid < 0 {
      mid := 0;
    }
    if w.winBest == 0 {
      dmMargin := -1;
    } else {
      dmMargin := leftEdge - mid;
    }
    pins.dm := mid;
    UsableIff(t, newDqs, g.dqMax, w);
  }

  // ------------------------------------------------------------------ what the margin means

  /** Without noise the two phases agree: a test depends on DM delay and DQS delay only. */
  ghost predicate Steady(t: DmTester) {
    forall dm, dqs :: t(DmPhase, dm, dqs) == t(DqsPhase, dm, dqs)
  }

  /** With a steady interface a nonnegative margin means that the DM test passes where DM was put. */
  lemma MarginMeansPass(t: DmTester, dqs: int, max: nat, w: Window, dm: int)
    requires Steady(t) && IsBest(t, dqs, max, w) && 0 <= dm <= max
    requires w.winBest > 0 && w.bgnBest <= -dm <= w.endBest
    ensures t(DmPhase, dm, dqs)
  {
    if w.endBest <= 0 && AllDm(t, dqs, w.bgnBest, w.endBest) {
      assert DmPass(t, dqs, -dm);
    } else if dm == 0 {
      assert DqsPass(t, dqs, 0);
    } else {
      assert DmPass(t, dqs, -dm);
    }
  }

  /** The pass positions of the joined axis form one window. */
  ghost predicate OneWindow(t: DmTester, dqs: int) {
    && Steady(t)
    && (forall b, e :: b <= e <= 0 && DmPass(t, dqs, b) && DmPass(t, dqs, e) ==> AllDm(t, dqs, b, e))
    && (forall b, e :: 0 <= b <= e && DqsPass(t, dqs, b) && DqsPass(t, dqs, e) ==> AllDqs(t, dqs, b, e))
    && (forall b, e :: b <= 0 <= e && DmPass(t, dqs, b) && DqsPass(t, dqs, e) ==>
          AllDm(t, dqs, b, 0) && AllDqs(t, dqs, 0, e))
  }

  /** On a single-window interface the DM centring succeeds exactly when some DM delay works. */
  lemma SucceedsIffPossible(t: DmTester, dqs: int, max: nat, w: Window)
    requires OneWindow(t, dqs) && 0 <= dqs <= max && IsBest(t, dqs, max, w)
    ensures (w.winBest > 0 && w.bgnBest <= -DmMid(w) <= w.endBest) <==>
            exists dm :: 0 <= dm <= max && t(DmPhase, dm, dqs)
  {
    if w.winBest > 0 && w.bgnBest <= -DmMid(w) <= w.endBest {
      MarginMeansPass(t, dqs, max, w, DmMid(w));
    }
    if dm :| 0 <= dm <= max && t(DmPhase, dm, dqs) {
      assert DmPass(t, dqs, -dm);
      assert IsRun(t, dqs, -dm, -dm);
      assert NoLonger(-dm, -dm, w);
      if w.bgnBest > 0 {
        assert DqsPass(t, dqs, w.bgnBest);
        assert AllDm(t, dqs, -dm, 0) && AllDqs(t, dqs, 0, w.bgnBest);
        assert DqsPass(t, dqs, w.endBest);
        assert AllDqs(t, dqs, 0, w.endBest);
        assert IsRun(t, dqs, -dm, w.endBest);
      }
    }
  }
}

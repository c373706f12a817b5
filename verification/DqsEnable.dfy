/** Step 6 of the DQS-enable calibration: from the working window to a phase tap and a delay tap. */
module DqsEnable {

  /** Delays of one phase tap and one delay tap, and the highest tap of each chain. */
  datatype Taps = Taps(opa: nat, dtap: nat, phaseMax: nat, delayMax: nat) {
    /** One phase tap is at most a full delay chain long. */
    ghost predicate Valid() {
      0 < opa && 0 < dtap && 1 <= phaseMax && opa <= delayMax * dtap
    }

    /** The delay of one VFIFO cycle. */
    function Cycle(): nat {
      (phaseMax + 1) * opa
    }
  }

  /** The middle of the window less whole VFIFO cycles: at least 1 and at most one cycle. */
  function Reduced(mid: nat, cycle: nat): (m: nat)
    requires cycle > 0 && mid > 0
    ensures 0 < m <= cycle && m <= mid
    decreases mid
  {
    if mid > cycle then Reduced(mid - cycle, cycle) else mid
  }

  /** How many cycles were taken off. */
  function Cycles(mid: nat, cycle: nat): nat
    requires cycle > 0
    decreases mid
  {
    if mid > cycle then 1 + Cycles(mid - cycle, cycle) else 0
  }

  lemma {:induction false} ReducedByCycles(mid: nat, cycle: nat)
    requires cycle > 0 && mid > 0
    ensures mid == Reduced(mid, cycle) + Cycles(mid, cycle) * cycle
    decreases mid
  {
    if mid > cycle {
      ReducedByCycles(mid - cycle, cycle);
    }
  }

  /** The delay a phase and a delay tap make together. */
  function Delay(t: Taps, phase: nat, delay: nat): nat {
    phase * t.opa + delay * t.dtap
  }

  /** Reaching the middle with the largest phase below it and the fewest delay taps; if that would
    * take phase 0, which cannot be set, phase 1 alone.
    */
  ghost predicate Centred(t: Taps, m: nat, phase: nat, delay: nat) {
    && 1 <= phase <= t.phaseMax && delay <= t.delayMax
    && (m > t.opa ==>
          && phase * t.opa < m <= (phase + 1) * t.opa
          && m <= Delay(t, phase, delay) < m + t.dtap)
    && (m <= t.opa ==> phase == 1 && delay == 0)
  }

  /** Finds the first phase whose delay reaches `mid`, or the number of phases. */
  method FindPhase(t: Taps, mid: nat) returns (p: nat, tmpDelay: nat)
    requires t.Valid() && 0 < mid <= t.Cycle()
    ensures 1 <= p <= t.phaseMax + 1 && tmpDelay == (p - 1) * t.opa + t.opa
    ensures (p - 1) * t.opa < mid <= (p - 1) * t.opa + t.opa
  {
    p, tmpDelay := 0, 0;
    while p <= t.phaseMax && tmpDelay < mid
      invariant 0 <= p <= t.phaseMax + 1 && tmpDelay == p * t.opa
      invariant p > 0 ==> (p - 1) * t.opa < mid
    {
      p := p + 1;
      tmpDelay := tmpDelay + t.opa;
    }
  }

  method FindDelay(t: Taps, from: nat, mid: nat) returns (d: nat)
    requires t.Valid() && from < mid <= from + t.opa
    ensures d <= t.delayMax && mid <= from + d * t.dtap < mid + t.dtap
  {
    var tmpDelay := from;
    d := 0;
    while d <= t.delayMax && tmpDelay < mid
      invariant 0 <= d <= t.delayMax + 1 && tmpDelay == from + d * t.dtap
      invariant d > 0 ==> from + (d - 1) * t.dtap < mid
    {
      d := d + 1;
      tmpDelay := tmpDelay + t.dtap;
    }
    assert d - 1 != t.delayMax;
  }

  /** The cycle delay as the source sums it, and the middle reduced below it. */
  method ReduceMid(t: Taps, workMid: nat) returns (mid: nat)
    requires t.Valid() && workMid > 0
    ensures mid == Reduced(workMid, t.Cycle())
  {
    var p, tmpDelay := 0, 0;
    while p <= t.phaseMax
      invariant 0 <= p <= t.phaseMax + 1 && tmpDelay == p * t.opa
    {
      p := p + 1;
      tmpDelay := tmpDelay + t.opa;
    }
    mid := workMid;
    while mid > tmpDelay
      invariant mid > 0 && tmpDelay == t.Cycle() > 0
      invariant Reduced(mid, t.Cycle()) == Reduced(workMid, t.Cycle())
    {
      mid := mid - tmpDelay;
    }
  }

  lemma TapsCentre(t: Taps, m: nat, coarse: nat, d: nat)
    requires t.Valid() && coarse <= t.phaseMax && d <= t.delayMax
    requires coarse * t.opa < m <= coarse * t.opa + t.opa
    requires m <= coarse * t.opa + d * t.dtap < m + t.dtap
    ensures Centred(t, m, if coarse == 0 then 1 else coarse, if coarse == 0 then 0 else d)
  {
    assert (coarse + 1) * t.opa == coarse * t.opa + t.opa;
    if coarse > 0 {
      AtLeastOne(coarse, t.opa);
    }
  }

  lemma AtLeastOne(k: nat, x: nat)
    requires k > 0
    ensures k * x >= x
  {
  }

  /** The search for phase and delay, and the fallback of phase 0. */
  method CentreReduced(t: Taps, mid: nat) returns (phase: nat, delay: nat)
    requires t.Valid() && 0 < mid <= t.Cycle()
    ensures Centred(t, mid, phase, delay)
  {
    var p, tmpDelay := FindPhase(t, mid);
    tmpDelay := tmpDelay - t.opa;
    var d := FindDelay(t, tmpDelay, mid);
    TapsCentre(t, mid, p - 1, d);
    if p == 1 {
      p, d := 2, 0;
    }
    phase, delay := p - 1, d;
  }

  /** `workBgn` is at least one phase tap, since phase 0 is never tried. */
  method CentreWindow(t: Taps, workBgn: nat, workEnd: nat) returns (phase: nat, delay: nat)
    requires t.Valid() && t.opa <= workBgn <= workEnd && workBgn + workEnd < 0x1_0000_0000
    ensures Centred(t, Reduced((workBgn + workEnd) / 2, t.Cycle()), phase, delay)
    ensures 1 <= phase <= t.phaseMax && delay <= t.delayMax
    ensures Reaches(t.opa, t.dtap, (t.phaseMax + 1) * t.opa, (workBgn + workEnd) / 2, phase, delay)
  {
    var mid := ReduceMid(t, (workBgn + workEnd) / 2);
    phase, delay := CentreReduced(t, mid);
    CentredReaches(t, (workBgn + workEnd) / 2, phase, delay);
  }

  /** Less some whole cycles, `mid` lies above `phase` phase taps by at most one, and the delay taps
    * are the fewest that reach it; or it lies within one phase tap, and phase 1 stands alone.
    */
  ghost predicate Reaches(opa: nat, dtap: nat, cycle: nat, mid: nat, phase: nat, delay: nat) {
    exists m: nat :: 0 < m <= cycle && WholeCycles(mid, m, cycle) &&
      if m <= opa then phase == 1 && delay == 0
      else 0 < m - phase * opa <= opa && 0 <= phase * opa + delay * dtap - m < dtap
  }

  ghost predicate WholeCycles(mid: nat, m: nat, cycle: nat) {
    exists q: nat :: mid == m + q * cycle
  }

  lemma CentredReaches(t: Taps, mid: nat, phase: nat, delay: nat)
    requires t.Valid() && mid > 0 && Centred(t, Reduced(mid, t.Cycle()), phase, delay)
    ensures Reaches(t.opa, t.dtap, t.Cycle(), mid, phase, delay)
  {
    var m, q := Reduced(mid, t.Cycle()), Cycles(mid, t.Cycle());
    ReducedByCycles(mid, t.Cycle());
    assert mid == m + q * t.Cycle();
    assert (phase + 1) * t.opa == phase * t.opa + t.opa;
    assert WholeCycles(mid, m, t.Cycle());
  }

  /** With the right VFIFO count the programmed point lies in the working window, provided the
    * window is two delay taps wide, or two phase taps where phase 1 had to stand in for phase 0.
    */
  lemma CentreIsInWindow(t: Taps, workBgn: nat, workEnd: nat, phase: nat, delay: nat)
    requires t.Valid() && 0 < workBgn <= workEnd
    requires Centred(t, Reduced((workBgn + workEnd) / 2, t.Cycle()), phase, delay)
    requires workEnd - workBgn >= 2 * if Reduced((workBgn + workEnd) / 2, t.Cycle()) > t.opa then t.dtap else t.opa
    ensures var at := Delay(t, phase, delay) + Cycles((workBgn + workEnd) / 2, t.Cycle()) * t.Cycle();
      workBgn <= at <= workEnd
  {
    ReducedByCycles((workBgn + workEnd) / 2, t.Cycle());
  }
}

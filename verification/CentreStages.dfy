/** The calibration stages that consist of one deskew, the notes they leave in the error record, and
  * what a calibrated interface then does.
  */
module CentreStages {
  import opened EdgeSweeps
  import opened DataMask
  import opened Deskew
  import Calibrate

  // ------------------------------------------------------------------ what a rejected deskew notes

  /** The number noted for the first bit without a window: the number of a pin, where the error record
    * wants the number of a group.
    */
  function NotedNumber(group: nat, pins: nat, bit: nat): nat {
    group * pins + bit
  }

  function CentreNotes(v: Verdict, stage: nat, substage: nat, group: nat, pins: nat): seq<Calibrate.Failure> {
    if v.NoWindow? then [Calibrate.Failure(stage, substage, NotedNumber(group, pins, v.bit))] else []
  }

  /** The number noted is that of the group at fault only for pin 0 of group 0, or if a group has a
    * single pin.
    */
  lemma NotedNamesGroupIff(group: nat, pins: nat, bit: nat)
    requires bit < pins
    ensures NotedNumber(group, pins, bit) == group <==> bit == 0 && (group == 0 || pins == 1)
  {
    assert group * pins == group + group * (pins - 1);
    assert group > 0 && pins > 1 ==> group * (pins - 1) > 0;
  }

  /** It is below the number of groups, as the callee asserts, only for the first of the pins; with
    * the 4 groups of 8 pins configured, for half of the pins of group 0.
    */
  lemma NotedIsGroupNumberIff(groups: nat, group: nat, pins: nat, bit: nat)
    requires group < groups && bit < pins
    ensures NotedNumber(group, pins, bit) < groups <==> bit < groups - group * pins
    ensures groups == 4 && pins == 8 ==> (NotedNumber(group, pins, bit) < groups <==> group == 0 && bit < 4)
    ensures group > 0 && pins >= groups ==> NotedNumber(group, pins, bit) >= groups
  {
    assert group > 0 ==> group * pins >= pins;
  }

  // ------------------------------------------------------------------ the stages

  /** How a read deskew ended. */
  datatype ReadEnd = ReadEnd(t: Tester, s: Regs, v: Verdict, run: Run)

  ghost predicate ReadEndedAs(o: Calibrate.Outcome, r: ReadEnd) {
    && RunSwept(r.t, r.s, r.run) && o.ok == r.v.Ok()
    && ((Rejected(r.t, r.s, r.v, r.run) && r.s.dqs == r.run.start) || Accepted(r.t, r.s, r.v, r.run))
  }

  /** How a write deskew ended, and where the mask delay was put. */
  datatype WriteEnd = WriteEnd(t: Tester, dm: DmTester, s: Regs, v: Verdict, run: Run, mask: int)

  ghost predicate WriteEndedAs(o: Calibrate.Outcome, w: WriteEnd) {
    && RunSwept(w.t, w.s, w.run)
    && ((Rejected(w.t, w.s, w.v, w.run) && w.run.start <= w.s.dqs) || Accepted(w.t, w.s, w.v, w.run))
    && (o.ok <==> w.v.Ok() && Usable(w.dm, w.s.dqs, w.s.dqMax))
    && (o.ok && Steady(w.dm) ==> w.dm(DmPhase, w.mask, w.s.dqs))
  }

  lemma NotesAddUp(a: seq<Calibrate.Failure>, o: Calibrate.Outcome, f: Calibrate.Failure)
    requires f.substage == o.substage
    ensures a + Calibrate.StageNotes(o, f.stage, f.group) == (a + o.retries) + if o.ok then [] else [f]
  {
  }

  /** Notes the first bit without a window. */
  method NoteCentre(q: Calibrate.Sequencer, v: Verdict, stage: nat, substage: nat, group: nat, pins: nat)
    requires q.Valid() && stage != Calibrate.STAGE_NIL
    modifies q`error, q`noted
    ensures q.Valid() && q.noted == old(q.noted) + CentreNotes(v, stage, substage, group, pins)
  {
    if v.NoWindow? {
      q.SetFailing(Calibrate.Failure(stage, substage, NotedNumber(group, pins, v.bit)));
    }
  }

  /** rw_mgr_mem_calibrate_vfifo_end: read deskew once more, after the write deskew. */
  method EndOfReads(q: Calibrate.Sequencer, g: SccGroup, group: nat, t: Tester)
    returns (ok: bool, ghost r: ReadEnd, ghost o: Calibrate.Outcome)
    requires q.Valid() && g.Valid()
    modifies g`dqs, g.dq, q`error, q`noted
    ensures q.Valid() && r.t == t && r.s == g.State()
    ensures r.run.side == ReadSide && r.run.start == old(g.dqs) && ReadEndedAs(o, r)
    ensures o == Calibrate.Outcome(ok, CentreNotes(r.v, Calibrate.STAGE_VFIFO_AFTER_WRITES,
                                     Calibrate.SUBSTAGE_VFIFO_CENTER, group, g.n), Calibrate.SUBSTAGE_VFIFO_CENTER)
    ensures q.noted == old(q.noted) + Calibrate.StageNotes(o, Calibrate.STAGE_VFIFO_AFTER_WRITES, group)
    ensures AllEyes(t, g.State(), r.run) ==> (ok <==> AllPassHere(t, g.State()))
    ensures old(q.noted) == [] ==>
      q.error == if r.v.NoWindow? then Calibrate.Failure(9, 3, group * g.n + r.v.bit)
                 else if !ok then Calibrate.Failure(9, 3, group)
                 else Calibrate.Failure(0, 0, 0xff)
  {
    var stage, substage := Calibrate.STAGE_VFIFO_AFTER_WRITES, Calibrate.SUBSTAGE_VFIFO_CENTER;
    var v;
    ghost var run;
    v, run := VfifoCenter(g, t);
    NoteCentre(q, v, stage, substage, group, g.n);
    ok := v.Ok();
    r := ReadEnd(t, g.State(), v, run);
    o := Calibrate.Outcome(ok, CentreNotes(v, stage, substage, group, g.n), substage);
    NotesAddUp(old(q.noted), o, Calibrate.Failure(stage, substage, group));
    if !ok {
      q.SetFailing(Calibrate.Failure(stage, substage, group));
    }
  }

  /** rw_mgr_mem_calibrate_writes */
  method Writes(q: Calibrate.Sequencer, g: SccGroup, pins: DmPins, group: nat, t: Tester, dm: DmTester)
    returns (ok: bool, ghost w: WriteEnd, ghost o: Calibrate.Outcome)
    requires q.Valid() && g.Valid() && g.bgn == 0 && g.dqsMax == g.dqMax
    modifies g`dqs, g.dq, pins, q`error, q`noted
    ensures q.Valid() && w.t == t && w.dm == dm && w.s == g.State() && w.mask == pins.dm
    ensures w.run.side == WriteSide && w.run.start == old(g.dqs) && WriteEndedAs(o, w)
    ensures o == Calibrate.Outcome(ok, CentreNotes(w.v, Calibrate.STAGE_WRITES, Calibrate.SUBSTAGE_WRITES_CENTER,
                                     group, g.n), Calibrate.SUBSTAGE_WRITES_CENTER)
    ensures q.noted == old(q.noted) + Calibrate.StageNotes(o, Calibrate.STAGE_WRITES, group)
    ensures AllEyes(t, g.State(), w.run) ==> (ok <==> AllPassHere(t, g.State()) && Usable(dm, g.dqs, g.dqMax))
    ensures old(q.noted) == [] ==>
      q.error == if w.v.NoWindow? then Calibrate.Failure(4, 1, group * g.n + w.v.bit)
                 else if !ok then Calibrate.Failure(4, 1, group)
                 else Calibrate.Failure(0, 0, 0xff)
  {
    var stage, substage := Calibrate.STAGE_WRITES, Calibrate.SUBSTAGE_WRITES_CENTER;
    var v, dmMargin;
    ghost var run, window;
    ok, v, dmMargin, run, window := WritesCenter(g, pins, t, dm);
    NoteCentre(q, v, stage, substage, group, g.n);
    w := WriteEnd(t, dm, g.State(), v, run, pins.dm);
    o := Calibrate.Outcome(ok, CentreNotes(v, stage, substage, group, g.n), substage);
    NotesAddUp(old(q.noted), o, Calibrate.Failure(stage, substage, group));
    if !ok {
      q.SetFailing(Calibrate.Failure(stage, substage, group));
    }
  }

  // ------------------------------------------------------------------ what calibration means

  /** The last read deskew of every read group and the write deskew of every write group. */
  ghost predicate RunBy(e: Calibrate.Env, ends: nat -> ReadEnd, writes: (nat, nat) -> WriteEnd) {
    && (forall r: nat :: ReadEndedAs(e.vfifoEnd(r), ends(r)))
    && (forall g: nat, sr: nat :: WriteEndedAs(e.writes(g, sr), writes(g, sr)))
  }

  ghost predicate StableEyes(ends: nat -> ReadEnd, writes: (nat, nat) -> WriteEnd) {
    && (forall r: nat :: AllEyes(ends(r).t, ends(r).s, ends(r).run))
    && (forall g: nat, sr: nat :: AllEyes(writes(g, sr).t, writes(g, sr).s, writes(g, sr).run))
    && (forall g: nat, sr: nat :: Steady(writes(g, sr).dm))
  }

  /** Every pin of the group passes as programmed, for reads, writes and the mask. */
  ghost predicate GroupWorks(e: Calibrate.Env, ends: nat -> ReadEnd, writes: (nat, nat) -> WriteEnd, g: nat)
    requires RunBy(e, ends, writes)
  {
    && (forall r: nat :: g * e.ratio <= r < (g + 1) * e.ratio ==>
          ReadEndedAs(e.vfifoEnd(r), ends(r)) && AllPassHere(ends(r).t, ends(r).s))
    && (forall sr: nat :: sr < e.shadows && sr !in e.skipShadows ==>
          var w := writes(g, sr);
          WriteEndedAs(e.writes(g, sr), w) && AllPassHere(w.t, w.s) && w.dm(DmPhase, w.mask, w.s.dqs))
  }

  /** On an interface with stable eyes, a calibration that succeeds leaves every pin of every group
    * that was not skipped at delays at which it passes.
    */
  lemma CalibratedGroupsWork(e: Calibrate.Env, latency: nat, ends: nat -> ReadEnd, writes: (nat, nat) -> WriteEnd)
    requires RunBy(e, ends, writes) && StableEyes(ends, writes) && Calibrate.Calibrates(e, latency)
    ensures forall g: nat :: g < e.groups && !Calibrate.Skipped(e, g) ==> GroupWorks(e, ends, writes, g)
  {
    forall g: nat | g < e.groups && !Calibrate.Skipped(e, g)
      ensures GroupWorks(e, ends, writes, g)
    {
      assert Calibrate.GroupPasses(e, g);
      forall r: nat | g * e.ratio <= r < (g + 1) * e.ratio
        ensures ReadEndedAs(e.vfifoEnd(r), ends(r)) && AllPassHere(ends(r).t, ends(r).s)
      {
        ReadWorksIff(e.vfifoEnd(r), ends(r));
      }
      forall sr: nat | sr < e.shadows && sr !in e.skipShadows
        ensures var w := writes(g, sr);
          WriteEndedAs(e.writes(g, sr), w) && AllPassHere(w.t, w.s) && w.dm(DmPhase, w.mask, w.s.dqs)
      {
        WriteWorksIff(e.writes(g, sr), writes(g, sr));
      }
    }
  }

  /** The last read stage of a group succeeds exactly if every pin passes as programmed. */
  lemma ReadWorksIff(o: Calibrate.Outcome, r: ReadEnd)
    requires ReadEndedAs(o, r) && AllEyes(r.t, r.s, r.run)
    ensures o.ok <==> AllPassHere(r.t, r.s)
  {
    VerdictIsExact(r.t, r.s, r.v, r.run);
  }

  /** The write stage succeeds exactly if, besides, a usable mask window exists. */
  lemma WriteWorksIff(o: Calibrate.Outcome, w: WriteEnd)
    requires WriteEndedAs(o, w) && AllEyes(w.t, w.s, w.run)
    ensures o.ok <==> AllPassHere(w.t, w.s) && Usable(w.dm, w.s.dqs, w.s.dqMax)
  {
    VerdictIsExact(w.t, w.s, w.v, w.run);
  }
}

/** The group loop of the calibration, its first-error record, and the read-latency search. */
module Calibrate {

  const STAGE_NIL: nat := 0
  const STAGE_VFIFO: nat := 1
  const STAGE_LFIFO: nat := 3
  const STAGE_WRITES: nat := 4
  const STAGE_VFIFO_AFTER_WRITES: nat := 9
  const SUBSTAGE_NIL: nat := 0
  const SUBSTAGE_VFIFO_CENTER: nat := 3
  const SUBSTAGE_WRITES_CENTER: nat := 1
  const SUBSTAGE_READ_LATENCY: nat := 1

  /** A failure as it is noted: stage, substage and group. */
  datatype Failure = Failure(stage: nat, substage: nat, group: nat)

  const NO_FAILURE := Failure(STAGE_NIL, SUBSTAGE_NIL, 0xff)

  /** How a stage went: whether it succeeded, the failures its parts and retries noted, and the
    * substage it names if it fails.
    */
  datatype Outcome = Outcome(ok: bool, retries: seq<Failure>, substage: nat)

  /** The interface and how every stage goes: write groups with `ratio` read groups each, shadow
    * registers, the skip masks, the debug flag, and the outcomes.
    */
  datatype Env = Env(
    groups: nat, ratio: nat, shadows: nat,
    skipGroups: set<nat>, skipShadows: set<nat>, sweepAll: bool,
    vfifo: nat -> Outcome, writes: (nat, nat) -> Outcome, vfifoEnd: nat -> Outcome, latencyPasses: nat -> bool)

  /** Retries note real stages. */
  ghost predicate Sound(o: Outcome) {
    forall f <- o.retries :: f.stage != STAGE_NIL
  }

  ghost predicate ValidEnv(e: Env) {
    && 0 < e.ratio
    && (forall g :: Sound(e.vfifo(g))) && (forall g, sr :: Sound(e.writes(g, sr))) && (forall g :: Sound(e.vfifoEnd(g)))
  }

  /** The first read group of a write group. */
  function ReadsFrom(e: Env, group: nat): nat {
    group * e.ratio
  }

  /** A write group is skipped when every bit of its part of the mask is set. */
  predicate Skipped(e: Env, group: nat) {
    forall r: nat :: ReadsFrom(e, group) <= r < ReadsFrom(e, group + 1) ==> r in e.skipGroups
  }

  /** Every stage of the group succeeds. */
  ghost predicate GroupPasses(e: Env, group: nat) {
    && ReadsPass(e.vfifo, ReadsFrom(e, group), ReadsFrom(e, group + 1))
    && WritesPass(e, group, e.shadows)
    && ReadsPass(e.vfifoEnd, ReadsFrom(e, group), ReadsFrom(e, group + 1))
  }

  ghost predicate ReadsPass(stage: nat -> Outcome, from: nat, to: nat) {
    forall r: nat :: from <= r < to ==> stage(r).ok
  }

  ghost predicate WritesPass(e: Env, group: nat, n: nat) {
    forall sr: nat :: sr < n && sr !in e.skipShadows ==> e.writes(group, sr).ok
  }

  // ------------------------------------------------------------------ the failures a run notes

  /** A stage notes the failures of its retries, and its own if it fails. */
  function StageNotes(o: Outcome, stage: nat, group: nat): seq<Failure> {
    o.retries + if o.ok then [] else [Failure(stage, o.substage, group)]
  }

  /** Read groups `r` up to `to`, ending with the first that fails.  The group noted is the read group. */
  function ReadNotes(stage: nat -> Outcome, code: nat, r: nat, to: nat): seq<Failure>
    decreases to - r
  {
    if r >= to then []
    else StageNotes(stage(r), code, r) + if stage(r).ok then ReadNotes(stage, code, r + 1, to) else []
  }

  /** Shadow registers `sr` up to the last; without the debug flag, ending with the first failure. */
  function WriteNotes(e: Env, group: nat, sr: nat): seq<Failure>
    decreases e.shadows - sr
  {
    if sr >= e.shadows then []
    else if sr in e.skipShadows then WriteNotes(e, group, sr + 1)
    else
      var o := e.writes(group, sr);
      StageNotes(o, STAGE_WRITES, group) + if o.ok || e.sweepAll then WriteNotes(e, group, sr + 1) else []
  }

  ghost function GroupNotes(e: Env, group: nat): seq<Failure> {
    var from, to := ReadsFrom(e, group), ReadsFrom(e, group + 1);
    ReadNotes(e.vfifo, STAGE_VFIFO, from, to)
    + if !ReadsPass(e.vfifo, from, to) then []
      else WriteNotes(e, group, 0)
           + if !WritesPass(e, group, e.shadows) then []
             else ReadNotes(e.vfifoEnd, STAGE_VFIFO_AFTER_WRITES, from, to)
  }

  /** Groups `group` up to the last; without the debug flag, ending with the first that fails. */
  ghost function GroupsNotes(e: Env, group: nat): seq<Failure>
    decreases e.groups - group
  {
    if group >= e.groups then []
    else if Skipped(e, group) then GroupsNotes(e, group + 1)
    else GroupNotes(e, group) + if GroupPasses(e, group) || e.sweepAll then GroupsNotes(e, group + 1) else []
  }

  lemma NextGroupNotes(e: Env, group: nat, before: seq<Failure>)
    requires group < e.groups
    ensures Skipped(e, group) ==> before + GroupsNotes(e, group) == before + GroupsNotes(e, group + 1)
    ensures !Skipped(e, group) && (GroupPasses(e, group) || e.sweepAll) ==>
      before + GroupsNotes(e, group) == (before + GroupNotes(e, group)) + GroupsNotes(e, group + 1)
    ensures !Skipped(e, group) && !GroupPasses(e, group) && !e.sweepAll ==>
      before + GroupsNotes(e, group) == before + GroupNotes(e, group)
  {
    Assoc(before, GroupNotes(e, group), GroupsNotes(e, group + 1));
  }

  /** All failures a calibration notes, in order. */
  ghost function RunNotes(e: Env, latency: nat): seq<Failure> {
    GroupsNotes(e, 0)
    + if AllPass(e, e.groups) && e.skipGroups == {} && !e.latencyPasses(latency)
      then [Failure(STAGE_LFIFO, SUBSTAGE_READ_LATENCY, 0xff)] else []
  }

  lemma Assoc(a: seq<Failure>, b: seq<Failure>, c: seq<Failure>)
    ensures (a + b) + c == a + (b + c)
  {
  }

  // ------------------------------------------------------------------ the latency search

  /** The lowest latency of the unbroken run of passing ones that ends at `from`. */
  function LowestOfRun(pass: nat -> bool, from: nat): (m: nat)
    requires from >= 1
    ensures 1 <= m <= from
  {
    if from == 1 || !pass(from - 1) then from else LowestOfRun(pass, from - 1)
  }

  lemma {:induction false} LowestOfRunMeans(pass: nat -> bool, from: nat)
    requires from >= 1 && pass(from)
    ensures var m := LowestOfRun(pass, from);
      && (forall x: nat :: m <= x <= from ==> pass(x))
      && (m > 1 ==> !pass(m - 1))
  {
    if from > 1 && pass(from - 1) {
      LowestOfRunMeans(pass, from - 1);
    }
  }

  /** If more latency never hurts, the run ends at the smallest latency that works at all. */
  lemma {:induction false} LowestIsMinimum(pass: nat -> bool, from: nat, x: nat)
    requires from >= 1 && pass(from) && 1 <= x && pass(x)
    requires forall a: nat, b: nat :: a <= b && pass(a) ==> pass(b)
    ensures LowestOfRun(pass, from) <= x
  {
    LowestOfRunMeans(pass, from);
    var m := LowestOfRun(pass, from);
    if m > 1 {
      assert !pass(m - 1);
    }
  }

  class Sequencer {
    var error: Failure
    var readLatency: nat
    var phyLatency: nat
    ghost var noted: seq<Failure>
    ghost var attempted: seq<nat>

    /** The error record is the first failure noted since calibration started. */
    ghost predicate Valid()
      reads this
    {
      && (forall f <- noted :: f.stage != STAGE_NIL)
      && error == if noted == [] then NO_FAILURE else noted[0]
    }

    constructor (readLatency: nat)
      ensures Valid() && this.readLatency == readLatency && noted == [] && attempted == []
    {
      error, this.readLatency, phyLatency, noted, attempted := NO_FAILURE, readLatency, readLatency, [], [];
    }

    method SetFailing(f: Failure)
      requires Valid() && f.stage != STAGE_NIL
      modifies `error, `noted
      ensures Valid() && noted == old(noted) + [f]
    {
      if error.stage == STAGE_NIL {
        error := f;
      }
      noted := noted + [f];
    }

    /** A stage notes the failures of its retries, and its own if it fails. */
    method RunStage(o: Outcome, stage: nat, group: nat) returns (ok: bool)
      requires Valid() && Sound(o) && stage != STAGE_NIL
      modifies `error, `noted
      ensures Valid() && ok == o.ok && (!ok ==> noted != [])
      ensures noted == old(noted) + StageNotes(o, stage, group)
    {
      for i := 0 to |o.retries|
        invariant Valid() && noted == old(noted) + o.retries[..i]
      {
        assert o.retries[i] in o.retries;
        assert o.retries[..i + 1] == o.retries[..i] + [o.retries[i]];
        SetFailing(o.retries[i]);
      }
      assert o.retries[..|o.retries|] == o.retries;
      ok := o.ok;
      if !ok {
        SetFailing(Failure(stage, o.substage, group));
        Assoc(old(noted), o.retries, [Failure(stage, o.substage, group)]);
      }
    }

    /** Read groups `from` up to `to`, ending with the first that fails. */
    method RunReads(stage: nat -> Outcome, code: nat, from: nat, to: nat) returns (ok: bool)
      requires Valid() && from <= to && code != STAGE_NIL && forall r :: Sound(stage(r))
      modifies `error, `noted
      ensures Valid() && (!ok ==> noted != []) && ok == ReadsPass(stage, from, to)
      ensures noted == old(noted) + ReadNotes(stage, code, from, to)
    {
      ghost var all := ReadNotes(stage, code, from, to);
      var r := from;
      ok := true;
      while r < to && ok
        invariant from <= r <= to && Valid() && (!ok ==> noted != [])
        invariant ok ==> ReadsPass(stage, from, r) && noted + ReadNotes(stage, code, r, to) == old(noted) + all
        invariant !ok ==> !ReadsPass(stage, from, to) && noted == old(noted) + all
      {
        ghost var before := noted;
        ok := RunStage(stage(r), code, r);
        Assoc(before, StageNotes(stage(r), code, r), ReadNotes(stage, code, r + 1, to));
        r := r + 1;
      }
    }

    /** The write stage of every shadow register; without the debug flag, up to the first failure. */
    method RunWrites(e: Env, group: nat) returns (ok: bool)
      requires Valid() && ValidEnv(e)
      modifies `error, `noted
      ensures Valid() && (!ok ==> noted != []) && ok == WritesPass(e, group, e.shadows)
      ensures noted == old(noted) + WriteNotes(e, group, 0)
    {
      ok := true;
      for sr := 0 to e.shadows
        invariant Valid() && (!ok ==> noted != []) && ok == WritesPass(e, group, sr)
        invariant noted + WriteNotes(e, group, sr) == old(noted) + WriteNotes(e, group, 0)
      {
        var srFailed := false;
        if sr !in e.skipShadows {
          ghost var before := noted;
          var passed := RunStage(e.writes(group, sr), STAGE_WRITES, group);
          Assoc(before, StageNotes(e.writes(group, sr), STAGE_WRITES, group), WriteNotes(e, group, sr + 1));
          if !passed {
            srFailed := true;
            if !e.sweepAll {
              ok := false;
              return;
            }
          }
        }
        if srFailed {
          ok := false;
        }
      }
    }

    method RunGroup(e: Env, group: nat) returns (ok: bool)
      requires Valid() && ValidEnv(e)
      modifies `error, `noted
      ensures Valid() && (!ok ==> noted != []) && ok == GroupPasses(e, group)
      ensures noted == old(noted) + GroupNotes(e, group)
    {
      var from, to := ReadsFrom(e, group), ReadsFrom(e, group + 1);
      assert to == from + e.ratio;
      ghost var vfifo := ReadNotes(e.vfifo, STAGE_VFIFO, from, to);
      ok := RunReads(e.vfifo, STAGE_VFIFO, from, to);
      if !ok {
        return;
      }
      ok := RunWrites(e, group);
      if !ok {
        Assoc(old(noted), vfifo, WriteNotes(e, group, 0));
        return;
      }
      ok := RunReads(e.vfifoEnd, STAGE_VFIFO_AFTER_WRITES, from, to);
      ghost var end := ReadNotes(e.vfifoEnd, STAGE_VFIFO_AFTER_WRITES, from, to);
      Assoc(old(noted), vfifo, WriteNotes(e, group, 0));
      Assoc(old(noted), vfifo + WriteNotes(e, group, 0), end);
      Assoc(vfifo, WriteNotes(e, group, 0), end);
    }

    /** Lowers the read latency while the read test passes, then adds a margin of two. */
    method RunLfifo(e: Env) returns (ok: bool)
      requires Valid() && readLatency >= 1
      modifies `error, `noted, `readLatency, `phyLatency
      ensures Valid() && ok == e.latencyPasses(old(readLatency))
      ensures noted == old(noted) + if ok then [] else [Failure(STAGE_LFIFO, SUBSTAGE_READ_LATENCY, 0xff)]
      ensures readLatency == if ok then LowestOfRun(e.latencyPasses, old(readLatency)) + 1 else old(readLatency)
      ensures phyLatency == readLatency <= old(readLatency) + 1
    {
      ok := false;
      ghost var start := readLatency;
      while true
        modifies `readLatency, `phyLatency
        invariant 0 < readLatency <= start
        invariant ok ==> readLatency < start && e.latencyPasses(start)
        invariant ok ==> LowestOfRun(e.latencyPasses, readLatency + 1) == LowestOfRun(e.latencyPasses, start)
        invariant !ok ==> readLatency == start
        decreases readLatency
      {
        phyLatency := readLatency;
        if !e.latencyPasses(readLatency) {
          break;
        }
        ok := true;
        readLatency := readLatency - 1;
        if readLatency == 0 {
          break;
        }
      }
      if ok {
        readLatency := readLatency + 2;
        phyLatency := readLatency;
      } else {
        SetFailing(Failure(STAGE_LFIFO, SUBSTAGE_READ_LATENCY, 0xff));
      }
    }
  
    /** One pass of the group loop over a group that is not skipped. */
    method TryGroup(e: Env, group: nat) returns (passed: bool)
      requires ValidEnv(e) && Valid() && group < e.groups && !Skipped(e, group)
      requires attempted == Unskipped(e, group) && noted + GroupsNotes(e, group) == GroupsNotes(e, 0)
      modifies `error, `noted, `attempted
      ensures Valid() && passed == GroupPasses(e, group) && (!passed ==> noted != [])
      ensures attempted == Unskipped(e, group + 1) <= Unskipped(e, e.groups)
      ensures attempted != [] && attempted[|attempted| - 1] == group
      ensures passed || e.sweepAll ==> noted + GroupsNotes(e, group + 1) == GroupsNotes(e, 0)
      ensures !passed && !e.sweepAll ==> noted == GroupsNotes(e, 0)
    {
      NextGroupNotes(e, group, noted);
      UnskippedGrows(e, group + 1, e.groups);
      attempted := attempted + [group];
      passed := RunGroup(e, group);
    }

    /** The group loop.  Without the debug flag it gives up at the first failing group. */
    method RunGroups(e: Env) returns (ok: bool)
      requires ValidEnv(e) && Valid() && attempted == [] && noted == []
      modifies `error, `noted, `attempted
      ensures Valid() && ok == AllPass(e, e.groups) && (!ok ==> noted != [])
      ensures noted == GroupsNotes(e, 0)
      ensures attempted <= Unskipped(e, e.groups)
      ensures e.sweepAll || ok ==> attempted == Unskipped(e, e.groups)
      ensures !e.sweepAll && !ok ==> attempted != [] && !GroupPasses(e, attempted[|attempted| - 1])
    {
      var failing := 0;
      for group := 0 to e.groups
        invariant Valid() && attempted == Unskipped(e, group)
        invariant failing == 0 <==> AllPass(e, group)
        invariant failing >= 0 && (failing != 0 ==> e.sweepAll && noted != [])
        invariant noted + GroupsNotes(e, group) == GroupsNotes(e, 0)
      {
        AllPassNext(e, group);
        if !Skipped(e, group) {
          var passed := TryGroup(e, group);
          if !passed {
            if !e.sweepAll {
              return false;
            }
            failing := failing + 1;
          }
        } else {
          NextGroupNotes(e, group, noted);
        }
      }
      ok := failing == 0;
    }

    /** The whole calibration. */
    method MemCalibrate(e: Env) returns (ok: bool)
      requires ValidEnv(e) && readLatency >= 1
      modifies this
      ensures Valid() && noted == RunNotes(e, old(readLatency)) && (!ok ==> error.stage != STAGE_NIL)
      ensures ok <==> Calibrates(e, old(readLatency))
      ensures error == NO_FAILURE <==> ok && Quiet(e)
      ensures RecordIs(e, old(readLatency), error)
      ensures attempted <= Unskipped(e, e.groups)
      ensures e.sweepAll || ok ==> attempted == Unskipped(e, e.groups)
      ensures ok && e.skipGroups == {} ==>
        readLatency == phyLatency == LowestOfRun(e.latencyPasses, old(readLatency)) + 1
    {
      error, noted, attempted := NO_FAILURE, [], [];
      ok := RunGroups(e);
      if ok && e.skipGroups == {} {
        ok := RunLfifo(e);
      }
      assert noted != [] ==> noted[0] in noted;
      RecordIsEmptyIff(e, old(readLatency));
      RecordFollowsStages(e, old(readLatency), error);
    }
  }

  /** Every group below `n` that is not skipped passes. */
  ghost predicate AllPass(e: Env, n: nat) {
    forall g: nat :: g < n && !Skipped(e, g) ==> GroupPasses(e, g)
  }

  lemma AllPassNext(e: Env, n: nat)
    ensures AllPass(e, n + 1) <==> AllPass(e, n) && (Skipped(e, n) || GroupPasses(e, n))
    ensures n < e.groups && AllPass(e, e.groups) ==> AllPass(e, n + 1)
  {
  }

  /** Calibration succeeds: no group fails, and unless groups are skipped the initial latency works. */
  ghost predicate Calibrates(e: Env, latency: nat) {
    AllPass(e, e.groups) && (e.skipGroups == {} ==> e.latencyPasses(latency))
  }

  /** The groups below `n` that are not skipped, in order. */
  function Unskipped(e: Env, n: nat): seq<nat> {
    if n == 0 then [] else Unskipped(e, n - 1) + if Skipped(e, n - 1) then [] else [n - 1]
  }

  lemma {:induction false} UnskippedGrows(e: Env, n: nat, k: nat)
    requires n <= k
    ensures Unskipped(e, n) <= Unskipped(e, k)
    decreases k - n
  {
    if n < k {
      UnskippedGrows(e, n, k - 1);
    }
  }

  /** Each group that is not skipped is attempted once, and no other. */
  lemma {:induction false} EachOnce(e: Env, n: nat)
    ensures forall g: nat :: g in Unskipped(e, n) <==> g < n && !Skipped(e, g)
    ensures forall i, j :: 0 <= i < j < |Unskipped(e, n)| ==> Unskipped(e, n)[i] < Unskipped(e, n)[j]
  {
    if n > 0 {
      EachOnce(e, n - 1);
      var u := Unskipped(e, n - 1);
      assert forall i :: 0 <= i < |u| ==> u[i] in u;
    }
  }

  // ------------------------------------------------------------------ what the error record tells

  /** The stage succeeds, and none of its retries noted a failure on the way. */
  predicate Clean(o: Outcome) {
    o.ok && o.retries == []
  }

  ghost predicate QuietReads(stage: nat -> Outcome, from: nat, to: nat) {
    forall r: nat :: from <= r < to ==> stage(r).retries == []
  }

  ghost predicate QuietWrites(e: Env, group: nat) {
    forall sr: nat :: sr < e.shadows && sr !in e.skipShadows ==> e.writes(group, sr).retries == []
  }

  /** No stage of the group recovers from a failure it noted. */
  ghost predicate QuietGroup(e: Env, group: nat) {
    && QuietReads(e.vfifo, ReadsFrom(e, group), ReadsFrom(e, group + 1))
    && QuietWrites(e, group)
    && QuietReads(e.vfifoEnd, ReadsFrom(e, group), ReadsFrom(e, group + 1))
  }

  ghost predicate Quiet(e: Env) {
    forall g: nat :: g < e.groups && !Skipped(e, g) ==> QuietGroup(e, g)
  }

  lemma {:induction false} ReadNotesEmptyIff(stage: nat -> Outcome, code: nat, r: nat, to: nat)
    ensures ReadNotes(stage, code, r, to) == [] <==> forall q: nat :: r <= q < to ==> Clean(stage(q))
    decreases if r < to then to - r else 0
  {
    if r < to {
      ReadNotesEmptyIff(stage, code, r + 1, to);
      assert StageNotes(stage(r), code, r) == [] <==> Clean(stage(r));
    }
  }

  lemma {:induction false} WriteNotesEmptyIff(e: Env, group: nat, sr: nat)
    ensures WriteNotes(e, group, sr) == [] <==>
      forall q: nat :: sr <= q < e.shadows && q !in e.skipShadows ==> Clean(e.writes(group, q))
    decreases if sr < e.shadows then e.shadows - sr else 0
  {
    if sr < e.shadows {
      WriteNotesEmptyIff(e, group, sr + 1);
      assert StageNotes(e.writes(group, sr), STAGE_WRITES, group) == [] <==> Clean(e.writes(group, sr));
    }
  }

  lemma GroupNotesEmptyIff(e: Env, group: nat)
    ensures GroupNotes(e, group) == [] <==> GroupPasses(e, group) && QuietGroup(e, group)
  {
    var from, to := ReadsFrom(e, group), ReadsFrom(e, group + 1);
    ReadNotesEmptyIff(e.vfifo, STAGE_VFIFO, from, to);
    WriteNotesEmptyIff(e, group, 0);
    ReadNotesEmptyIff(e.vfifoEnd, STAGE_VFIFO_AFTER_WRITES, from, to);
  }

  lemma {:induction false} GroupsNotesEmptyIff(e: Env, group: nat)
    requires group <= e.groups
    ensures GroupsNotes(e, group) == [] <==>
      forall g: nat :: group <= g < e.groups && !Skipped(e, g) ==> GroupPasses(e, g) && QuietGroup(e, g)
    decreases e.groups - group
  {
    if group < e.groups {
      GroupNotesEmptyIff(e, group);
      GroupsNotesEmptyIff(e, group + 1);
    }
  }

  /** The error record is empty exactly if calibration succeeds and no stage that ran recovered from
    * a failure it had noted.
    */
  lemma RecordIsEmptyIff(e: Env, latency: nat)
    ensures RunNotes(e, latency) == [] <==> Calibrates(e, latency) && Quiet(e)
  {
    GroupsNotesEmptyIff(e, 0);
  }

  /** Where no retry notes a failure, an empty record means success. */
  lemma EmptyRecordIffCalibrated(e: Env, latency: nat)
    requires Quiet(e)
    ensures RunNotes(e, latency) == [] <==> Calibrates(e, latency)
  {
    RecordIsEmptyIff(e, latency);
  }

  /** A successful run keeps a failure on record exactly if one of its stages recovered from one. */
  lemma RecordOutlivesRecovery(e: Env, latency: nat)
    requires Calibrates(e, latency)
    ensures RunNotes(e, latency) != [] <==>
      exists g: nat :: g < e.groups && !Skipped(e, g) && !QuietGroup(e, g)
  {
    RecordIsEmptyIff(e, latency);
  }

  /** One group, whose first read centring noted a failure at pin 3 before a later one succeeded. */
  function RecoveredRun(): Env {
    Env(1, 1, 1, {}, {}, false,
        r => Outcome(true, [Failure(STAGE_VFIFO, SUBSTAGE_VFIFO_CENTER, 3)], SUBSTAGE_VFIFO_CENTER),
        (g, sr) => Outcome(true, [], SUBSTAGE_WRITES_CENTER),
        r => Outcome(true, [], SUBSTAGE_VFIFO_CENTER),
        latency => true)
  }

  /** A calibration that succeeds and leaves an error stage behind. */
  lemma SuccessWithErrorStage(latency: nat)
    ensures ValidEnv(RecoveredRun()) && Calibrates(RecoveredRun(), latency)
    ensures RunNotes(RecoveredRun(), latency) == [Failure(STAGE_VFIFO, SUBSTAGE_VFIFO_CENTER, 3)]
  {
    var e := RecoveredRun();
    assert ReadNotes(e.vfifo, STAGE_VFIFO, 0, 1) == [Failure(STAGE_VFIFO, SUBSTAGE_VFIFO_CENTER, 3)];
    assert WriteNotes(e, 0, 0) == [];
    assert ReadNotes(e.vfifoEnd, STAGE_VFIFO_AFTER_WRITES, 0, 1) == [];
    assert GroupPasses(e, 0);
    assert !Skipped(e, 0) by {
      assert 0 !in e.skipGroups;
    }
    assert GroupsNotes(e, 0) == GroupNotes(e, 0);
  }

  // ------------------------------------------------------------------ the first failure

  /** The first failure a stage that is not clean notes. */
  function FirstNote(o: Outcome, stage: nat, group: nat): Failure {
    if o.retries != [] then o.retries[0] else Failure(stage, o.substage, group)
  }

  ghost predicate CleanReads(stage: nat -> Outcome, from: nat, to: nat) {
    forall r: nat :: from <= r < to ==> Clean(stage(r))
  }

  ghost predicate CleanWrites(e: Env, group: nat, n: nat) {
    forall sr: nat :: sr < n && sr !in e.skipShadows ==> Clean(e.writes(group, sr))
  }

  /** Every stage of the group is clean. */
  ghost predicate CleanGroup(e: Env, group: nat) {
    && CleanReads(e.vfifo, ReadsFrom(e, group), ReadsFrom(e, group + 1))
    && CleanWrites(e, group, e.shadows)
    && CleanReads(e.vfifoEnd, ReadsFrom(e, group), ReadsFrom(e, group + 1))
  }

  /** Group `g` is the first of those calibrated that is not clean. */
  ghost predicate FirstGroup(e: Env, g: nat) {
    && g < e.groups && !Skipped(e, g) && !CleanGroup(e, g)
    && forall k: nat :: k < g && !Skipped(e, k) ==> CleanGroup(e, k)
  }

  /** Read group `r` is the first of group `g` whose stage is not clean. */
  ghost predicate FirstRead(stage: nat -> Outcome, from: nat, to: nat, r: nat) {
    from <= r < to && !Clean(stage(r)) && CleanReads(stage, from, r)
  }

  ghost predicate FirstWrite(e: Env, group: nat, sr: nat) {
    sr < e.shadows && sr !in e.skipShadows && !Clean(e.writes(group, sr)) && CleanWrites(e, group, sr)
  }

  /** The record of a run whose first group that is not clean is `g`, with read groups `from` up to
    * `to`: the first read stages come before the writes, the last read stages after them.
    */
  ghost predicate RecordOf(e: Env, g: nat, from: nat, to: nat, error: Failure) {
    && (forall r: nat :: FirstRead(e.vfifo, from, to, r) ==> error == FirstNote(e.vfifo(r), 1, r))
    && (CleanReads(e.vfifo, from, to) ==>
          forall sr: nat :: FirstWrite(e, g, sr) ==> error == FirstNote(e.writes(g, sr), 4, g))
    && (CleanReads(e.vfifo, from, to) && CleanWrites(e, g, e.shadows) ==>
          forall r: nat :: FirstRead(e.vfifoEnd, from, to, r) ==> error == FirstNote(e.vfifoEnd(r), 9, r))
  }

  /** The record at the end of a run, in terms of the stages: groups come in order, and the latency
    * search comes last.
    */
  ghost predicate RecordIs(e: Env, latency: nat, error: Failure) {
    && (forall g: nat :: FirstGroup(e, g) ==> RecordOf(e, g, ReadsFrom(e, g), ReadsFrom(e, g + 1), error))
    && ((forall g: nat :: !FirstGroup(e, g)) ==>
          error == if e.skipGroups == {} && !e.latencyPasses(latency) then Failure(3, 1, 0xff) else Failure(0, 0, 0xff))
  }

  lemma {:induction false} ReadNotesStart(stage: nat -> Outcome, code: nat, from: nat, to: nat, r: nat)
    requires FirstRead(stage, from, to, r)
    ensures ReadNotes(stage, code, from, to) != []
    ensures ReadNotes(stage, code, from, to)[0] == FirstNote(stage(r), code, r)
    decreases r - from
  {
    if from < r {
      assert Clean(stage(from));
      ReadNotesStart(stage, code, from + 1, to, r);
    }
  }

  lemma {:induction false} WriteNotesStart(e: Env, group: nat, from: nat, sr: nat)
    requires from <= sr && FirstWrite(e, group, sr)
    ensures WriteNotes(e, group, from) != []
    ensures WriteNotes(e, group, from)[0] == FirstNote(e.writes(group, sr), STAGE_WRITES, group)
    decreases sr - from
  {
    if from < sr {
      assert from in e.skipShadows || Clean(e.writes(group, from));
      WriteNotesStart(e, group, from + 1, sr);
    }
  }

  lemma CleanIff(e: Env, group: nat)
    ensures CleanGroup(e, group) <==> GroupPasses(e, group) && QuietGroup(e, group)
  {
  }

  /** A run notes what its first group that is not clean notes, and goes on from there. */
  lemma {:induction false} NotesStart(e: Env, from: nat, g: nat)
    requires FirstGroup(e, g) && from <= g
    ensures GroupNotes(e, g) != [] && GroupNotes(e, g) <= GroupsNotes(e, from)
    decreases g - from
  {
    CleanIff(e, from);
    GroupNotesEmptyIff(e, from);
    if from < g {
      NotesStart(e, from + 1, g);
      if !Skipped(e, from) {
        assert GroupNotes(e, from) == [];
        assert GroupsNotes(e, from) == GroupsNotes(e, from + 1);
      }
    }
  }

  /** What a group that is not clean notes first. */
  lemma GroupStart(e: Env, g: nat)
    requires GroupNotes(e, g) != []
    ensures RecordOf(e, g, ReadsFrom(e, g), ReadsFrom(e, g + 1), GroupNotes(e, g)[0])
  {
    var from, to := ReadsFrom(e, g), ReadsFrom(e, g + 1);
    var opening := ReadNotes(e.vfifo, STAGE_VFIFO, from, to);
    var writes, ends := WriteNotes(e, g, 0), ReadNotes(e.vfifoEnd, STAGE_VFIFO_AFTER_WRITES, from, to);
    var later := if !WritesPass(e, g, e.shadows) then [] else ends;
    assert GroupNotes(e, g) == opening + if !ReadsPass(e.vfifo, from, to) then [] else writes + later;
    OrderedStart(e, g, from, to, opening, writes, ends, GroupNotes(e, g)[0]);
  }

  lemma OrderedStart(e: Env, g: nat, from: nat, to: nat,
                     first: seq<Failure>, writes: seq<Failure>, ends: seq<Failure>, error: Failure)
    requires first == ReadNotes(e.vfifo, STAGE_VFIFO, from, to) && writes == WriteNotes(e, g, 0)
    requires ends == ReadNotes(e.vfifoEnd, STAGE_VFIFO_AFTER_WRITES, from, to)
    requires first != [] ==> error == first[0]
    requires first == [] && ReadsPass(e.vfifo, from, to) && writes != [] ==> error == writes[0]
    requires first == writes == [] && ReadsPass(e.vfifo, from, to) && WritesPass(e, g, e.shadows) && ends != [] ==>
               error == ends[0]
    ensures RecordOf(e, g, from, to, error)
  {
    ReadNotesEmptyIff(e.vfifo, STAGE_VFIFO, from, to);
    WriteNotesEmptyIff(e, g, 0);
    forall r: nat | FirstRead(e.vfifo, from, to, r)
      ensures error == FirstNote(e.vfifo(r), 1, r)
    {
      ReadNotesStart(e.vfifo, STAGE_VFIFO, from, to, r);
    }
    forall sr: nat | CleanReads(e.vfifo, from, to) && FirstWrite(e, g, sr)
      ensures error == FirstNote(e.writes(g, sr), 4, g)
    {
      WriteNotesStart(e, g, 0, sr);
    }
    forall r: nat | CleanReads(e.vfifo, from, to) && CleanWrites(e, g, e.shadows) && FirstRead(e.vfifoEnd, from, to, r)
      ensures error == FirstNote(e.vfifoEnd(r), 9, r)
    {
      ReadNotesStart(e.vfifoEnd, STAGE_VFIFO_AFTER_WRITES, from, to, r);
    }
  }

  /** Of the groups that are not clean, one comes first. */
  lemma {:induction false} SomeFirstGroup(e: Env, n: nat)
    requires n <= e.groups && forall g: nat :: !FirstGroup(e, g)
    ensures forall k: nat :: k < n && !Skipped(e, k) ==> CleanGroup(e, k)
  {
    if n > 0 {
      SomeFirstGroup(e, n - 1);
      assert !FirstGroup(e, n - 1);
    }
  }

  /** The first failure noted, for every pattern of outcomes. */
  lemma RecordFollowsStages(e: Env, latency: nat, error: Failure)
    requires error == if RunNotes(e, latency) == [] then NO_FAILURE else RunNotes(e, latency)[0]
    ensures RecordIs(e, latency, error)
  {
    forall g: nat | FirstGroup(e, g)
      ensures RecordOf(e, g, ReadsFrom(e, g), ReadsFrom(e, g + 1), error)
    {
      NotesStart(e, 0, g);
      GroupStart(e, g);
    }
    if forall g: nat :: !FirstGroup(e, g) {
      SomeFirstGroup(e, e.groups);
      forall g: nat | g < e.groups && !Skipped(e, g)
        ensures GroupPasses(e, g) && QuietGroup(e, g)
      {
        CleanIff(e, g);
      }
      GroupsNotesEmptyIff(e, 0);
    }
  }

  /** The four cases are all there are. */
  lemma RecordIsUnique(e: Env, latency: nat, a: Failure, b: Failure)
    ensures RecordIs(e, latency, a) && RecordIs(e, latency, b) ==> a == b
  {
    if RecordIs(e, latency, a) && RecordIs(e, latency, b) && exists g: nat :: FirstGroup(e, g) {
      var g: nat :| FirstGroup(e, g);
      RecordOfIsUnique(e, g, ReadsFrom(e, g), ReadsFrom(e, g + 1), a, b);
    }
  }

  lemma RecordOfIsUnique(e: Env, g: nat, from: nat, to: nat, a: Failure, b: Failure)
    requires !(CleanReads(e.vfifo, from, to) && CleanWrites(e, g, e.shadows) && CleanReads(e.vfifoEnd, from, to))
    requires RecordOf(e, g, from, to, a) && RecordOf(e, g, from, to, b)
    ensures a == b
  {
    if !CleanReads(e.vfifo, from, to) {
      var r := LeastRead(e.vfifo, from, to);
    } else if !CleanWrites(e, g, e.shadows) {
      var sr := LeastWrite(e, g, e.shadows);
    } else {
      var r := LeastRead(e.vfifoEnd, from, to);
    }
  }

  lemma {:induction false} LeastRead(stage: nat -> Outcome, from: nat, to: nat) returns (r: nat)
    requires !CleanReads(stage, from, to)
    ensures FirstRead(stage, from, to, r)
    decreases if from < to then to - from else 0
  {
    r := from;
    if Clean(stage(from)) {
      r := LeastRead(stage, from + 1, to);
    }
  }

  lemma {:induction false} LeastWrite(e: Env, group: nat, n: nat) returns (sr: nat)
    requires n <= e.shadows && !CleanWrites(e, group, n)
    ensures FirstWrite(e, group, sr)
  {
    sr := n - 1;
    if !CleanWrites(e, group, n - 1) {
      sr := LeastWrite(e, group, n - 1);
    }
  }
}

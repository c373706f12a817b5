/** The delay loops of the RW manager: an interpreter of its instruction ROM and the code that
  * loads its jump counters.
  */
module Microcode {

  // ------------------------------------------------------------------ the machine

  const INIT_RESET_0_CKE_0: nat := 0x6F
  const INIT_RESET_1_CKE_0: nat := 0x74
  const IDLE_LOOP2: nat := 0x7A
  const IDLE_LOOP1: nat := 0x7B

  /** Rows 0x6F to 0x7C of the instruction ROM. */
  const ROM: seq<nat> := [0x0, 0x8000, 0xA000, 0xC000, 0x80000, 0x80, 0x8080, 0xA080, 0xC080, 0x80080, 0x9180,
                          0x8680, 0xA680, 0x80680]

  /** An instruction drives the pins for a cycle and then goes on, returns, or tests a counter. */
  type Counter = k: nat | k < 4

  datatype Op = Next | Jump(counter: Counter) | Return

  /** Bit 19 marks a return, bit 15 a jump on the counter named by bits 14 and 13. */
  function Decode(word: nat): (op: Op) {
    if word / 0x80000 % 2 == 1 then Return
    else if word / 0x8000 % 2 == 1 then Jump(word / 0x2000 % 4)
    else Next
  }

  type Program = nat -> Op

  function OpAt(pc: nat): Op {
    if 0x6F <= pc < 0x6F + |ROM| then Decode(ROM[pc - 0x6F]) else Return
  }

  /** Program counter, running counters, and the four loaded counter and target registers. */
  datatype Machine = Machine(pc: nat, cntr: seq<nat>, load: seq<nat>, target: seq<nat>) {
    ghost predicate Valid() {
      |cntr| == |load| == |target| == 4
    }
  }

  /** One cycle.  A jump tests its counter before counting down, and reloads it when it falls
    * through.
    */
  function Step(prog: Program, m: Machine): (m': Machine)
    requires m.Valid()
    ensures m'.Valid() && m'.load == m.load && m'.target == m.target
  {
    match prog(m.pc)
    case Jump(k) =>
      if m.cntr[k] != 0 then m.(pc := m.target[k], cntr := m.cntr[k := m.cntr[k] - 1])
      else m.(pc := m.pc + 1, cntr := m.cntr[k := m.load[k]])
    case _ => m.(pc := m.pc + 1)
  }

  /** After `n` cycles, none of them a return, the machine is in state `m'`. */
  ghost predicate Reaches(prog: Program, m: Machine, n: nat, m': Machine)
    requires m.Valid()
    decreases n
  {
    if n == 0 then m == m' else prog(m.pc) != Return && Reaches(prog, Step(prog, m), n - 1, m')
  }

  /** The program returns in cycle `n`, in state `m'`. */
  ghost predicate ReturnsIn(prog: Program, m: Machine, n: nat, m': Machine)
    requires m.Valid()
  {
    n > 0 && Reaches(prog, m, n - 1, m') && prog(m'.pc) == Return
  }

  lemma {:induction false} Join(prog: Program, a: Machine, n: nat, b: Machine, k: nat, c: Machine)
    requires a.Valid() && b.Valid() && Reaches(prog, a, n, b) && Reaches(prog, b, k, c)
    ensures Reaches(prog, a, n + k, c)
    decreases n
  {
    if n > 0 {
      Join(prog, Step(prog, a), n - 1, b, k, c);
    }
  }

  /** How long a program runs is determined by where it starts. */
  lemma {:induction false} ReturnIsUnique(prog: Program, m: Machine, n: nat, a: Machine, k: nat, b: Machine)
    requires m.Valid() && ReturnsIn(prog, m, n, a) && ReturnsIn(prog, m, k, b)
    ensures n == k && a == b
    decreases n
  {
    if n > 1 && k > 1 {
      ReturnIsUnique(prog, Step(prog, m), n - 1, a, k - 1, b);
    }
  }

  // ------------------------------------------------------------------ nested loops

  /** The machine at `pc`, with counter `k` at `v`. */
  function Set(m: Machine, pc: nat, k: nat, v: nat): Machine
    requires m.Valid() && k < 4
  {
    m.(pc := pc, cntr := m.cntr[k := v])
  }

  /** What every pass from `head` to the jump at `at` does while counter `k` is at most `c`. */
  ghost predicate PassTakes(prog: Program, m: Machine, head: nat, at: nat, k: nat, body: nat, c: nat)
    requires m.Valid() && k < 4
  {
    forall v: nat :: v <= c ==> Reaches(prog, Set(m, head, k, v), body, Set(m, at, k, v))
  }

  /** One pass and the jump that ends it. */
  lemma OnePass(prog: Program, m: Machine, head: nat, at: nat, k: nat, body: nat, c: nat)
    requires m.Valid() && k < 4 && prog(at) == Jump(k) && m.target[k] == head
    requires Reaches(prog, Set(m, head, k, c), body, Set(m, at, k, c))
    ensures Reaches(prog, Set(m, head, k, c), body + 1,
                    if c == 0 then Set(m, at + 1, k, m.load[k]) else Set(m, head, k, c - 1))
  {
    var atJump := Set(m, at, k, c);
    var after := Step(prog, atJump);
    assert Reaches(prog, after, 0, after);
    assert Reaches(prog, atJump, 1, after);
    Join(prog, Set(m, head, k, c), body, atJump, 1, after);
    assert after == if c == 0 then Set(m, at + 1, k, m.load[k]) else Set(m, head, k, c - 1);
  }

  lemma Distribute(c: nat, b: nat)
    ensures b + c * b == (c + 1) * b
  {
  }

  /** If one pass from `head` to the jump at `at` always takes `body` cycles and leaves the counters
    * alone, the whole loop takes body + 1 cycles a pass, and one pass more than the counter says.
    */
  lemma {:induction false} Loop(prog: Program, m: Machine, head: nat, at: nat, k: nat, body: nat, c: nat)
    requires m.Valid() && k < 4 && prog(at) == Jump(k) && m.target[k] == head
    requires PassTakes(prog, m, head, at, k, body, c)
    ensures Reaches(prog, Set(m, head, k, c), (c + 1) * (body + 1), Set(m, at + 1, k, m.load[k]))
    decreases c
  {
    var done := Set(m, at + 1, k, m.load[k]);
    OnePass(prog, m, head, at, k, body, c);
    Distribute(c, body + 1);
    if c > 0 {
      var rest := c * (body + 1);
      assert Reaches(prog, Set(m, head, k, c - 1), rest, done) by {
        Loop(prog, m, head, at, k, body, c - 1);
      }
      Join(prog, Set(m, head, k, c), body + 1, Set(m, head, k, c - 1), rest, done);
    }
  }

  // ------------------------------------------------------------------ initialisation

  /** Cycles of the three nested loops of the initialisation wait, as the source states them. */
  function InitCycles(c0: nat, c1: nat, c2: nat): nat {
    (c2 + 1) * ((c1 + 1) * (2 * (c0 + 1) + 1) + 1) + 1
  }

  /** Counters loaded and every jump of the three loops aimed at the first row. */
  ghost predicate InitLoaded(m: Machine) {
    && m.Valid() && (m.pc == INIT_RESET_0_CKE_0 || m.pc == INIT_RESET_1_CKE_0)
    && m.cntr == m.load && m.target[0] == m.target[1] == m.target[2] == m.pc
  }

  lemma RomRows(pc: nat)
    requires pc == INIT_RESET_0_CKE_0 || pc == INIT_RESET_1_CKE_0
    ensures OpAt(pc) == Next && OpAt(pc + 1) == Jump(0) && OpAt(pc + 2) == Jump(1) && OpAt(pc + 3) == Jump(2)
    ensures OpAt(pc + 4) == Return
    ensures OpAt(IDLE_LOOP2) == Jump(0) && OpAt(IDLE_LOOP1) == Jump(1) && OpAt(IDLE_LOOP1 + 1) == Return
  {
  }

  lemma InnerLoop(m: Machine, pc: nat)
    requires m.Valid() && m.pc == pc && (pc == INIT_RESET_0_CKE_0 || pc == INIT_RESET_1_CKE_0)
    requires m.target[0] == pc && m.cntr[0] == m.load[0]
    ensures Reaches(OpAt, m, 2 * (m.load[0] + 1), m.(pc := pc + 2))
  {
    RomRows(pc);
    forall v: nat | v <= m.cntr[0]
      ensures Reaches(OpAt, Set(m, pc, 0, v), 1, Set(m, pc + 1, 0, v))
    {
      assert Reaches(OpAt, Set(m, pc + 1, 0, v), 0, Set(m, pc + 1, 0, v));
      assert Step(OpAt, Set(m, pc, 0, v)) == Set(m, pc + 1, 0, v);
    }
    Loop(OpAt, m, pc, pc + 1, 0, 1, m.cntr[0]);
    assert Set(m, pc, 0, m.cntr[0]) == m;
    assert Set(m, pc + 2, 0, m.load[0]) == m.(pc := pc + 2);
  }

  lemma MiddleLoop(m: Machine, pc: nat)
    requires m.Valid() && m.pc == pc && (pc == INIT_RESET_0_CKE_0 || pc == INIT_RESET_1_CKE_0)
    requires m.target[0] == m.target[1] == pc && m.cntr[0] == m.load[0] && m.cntr[1] == m.load[1]
    ensures Reaches(OpAt, m, (m.load[1] + 1) * (2 * (m.load[0] + 1) + 1), m.(pc := pc + 3))
  {
    RomRows(pc);
    var body := 2 * (m.load[0] + 1);
    forall v: nat | v <= m.cntr[1]
      ensures Reaches(OpAt, Set(m, pc, 1, v), body, Set(m, pc + 2, 1, v))
    {
      InnerLoop(Set(m, pc, 1, v), pc);
      assert Set(m, pc, 1, v).(pc := pc + 2) == Set(m, pc + 2, 1, v);
    }
    Loop(OpAt, m, pc, pc + 2, 1, body, m.cntr[1]);
    assert Set(m, pc, 1, m.cntr[1]) == m;
    assert Set(m, pc + 3, 1, m.load[1]) == m.(pc := pc + 3);
  }

  /** The wait takes exactly the number of cycles the source's comment gives, for all counters. */
  lemma InitTiming(m: Machine)
    requires InitLoaded(m)
    ensures ReturnsIn(OpAt, m, InitCycles(m.load[0], m.load[1], m.load[2]), m.(pc := m.pc + 4))
  {
    var pc := m.pc;
    RomRows(pc);
    var body := (m.load[1] + 1) * (2 * (m.load[0] + 1) + 1);
    forall v: nat | v <= m.cntr[2]
      ensures Reaches(OpAt, Set(m, pc, 2, v), body, Set(m, pc + 3, 2, v))
    {
      MiddleLoop(Set(m, pc, 2, v), pc);
      assert Set(m, pc, 2, v).(pc := pc + 3) == Set(m, pc + 3, 2, v);
    }
    Loop(OpAt, m, pc, pc + 3, 2, body, m.cntr[2]);
    assert Set(m, pc, 2, m.cntr[2]) == m;
    assert Set(m, pc + 4, 2, m.load[2]) == m.(pc := pc + 4);
  }

  /** AFI clock cycles a microsecond. */
  const AFI_CLK_FREQ := 401

  /** With the configured counters the two waits take 218923 and 221112 cycles: the memory is held in
    * reset for at least 200 us and goes without a clock for at least 500 us.
    */
  lemma ConfiguredWaits(m: Machine, n: nat, m': Machine)
    requires InitLoaded(m) && ReturnsIn(OpAt, m, n, m')
    ensures m.load[0] == 99 && m.load[1] == 32 && m.load[2] == 32 ==> n == 218923 && n >= 200 * AFI_CLK_FREQ
    ensures m.load[0] == 99 && m.load[1] == 99 && m.load[2] == 10 ==> n == 221112 && n >= 500 * AFI_CLK_FREQ
  {
    InitTiming(m);
    ReturnIsUnique(OpAt, m, n, m', InitCycles(m.load[0], m.load[1], m.load[2]), m.(pc := m.pc + 4));
  }

  // ------------------------------------------------------------------ idle loops

  lemma IdleLoop1(m: Machine)
    requires m.Valid() && m.pc == IDLE_LOOP1 && m.target[1] == IDLE_LOOP1 && m.cntr[1] == m.load[1]
    ensures ReturnsIn(OpAt, m, m.load[1] + 2, m.(pc := IDLE_LOOP1 + 1))
  {
    RomRows(INIT_RESET_0_CKE_0);
    forall v: nat | v <= m.cntr[1]
      ensures Reaches(OpAt, Set(m, IDLE_LOOP1, 1, v), 0, Set(m, IDLE_LOOP1, 1, v))
    {
    }
    Loop(OpAt, m, IDLE_LOOP1, IDLE_LOOP1, 1, 0, m.cntr[1]);
    assert Set(m, IDLE_LOOP1, 1, m.cntr[1]) == m;
    assert Set(m, IDLE_LOOP1 + 1, 1, m.load[1]) == m.(pc := IDLE_LOOP1 + 1);
  }

  /** The two nested idle loops: (inner + 1) * (outer + 1) idle cycles and one more an outer pass. */
  lemma IdleLoop2(m: Machine)
    requires m.Valid() && m.pc == IDLE_LOOP2 && m.target[0] == m.target[1] == IDLE_LOOP2
    requires m.cntr[0] == m.load[0] && m.cntr[1] == m.load[1]
    ensures ReturnsIn(OpAt, m, (m.load[1] + 1) * (m.load[0] + 2) + 1, m.(pc := IDLE_LOOP1 + 1))
  {
    RomRows(INIT_RESET_0_CKE_0);
    forall v: nat | v <= m.cntr[1]
      ensures Reaches(OpAt, Set(m, IDLE_LOOP2, 1, v), m.load[0] + 1, Set(m, IDLE_LOOP1, 1, v))
    {
      var s := Set(m, IDLE_LOOP2, 1, v);
      forall u: nat | u <= s.cntr[0]
        ensures Reaches(OpAt, Set(s, IDLE_LOOP2, 0, u), 0, Set(s, IDLE_LOOP2, 0, u))
      {
      }
      Loop(OpAt, s, IDLE_LOOP2, IDLE_LOOP2, 0, 0, s.cntr[0]);
      assert Set(s, IDLE_LOOP2, 0, s.cntr[0]) == s;
      assert Set(s, IDLE_LOOP1, 0, m.load[0]) == Set(m, IDLE_LOOP1, 1, v);
    }
    Loop(OpAt, m, IDLE_LOOP2, IDLE_LOOP1, 1, m.load[0] + 1, m.cntr[1]);
    assert Set(m, IDLE_LOOP2, 1, m.cntr[1]) == m;
    assert Set(m, IDLE_LOOP1 + 1, 1, m.load[1]) == m.(pc := IDLE_LOOP1 + 1);
  }

  // ------------------------------------------------------------------ the delay routine

  /** A program that was run: where it starts, and how long it took to return. */
  datatype ProgramRun = ProgramRun(pc: nat, cycles: nat)

  /** Cycles spent in the program at `pc`. */
  function CyclesAt(runs: seq<ProgramRun>, pc: nat): nat {
    if runs == [] then 0 else (if runs[0].pc == pc then runs[0].cycles else 0) + CyclesAt(runs[1..], pc)
  }

  /** The runs after the last one of the program at `pc`. */
  function AfterLast(runs: seq<ProgramRun>, pc: nat): seq<ProgramRun> {
    if runs == [] then []
    else if exists i :: 0 < i < |runs| && runs[i].pc == pc then AfterLast(runs[1..], pc)
    else if runs[0].pc == pc then runs[1..]
    else runs
  }

  /** The counter and jump registers of the RW manager, the programs it has run, in order, and the
    * cycles they took.
    */
  class RwManager {
    var load: seq<nat>
    var target: seq<nat>
    ghost var runs: seq<ProgramRun>
    ghost var cycles: nat

    ghost predicate Valid()
      reads this
    {
      |load| == |target| == 4
    }

    constructor ()
      ensures Valid() && runs == [] && cycles == 0
    {
      load, target, runs, cycles := [0, 0, 0, 0], [0, 0, 0, 0], [], 0;
    }

    /** The machine a program starts from: every counter freshly loaded. */
    ghost function Started(pc: nat): Machine
      reads this
    {
      Machine(pc, load, load, target)
    }

    method LoadCounter(k: nat, value: nat)
      requires Valid() && k < 4
      modifies this`load
      ensures Valid() && load == old(load)[k := value]
    {
      load := load[k := value];
    }

    method LoadTarget(k: nat, pc: nat)
      requires Valid() && k < 4
      modifies this`target
      ensures Valid() && target == old(target)[k := pc]
    {
      target := target[k := pc];
    }

    /** Runs the program at `pc` until it returns, `n` cycles later. */
    method RunSingleGroup(pc: nat, ghost n: nat, ghost end: Machine)
      requires Valid() && ReturnsIn(OpAt, Started(pc), n, end)
      modifies this`runs, this`cycles
      ensures runs == old(runs) + [ProgramRun(pc, n)] && cycles == old(cycles) + n
    {
      runs, cycles := runs + [ProgramRun(pc, n)], cycles + n;
    }

    /** One of the two long waits: three counters, three jumps back to the first row, one run. */
    method InitWait(pc: nat, c0: nat, c1: nat, c2: nat, skip: bool)
      requires Valid() && (pc == INIT_RESET_0_CKE_0 || pc == INIT_RESET_1_CKE_0)
      modifies this
      ensures Valid()
      ensures cycles == old(cycles) + InitCycles(Masked(skip, c0), Masked(skip, c1), Masked(skip, c2))
      ensures runs == old(runs) + [ProgramRun(pc, cycles - old(cycles))]
    {
      LoadCounter(0, Masked(skip, c0));
      LoadCounter(1, Masked(skip, c1));
      LoadCounter(2, Masked(skip, c2));
      LoadTarget(0, pc);
      LoadTarget(1, pc);
      LoadTarget(2, pc);
      InitTiming(Started(pc));
      RunSingleGroup(pc, InitCycles(load[0], load[1], load[2]), Started(pc).(pc := pc + 4));
    }

    /** The waits of rw_mgr_mem_initialize, in order: reset held, then the clock still disabled, then
      * 250 clocks of tXPR (section 3.3.1 of JESD79-3 asks for 200 us, then 500 us).  `inReset` counts
      * the cycles in the program that holds reset, `noClock` those in the program that has released
      * it, after the last of the former.
      */
    method MemInitialize() returns (ghost inReset: nat, ghost noClock: nat)
      requires Valid()
      modifies this
      ensures Valid()
      ensures runs == old(runs) + [ProgramRun(0x6F, 218923), ProgramRun(0x74, 221112), ProgramRun(0x7B, 251)]
      ensures inReset == CyclesAt(runs[|old(runs)|..], 0x6F) >= 200 * 401
      ensures noClock == CyclesAt(AfterLast(runs[|old(runs)|..], 0x6F), 0x74) >= 500 * 401
    {
      InitWait(INIT_RESET_0_CKE_0, 99, 32, 32, false);
      inReset := 218923;
      assert runs == old(runs) + [ProgramRun(0x6F, 218923)];
      InitWait(INIT_RESET_1_CKE_0, 99, 99, 10, false);
      noClock := 221112;
      assert runs == old(runs) + [ProgramRun(0x6F, 218923), ProgramRun(0x74, 221112)];
      DelayForNMemClocks(250, 1, false);
      InitRuns(runs[|old(runs)|..]);
    }

    /** Waits for a number of memory clocks.  `skip` is the debugging option that masks every
      * counter to 0; otherwise counters are masked to eight bits.
      */
    method DelayForNMemClocks(clocks: nat, ratio: nat, skip: bool)
      requires Valid() && ratio > 0 && clocks + ratio - 1 < 0x1_0000_0000
      modifies this
      ensures Valid()
      ensures !skip ==> cycles == old(cycles) + WaitCycles((clocks + ratio - 1) / ratio)
      ensures !skip ==> runs == old(runs) + WaitRuns((clocks + ratio - 1) / ratio)
    {
      var afi := (clocks + ratio - 1) / ratio;
      var inner, outer, cLoop := ChooseCounters(afi);
      if afi <= 0x100 {
        LoadCounter(1, Masked(skip, inner));
        LoadTarget(1, IDLE_LOOP1);
        RunIdle1();
      } else {
        LoadNested(Masked(skip, inner), Masked(skip, outer));
        if afi <= 0x10000 {
          RunIdle2();
        } else {
          RunManyIdle2(cLoop, skip);
        }
      }
    }

    method LoadNested(inner: nat, outer: nat)
      requires Valid()
      modifies this`load, this`target
      ensures Valid() && load[0] == inner && load[1] == outer
      ensures target[0] == target[1] == IDLE_LOOP2
    {
      LoadCounter(0, inner);
      LoadCounter(1, outer);
      LoadTarget(0, IDLE_LOOP2);
      LoadTarget(1, IDLE_LOOP2);
    }

    /** The loop around the nested idle loops; it runs once more than `count` says. */
    method RunManyIdle2(count: nat, ghost skip: bool)
      requires Valid() && target[0] == target[1] == IDLE_LOOP2
      requires !skip ==> load[0] == load[1] == 0xff
      modifies this`runs, this`cycles
      ensures !skip ==> cycles == old(cycles) + (count + 1) * 65793
      ensures !skip ==> runs == old(runs) + Repeated(ProgramRun(IDLE_LOOP2, 65793), count + 1)
    {
      RunIdle2();
      var cLoop := count;
      while cLoop != 0
        invariant 0 <= cLoop <= count
        invariant !skip ==> cycles + cLoop * 65793 == old(cycles) + (count + 1) * 65793
        invariant !skip ==> runs == old(runs) + Repeated(ProgramRun(IDLE_LOOP2, 65793), count + 1 - cLoop)
      {
        cLoop := cLoop - 1;
        RunIdle2();
      }
    }

    method RunIdle1()
      requires Valid() && target[1] == IDLE_LOOP1
      modifies this`runs, this`cycles
      ensures cycles == old(cycles) + load[1] + 2
      ensures runs == old(runs) + [ProgramRun(IDLE_LOOP1, load[1] + 2)]
    {
      IdleLoop1(Started(IDLE_LOOP1));
      RunSingleGroup(IDLE_LOOP1, load[1] + 2, Started(IDLE_LOOP1).(pc := IDLE_LOOP1 + 1));
    }

    method RunIdle2()
      requires Valid() && target[0] == target[1] == IDLE_LOOP2
      modifies this`runs, this`cycles
      ensures cycles == old(cycles) + (load[1] + 1) * (load[0] + 2) + 1
      ensures runs == old(runs) + [ProgramRun(IDLE_LOOP2, (load[1] + 1) * (load[0] + 2) + 1)]
    {
      IdleLoop2(Started(IDLE_LOOP2));
      RunSingleGroup(IDLE_LOOP2, (load[1] + 1) * (load[0] + 2) + 1, Started(IDLE_LOOP2).(pc := IDLE_LOOP1 + 1));
    }
  }

  lemma InitRuns(runs: seq<ProgramRun>)
    requires runs == [ProgramRun(0x6F, 218923), ProgramRun(0x74, 221112), ProgramRun(0x7B, 251)]
    ensures CyclesAt(runs, 0x6F) == 218923 && CyclesAt(AfterLast(runs, 0x6F), 0x74) == 221112
  {
    var two, one := runs[1..], runs[2..];
    assert two[1..] == one && one[1..] == [];
    assert CyclesAt(one, 0x6F) == CyclesAt(one, 0x74) == 0;
    assert CyclesAt(two, 0x6F) == 0 && CyclesAt(two, 0x74) == 221112;
    assert AfterLast(runs, 0x6F) == two;
  }

  function Repeated(r: ProgramRun, n: nat): seq<ProgramRun> {
    seq(n, _ => r)
  }

  /** The programs a wait for `afi` clocks runs. */
  function WaitRuns(afi: nat): (r: seq<ProgramRun>)
    ensures 0 < afi <= 0x100 ==> r == [ProgramRun(0x7B, afi + 1)]
    ensures 0x100 < afi <= 0x10000 ==> |r| == 1 && r[0].pc == 0x7A && r[0].cycles == (afi + 255) / 256 * 257 + 1
    ensures 0x10000 < afi ==>
      |r| == (afi + 65535) / 65536 && forall i :: 0 <= i < |r| ==> r[i] == ProgramRun(0x7A, 65793)
  {
    if afi <= 0x100 then [ProgramRun(IDLE_LOOP1, WaitCycles(afi))]
    else if afi <= 0x10000 then [ProgramRun(IDLE_LOOP2, WaitCycles(afi))]
    else Repeated(ProgramRun(IDLE_LOOP2, 65793), Blocks(afi, 0x10000))
  }

  /** The three loop counters; `inner` and `outer` are 8-bit variables, `cLoop` is a 16-bit one.
    * No value is lost in them.
    */
  method ChooseCounters(afi: nat) returns (inner: nat, outer: nat, cLoop: nat)
    requires afi < 0x1_0000_0000
    ensures inner < 0x100 && outer < 0x100 && cLoop < 0x10000
    ensures afi <= 0x100 ==> inner + 1 == (if afi == 0 then 1 else afi) && outer == cLoop == 0
    ensures 0x100 < afi <= 0x10000 ==> inner == 0xff && outer + 1 == Blocks(afi, 0x100) && cLoop == 0
    ensures 0x10000 < afi ==> inner == outer == 0xff && cLoop + 1 == Blocks(afi, 0x10000)
    ensures afi <= IdleLoops(inner, outer, cLoop)
    ensures 0 < afi <= 0x100 ==> IdleLoops(inner, outer, cLoop) == afi
    ensures 0x100 < afi <= 0x10000 ==> IdleLoops(inner, outer, cLoop) < afi + 0x100
    ensures 0x10000 < afi ==> IdleLoops(inner, outer, cLoop) < afi + 0x10000
  {
    if afi == 0 {
      inner, outer, cLoop := 0, 0, 0;
    } else if afi <= 0x100 {
      inner, outer, cLoop := (afi - 1) % 0x100, 0, 0;
    } else if afi <= 0x10000 {
      inner, outer, cLoop := 0xff, ((afi - 1) / 0x100) % 0x100, 0;
    } else {
      inner, outer, cLoop := 0xff, 0xff, ((afi - 1) / 0x10000) % 0x10000;
    }
  }

  /** How often the innermost idle loop runs. */
  function IdleLoops(inner: nat, outer: nat, cLoop: nat): nat {
    (inner + 1) * (outer + 1) * (cLoop + 1)
  }

  function Masked(skip: bool, value: nat): nat {
    if skip then 0 else value % 0x100
  }

  /** How many blocks of `unit` cover `n`. */
  function Blocks(n: nat, unit: nat): nat
    requires unit > 0
  {
    (n + unit - 1) / unit
  }

  /** Cycles a wait for `afi` clocks takes: whole blocks of 1, 256 or 65536 idle loops, a cycle for
    * each outer pass and one for each return.  That is never shorter than asked for, and longer by
    * less than one block and its overhead.
    */
  function WaitCycles(afi: nat): (w: nat)
    ensures w > afi
    ensures 0 < afi <= 0x100 ==> w == afi + 1
    ensures 0x100 < afi <= 0x10000 ==> (w - 1) * 256 < (afi + 256) * 257
    ensures 0x10000 < afi ==> w * 65536 < (afi + 65536) * 65793
  {
    if afi == 0 then 2
    else if afi <= 0x100 then afi + 1
    else if afi <= 0x10000 then Blocks(afi, 0x100) * 257 + 1
    else Blocks(afi, 0x10000) * 65793
  }
}

/** The debug mailbox: sequencer firmware and a host share a command, a status and a parameter
  * word.  Every read or write of a shared word is a step of its own, and steps interleave freely.
  */
module Mailbox {

  datatype Status = CmdReady | CmdExe | IllegalCmd | ResponseReady

  const CMD_NOP := 0
  const RESPONSE_ACK := 1
  const RUN_MEM_CALIBRATE := 5
  const RUN_EYE_DIAGRAM_PATTERN := 6
  const MARK_ALL_DQS_GROUPS_AS_VALID := 14
  const MARK_GROUP_AS_SKIP := 15
  const MARK_ALL_RANKS_AS_VALID := 17
  const MARK_RANK_AS_SKIP := 18
  const ENABLE_MARGIN_REPORT := 21
  const ENABLE_SWEEP_ALL_GROUPS := 22
  const DISABLE_GUARANTEED_READ := 23
  const SET_NON_DESTRUCTIVE_CALIBRATION := 24
  const SET_UPDATE_PARAMETERS := 41
  const RUN_NON_DES_MEM_CALIBRATE := 42
  const WAIT_CMD := 1000

  /** Numbers of write groups and ranks of the interface. */
  datatype Config = Config(groups: nat, ranks: nat)

  /** A command and the parameter it takes, 0 if it takes none. */
  datatype Call = Call(cmd: nat, arg: nat)

  predicate TakesParameter(cmd: nat) {
    cmd == MARK_GROUP_AS_SKIP || cmd == MARK_RANK_AS_SKIP || cmd == SET_NON_DESTRUCTIVE_CALIBRATION
  }

  function Taken(cmd: nat, param: nat): Call {
    Call(cmd, if TakesParameter(cmd) then param else 0)
  }

  predicate Known(cmd: nat) {
    || TakesParameter(cmd)
    || cmd in {CMD_NOP, RUN_MEM_CALIBRATE, RUN_EYE_DIAGRAM_PATTERN, MARK_ALL_DQS_GROUPS_AS_VALID,
               MARK_ALL_RANKS_AS_VALID, ENABLE_MARGIN_REPORT, ENABLE_SWEEP_ALL_GROUPS, DISABLE_GUARANTEED_READ,
               RUN_NON_DES_MEM_CALIBRATE}
  }

  predicate InRange(c: Config, call: Call) {
    && (call.cmd == MARK_GROUP_AS_SKIP ==> call.arg < c.groups)
    && (call.cmd == MARK_RANK_AS_SKIP ==> call.arg < c.ranks)
  }

  /** The answer a command deserves. */
  function Verdict(c: Config, call: Call): Status {
    if Known(call.cmd) && InRange(c, call) then ResponseReady else IllegalCmd
  }

  /** What commands change: the skip masks and the debug flags. */
  datatype Params = Params(skipGroups: set<nat>, skipRanks: set<nat>, flags: set<nat>)

  function Apply(p: Params, call: Call): Params {
    if call.cmd == MARK_ALL_DQS_GROUPS_AS_VALID then p.(skipGroups := {})
    else if call.cmd == MARK_GROUP_AS_SKIP then p.(skipGroups := p.skipGroups + {call.arg})
    else if call.cmd == MARK_ALL_RANKS_AS_VALID then p.(skipRanks := {})
    else if call.cmd == MARK_RANK_AS_SKIP then p.(skipRanks := p.skipRanks + {call.arg})
    else if call.cmd in {ENABLE_MARGIN_REPORT, ENABLE_SWEEP_ALL_GROUPS, DISABLE_GUARANTEED_READ} then
      p.(flags := p.flags + {call.cmd})
    else if call.cmd == SET_NON_DESTRUCTIVE_CALIBRATION then
      p.(flags := if call.arg != 0 then p.flags + {call.cmd} else p.flags - {call.cmd})
    else p
  }

  // ------------------------------------------------------------------ the two programs

  /** Where the firmware loop is: about to write, or about to read, a shared word. */
  datatype Fw =
    | MarkWait                     // writes requested_command := WAIT_CMD
    | MarkReady                    // writes command_status := CMD_READY
    | TestResponse                 // reads command_status
    | TestIllegal                  // reads command_status
    | TestReady                    // reads command_status
    | SwitchAck                    // reads requested_command, status was a response
    | SwitchCmd                    // reads requested_command, status was ready
    | Check(cmd: nat)              // reads the parameter and compares it
    | Act(cmd: nat)                // reads the parameter again and acts
    | Answer(status: Status)       // writes command_status

  /** The host: it requests only when it has seen READY, and acknowledges only a response it has seen. */
  datatype Host =
    | Watching                     // reads command_status
    | Preparing                    // writes the parameter
    | Requesting(call: Call)       // writes requested_command
    | Waiting                      // reads command_status
    | Acknowledging                // writes requested_command := RESPONSE_ACK

  /** Shared words, the two programs, and logs of what happened. */
  datatype State = State(
    cmd: nat, status: Status, param: nat,
    fw: Fw, host: Host, params: Params,
    issued: seq<Call>, handled: seq<Call>, answers: seq<Status>, seen: seq<Status>)

  ghost predicate Init(s: State) {
    && s.cmd == CMD_NOP && s.status == CmdExe && s.param == 0
    && s.fw == MarkWait && s.host == Watching
    && s.issued == [] && s.handled == [] && s.answers == [] && s.seen == []
  }

  /** The next firmware step. */
  function FwStep(c: Config, s: State): State {
    match s.fw
    case MarkWait => s.(cmd := WAIT_CMD, fw := MarkReady)
    case MarkReady => s.(status := CmdReady, fw := TestResponse)
    case TestResponse => s.(fw := if s.status == ResponseReady then SwitchAck else TestIllegal)
    case TestIllegal => s.(fw := if s.status == IllegalCmd then SwitchAck else TestReady)
    case TestReady => s.(fw := if s.status == CmdReady then SwitchCmd else TestResponse)
    case SwitchAck => s.(fw := if s.cmd == RESPONSE_ACK then MarkWait else TestResponse)
    case SwitchCmd =>
      if s.cmd == WAIT_CMD then s.(fw := TestResponse)
      else if s.cmd == MARK_GROUP_AS_SKIP || s.cmd == MARK_RANK_AS_SKIP then s.(fw := Check(s.cmd))
      else if TakesParameter(s.cmd) then s.(fw := Act(s.cmd))
      else
        var call := Call(s.cmd, 0);
        s.(handled := s.handled + [call],
           params := if Known(s.cmd) then Apply(s.params, call) else s.params,
           fw := Answer(if Known(s.cmd) then ResponseReady else IllegalCmd))
    case Check(cmd) =>
      if InRange(c, Call(cmd, s.param)) then s.(fw := Act(cmd))
      else s.(handled := s.handled + [Call(cmd, s.param)], fw := Answer(IllegalCmd))
    case Act(cmd) =>
      var call := Call(cmd, s.param);
      s.(handled := s.handled + [call], params := Apply(s.params, call), fw := Answer(ResponseReady))
    case Answer(status) => s.(status := status, answers := s.answers + [status], fw := TestResponse)
  }

  /** Commands a host may request through this loop: not the two reserved words, and not the one
    * that makes the firmware leave the loop.
    */
  predicate Requestable(call: Call) {
    call.cmd != WAIT_CMD && call.cmd != RESPONSE_ACK && call.cmd != SET_UPDATE_PARAMETERS
  }

  /** The possible host steps. */
  ghost predicate HostStep(s: State, s': State) {
    match s.host
    case Watching => s' == s.(host := if s.status == CmdReady then Preparing else Watching)
    case Preparing =>
      s'.host.Requesting? && Requestable(s'.host.call) && s' == s.(param := s'.host.call.arg, host := s'.host)
    case Requesting(call) =>
      s' == s.(cmd := call.cmd, issued := s.issued + [Taken(call.cmd, call.arg)], host := Waiting)
    case Waiting =>
      s' == if s.status == ResponseReady || s.status == IllegalCmd
            then s.(seen := s.seen + [s.status], host := Acknowledging) else s
    case Acknowledging => s' == s.(cmd := RESPONSE_ACK, host := Watching)
  }

  ghost predicate Next(c: Config, s: State, s': State) {
    s' == FwStep(c, s) || HostStep(s, s')
  }

  ghost predicate IsRun(c: Config, run: seq<State>) {
    && |run| > 0 && Init(run[0])
    && forall i :: 0 <= i < |run| - 1 ==> Next(c, run[i], run[i + 1])
  }

  // ------------------------------------------------------------------ safety

  /** The parameters after the commands that were accepted. */
  function Replay(c: Config, p: Params, calls: seq<Call>): Params
    decreases |calls|
  {
    if calls == [] then p
    else
      var last := calls[|calls| - 1];
      var before := Replay(c, p, calls[..|calls| - 1]);
      if Verdict(c, last) == ResponseReady then Apply(before, last) else before
  }

  /** What an observer of the logs may rely on: commands are handled in order, each once and with
    * the parameter it was issued with; answers are the right ones; and no command is issued before
    * the answer to the one before it was seen.
    */
  ghost predicate InOrder(c: Config, p0: Params, s: State) {
    && |s.seen| <= |s.answers| <= |s.handled| <= |s.issued| <= |s.seen| + 1
    && s.handled == s.issued[..|s.handled|]
    && (forall i :: 0 <= i < |s.answers| ==> s.answers[i] == Verdict(c, s.issued[i]))
    && s.seen == s.answers[..|s.seen|]
    && s.params == Replay(c, p0, s.handled)
    && forall i :: 0 <= i < |s.issued| ==> Requestable(s.issued[i])
  }

  predicate Responded(st: Status) {
    st == ResponseReady || st == IllegalCmd
  }

  /** A request is out and the firmware has not answered it. */
  predicate Pending(s: State) {
    s.host == Waiting && s.status == CmdReady
  }

  /** The shared words and the host agree on the phase of the transaction. */
  ghost predicate Phase(s: State) {
    && (s.host == Watching || s.host.Preparing? || s.host.Requesting? ==> |s.seen| == |s.issued|)
    && (s.host == Waiting ==> |s.seen| + 1 == |s.issued|)
    && (s.host == Acknowledging ==> |s.seen| == |s.issued| > 0)
    && (s.host.Preparing? || s.host.Requesting? ==> s.status == CmdReady)
    && (s.host.Requesting? ==> Requestable(s.host.call) && s.param == s.host.call.arg)
    && (s.host == Acknowledging ==> Responded(s.status))
    && (s.host == Waiting || s.host == Acknowledging ==>
          s.issued[|s.issued| - 1] == Taken(s.cmd, s.param))
    && (s.status == CmdReady && s.host != Waiting ==> s.cmd == WAIT_CMD)
    && (Responded(s.status) ==> |s.answers| == |s.issued| > 0 && s.status == s.answers[|s.answers| - 1])
    && (Responded(s.status) && s.host == Watching ==> s.cmd == if s.fw == MarkReady then WAIT_CMD else RESPONSE_ACK)
    && (s.status == CmdExe ==> (s.fw == MarkWait || s.fw == MarkReady) && s.host == Watching && s.issued == [])
    && (s.status == CmdReady ==> |s.answers| == |s.seen|)
  }

  /** The firmware's control point agrees with the status and the logs. */
  ghost predicate Control(c: Config, s: State) {
    && (s.fw.Answer? ==>
          && Pending(s) && |s.handled| == |s.issued| > 0
          && s.fw.status == Verdict(c, s.issued[|s.issued| - 1]))
    && (!s.fw.Answer? ==> |s.handled| == |s.answers|)
    && (s.fw.Check? || s.fw.Act? ==> Pending(s) && s.fw.cmd == s.cmd && TakesParameter(s.cmd))
    && (s.fw.Act? ==> InRange(c, Call(s.cmd, s.param)))
    && (s.fw.Check? ==> s.cmd == MARK_GROUP_AS_SKIP || s.cmd == MARK_RANK_AS_SKIP)
    && (s.fw == MarkWait || s.fw == MarkReady ==> s.host == Watching && s.status != CmdReady)
    && (s.fw == MarkReady ==> s.cmd == WAIT_CMD)
    && (s.fw == TestIllegal ==> s.status == CmdReady || s.status == IllegalCmd)
    && (s.fw == TestReady || s.fw == SwitchCmd ==> s.status == CmdReady)
    && (s.fw == SwitchAck ==> Responded(s.status))
  }

  ghost predicate Inv(c: Config, p0: Params, s: State) {
    InOrder(c, p0, s) && Phase(s) && Control(c, s)
  }

  lemma InitInv(c: Config, s: State)
    requires Init(s)
    ensures Inv(c, s.params, s)
  {
  }

  /** Handling the pending command extends the log by exactly what was issued. */
  lemma HandleStep(c: Config, p0: Params, s: State, call: Call)
    requires Inv(c, p0, s) && Pending(s) && !s.fw.Answer?
    requires call == s.issued[|s.issued| - 1]
    ensures s.handled + [call] == s.issued
    ensures Replay(c, p0, s.handled + [call]) ==
            if Verdict(c, call) == ResponseReady then Apply(s.params, call) else s.params
  {
    assert s.handled + [call] == s.issued;
    assert (s.handled + [call])[..|s.handled|] == s.handled;
  }

  predicate Handles(s: State) {
    (s.fw == SwitchCmd && s.cmd != WAIT_CMD) || s.fw.Check? || s.fw.Act?
  }

  lemma FwPollsPhase(c: Config, p0: Params, s: State)
    requires Inv(c, p0, s) && !Handles(s) && !s.fw.Answer?
    ensures Phase(FwStep(c, s))
  {
  }

  lemma FwPollsControl(c: Config, p0: Params, s: State)
    requires Inv(c, p0, s) && !Handles(s) && !s.fw.Answer?
    ensures Control(c, FwStep(c, s))
  {
  }

  lemma FwPolls(c: Config, p0: Params, s: State)
    requires Inv(c, p0, s) && !Handles(s) && !s.fw.Answer?
    ensures Inv(c, p0, FwStep(c, s))
  {
    FwPollsPhase(c, p0, s);
    FwPollsControl(c, p0, s);
  }

  lemma FwHandles(c: Config, p0: Params, s: State)
    requires Inv(c, p0, s) && Handles(s)
    ensures Inv(c, p0, FwStep(c, s))
  {
    assert Pending(s);
    HandleStep(c, p0, s, s.issued[|s.issued| - 1]);
  }

  lemma FwAnswers(c: Config, p0: Params, s: State)
    requires Inv(c, p0, s) && s.fw.Answer?
    ensures Inv(c, p0, FwStep(c, s))
  {
    var s' := FwStep(c, s);
    assert s'.seen == s'.answers[..|s'.seen|];
  }

  lemma FwKeepsInv(c: Config, p0: Params, s: State)
    requires Inv(c, p0, s)
    ensures Inv(c, p0, FwStep(c, s))
  {
    if Handles(s) {
      FwHandles(c, p0, s);
    } else if s.fw.Answer? {
      FwAnswers(c, p0, s);
    } else {
      FwPolls(c, p0, s);
    }
  }

  lemma HostKeepsInv(c: Config, p0: Params, s: State, s': State)
    requires Inv(c, p0, s) && HostStep(s, s')
    ensures Inv(c, p0, s')
  {
    if s.host == Waiting && Responded(s.status) {
      assert s.answers == s.answers[..|s.answers| - 1] + [s.status];
      assert s'.seen == s'.answers[..|s'.seen|];
    } else if s.host.Requesting? {
      assert s'.handled == s'.issued[..|s'.handled|];
    }
  }

  /** In every interleaving every reachable state is in order. */
  lemma {:induction false} Safety(c: Config, run: seq<State>)
    requires IsRun(c, run)
    ensures forall i :: 0 <= i < |run| ==> Inv(c, run[0].params, run[i])
  {
    InitInv(c, run[0]);
    if |run| > 1 {
      var front := run[..|run| - 1];
      Safety(c, front);
      var s, s' := run[|run| - 2], run[|run| - 1];
      assert front[|run| - 2] == s && Next(c, s, s');
      if s' == FwStep(c, s) {
        FwKeepsInv(c, run[0].params, s);
      } else {
        HostKeepsInv(c, run[0].params, s, s');
      }
    }
  }

  /** Between transactions everything issued has been handled, answered and seen. */
  lemma NothingIsLost(c: Config, run: seq<State>, i: nat)
    requires IsRun(c, run) && i < |run| && run[i].host != Waiting
    ensures run[i].handled == run[i].issued
    ensures |run[i].answers| == |run[i].issued| && run[i].seen == run[i].answers
    ensures forall j :: 0 <= j < |run[i].issued| ==>
      run[i].seen[j] == Verdict(c, run[i].issued[j]) && run[i].handled[j].cmd != RESPONSE_ACK
  {
    Safety(c, run);
    assert Inv(c, run[0].params, run[i]);
  }

  // ------------------------------------------------------------------ progress

  // ------------------------------------------------------------------ what commands do

  /** The commands answered with RESPONSE_READY, by number and range. */
  predicate Accepted(c: Config, call: Call) {
    || call.cmd in {0, 5, 6, 14, 17, 21, 22, 23, 24, 42}
    || (call.cmd == 15 && call.arg < c.groups)
    || (call.cmd == 18 && call.arg < c.ranks)
  }

  lemma VerdictIs(c: Config, call: Call)
    ensures Verdict(c, call) == if Accepted(c, call) then ResponseReady else IllegalCmd
  {
  }

  /** `x` was marked by an accepted command `mark`, or at the start, and no `clear` came since. */
  predicate Marked(calls: seq<Call>, mark: nat, clear: nat, limit: nat, x: nat, start: bool) {
    || (exists i :: 0 <= i < |calls| && calls[i] == Call(mark, x) && x < limit && NoneAfter(calls, i, clear))
    || (start && NoneAfter(calls, -1, clear))
  }

  predicate NoneAfter(calls: seq<Call>, i: int, cmd: nat) {
    forall j: nat :: i < j < |calls| ==> calls[j].cmd != cmd
  }

  /** The last of the commands 24 had a parameter other than 0, or there was none and the flag was on. */
  predicate NonDestructive(calls: seq<Call>, start: bool) {
    || (exists i :: 0 <= i < |calls| && calls[i].cmd == 24 && calls[i].arg != 0 && NoneAfter(calls, i, 24))
    || (start && NoneAfter(calls, -1, 24))
  }

  predicate EverCalled(calls: seq<Call>, cmd: nat) {
    exists i :: 0 <= i < |calls| && calls[i].cmd == cmd
  }

  /** The masks and flags follow from the commands handled. */
  ghost predicate Follows(c: Config, p0: Params, p: Params, calls: seq<Call>) {
    && (forall g: nat :: g in p.skipGroups <==> Marked(calls, 15, 14, c.groups, g, g in p0.skipGroups))
    && (forall r: nat :: r in p.skipRanks <==> Marked(calls, 18, 17, c.ranks, r, r in p0.skipRanks))
    && (forall f: nat :: 21 <= f <= 23 ==> (f in p.flags <==> f in p0.flags || EverCalled(calls, f)))
    && (24 in p.flags <==> NonDestructive(calls, 24 in p0.flags))
    && (forall f: nat :: f < 21 || 24 < f ==> (f in p.flags <==> f in p0.flags))
  }

  lemma NoneAfterNext(calls: seq<Call>, call: Call, i: int, cmd: nat)
    requires i < |calls|
    ensures NoneAfter(calls + [call], i, cmd) <==> NoneAfter(calls, i, cmd) && call.cmd != cmd
  {
    var all := calls + [call];
    assert all[|calls|] == call;
    assert forall j :: 0 <= j < |calls| ==> all[j] == calls[j];
  }

  lemma MarkedNext(calls: seq<Call>, call: Call, mark: nat, clear: nat, limit: nat, x: nat, start: bool)
    requires mark != clear
    ensures Marked(calls + [call], mark, clear, limit, x, start) <==>
      call.cmd != clear && (Marked(calls, mark, clear, limit, x, start) || (call == Call(mark, x) && x < limit))
  {
    var all, n := calls + [call], |calls|;
    NoneAfterNext(calls, call, -1, clear);
    forall i: nat | i < n
      ensures NoneAfter(all, i, clear) <==> NoneAfter(calls, i, clear) && call.cmd != clear
    {
      NoneAfterNext(calls, call, i, clear);
    }
    assert all[n] == call && NoneAfter(all, n, clear);
    assert forall i :: 0 <= i < n ==> all[i] == calls[i];
  }

  lemma NonDestructiveNext(calls: seq<Call>, call: Call, start: bool)
    ensures NonDestructive(calls + [call], start) <==>
      if call.cmd == 24 then call.arg != 0 else NonDestructive(calls, start)
  {
    var all, n := calls + [call], |calls|;
    NoneAfterNext(calls, call, -1, 24);
    forall i: nat | i < n
      ensures NoneAfter(all, i, 24) <==> NoneAfter(calls, i, 24) && call.cmd != 24
    {
      NoneAfterNext(calls, call, i, 24);
    }
    assert all[n] == call && NoneAfter(all, n, 24);
    assert forall i :: 0 <= i < n ==> all[i] == calls[i];
  }

  lemma EverCalledNext(calls: seq<Call>, call: Call, cmd: nat)
    ensures EverCalled(calls + [call], cmd) <==> EverCalled(calls, cmd) || call.cmd == cmd
  {
    var all := calls + [call];
    assert all[|calls|] == call;
    assert forall i :: 0 <= i < |calls| ==> all[i] == calls[i];
  }

  lemma FollowsNext(c: Config, p0: Params, p: Params, calls: seq<Call>, call: Call)
    requires Follows(c, p0, p, calls)
    ensures Follows(c, p0, if Verdict(c, call) == ResponseReady then Apply(p, call) else p, calls + [call])
  {
    var p' := if Verdict(c, call) == ResponseReady then Apply(p, call) else p;
    forall g: nat
      ensures g in p'.skipGroups <==> Marked(calls + [call], 15, 14, c.groups, g, g in p0.skipGroups)
    {
      MarkedNext(calls, call, 15, 14, c.groups, g, g in p0.skipGroups);
    }
    forall r: nat
      ensures r in p'.skipRanks <==> Marked(calls + [call], 18, 17, c.ranks, r, r in p0.skipRanks)
    {
      MarkedNext(calls, call, 18, 17, c.ranks, r, r in p0.skipRanks);
    }
    forall f: nat | 21 <= f <= 23
      ensures f in p'.flags <==> f in p0.flags || EverCalled(calls + [call], f)
    {
      EverCalledNext(calls, call, f);
    }
    NonDestructiveNext(calls, call, 24 in p0.flags);
  }

  lemma {:induction false} ReplayFollows(c: Config, p0: Params, calls: seq<Call>)
    ensures Follows(c, p0, Replay(c, p0, calls), calls)
    decreases |calls|
  {
    if calls != [] {
      var front, last := calls[..|calls| - 1], calls[|calls| - 1];
      ReplayFollows(c, p0, front);
      FollowsNext(c, p0, Replay(c, p0, front), front, last);
      assert calls == front + [last];
    }
  }

  /** In every reachable state of every interleaving the masks and flags are those the handled
    * commands call for, and every answer is the one its number and parameter call for.
    */
  lemma ParamsFollowCommands(c: Config, run: seq<State>, i: nat)
    requires IsRun(c, run) && i < |run|
    ensures Follows(c, run[0].params, run[i].params, run[i].handled)
    ensures |run[i].answers| <= |run[i].handled|
    ensures forall j :: 0 <= j < |run[i].answers| ==>
      run[i].answers[j] == if Accepted(c, run[i].handled[j]) then ResponseReady else IllegalCmd
  {
    Safety(c, run);
    assert Inv(c, run[0].params, run[i]);
    ReplayFollows(c, run[0].params, run[i].handled);
    forall j | 0 <= j < |run[i].answers|
      ensures run[i].answers[j] == if Accepted(c, run[i].handled[j]) then ResponseReady else IllegalCmd
    {
      VerdictIs(c, run[i].handled[j]);
    }
  }

  /** Firmware steps left until a pending request is answered. */
  function Distance(s: State): nat {
    match s.fw
    case Answer(_) => 1
    case Act(_) => 2
    case Check(_) => 3
    case SwitchCmd => 4
    case TestReady => 5
    case TestIllegal => 6
    case _ => 7
  }

  lemma PendingStep(c: Config, p0: Params, s: State, s': State)
    requires Inv(c, p0, s) && Pending(s) && Next(c, s, s')
    ensures s' == s || s' == FwStep(c, s)
    ensures s'.issued == s.issued
    ensures s'.fw != s.fw ==> |s'.answers| == |s.issued| || (Pending(s') && Distance(s') < Distance(s))
    ensures s'.fw == s.fw ==> s' == s
  {
  }

  /** How many steps of a run the firmware took. */
  function FwSteps(run: seq<State>): nat {
    if |run| < 2 then 0 else FwSteps(run[1..]) + if run[1].fw != run[0].fw then 1 else 0
  }

  /** However the steps interleave, a pending request is answered by the time the firmware has
    * taken seven steps.
    */
  lemma {:induction false} RequestIsAnswered(c: Config, p0: Params, run: seq<State>)
    requires |run| > 0 && Inv(c, p0, run[0]) && Pending(run[0])
    requires forall i :: 0 <= i < |run| - 1 ==> Next(c, run[i], run[i + 1])
    requires FwSteps(run) >= Distance(run[0])
    ensures exists i :: 0 <= i < |run| && |run[i].answers| == |run[0].issued|
    decreases |run|
  {
    var s, s' := run[0], run[1];
    assert Next(c, s, s');
    PendingStep(c, p0, s, s');
    if |s'.answers| != |s.issued| {
      if s' != s {
        FwKeepsInv(c, p0, s);
      }
      var rest := run[1..];
      forall i | 0 <= i < |rest| - 1
        ensures Next(c, rest[i], rest[i + 1])
      {
        var k := i + 1;
        assert Next(c, run[k], run[k + 1]);
      }
      RequestIsAnswered(c, p0, rest);
      var j :| 0 <= j < |rest| && |rest[j].answers| == |rest[0].issued|;
      assert |run[j + 1].answers| == |run[0].issued|;
    }
  }

  // ------------------------------------------------------------------ why the write order matters

  /** The firmware with the two writes that reopen the mailbox in the other order. */
  function SwappedStep(c: Config, s: State): State {
    match s.fw
    case MarkWait => s.(status := CmdReady, fw := MarkReady)
    case MarkReady => s.(cmd := WAIT_CMD, fw := TestResponse)
    case _ => FwStep(c, s)
  }

  /** With the writes swapped, a request made between them is wiped out: from the initial state four
    * host steps and two firmware steps lead to a request that the firmware polls past for ever.
    */
  lemma SwappedOrderLosesRequests(c: Config, s0: State, cmd: nat, n: nat) returns (run: seq<State>)
    requires Init(s0) && Requestable(Call(cmd, 0))
    ensures |run| == 6 && run[0] == s0
    ensures forall i :: 0 <= i < 5 ==> run[i + 1] == SwappedStep(c, run[i]) || HostStep(run[i], run[i + 1])
    ensures run[5].issued == [Taken(cmd, 0)] && run[5].host == Waiting
    ensures SwappedRun(c, run[5], n).handled == [] && SwappedRun(c, run[5], n).answers == []
  {
    var s1 := SwappedStep(c, s0);
    var s2 := s1.(host := Preparing);
    var s3 := s2.(param := 0, host := Requesting(Call(cmd, 0)));
    var s4 := s3.(cmd := cmd, issued := s3.issued + [Taken(cmd, 0)], host := Waiting);
    var s5 := SwappedStep(c, s4);
    run := [s0, s1, s2, s3, s4, s5];
    PolledForEver(c, s5, n);
  }

  function SwappedRun(c: Config, s: State, n: nat): State
    decreases n
  {
    if n == 0 then s else SwappedRun(c, SwappedStep(c, s), n - 1)
  }

  lemma {:induction false} PolledForEver(c: Config, s: State, n: nat)
    requires s.cmd == WAIT_CMD && s.status == CmdReady && s.handled == [] && s.answers == []
    requires s.fw == TestResponse || s.fw == TestIllegal || s.fw == TestReady || s.fw == SwitchCmd
    ensures SwappedRun(c, s, n).handled == [] && SwappedRun(c, s, n).answers == []
    decreases n
  {
    if n > 0 {
      PolledForEver(c, SwappedStep(c, s), n - 1);
    }
  }
}

/** The retrying OpenCores I2C master driver, over an arbitrary stream of status-register reads. */
module I2cMaster {

  /** The status bits the driver looks at. */
  datatype Sr = Sr(rxNack: bool, busy: bool, arbLost: bool, tip: bool, irq: bool)

  /** The command bits the driver sets; every command also acknowledges the interrupt. */
  datatype Cr = Cr(sta: bool, sto: bool, rd: bool, wr: bool, nack: bool)

  datatype Event = ReadSr(sr: Sr) | WriteTxr(data: nat) | WriteCr(cr: Cr) | ReadRxr(data: nat)

  datatype Option<T> = None | Some(value: T)

  const START_WRITE := Cr(true, false, false, true, false)
  const WRITE := Cr(false, false, false, true, false)
  const WRITE_STOP := Cr(false, true, false, true, false)
  const READ_STOP := Cr(false, true, true, false, true)
  const STOP := Cr(false, true, false, false, false)

  /** The transfer a command started is over. */
  predicate Settled(s: Sr) {
    !s.tip && s.irq
  }

  // ------------------------------------------------------------------ what a transaction is

  /** One command: the byte to send, if any, the command, and the acknowledge bit it must end with. */
  datatype Phase = Phase(tx: Option<nat>, cr: Cr, nackExpected: bool)

  predicate Good(p: Phase, s: Sr) {
    s.rxNack == p.nackExpected && !s.arbLost
  }

  /** Address byte: the 7-bit address and the direction bit, truncated to eight bits. */
  function AddressByte(address: nat, read: bool): nat {
    2 * address % 0x100 + if read then 1 else 0
  }

  function WritePhases(address: nat, data: nat): seq<Phase> {
    [Phase(Some(AddressByte(address, false)), START_WRITE, false), Phase(Some(data), WRITE_STOP, false)]
  }

  function WriteRegPhases(address: nat, reg: nat, data: nat): seq<Phase> {
    [Phase(Some(AddressByte(address, false)), START_WRITE, false), Phase(Some(reg), WRITE, false),
     Phase(Some(data), WRITE_STOP, false)]
  }

  function ReadPhases(address: nat): seq<Phase> {
    [Phase(Some(AddressByte(address, true)), START_WRITE, false), Phase(None, READ_STOP, true)]
  }

  function ReadRegPhases(address: nat, reg: nat): seq<Phase> {
    [Phase(Some(AddressByte(address, false)), START_WRITE, false), Phase(Some(reg), WRITE, false),
     Phase(Some(AddressByte(address, true)), START_WRITE, false), Phase(None, READ_STOP, true)]
  }

  /** Status reads until one satisfies a condition: the ones that do not, and the one that does. */
  datatype Polls = Polls(early: seq<Sr>, last: Sr)

  ghost predicate PollsSettled(p: Polls) {
    Settled(p.last) && forall s <- p.early :: !Settled(s)
  }

  /** One turn of the bus-clearing loop: a second read and, if the bus is still busy, a STOP. */
  datatype Turn = Turn(again: Sr, stop: Option<Polls>)

  /** The bus-clearing loop of an attempt: its first status read and its turns. */
  datatype Entry = Entry(first: Sr, turns: seq<Turn>)

  /** The status the loop condition sees after a turn. */
  function AfterTurn(t: Turn): Sr {
    if t.stop.Some? then t.stop.value.last else t.again
  }

  function AfterTurns(e: Entry, n: nat): Sr
    requires n <= |e.turns|
  {
    if n == 0 then e.first else AfterTurn(e.turns[n - 1])
  }

  ghost predicate TurnOk(t: Turn) {
    (t.again.busy <==> t.stop.Some?) && (t.stop.Some? ==> PollsSettled(t.stop.value))
  }

  /** Every turn so far was taken because the bus was busy. */
  ghost predicate Turning(e: Entry) {
    forall n: nat :: n < |e.turns| ==> AfterTurns(e, n).busy && TurnOk(e.turns[n])
  }

  /** The loop turns while the bus is busy, and ends on a read that says it is free. */
  ghost predicate EntryOk(e: Entry) {
    Turning(e) && !AfterTurns(e, |e.turns|).busy
  }

  lemma SameTurns(e: Entry, turn: Turn)
    requires Turning(e) && AfterTurns(e, |e.turns|).busy && TurnOk(turn)
    ensures Turning(Entry(e.first, e.turns + [turn]))
  {
    var e' := Entry(e.first, e.turns + [turn]);
    forall n: nat | n < |e'.turns|
      ensures AfterTurns(e', n).busy && TurnOk(e'.turns[n])
    {
      assert AfterTurns(e', n) == AfterTurns(e, n);
    }
  }

  lemma OneMoreTurn(e: Entry, turn: Turn)
    requires Turning(e) && AfterTurns(e, |e.turns|).busy && TurnOk(turn)
    ensures var e' := Entry(e.first, e.turns + [turn]);
      && Turning(e') && AfterTurns(e', |e'.turns|) == AfterTurn(turn)
      && EntryEvents(e') == EntryEvents(e) + TurnEvents(turn)
  {
    var e' := Entry(e.first, e.turns + [turn]);
    assert e'.turns[..|e'.turns| - 1] == e.turns;
    SameTurns(e, turn);
    Assoc([ReadSr(e.first)], TurnsEvents(e.turns), TurnEvents(turn));
  }

  /** An attempt: the bus is cleared, then phases run, each to its end. */
  datatype Attempt = Attempt(entry: Entry, ends: seq<Polls>)

  ghost predicate RunsPhases(ps: seq<Phase>, a: Attempt) {
    && EntryOk(a.entry) && |a.ends| <= |ps| && forall e <- a.ends :: PollsSettled(e)
  }

  /** Every phase ran and ended well. */
  ghost predicate Succeeded(ps: seq<Phase>, a: Attempt) {
    && RunsPhases(ps, a) && |a.ends| == |ps|
    && forall i :: 0 <= i < |ps| ==> Good(ps[i], a.ends[i].last)
  }

  /** The last phase that ran ended badly, the ones before it ended well. */
  ghost predicate Abandoned(ps: seq<Phase>, a: Attempt) {
    && RunsPhases(ps, a) && |a.ends| > 0 && !Good(ps[|a.ends| - 1], a.ends[|a.ends| - 1].last)
    && forall i :: 0 <= i < |a.ends| - 1 ==> Good(ps[i], a.ends[i].last)
  }

  /** The first `n` phases ran and ended well. */
  ghost predicate AllGood(ps: seq<Phase>, a: Attempt, n: nat) {
    && RunsPhases(ps, a) && |a.ends| == n <= |ps|
    && forall i :: 0 <= i < n ==> Good(ps[i], a.ends[i].last)
  }

  lemma OneMorePhase(ps: seq<Phase>, a: Attempt, n: nat, end: Polls)
    requires AllGood(ps, a, n) && n < |ps| && PollsSettled(end)
    ensures var a' := Attempt(a.entry, a.ends + [end]);
      if Good(ps[n], end.last) then AllGood(ps, a', n + 1) else Abandoned(ps, a')
    ensures PhasesEvents(ps, a.ends + [end]) == PhasesEvents(ps, a.ends) + PhaseEvents(ps[n], end)
  {
    OneMoreEvents(ps, a.ends, end);
    var ends := a.ends + [end];
    forall i | 0 <= i < n
      ensures Good(ps[i], ends[i].last)
    {
      assert ends[i] == a.ends[i];
    }
    assert ends[n] == end;
  }

  lemma OneMoreEvents(ps: seq<Phase>, ends: seq<Polls>, end: Polls)
    requires |ends| < |ps|
    ensures PhasesEvents(ps, ends + [end]) == PhasesEvents(ps, ends) + PhaseEvents(ps[|ends|], end)
  {
    assert (ends + [end])[..|ends + [end]| - 1] == ends;
  }

  /** A whole call: the initial wait, the abandoned attempts, and the one that succeeded. */
  datatype Transaction = Transaction(idle: Polls, failed: seq<Attempt>, last: Attempt)

  ghost predicate TransactionOk(ps: seq<Phase>, t: Transaction) {
    && !t.idle.last.tip && (forall s <- t.idle.early :: s.tip)
    && (forall a <- t.failed :: Abandoned(ps, a))
    && Succeeded(ps, t.last)
  }

  // ------------------------------------------------------------------ as register accesses

  function Reads(ss: seq<Sr>): (r: seq<Event>)
    ensures |r| == |ss| && forall i :: 0 <= i < |ss| ==> r[i] == ReadSr(ss[i])
  {
    seq(|ss|, i requires 0 <= i < |ss| => ReadSr(ss[i]))
  }

  function PollEvents(p: Polls): seq<Event> {
    Reads(p.early) + [ReadSr(p.last)]
  }

  function PhaseEvents(p: Phase, end: Polls): seq<Event> {
    (if p.tx.Some? then [WriteTxr(p.tx.value)] else []) + [WriteCr(p.cr)] + PollEvents(end)
  }

  function TurnEvents(t: Turn): seq<Event> {
    [ReadSr(t.again)] + if t.stop.Some? then [WriteCr(STOP)] + PollEvents(t.stop.value) else []
  }

  function TurnsEvents(ts: seq<Turn>): seq<Event> {
    if ts == [] then [] else TurnsEvents(ts[..|ts| - 1]) + TurnEvents(ts[|ts| - 1])
  }

  function PhasesEvents(ps: seq<Phase>, ends: seq<Polls>): seq<Event>
    requires |ends| <= |ps|
    decreases |ends|
  {
    if ends == [] then [] else PhasesEvents(ps, ends[..|ends| - 1]) + PhaseEvents(ps[|ends| - 1], ends[|ends| - 1])
  }

  function EntryEvents(e: Entry): seq<Event> {
    [ReadSr(e.first)] + TurnsEvents(e.turns)
  }

  function AttemptEvents(ps: seq<Phase>, a: Attempt): seq<Event>
    requires |a.ends| <= |ps|
  {
    EntryEvents(a.entry) + PhasesEvents(ps, a.ends)
  }

  lemma Assoc(a: seq<Event>, b: seq<Event>, c: seq<Event>)
    ensures (a + b) + c == a + (b + c)
  {
  }

  ghost function AttemptsEvents(ps: seq<Phase>, as_: seq<Attempt>): seq<Event>
    requires forall a <- as_ :: Abandoned(ps, a)
  {
    if as_ == [] then []
    else
      assert Abandoned(ps, as_[|as_| - 1]);
      AttemptsEvents(ps, as_[..|as_| - 1]) + AttemptEvents(ps, as_[|as_| - 1])
  }

  ghost function TransactionEvents(ps: seq<Phase>, t: Transaction): seq<Event>
    requires TransactionOk(ps, t)
  {
    PollEvents(t.idle) + AttemptsEvents(ps, t.failed) + AttemptEvents(ps, t.last)
  }

  /** Turns of all the bus-clearing loops of a call. */
  ghost function BusyTurns(as_: seq<Attempt>): nat {
    if as_ == [] then 0 else BusyTurns(as_[..|as_| - 1]) + |as_[|as_| - 1].entry.turns|
  }

  lemma OneMoreAttempt(ps: seq<Phase>, as_: seq<Attempt>, a: Attempt)
    requires (forall b <- as_ :: Abandoned(ps, b)) && Abandoned(ps, a)
    ensures forall b <- as_ + [a] :: Abandoned(ps, b)
    ensures AttemptsEvents(ps, as_ + [a]) == AttemptsEvents(ps, as_) + AttemptEvents(ps, a)
    ensures BusyTurns(as_ + [a]) == BusyTurns(as_) + |a.entry.turns|
  {
    assert (as_ + [a])[..|as_|] == as_;
  }

  // ------------------------------------------------------------------ as status reads

  /** The status reads among register accesses, in order. */
  function Statuses(w: seq<Event>): seq<Sr> {
    if w == [] then []
    else Statuses(w[..|w| - 1]) + if w[|w| - 1].ReadSr? then [w[|w| - 1].sr] else []
  }

  lemma StatusesNext(w: seq<Event>, e: Event)
    ensures Statuses(w + [e]) == Statuses(w) + if e.ReadSr? then [e.sr] else []
  {
    assert (w + [e])[..|w|] == w;
  }

  lemma {:induction false} StatusesBoth(a: seq<Event>, b: seq<Event>)
    ensures Statuses(a + b) == Statuses(a) + Statuses(b)
    decreases |b|
  {
    if b == [] {
      assert a + b == a;
    } else {
      var front := b[..|b| - 1];
      assert (a + b)[..|a + b| - 1] == a + front;
      StatusesBoth(a, front);
    }
  }

  function PollWord(p: Polls): seq<Sr> {
    p.early + [p.last]
  }

  function TurnWord(t: Turn): seq<Sr> {
    [t.again] + if t.stop.Some? then PollWord(t.stop.value) else []
  }

  /** The words of a sequence of things, one after the other. */
  ghost function Flat<T>(word: T -> seq<Sr>, xs: seq<T>): seq<Sr> {
    if xs == [] then [] else word(xs[0]) + Flat(word, xs[1..])
  }

  ghost function EntryWord(e: Entry): seq<Sr> {
    [e.first] + Flat(TurnWord, e.turns)
  }

  ghost function AttemptWord(a: Attempt): seq<Sr> {
    EntryWord(a.entry) + Flat(PollWord, a.ends)
  }

  ghost function TransactionWord(t: Transaction): seq<Sr> {
    PollWord(t.idle) + Flat(AttemptWord, t.failed + [t.last])
  }

  lemma {:induction false} FlatNext<T>(word: T -> seq<Sr>, xs: seq<T>, x: T)
    ensures Flat(word, xs + [x]) == Flat(word, xs) + word(x)
  {
    if xs == [] {
      assert [x][1..] == [];
    } else {
      assert (xs + [x])[1..] == xs[1..] + [x];
      FlatNext(word, xs[1..], x);
    }
  }

  lemma {:induction false} StatusesOfReads(ss: seq<Sr>)
    ensures Statuses(Reads(ss)) == ss
  {
    if ss != [] {
      StatusesOfReads(ss[..|ss| - 1]);
      assert Reads(ss) == Reads(ss[..|ss| - 1]) + [ReadSr(ss[|ss| - 1])];
      StatusesNext(Reads(ss[..|ss| - 1]), ReadSr(ss[|ss| - 1]));
    }
  }

  lemma StatusesOfPolls(p: Polls)
    ensures Statuses(PollEvents(p)) == PollWord(p)
  {
    StatusesOfReads(p.early);
    StatusesNext(Reads(p.early), ReadSr(p.last));
  }

  lemma StatusesOfPhase(p: Phase, end: Polls)
    ensures Statuses(PhaseEvents(p, end)) == PollWord(end)
  {
    var tx: seq<Event> := if p.tx.Some? then [WriteTxr(p.tx.value)] else [];
    StatusesNext([], WriteTxr(0));
    StatusesNext(tx, WriteCr(p.cr));
    StatusesBoth(tx + [WriteCr(p.cr)], PollEvents(end));
    StatusesOfPolls(end);
  }

  lemma StatusesOfTurn(t: Turn)
    ensures Statuses(TurnEvents(t)) == TurnWord(t)
  {
    assert Statuses([ReadSr(t.again)]) == [t.again];
    if t.stop.Some? {
      StatusesBoth([ReadSr(t.again)], [WriteCr(STOP)] + PollEvents(t.stop.value));
      StatusesBoth([WriteCr(STOP)], PollEvents(t.stop.value));
      StatusesOfPolls(t.stop.value);
    }
  }

  lemma {:induction false} StatusesOfTurns(ts: seq<Turn>)
    ensures Statuses(TurnsEvents(ts)) == Flat(TurnWord, ts)
  {
    if ts != [] {
      var front, last := ts[..|ts| - 1], ts[|ts| - 1];
      StatusesOfTurns(front);
      StatusesOfTurn(last);
      StatusesBoth(TurnsEvents(front), TurnEvents(last));
      FlatNext(TurnWord, front, last);
      assert ts == front + [last];
    }
  }

  lemma {:induction false} StatusesOfPhases(ps: seq<Phase>, ends: seq<Polls>)
    requires |ends| <= |ps|
    ensures Statuses(PhasesEvents(ps, ends)) == Flat(PollWord, ends)
    decreases |ends|
  {
    if ends != [] {
      var front, last := ends[..|ends| - 1], ends[|ends| - 1];
      StatusesOfPhases(ps, front);
      StatusesOfPhase(ps[|ends| - 1], last);
      StatusesBoth(PhasesEvents(ps, front), PhaseEvents(ps[|ends| - 1], last));
      FlatNext(PollWord, front, last);
      assert ends == front + [last];
    }
  }

  lemma StatusesOfAttempt(ps: seq<Phase>, a: Attempt)
    requires |a.ends| <= |ps|
    ensures Statuses(AttemptEvents(ps, a)) == AttemptWord(a)
  {
    StatusesBoth(EntryEvents(a.entry), PhasesEvents(ps, a.ends));
    StatusesBoth([ReadSr(a.entry.first)], TurnsEvents(a.entry.turns));
    assert Statuses([ReadSr(a.entry.first)]) == [a.entry.first];
    StatusesOfTurns(a.entry.turns);
    StatusesOfPhases(ps, a.ends);
  }

  lemma {:induction false} StatusesOfAttempts(ps: seq<Phase>, as_: seq<Attempt>)
    requires forall a <- as_ :: Abandoned(ps, a)
    ensures Statuses(AttemptsEvents(ps, as_)) == Flat(AttemptWord, as_)
    decreases |as_|
  {
    if as_ != [] {
      var front, last := as_[..|as_| - 1], as_[|as_| - 1];
      assert Abandoned(ps, last);
      StatusesOfAttempts(ps, front);
      StatusesOfAttempt(ps, last);
      StatusesBoth(AttemptsEvents(ps, front), AttemptEvents(ps, last));
      FlatNext(AttemptWord, front, last);
      assert as_ == front + [last];
    }
  }

  lemma StatusesOfThree(a: seq<Event>, b: seq<Event>, c: seq<Event>)
    ensures Statuses(a + b + c) == Statuses(a) + (Statuses(b) + Statuses(c))
  {
    StatusesBoth(a + b, c);
    StatusesBoth(a, b);
    AssocWords(Statuses(a), Statuses(b), Statuses(c));
  }

  lemma StatusesOfTransaction(ps: seq<Phase>, t: Transaction)
    requires TransactionOk(ps, t)
    ensures Statuses(TransactionEvents(ps, t)) == TransactionWord(t)
  {
    StatusesOfThree(PollEvents(t.idle), AttemptsEvents(ps, t.failed), AttemptEvents(ps, t.last));
    StatusesOfPolls(t.idle);
    StatusesOfAttempts(ps, t.failed);
    StatusesOfAttempt(ps, t.last);
    FlatNext(AttemptWord, t.failed, t.last);
  }

  // ------------------------------------------------------------------ the stream decides

  /** No word is the beginning of another. */
  ghost predicate PrefixFree<T(!new)>(word: T -> seq<Sr>, ok: T -> bool) {
    forall a, b :: ok(a) && ok(b) && word(a) <= word(b) ==> a == b
  }

  lemma OneOfTwo(a: seq<Sr>, b: seq<Sr>, s: seq<Sr>)
    requires a <= s && b <= s
    ensures a <= b || b <= a
  {
  }

  /** Two sequences of words that a stream starts with agree as far as both go. */
  lemma {:induction false} CommonStart<T(!new)>(word: T -> seq<Sr>, ok: T -> bool, xs: seq<T>, ys: seq<T>, s: seq<Sr>)
    requires PrefixFree(word, ok) && (forall x <- xs :: ok(x)) && (forall y <- ys :: ok(y))
    requires Flat(word, xs) <= s && Flat(word, ys) <= s && |xs| <= |ys|
    ensures xs <= ys
  {
    if xs != [] {
      var x, y := xs[0], ys[0];
      assert ok(x) && ok(y);
      StartOfRest(word(x), Flat(word, xs[1..]), s);
      StartOfRest(word(y), Flat(word, ys[1..]), s);
      OneOfTwo(word(x), word(y), s);
      CommonStart(word, ok, xs[1..], ys[1..], s[|word(x)|..]);
      assert xs == [x] + xs[1..] && ys == [y] + ys[1..];
    }
  }

  lemma {:induction false} FlatSplit<T>(word: T -> seq<Sr>, ys: seq<T>, n: nat)
    requires n <= |ys|
    ensures Flat(word, ys) == Flat(word, ys[..n]) + Flat(word, ys[n..])
  {
    if n == 0 {
      assert ys[0..] == ys;
    } else {
      FlatSplit(word, ys[1..], n - 1);
      assert ys[1..][..n - 1] == ys[..n][1..] && ys[1..][n - 1..] == ys[n..];
      AssocWords(word(ys[0]), Flat(word, ys[..n][1..]), Flat(word, ys[n..]));
    }
  }

  lemma FlatOfStart<T>(word: T -> seq<Sr>, xs: seq<T>, ys: seq<T>)
    requires xs <= ys
    ensures Flat(word, ys) == Flat(word, xs) + Flat(word, ys[|xs|..])
  {
    FlatSplit(word, ys, |xs|);
    assert ys[..|xs|] == xs;
  }

  lemma StartOfRest(a: seq<Sr>, b: seq<Sr>, s: seq<Sr>)
    requires a + b <= s
    ensures a <= s && b <= s[|a|..]
  {
    assert (a + b)[|a|..] == b;
    assert s[..|a + b|] == a + b;
    assert s[|a|..][..|b|] == s[|a|..|a| + |b|] == b;
  }

  lemma PollsArePrefixFree()
    ensures PrefixFree(PollWord, PollsSettled)
  {
    forall a, b | PollsSettled(a) && PollsSettled(b) && PollWord(a) <= PollWord(b)
      ensures a == b
    {
      assert PollWord(b)[|a.early|] == PollWord(a)[|a.early|] == a.last;
      assert |a.early| >= |b.early|;
      assert a.early == PollWord(a)[..|a.early|] == PollWord(b)[..|b.early|] == b.early;
    }
  }

  lemma TurnsArePrefixFree()
    ensures PrefixFree(TurnWord, TurnOk)
  {
    PollsArePrefixFree();
    forall a, b | TurnOk(a) && TurnOk(b) && TurnWord(a) <= TurnWord(b)
      ensures a == b
    {
      assert TurnWord(a)[0] == a.again && TurnWord(b)[0] == b.again;
      if a.stop.Some? {
        assert TurnWord(a)[1..] == PollWord(a.stop.value) && TurnWord(b)[1..] == PollWord(b.stop.value);
        assert PollWord(a.stop.value) <= PollWord(b.stop.value);
      }
    }
  }

  /** A bus-clearing loop turns until it is over, and no further. */
  lemma TurnsUntilOver(e: Entry, e': Entry)
    requires Turning(e) && Turning(e') && e.first == e'.first
    requires EntryOk(e') && |e'.turns| < |e.turns|
    ensures !(e'.turns <= e.turns)
  {
    if e'.turns <= e.turns {
      SameAfterTurns(e', e, |e'.turns|);
      assert false;
    }
  }

  lemma EntryParts(e: Entry, s: seq<Sr>)
    requires Turning(e) && EntryWord(e) <= s
    ensures s != [] && s[0] == e.first && Flat(TurnWord, e.turns) <= s[1..]
    ensures forall t <- e.turns :: TurnOk(t)
  {
    TurnsAreOk(e);
    assert EntryWord(e)[0] == e.first;
    StartOfRest([e.first], Flat(TurnWord, e.turns), s);
  }

  /** The turns of a bus-clearing loop that is not over begin those of one that is. */
  lemma EntryBegins(e: Entry, e': Entry, s: seq<Sr>)
    requires Turning(e) && EntryOk(e') && EntryWord(e) <= s && EntryWord(e') <= s
    requires AfterTurns(e, |e.turns|).busy
    ensures |e.turns| < |e'.turns| && e.turns <= e'.turns
    ensures EntryWord(e') == EntryWord(e) + Flat(TurnWord, e'.turns[|e.turns|..])
  {
    TurnsArePrefixFree();
    EntryParts(e, s);
    EntryParts(e', s);
    if |e'.turns| < |e.turns| {
      CommonStart(TurnWord, TurnOk, e'.turns, e.turns, s[1..]);
      TurnsUntilOver(e, e');
    } else {
      CommonStart(TurnWord, TurnOk, e.turns, e'.turns, s[1..]);
      SameAfterTurns(e, e', |e.turns|);
      assert |e.turns| != |e'.turns|;
      FlatOfStart(TurnWord, e.turns, e'.turns);
      AssocWords([e.first], Flat(TurnWord, e.turns), Flat(TurnWord, e'.turns[|e.turns|..]));
    }
  }

  lemma AssocWords(a: seq<Sr>, b: seq<Sr>, c: seq<Sr>)
    ensures (a + b) + c == a + (b + c)
  {
  }

  lemma EntryWordNext(e: Entry, turn: Turn, rest: seq<Sr>)
    ensures EntryWord(e) + (TurnWord(turn) + rest) == EntryWord(Entry(e.first, e.turns + [turn])) + rest
  {
    FlatNext(TurnWord, e.turns, turn);
    AssocWords([e.first], Flat(TurnWord, e.turns), TurnWord(turn));
    AssocWords(EntryWord(e), TurnWord(turn), rest);
  }

  lemma EntryIsUnique(e: Entry, e': Entry, s: seq<Sr>)
    requires EntryOk(e) && EntryOk(e') && EntryWord(e) <= s && EntryWord(e') <= s
    ensures e == e'
  {
    TurnsArePrefixFree();
    EntryParts(e, s);
    EntryParts(e', s);
    if |e.turns| <= |e'.turns| {
      CommonStart(TurnWord, TurnOk, e.turns, e'.turns, s[1..]);
      if |e.turns| < |e'.turns| {
        TurnsUntilOver(e', e);
      }
    } else {
      CommonStart(TurnWord, TurnOk, e'.turns, e.turns, s[1..]);
      TurnsUntilOver(e, e');
    }
  }

  lemma TurnsAreOk(e: Entry)
    requires Turning(e)
    ensures forall t <- e.turns :: TurnOk(t)
  {
    forall t | t in e.turns
      ensures TurnOk(t)
    {
      var n: nat :| n < |e.turns| && e.turns[n] == t;
      assert AfterTurns(e, n).busy && TurnOk(e.turns[n]);
    }
  }

  lemma SameAfterTurns(e: Entry, e': Entry, n: nat)
    requires e.first == e'.first && n <= |e.turns| && e.turns <= e'.turns
    ensures AfterTurns(e, n) == AfterTurns(e', n)
  {
  }

  /** An attempt that came to its end, good or bad. */
  ghost predicate Finished(ps: seq<Phase>, a: Attempt) {
    Succeeded(ps, a) || Abandoned(ps, a)
  }

  ghost function FinishedFor(ps: seq<Phase>): Attempt -> bool {
    a => Finished(ps, a)
  }

  /** Phases that all ended well begin those of any attempt that came to its end. */
  lemma PhasesBegin(ps: seq<Phase>, a: Attempt, b: Attempt, s: seq<Sr>)
    requires AllGood(ps, a, |a.ends|) && |a.ends| < |ps| && Finished(ps, b)
    requires Flat(PollWord, a.ends) <= s && Flat(PollWord, b.ends) <= s
    ensures |a.ends| < |b.ends| && Flat(PollWord, b.ends) == Flat(PollWord, a.ends) + Flat(PollWord, b.ends[|a.ends|..])
  {
    PollsArePrefixFree();
    if |b.ends| <= |a.ends| {
      CommonStart(PollWord, PollsSettled, b.ends, a.ends, s);
      assert false;
    } else {
      CommonStart(PollWord, PollsSettled, a.ends, b.ends, s);
      FlatOfStart(PollWord, a.ends, b.ends);
    }
  }

  lemma SamePhases(ps: seq<Phase>, a: Attempt, b: Attempt, s: seq<Sr>)
    requires Finished(ps, a) && Finished(ps, b) && |a.ends| <= |b.ends|
    requires Flat(PollWord, a.ends) <= s && Flat(PollWord, b.ends) <= s
    ensures a.ends == b.ends
  {
    PollsArePrefixFree();
    CommonStart(PollWord, PollsSettled, a.ends, b.ends, s);
    if |a.ends| < |b.ends| {
      assert false;
    }
  }

  lemma AttemptsArePrefixFree(ps: seq<Phase>)
    ensures PrefixFree(AttemptWord, FinishedFor(ps))
  {
    forall a, b | Finished(ps, a) && Finished(ps, b) && AttemptWord(a) <= AttemptWord(b)
      ensures a == b
    {
      AttemptIsUnique(ps, a, b, AttemptWord(b));
    }
  }

  lemma AttemptIsUnique(ps: seq<Phase>, a: Attempt, b: Attempt, s: seq<Sr>)
    requires Finished(ps, a) && Finished(ps, b) && AttemptWord(a) <= s && AttemptWord(b) <= s
    ensures a == b
  {
    StartOfRest(EntryWord(a.entry), Flat(PollWord, a.ends), s);
    StartOfRest(EntryWord(b.entry), Flat(PollWord, b.ends), s);
    EntryIsUnique(a.entry, b.entry, s);
    var rest := s[|EntryWord(a.entry)|..];
    if |a.ends| <= |b.ends| {
      SamePhases(ps, a, b, rest);
    } else {
      SamePhases(ps, b, a, rest);
    }
  }

  ghost predicate IdlePolls(p: Polls) {
    !p.last.tip && forall s <- p.early :: s.tip
  }

  lemma IdleIsUnique(a: Polls, b: Polls, s: seq<Sr>)
    requires IdlePolls(a) && IdlePolls(b) && PollWord(a) <= s && PollWord(b) <= s
    ensures a == b
  {
    assert s[|a.early|] == PollWord(a)[|a.early|] && s[|b.early|] == PollWord(b)[|b.early|];
    assert |a.early| == |b.early|;
    assert a.early == PollWord(a)[..|a.early|] == s[..|a.early|] == PollWord(b)[..|b.early|] == b.early;
  }

  /** A call that is still trying has tried what any call on the same stream tries first. */
  lemma CallBegins(ps: seq<Phase>, idle: Polls, failed: seq<Attempt>, t: Transaction, s: seq<Sr>)
    requires IdlePolls(idle) && (forall a <- failed :: Abandoned(ps, a)) && TransactionOk(ps, t)
    requires PollWord(idle) + Flat(AttemptWord, failed) <= s && TransactionWord(t) <= s
    ensures idle == t.idle && |failed| <= |t.failed| && failed <= t.failed + [t.last]
    ensures Flat(AttemptWord, t.failed + [t.last])
         == Flat(AttemptWord, failed) + Flat(AttemptWord, (t.failed + [t.last])[|failed|..])
  {
    StartOfRest(PollWord(idle), Flat(AttemptWord, failed), s);
    StartOfRest(PollWord(t.idle), Flat(AttemptWord, t.failed + [t.last]), s);
    IdleIsUnique(idle, t.idle, s);
    FailedBegin(ps, failed, t, s[|PollWord(idle)|..]);
    FlatOfStart(AttemptWord, failed, t.failed + [t.last]);
  }

  lemma FailedBegin(ps: seq<Phase>, failed: seq<Attempt>, t: Transaction, s: seq<Sr>)
    requires (forall a <- failed :: Abandoned(ps, a)) && TransactionOk(ps, t)
    requires Flat(AttemptWord, failed) <= s && Flat(AttemptWord, t.failed + [t.last]) <= s
    ensures |failed| <= |t.failed| && failed <= t.failed + [t.last]
  {
    var all := t.failed + [t.last];
    AttemptsArePrefixFree(ps);
    AreFinished(ps, failed, t);
    if |all| <= |failed| {
      CommonStart(AttemptWord, FinishedFor(ps), all, failed, s);
      LastIsNotFailed(ps, failed, t);
    } else {
      CommonStart(AttemptWord, FinishedFor(ps), failed, all, s);
    }
  }

  lemma AreFinished(ps: seq<Phase>, failed: seq<Attempt>, t: Transaction)
    requires (forall a <- failed :: Abandoned(ps, a)) && TransactionOk(ps, t)
    ensures (forall a <- failed :: FinishedFor(ps)(a)) && forall a <- t.failed + [t.last] :: FinishedFor(ps)(a)
  {
  }

  lemma LastIsNotFailed(ps: seq<Phase>, failed: seq<Attempt>, t: Transaction)
    requires (forall a <- failed :: Abandoned(ps, a)) && TransactionOk(ps, t)
    ensures !(t.failed + [t.last] <= failed)
  {
    var all, n := t.failed + [t.last], |t.failed|;
    NotAbandoned(ps, t.last);
    assert all[n] == t.last;
    if all <= failed {
      assert false;
    }
  }

  lemma NotAbandoned(ps: seq<Phase>, a: Attempt)
    requires Succeeded(ps, a)
    ensures !Abandoned(ps, a)
  {
  }

  /** The stream holds all the answers a call needs. */
  ghost predicate Completes(ps: seq<Phase>, status: seq<Sr>) {
    exists t :: TransactionOk(ps, t) && Statuses(TransactionEvents(ps, t)) <= status
  }

  /** What a call does is decided by the stream of status reads. */
  lemma CallIsDecided(ps: seq<Phase>, a: Transaction, b: Transaction, status: seq<Sr>)
    requires TransactionOk(ps, a) && Statuses(TransactionEvents(ps, a)) <= status
    requires TransactionOk(ps, b) && Statuses(TransactionEvents(ps, b)) <= status
    ensures a == b
  {
    StatusesOfTransaction(ps, a);
    StatusesOfTransaction(ps, b);
    if |a.failed| <= |b.failed| {
      SameCall(ps, a, b, status);
    } else {
      SameCall(ps, b, a, status);
    }
  }

  lemma SameCall(ps: seq<Phase>, a: Transaction, b: Transaction, s: seq<Sr>)
    requires TransactionOk(ps, a) && TransactionOk(ps, b) && |a.failed| <= |b.failed|
    requires TransactionWord(a) <= s && TransactionWord(b) <= s
    ensures a == b
  {
    var xs, ys := a.failed + [a.last], b.failed + [b.last];
    StartOfRest(PollWord(a.idle), Flat(AttemptWord, xs), s);
    StartOfRest(PollWord(b.idle), Flat(AttemptWord, ys), s);
    IdleIsUnique(a.idle, b.idle, s);
    AttemptsArePrefixFree(ps);
    CommonStart(AttemptWord, FinishedFor(ps), xs, ys, s[|PollWord(a.idle)|..]);
    NotAbandoned(ps, a.last);
    assert a.last == xs[|a.failed|] == ys[|a.failed|];
    assert |a.failed| == |b.failed|;
    assert a.failed == xs[..|a.failed|] == ys[..|b.failed|] == b.failed;
  }

  // ------------------------------------------------------------------ streams that run out

  ghost predicate NoneSettled(s: seq<Sr>) {
    forall x <- s :: !Settled(x)
  }

  ghost predicate NoTurn(s: seq<Sr>) {
    forall t :: TurnOk(t) ==> !(TurnWord(t) <= s)
  }

  ghost predicate NoEntry(s: seq<Sr>) {
    forall e :: EntryOk(e) ==> !(EntryWord(e) <= s)
  }

  /** No attempt that starts with this bus-clearing loop comes to its end on the rest of the stream. */
  ghost predicate NoPhases(ps: seq<Phase>, e: Entry, s: seq<Sr>) {
    forall a :: Finished(ps, a) && a.entry == e ==> !(Flat(PollWord, a.ends) <= s)
  }

  ghost predicate NoAttempt(ps: seq<Phase>, s: seq<Sr>) {
    forall a :: Finished(ps, a) ==> !(AttemptWord(a) <= s)
  }

  lemma PollsNeedSettled(p: Polls, s: seq<Sr>)
    requires NoneSettled(s) && PollsSettled(p)
    ensures !(PollWord(p) <= s)
  {
    assert PollWord(p)[|p.early|] == p.last;
    if PollWord(p) <= s {
      assert false;
    }
  }

  lemma TurnRunsOut(temp: Sr, rest: seq<Sr>)
    requires temp.busy && NoneSettled(rest)
    ensures NoTurn([temp] + rest)
  {
    forall t | TurnOk(t)
      ensures !(TurnWord(t) <= [temp] + rest)
    {
      assert TurnWord(t)[0] == t.again;
      if t.stop.Some? && TurnWord(t) <= [temp] + rest {
        StartOfRest([t.again], PollWord(t.stop.value), [temp] + rest);
        assert ([temp] + rest)[1..] == rest;
        PollsNeedSettled(t.stop.value, rest);
      }
    }
  }

  /** What follows a common beginning is a beginning of what is left. */
  lemma StartOfLeft(a: seq<Sr>, b: seq<Sr>, rest: seq<Sr>)
    requires a + b <= a + rest
    ensures b <= rest
  {
    StartOfRest(a, b, a + rest);
    assert (a + rest)[|a|..] == rest;
  }

  lemma EntryRunsOut(e: Entry, rest: seq<Sr>)
    requires Turning(e) && AfterTurns(e, |e.turns|).busy && NoTurn(rest)
    ensures NoEntry(EntryWord(e) + rest)
  {
    var s := EntryWord(e) + rest;
    forall e' | EntryOk(e')
      ensures !(EntryWord(e') <= s)
    {
      if EntryWord(e') <= s {
        EntryBegins(e, e', s);
        var more := e'.turns[|e.turns|..];
        StartOfLeft(EntryWord(e), Flat(TurnWord, more), rest);
        StartOfRest(TurnWord(more[0]), Flat(TurnWord, more[1..]), rest);
        TurnsAreOk(e');
      }
    }
  }

  lemma PhasesRunOut(ps: seq<Phase>, a: Attempt, rest: seq<Sr>)
    requires AllGood(ps, a, |a.ends|) && |a.ends| < |ps| && NoneSettled(rest)
    ensures NoPhases(ps, a.entry, Flat(PollWord, a.ends) + rest)
  {
    var s := Flat(PollWord, a.ends) + rest;
    forall b | Finished(ps, b) && b.entry == a.entry
      ensures !(Flat(PollWord, b.ends) <= s)
    {
      if Flat(PollWord, b.ends) <= s {
        PhasesBegin(ps, a, b, s);
        var more := b.ends[|a.ends|..];
        StartOfLeft(Flat(PollWord, a.ends), Flat(PollWord, more), rest);
        StartOfRest(PollWord(more[0]), Flat(PollWord, more[1..]), rest);
        assert more[0] in b.ends;
        PollsNeedSettled(more[0], rest);
      }
    }
  }

  lemma AttemptRunsOut(ps: seq<Phase>, e: Entry, s: seq<Sr>, rest: seq<Sr>)
    requires NoEntry(s) || (EntryOk(e) && s == EntryWord(e) + rest && NoPhases(ps, e, rest))
    ensures NoAttempt(ps, s)
  {
    forall a | Finished(ps, a)
      ensures !(AttemptWord(a) <= s)
    {
      if AttemptWord(a) <= s {
        StartOfRest(EntryWord(a.entry), Flat(PollWord, a.ends), s);
        assert !NoEntry(s);
        EntryIsUnique(a.entry, e, s);
        StartOfLeft(EntryWord(e), Flat(PollWord, a.ends), rest);
      }
    }
  }

  lemma IdleRunsOut(ps: seq<Phase>, s: seq<Sr>)
    requires forall x <- s :: x.tip
    ensures !Completes(ps, s)
  {
    if t :| TransactionOk(ps, t) && Statuses(TransactionEvents(ps, t)) <= s {
      StatusesOfTransaction(ps, t);
      assert PollWord(t.idle)[|t.idle.early|] == t.idle.last;
      StartOfRest(PollWord(t.idle), Flat(AttemptWord, t.failed + [t.last]), s);
      assert false;
    }
  }

  lemma CallRunsOut(ps: seq<Phase>, idle: Polls, failed: seq<Attempt>, rest: seq<Sr>)
    requires IdlePolls(idle) && (forall a <- failed :: Abandoned(ps, a)) && NoAttempt(ps, rest)
    ensures !Completes(ps, PollWord(idle) + Flat(AttemptWord, failed) + rest)
  {
    var begun := PollWord(idle) + Flat(AttemptWord, failed);
    var s := begun + rest;
    if t :| TransactionOk(ps, t) && Statuses(TransactionEvents(ps, t)) <= s {
      StatusesOfTransaction(ps, t);
      CallBegins(ps, idle, failed, t, s);
      var all := t.failed + [t.last];
      var more := all[|failed|..];
      AssocWords(PollWord(idle), Flat(AttemptWord, failed), Flat(AttemptWord, more));
      StartOfLeft(begun, Flat(AttemptWord, more), rest);
      StartOfRest(AttemptWord(more[0]), Flat(AttemptWord, more[1..]), rest);
      AreFinished(ps, failed, t);
      assert false;
    }
  }

  /** A log that has grown by `tail` accounts for the reads taken off the stream. */
  lemma ReadsAccountedFor(log: seq<Event>, tail: seq<Event>, status: seq<Sr>, was: seq<Sr>)
    requires Statuses(log + tail) + status == Statuses(log) + was
    ensures Statuses(tail) + status == was
  {
    StatusesBoth(log, tail);
    AssocWords(Statuses(log), Statuses(tail), status);
    assert (Statuses(log) + was)[|Statuses(log)|..] == was;
    assert (Statuses(log) + (Statuses(tail) + status))[|Statuses(log)|..] == Statuses(tail) + status;
  }

  lemma TailNext(log: seq<Event>, n: nat, e: Event)
    requires n <= |log| && !e.ReadSr?
    ensures Statuses((log + [e])[n..]) == Statuses(log[n..])
  {
    StatusesNext(log[n..], e);
    assert (log + [e])[n..] == log[n..] + [e];
  }

  // ------------------------------------------------------------------ the driver

  class Device {
    /** Status reads still to come; the driver has not returned if it wants more than there are. */
    var status: seq<Sr>
    var received: nat
    var log: seq<Event>
    var busyOnEntry: nat
    var badCycleTerm: nat

    constructor (status: seq<Sr>, received: nat)
      ensures this.status == status && this.received == received
      ensures log == [] && busyOnEntry == 0 && badCycleTerm == 0
    {
      this.status, this.received, log, busyOnEntry, badCycleTerm := status, received, [], 0, 0;
    }

    /** The status reads made so far and those still to come. */
    ghost function Stream(): seq<Sr>
      reads this
    {
      Statuses(log) + status
    }

    method ReadStatus() returns (ok: bool, s: Sr)
      modifies `status, `log
      ensures old(log) <= log && Stream() == old(Stream())
      ensures ok <==> old(status) != []
      ensures ok ==> s == old(status)[0] && status == old(status)[1..] && log == old(log) + [ReadSr(s)]
      ensures !ok ==> log == old(log) && status == old(status)
    {
      if status == [] {
        return false, Sr(false, false, false, false, false);
      }
      s := status[0];
      StatusesNext(log, ReadSr(s));
      assert [s] + status[1..] == status;
      AssocWords(Statuses(log), [s], status[1..]);
      status := status[1..];
      log := log + [ReadSr(s)];
      ok := true;
    }

    /** An access to one of the other registers. */
    method Access(e: Event)
      requires !e.ReadSr?
      modifies `log
      ensures log == old(log) + [e] && Stream() == old(Stream())
    {
      StatusesNext(log, e);
      log := log + [e];
    }

    /** do { read } while (TIP || !IF). */
    method PollSettled() returns (ok: bool, last: Sr, ghost p: Polls)
      modifies `status, `log
      ensures old(log) <= log && Stream() == old(Stream())
      ensures ok ==> p.last == last && PollsSettled(p) && log == old(log) + PollEvents(p)
      ensures ok ==> old(status) == PollWord(p) + status
      ensures !ok ==> status == [] && NoneSettled(old(status))
    {
      ghost var early: seq<Sr> := [];
      while true
        invariant old(log) <= log && Stream() == old(Stream())
        invariant log == old(log) + Reads(early) && NoneSettled(early)
        invariant old(status) == early + status
        decreases |status|
      {
        ok, last := ReadStatus();
        if !ok {
          p := Polls([], last);
          return;
        }
        assert old(status) == (early + [last]) + status;
        if Settled(last) {
          p := Polls(early, last);
          return;
        }
        assert Reads(early + [last]) == Reads(early) + [ReadSr(last)];
        early := early + [last];
      }
    }

    /** do { read } while (TIP). */
    method PollIdle() returns (ok: bool, ghost p: Polls)
      modifies `status, `log
      ensures old(log) <= log && Stream() == old(Stream())
      ensures ok ==> IdlePolls(p) && log == old(log) + PollEvents(p)
      ensures ok ==> old(status) == PollWord(p) + status
      ensures !ok ==> status == [] && forall s <- old(status) :: s.tip
    {
      ghost var early: seq<Sr> := [];
      while true
        invariant old(log) <= log && Stream() == old(Stream())
        invariant log == old(log) + Reads(early) && forall s <- early :: s.tip
        invariant old(status) == early + status
        decreases |status|
      {
        var temp;
        ok, temp := ReadStatus();
        if !ok {
          p := Polls([], temp);
          return;
        }
        assert old(status) == (early + [temp]) + status;
        if !temp.tip {
          p := Polls(early, temp);
          return;
        }
        assert Reads(early + [temp]) == Reads(early) + [ReadSr(temp)];
        early := early + [temp];
      }
    }

    /** One turn of the bus-clearing loop. */
    method ClearOnce() returns (ok: bool, temp: Sr, ghost turn: Turn)
      modifies `status, `log
      ensures old(log) <= log && Stream() == old(Stream())
      ensures ok ==> TurnOk(turn) && temp == AfterTurn(turn) && log == old(log) + TurnEvents(turn)
      ensures ok ==> old(status) == TurnWord(turn) + status
      ensures !ok ==> status == [] && NoTurn(old(status))
    {
      ok, temp := ReadStatus();
      turn := Turn(temp, None);
      assert ok ==> old(status) == [temp] + status;
      if ok && temp.busy {
        Access(WriteCr(STOP));
        ghost var p, rest := Polls([], temp), status;
        ok, temp, p := PollSettled();
        if ok {
          AssocWords([turn.again], PollWord(p), status);
        } else {
          TurnRunsOut(turn.again, rest);
        }
        turn := Turn(turn.again, Some(p));
      }
    }

    /** Reads the status, and sends STOPs while the bus is not free. */
    method ClearBus() returns (ok: bool, ghost e: Entry)
      modifies `status, `log, `busyOnEntry
      ensures old(log) <= log && Stream() == old(Stream())
      ensures ok ==> EntryOk(e) && busyOnEntry == old(busyOnEntry) + |e.turns|
      ensures ok ==> log == old(log) + EntryEvents(e)
      ensures ok ==> old(status) == EntryWord(e) + status
      ensures !ok ==> status == [] && NoEntry(old(status))
    {
      var temp;
      ok, temp := ReadStatus();
      e := Entry(temp, []);
      if !ok {
        return;
      }
      assert old(status) == EntryWord(e) + status;
      while temp.busy
        invariant old(log) <= log && Stream() == old(Stream())
        invariant temp == AfterTurns(e, |e.turns|) && busyOnEntry == old(busyOnEntry) + |e.turns|
        invariant Turning(e)
        invariant log == old(log) + EntryEvents(e)
        invariant old(status) == EntryWord(e) + status
        decreases |status|
      {
        busyOnEntry := busyOnEntry + 1;
        ghost var turn, rest;
        rest := status;
        ok, temp, turn := ClearOnce();
        if !ok {
          EntryRunsOut(e, rest);
          return;
        }
        OneMoreTurn(e, turn);
        Assoc(old(log), EntryEvents(e), TurnEvents(turn));
        EntryWordNext(e, turn, status);
        e := Entry(e.first, e.turns + [turn]);
      }
      ok := true;
    }

    /** Sends a byte if there is one, gives a command, and waits for its end. */
    method RunPhase(p: Phase) returns (ok: bool, good: bool, ghost end: Polls)
      modifies `status, `log
      ensures old(log) <= log && Stream() == old(Stream())
      ensures ok ==> PollsSettled(end) && (good <==> Good(p, end.last)) && log == old(log) + PhaseEvents(p, end)
      ensures ok ==> old(status) == PollWord(end) + status
      ensures !ok ==> status == [] && NoneSettled(old(status))
    {
      if p.tx.Some? {
        Access(WriteTxr(p.tx.value));
      }
      Access(WriteCr(p.cr));
      var temp;
      ok, temp, end := PollSettled();
      good := temp.rxNack == p.nackExpected && !temp.arbLost;
    }

    /** The phases of an attempt, up to the first that ends badly. */
    method RunPhases(ps: seq<Phase>, ghost e: Entry) returns (ok: bool, good: bool, ghost a: Attempt)
      requires |ps| > 0 && EntryOk(e)
      modifies `status, `log
      ensures old(log) <= log && Stream() == old(Stream())
      ensures ok ==> a.entry == e && if good then Succeeded(ps, a) else Abandoned(ps, a)
      ensures ok ==> log == old(log) + PhasesEvents(ps, a.ends)
      ensures ok ==> old(status) == Flat(PollWord, a.ends) + status
      ensures !ok ==> status == [] && NoPhases(ps, e, old(status))
    {
      a := Attempt(e, []);
      good, ok := true, true;
      for i := 0 to |ps|
        invariant ok && good
        invariant old(log) <= log && Stream() == old(Stream())
        invariant a.entry == e && AllGood(ps, a, i)
        invariant log == old(log) + PhasesEvents(ps, a.ends)
        invariant old(status) == Flat(PollWord, a.ends) + status
      {
        ghost var end, rest;
        rest := status;
        ok, good, end := RunPhase(ps[i]);
        if !ok {
          PhasesRunOut(ps, a, rest);
          return;
        }
        OneMorePhase(ps, a, i, end);
        Assoc(old(log), PhasesEvents(ps, a.ends), PhaseEvents(ps[i], end));
        FlatNext(PollWord, a.ends, end);
        AssocWords(Flat(PollWord, a.ends), PollWord(end), status);
        a := Attempt(e, a.ends + [end]);
        if !good {
          return;
        }
      }
    }

    /** One pass of the retry loop. */
    method TryOnce(ps: seq<Phase>) returns (ok: bool, good: bool, ghost a: Attempt)
      requires |ps| > 0
      modifies `status, `log, `busyOnEntry
      ensures old(log) <= log && Stream() == old(Stream())
      ensures ok ==> (if good then Succeeded(ps, a) else Abandoned(ps, a))
      ensures ok ==> log == old(log) + AttemptEvents(ps, a) && busyOnEntry == old(busyOnEntry) + |a.entry.turns|
      ensures ok ==> old(status) == AttemptWord(a) + status
      ensures !ok ==> status == [] && NoAttempt(ps, old(status))
    {
      ghost var e;
      ok, e := ClearBus();
      a := Attempt(e, []);
      good := true;
      ghost var rest := status;
      if ok {
        ok, good, a := RunPhases(ps, e);
        if ok {
          Assoc(old(log), EntryEvents(e), PhasesEvents(ps, a.ends));
          AssocWords(EntryWord(e), Flat(PollWord, a.ends), status);
        }
      }
      if !ok {
        AttemptRunsOut(ps, e, old(status), rest);
      }
    }

    /** The skeleton of all four routines: wait, then try until every phase ends well.  It returns
      * exactly if the stream holds all the answers such a call needs, and what it has then read is
      * the beginning of the stream.
      */
    method Transact(ps: seq<Phase>) returns (ok: bool, ghost t: Transaction)
      requires |ps| > 0
      modifies `status, `log, `busyOnEntry, `badCycleTerm
      ensures old(log) <= log && Statuses(log[|old(log)|..]) + status == old(status)
      ensures ok <==> Completes(ps, old(status))
      ensures !ok ==> status == []
      ensures ok ==> TransactionOk(ps, t) && log == old(log) + TransactionEvents(ps, t)
      ensures ok ==> badCycleTerm == old(badCycleTerm) + |t.failed|
      ensures ok ==> busyOnEntry == old(busyOnEntry) + BusyTurns(t.failed) + |t.last.entry.turns|
    {
      ok, t := TryAll(ps);
      assert log == old(log) + log[|old(log)|..];
      ReadsAccountedFor(old(log), log[|old(log)|..], status, old(status));
      if ok {
        assert log[|old(log)|..] == TransactionEvents(ps, t);
        assert Completes(ps, old(status));
      }
    }

    method TryAll(ps: seq<Phase>) returns (ok: bool, ghost t: Transaction)
      requires |ps| > 0
      modifies `status, `log, `busyOnEntry, `badCycleTerm
      ensures old(log) <= log && Stream() == old(Stream())
      ensures !ok ==> status == [] && !Completes(ps, old(status))
      ensures ok ==> TransactionOk(ps, t) && log == old(log) + TransactionEvents(ps, t)
      ensures ok ==> badCycleTerm == old(badCycleTerm) + |t.failed|
      ensures ok ==> busyOnEntry == old(busyOnEntry) + BusyTurns(t.failed) + |t.last.entry.turns|
    {
      ghost var idle;
      ok, idle := PollIdle();
      ghost var failed: seq<Attempt> := [];
      ghost var sofar, read := PollEvents(idle), PollWord(idle);
      t := Transaction(idle, [], Attempt(Entry(Sr(false, false, false, false, false), []), []));
      if !ok {
        IdleRunsOut(ps, old(status));
        return;
      }
      while true
        invariant forall a <- failed :: Abandoned(ps, a)
        invariant old(log) <= log && Stream() == old(Stream())
        invariant log == old(log) + sofar && sofar == PollEvents(idle) + AttemptsEvents(ps, failed)
        invariant old(status) == read + status && read == PollWord(idle) + Flat(AttemptWord, failed)
        invariant badCycleTerm == old(badCycleTerm) + |failed|
        invariant busyOnEntry == old(busyOnEntry) + BusyTurns(failed)
        decreases |status|
      {
        var good;
        ghost var a, rest;
        rest := status;
        ok, good, a := TryOnce(ps);
        if !ok {
          CallRunsOut(ps, idle, failed, rest);
          return;
        }
        Assoc(old(log), sofar, AttemptEvents(ps, a));
        if good {
          t := Transaction(idle, failed, a);
          return;
        }
        badCycleTerm := badCycleTerm + 1;
        OneMoreAttempt(ps, failed, a);
        Assoc(PollEvents(idle), AttemptsEvents(ps, failed), AttemptEvents(ps, a));
        AssocWords(read, AttemptWord(a), status);
        FlatNext(AttemptWord, failed, a);
        AssocWords(PollWord(idle), Flat(AttemptWord, failed), AttemptWord(a));
        failed := failed + [a];
        sofar, read := sofar + AttemptEvents(ps, a), read + AttemptWord(a);
      }
    }

    method Write(address: nat, data: nat) returns (ok: bool, ghost t: Transaction)
      requires address < 0x100 && data < 0x100
      modifies `status, `log, `busyOnEntry, `badCycleTerm
      ensures old(log) <= log && Statuses(log[|old(log)|..]) + status == old(status)
      ensures ok <==> Completes(WritePhases(address, data), old(status))
      ensures !ok ==> status == []
      ensures ok ==> TransactionOk(WritePhases(address, data), t)
      ensures ok ==> log == old(log) + TransactionEvents(WritePhases(address, data), t)
      ensures ok ==> badCycleTerm == old(badCycleTerm) + |t.failed|
      ensures ok ==> Ends(log[|old(log)|..],
        [Sent(Some(2 * address % 0x100), true, false, false, true, false, false),
         Sent(Some(data), false, true, false, true, false, false)])
    {
      ok, t := Transact(WritePhases(address, data));
      if ok {
        WriteSends(address, data, t);
        assert log[|old(log)|..] == TransactionEvents(WritePhases(address, data), t);
      }
    }

    method WriteReg(address: nat, reg: nat, data: nat) returns (ok: bool, ghost t: Transaction)
      requires address < 0x100 && reg < 0x100 && data < 0x100
      modifies `status, `log, `busyOnEntry, `badCycleTerm
      ensures old(log) <= log && Statuses(log[|old(log)|..]) + status == old(status)
      ensures ok <==> Completes(WriteRegPhases(address, reg, data), old(status))
      ensures !ok ==> status == []
      ensures ok ==> TransactionOk(WriteRegPhases(address, reg, data), t)
      ensures ok ==> log == old(log) + TransactionEvents(WriteRegPhases(address, reg, data), t)
      ensures ok ==> badCycleTerm == old(badCycleTerm) + |t.failed|
      ensures ok ==> Ends(log[|old(log)|..],
        [Sent(Some(2 * address % 0x100), true, false, false, true, false, false),
         Sent(Some(reg), false, false, false, true, false, false),
         Sent(Some(data), false, true, false, true, false, false)])
    {
      ok, t := Transact(WriteRegPhases(address, reg, data));
      if ok {
        WriteRegSends(address, reg, data, t);
        assert log[|old(log)|..] == TransactionEvents(WriteRegPhases(address, reg, data), t);
      }
    }

    method Read(address: nat) returns (ok: bool, value: nat, ghost t: Transaction)
      requires address < 0x100
      modifies `status, `log, `busyOnEntry, `badCycleTerm
      ensures old(log) <= log && Statuses(log[|old(log)|..]) + status == old(status)
      ensures ok <==> Completes(ReadPhases(address), old(status))
      ensures !ok ==> status == []
      ensures ok ==> TransactionOk(ReadPhases(address), t) && value == received
      ensures ok ==> log == old(log) + TransactionEvents(ReadPhases(address), t) + [ReadRxr(value)]
      ensures ok ==> badCycleTerm == old(badCycleTerm) + |t.failed|
      ensures ok ==> Ends(log[|old(log)|..],
        [Sent(Some(2 * address % 0x100 + 1), true, false, false, true, false, false),
         Sent(None, false, true, true, false, true, true)])
    {
      ok, value, t := TransactAndFetch(ReadPhases(address));
      if ok {
        ReadSends(address, value, t);
        assert log[|old(log)|..] == TransactionEvents(ReadPhases(address), t) + [ReadRxr(value)];
      }
    }

    method ReadReg(address: nat, reg: nat) returns (ok: bool, value: nat, ghost t: Transaction)
      requires address < 0x100 && reg < 0x100
      modifies `status, `log, `busyOnEntry, `badCycleTerm
      ensures old(log) <= log && Statuses(log[|old(log)|..]) + status == old(status)
      ensures ok <==> Completes(ReadRegPhases(address, reg), old(status))
      ensures !ok ==> status == []
      ensures ok ==> TransactionOk(ReadRegPhases(address, reg), t) && value == received
      ensures ok ==> log == old(log) + TransactionEvents(ReadRegPhases(address, reg), t) + [ReadRxr(value)]
      ensures ok ==> badCycleTerm == old(badCycleTerm) + |t.failed|
      ensures ok ==> Ends(log[|old(log)|..],
        [Sent(Some(2 * address % 0x100), true, false, false, true, false, false),
         Sent(Some(reg), false, false, false, true, false, false),
         Sent(Some(2 * address % 0x100 + 1), true, false, false, true, false, false),
         Sent(None, false, true, true, false, true, true)])
    {
      ok, value, t := TransactAndFetch(ReadRegPhases(address, reg));
      if ok {
        ReadRegSends(address, reg, value, t);
        assert log[|old(log)|..] == TransactionEvents(ReadRegPhases(address, reg), t) + [ReadRxr(value)];
      }
    }

    /** A transaction whose last phase reads a byte, and the fetch of that byte. */
    method TransactAndFetch(ps: seq<Phase>) returns (ok: bool, value: nat, ghost t: Transaction)
      requires |ps| > 0
      modifies `status, `log, `busyOnEntry, `badCycleTerm
      ensures old(log) <= log && Statuses(log[|old(log)|..]) + status == old(status)
      ensures ok <==> Completes(ps, old(status))
      ensures !ok ==> status == []
      ensures ok ==> TransactionOk(ps, t) && value == received
      ensures ok ==> log == old(log) + TransactionEvents(ps, t) + [ReadRxr(value)]
      ensures ok ==> badCycleTerm == old(badCycleTerm) + |t.failed|
    {
      ok, t := Transact(ps);
      value := received;
      if ok {
        TailNext(log, |old(log)|, ReadRxr(value));
        Access(ReadRxr(value));
      }
    }
  }

  // ------------------------------------------------------------------ what an observer of the registers sees

  /** A command that ran to its end: the byte sent with it, and the status that ended it. */
  datatype Done = Done(tx: Option<nat>, cr: Cr, end: Sr)

  /** `open` is the command still running; `free` is what the last status read said of the bus;
    * `mine` says that the last command left the bus held by this master.
    */
  datatype Observer = Observer(ok: bool, tx: Option<nat>, open: Option<Cr>, free: bool, mine: bool, done: seq<Done>)

  /** Rules: no command while another runs, and no START unless the last status read said that the
    * bus is free, or this master holds it.
    */
  function See(o: Observer, e: Event): Observer {
    match e
    case ReadSr(s) =>
      if o.open.Some? && Settled(s) then
        var d := Done(o.tx, o.open.value, s);
        o.(open := None, tx := None, free := !s.busy, mine := !d.cr.sto && !s.rxNack && !s.arbLost,
           done := o.done + [d])
      else o.(free := !s.busy)
    case WriteTxr(data) => o.(tx := Some(data))
    case WriteCr(cr) => o.(ok := o.ok && o.open.None? && (cr.sta ==> o.free || o.mine), open := Some(cr))
    case ReadRxr(_) => o
  }

  function Observe(o: Observer, w: seq<Event>): Observer {
    if w == [] then o else See(Observe(o, w[..|w| - 1]), w[|w| - 1])
  }

  lemma {:induction false} ObserveBoth(o: Observer, a: seq<Event>, b: seq<Event>)
    ensures Observe(o, a + b) == Observe(Observe(o, a), b)
    decreases |b|
  {
    if b == [] {
      assert a + b == a;
    } else {
      var b' := b[..|b| - 1];
      assert (a + b)[..|a + b| - 1] == a + b';
      ObserveBoth(o, a, b');
    }
  }

  /** Polls that never settle change nothing but what is known of the bus. */
  lemma {:induction false} ObserveEarly(o: Observer, early: seq<Sr>)
    requires o.open.None? || forall s <- early :: !Settled(s)
    ensures Observe(o, Reads(early)) == o.(free := if early == [] then o.free else !early[|early| - 1].busy)
    decreases |early|
  {
    if early != [] {
      var front := early[..|early| - 1];
      assert Reads(early)[..|early| - 1] == Reads(front);
      ObserveEarly(o, front);
    }
  }

  /** The observer after the polls that end a command. */
  function Ended(o: Observer, cr: Cr, last: Sr): Observer {
    o.(open := None, tx := None, free := !last.busy, mine := !cr.sto && !last.rxNack && !last.arbLost,
       done := o.done + [Done(o.tx, cr, last)])
  }

  lemma ObservePolls(o: Observer, p: Polls)
    requires o.open.Some? && PollsSettled(p)
    ensures Observe(o, PollEvents(p)) == Ended(o, o.open.value, p.last)
  {
    ObserveEarly(o, p.early);
    ObserveBoth(o, Reads(p.early), [ReadSr(p.last)]);
    ObserveOne(Observe(o, Reads(p.early)), ReadSr(p.last));
  }

  lemma ObserveOne(o: Observer, e: Event)
    ensures Observe(o, [e]) == See(o, e)
  {
    assert [e][..0] == [];
  }

  /** A phase obeys the rules if its START may be given, and is recorded with its end. */
  lemma ObservePhase(o: Observer, p: Phase, end: Polls)
    requires o.ok && o.open.None? && o.tx.None? && PollsSettled(end)
    requires p.cr.sta ==> o.free || o.mine
    ensures Observe(o, PhaseEvents(p, end)) == Ended(o.(tx := p.tx), p.cr, end.last)
  {
    var tx: seq<Event> := if p.tx.Some? then [WriteTxr(p.tx.value)] else [];
    var o1 := o.(tx := p.tx);
    if p.tx.Some? {
      ObserveOne(o, WriteTxr(p.tx.value));
    }
    assert Observe(o, tx) == o1;
    ObserveBoth(o, tx, [WriteCr(p.cr)]);
    ObserveOne(o1, WriteCr(p.cr));
    ObserveBoth(o, tx + [WriteCr(p.cr)], PollEvents(end));
    ObservePolls(See(o1, WriteCr(p.cr)), end);
  }

  /** Between commands of this driver: nothing open, nothing left in the transmit register. */
  predicate Quiet(o: Observer) {
    o.ok && o.open.None? && o.tx.None?
  }

  lemma ObserveTurn(o: Observer, t: Turn)
    requires Quiet(o) && TurnOk(t)
    ensures var o' := Observe(o, TurnEvents(t));
      Quiet(o') && o'.free == !AfterTurn(t).busy && o.done <= o'.done
  {
    var o1 := See(o, ReadSr(t.again));
    ObserveOne(o, ReadSr(t.again));
    if t.stop.Some? {
      var stop := PhaseEvents(Phase(None, STOP, false), t.stop.value);
      assert TurnEvents(t) == [ReadSr(t.again)] + stop;
      ObserveBoth(o, [ReadSr(t.again)], stop);
      ObservePhase(o1, Phase(None, STOP, false), t.stop.value);
    } else {
      assert TurnEvents(t) == [ReadSr(t.again)];
    }
  }

  lemma TurnsUpTo(ts: seq<Turn>, n: nat)
    requires 0 < n <= |ts|
    ensures TurnsEvents(ts[..n]) == TurnsEvents(ts[..n - 1]) + TurnEvents(ts[n - 1])
  {
    assert ts[..n][..n - 1] == ts[..n - 1];
  }

  lemma {:induction false} ObserveTurns(o: Observer, e: Entry, n: nat)
    requires Quiet(o) && Turning(e) && n <= |e.turns| && o.free == !e.first.busy
    ensures var o' := Observe(o, TurnsEvents(e.turns[..n]));
      Quiet(o') && o'.free == !AfterTurns(e, n).busy && o.done <= o'.done
  {
    if n > 0 {
      ObserveTurns(o, e, n - 1);
      var before, turn := TurnsEvents(e.turns[..n - 1]), e.turns[n - 1];
      assert AfterTurns(e, n - 1).busy && TurnOk(turn);
      TurnsUpTo(e.turns, n);
      ObserveBoth(o, before, TurnEvents(turn));
      ObserveTurn(Observe(o, before), turn);
    }
  }

  /** After the bus-clearing loop the last status read said that the bus is free. */
  lemma ObserveEntry(o: Observer, e: Entry)
    requires Quiet(o) && EntryOk(e)
    ensures var o' := Observe(o, EntryEvents(e)); Quiet(o') && o'.free && o.done <= o'.done
  {
    ObserveOne(o, ReadSr(e.first));
    ObserveBoth(o, [ReadSr(e.first)], TurnsEvents(e.turns));
    assert e.turns[..|e.turns|] == e.turns;
    ObserveTurns(See(o, ReadSr(e.first)), e, |e.turns|);
  }

  /** The scripts of the routines: a START first, and a further START only while the bus is held. */
  ghost predicate Script(ps: seq<Phase>) {
    && |ps| > 0 && ps[0].cr.sta
    && forall i :: 0 < i < |ps| && ps[i].cr.sta ==> !ps[i - 1].cr.sto && !ps[i - 1].nackExpected
  }

  /** What a run of the phases leaves in the observer's record. */
  function Record(ps: seq<Phase>, ends: seq<Polls>): (r: seq<Done>)
    requires |ends| <= |ps|
    ensures |r| == |ends|
  {
    seq(|ends|, i requires 0 <= i < |ends| => Done(ps[i].tx, ps[i].cr, ends[i].last))
  }

  lemma {:induction false} ObservePhases(o: Observer, ps: seq<Phase>, ends: seq<Polls>)
    requires Quiet(o) && o.free && Script(ps) && |ends| <= |ps| && (forall e <- ends :: PollsSettled(e))
    requires forall i :: 0 <= i < |ends| - 1 ==> Good(ps[i], ends[i].last)
    ensures var o' := Observe(o, PhasesEvents(ps, ends)); Quiet(o') && o'.done == o.done + Record(ps, ends)
    ensures |ends| > 0 ==>
      var last := ends[|ends| - 1].last;
      Observe(o, PhasesEvents(ps, ends)).mine == (!ps[|ends| - 1].cr.sto && !last.rxNack && !last.arbLost)
    decreases |ends|
  {
    if ends != [] {
      var k := |ends| - 1;
      var front := ends[..k];
      ObservePhases(o, ps, front);
      var o1 := Observe(o, PhasesEvents(ps, front));
      ObserveBoth(o, PhasesEvents(ps, front), PhaseEvents(ps[k], ends[k]));
      if k == 0 {
        assert PhasesEvents(ps, front) == [];
      } else {
        assert front[k - 1] == ends[k - 1] && Good(ps[k - 1], ends[k - 1].last);
      }
      ObservePhase(o1, ps[k], ends[k]);
      RecordNext(ps, ends, o.done);
    }
  }

  lemma RecordNext(ps: seq<Phase>, ends: seq<Polls>, done: seq<Done>)
    requires 0 < |ends| <= |ps|
    ensures var k := |ends| - 1;
      done + Record(ps, ends) == (done + Record(ps, ends[..k])) + [Done(ps[k].tx, ps[k].cr, ends[k].last)]
  {
  }

  lemma ObserveAttempt(o: Observer, ps: seq<Phase>, a: Attempt)
    requires Quiet(o) && Script(ps) && (Succeeded(ps, a) || Abandoned(ps, a))
    ensures var o' := Observe(o, AttemptEvents(ps, a));
      Quiet(o') && |o.done| + |a.ends| <= |o'.done| && o'.done[|o'.done| - |a.ends|..] == Record(ps, a.ends)
  {
    ObserveEntry(o, a.entry);
    var o1 := Observe(o, EntryEvents(a.entry));
    assert Quiet(o1) && o1.free && |o.done| <= |o1.done|;
    ObserveBoth(o, EntryEvents(a.entry), PhasesEvents(ps, a.ends));
    ObservePhases(o1, ps, a.ends);
    EndsWith(o1.done, Record(ps, a.ends));
  }

  lemma EndsWith(a: seq<Done>, b: seq<Done>)
    ensures (a + b)[|a + b| - |b|..] == b
  {
  }

  lemma {:induction false} ObserveAttempts(o: Observer, ps: seq<Phase>, as_: seq<Attempt>)
    requires Quiet(o) && Script(ps) && forall a <- as_ :: Abandoned(ps, a)
    ensures Quiet(Observe(o, AttemptsEvents(ps, as_)))
    decreases |as_|
  {
    if as_ != [] {
      var front, last := as_[..|as_| - 1], as_[|as_| - 1];
      assert Abandoned(ps, last);
      ObserveAttempts(o, ps, front);
      ObserveBoth(o, AttemptsEvents(ps, front), AttemptEvents(ps, last));
      ObserveAttempt(Observe(o, AttemptsEvents(ps, front)), ps, last);
    }
  }

  /** Whatever the status register answers, a call that returns has obeyed the rules of the bus, and
    * the commands it completed last are its whole script, each with the end it must have.
    */
  lemma CallsAreDisciplined(o: Observer, ps: seq<Phase>, t: Transaction)
    requires Quiet(o) && Script(ps) && TransactionOk(ps, t)
    ensures var o' := Observe(o, TransactionEvents(ps, t));
      && Quiet(o') && |o.done| + |ps| <= |o'.done|
      && o'.done[|o'.done| - |ps|..] == Record(ps, t.last.ends)
    ensures forall i :: 0 <= i < |ps| ==> Settled(t.last.ends[i].last) && Good(ps[i], t.last.ends[i].last)
  {
    forall i | 0 <= i < |ps|
      ensures Settled(t.last.ends[i].last)
    {
      assert PollsSettled(t.last.ends[i]);
    }
    CallIsDisciplined(o, ps, t);
  }

  lemma CallIsDisciplined(o: Observer, ps: seq<Phase>, t: Transaction)
    requires Quiet(o) && Script(ps) && TransactionOk(ps, t)
    ensures var o' := Observe(o, TransactionEvents(ps, t));
      && Quiet(o') && |o.done| + |ps| <= |o'.done|
      && o'.done[|o'.done| - |ps|..] == Record(ps, t.last.ends)
  {
    var idle, failed, last := PollEvents(t.idle), AttemptsEvents(ps, t.failed), AttemptEvents(ps, t.last);
    ObserveBoth(o, idle + failed, last);
    ObserveBoth(o, idle, failed);
    ObserveIdle(o, t.idle);
    DoneGrows(o, idle + failed);
    ObserveAttempts(Observe(o, idle), ps, t.failed);
    ObserveAttempt(Observe(o, idle + failed), ps, t.last);
  }

  lemma ObserveIdle(o: Observer, p: Polls)
    requires Quiet(o)
    ensures Quiet(Observe(o, PollEvents(p)))
  {
    ObserveEarly(o, p.early);
    ObserveBoth(o, Reads(p.early), [ReadSr(p.last)]);
    ObserveOne(Observe(o, Reads(p.early)), ReadSr(p.last));
  }

  lemma RoutinesAreScripts(address: nat, reg: nat, data: nat)
    ensures Script(WritePhases(address, data)) && Script(WriteRegPhases(address, reg, data))
    ensures Script(ReadPhases(address)) && Script(ReadRegPhases(address, reg))
  {
  }

  /** The last command decides whether this master holds the bus. */
  lemma {:induction false} LastCommandHolds(o: Observer, w: seq<Event>)
    requires |o.done| < |Observe(o, w).done|
    ensures var o' := Observe(o, w);
      var last := o'.done[|o'.done| - 1];
      o'.mine <==> !last.cr.sto && !last.end.rxNack && !last.end.arbLost
    decreases |w|
  {
    if w != [] {
      var front := w[..|w| - 1];
      if |o.done| < |Observe(o, front).done| {
        LastCommandHolds(o, front);
      } else {
        DoneGrows(o, front);
      }
    }
  }

  lemma {:induction false} DoneGrows(o: Observer, w: seq<Event>)
    ensures o.done <= Observe(o, w).done
    decreases |w|
  {
    if w != [] {
      DoneGrows(o, w[..|w| - 1]);
    }
  }

  /** One command of a call: the byte sent with it, if any, the command bits, and whether the answer to
    * it is no acknowledge.
    */
  datatype Sent = Sent(tx: Option<nat>, sta: bool, sto: bool, rd: bool, wr: bool, nack: bool, answerNack: bool)

  /** Whoever watches these accesses from a quiet state sees the rules of the bus obeyed and, last, these
    * commands, each run to its end with the answer given and no arbitration lost, and in the end no
    * command running and the bus released.
    */
  ghost predicate Ends(w: seq<Event>, sent: seq<Sent>) {
    forall o :: Quiet(o) ==> EndsFor(o, w, sent)
  }

  ghost predicate EndsFor(o: Observer, w: seq<Event>, sent: seq<Sent>) {
    var o' := Observe(o, w);
    && o'.ok && o'.open == None && o'.tx == None && !o'.mine && |sent| <= |o'.done|
    && forall i :: 0 <= i < |sent| ==> IsSent(o'.done[|o'.done| - |sent|..][i], sent[i])
  }

  predicate IsSent(d: Done, s: Sent) {
    && d.tx == s.tx && d.cr == Cr(s.sta, s.sto, s.rd, s.wr, s.nack)
    && d.end.rxNack == s.answerNack && !d.end.arbLost && !d.end.tip && d.end.irq
  }

  function SentAs(p: Phase): Sent {
    Sent(p.tx, p.cr.sta, p.cr.sto, p.cr.rd, p.cr.wr, p.cr.nack, p.nackExpected)
  }

  lemma CallEnds(ps: seq<Phase>, t: Transaction, sent: seq<Sent>)
    requires Script(ps) && TransactionOk(ps, t) && ps[|ps| - 1].cr.sto
    requires |sent| == |ps| && forall i :: 0 <= i < |ps| ==> sent[i] == SentAs(ps[i])
    ensures Ends(TransactionEvents(ps, t), sent)
  {
    forall o | Quiet(o)
      ensures EndsFor(o, TransactionEvents(ps, t), sent)
    {
      CallEndsFor(o, ps, t, sent);
    }
  }

  lemma CallEndsFor(o: Observer, ps: seq<Phase>, t: Transaction, sent: seq<Sent>)
    requires Quiet(o) && Script(ps) && TransactionOk(ps, t) && ps[|ps| - 1].cr.sto
    requires |sent| == |ps| && forall i :: 0 <= i < |ps| ==> sent[i] == SentAs(ps[i])
    ensures EndsFor(o, TransactionEvents(ps, t), sent)
  {
    CallsAreDisciplined(o, ps, t);
    LastCommandHolds(o, TransactionEvents(ps, t));
    RecordEnds(Observe(o, TransactionEvents(ps, t)), ps, t.last.ends, sent);
  }

  lemma RecordEnds(o: Observer, ps: seq<Phase>, ends: seq<Polls>, sent: seq<Sent>)
    requires |ends| == |ps| == |sent| <= |o.done| && o.done[|o.done| - |ps|..] == Record(ps, ends)
    requires forall i :: 0 <= i < |ps| ==>
      sent[i] == SentAs(ps[i]) && Settled(ends[i].last) && Good(ps[i], ends[i].last)
    ensures forall i :: 0 <= i < |sent| ==> IsSent(o.done[|o.done| - |sent|..][i], sent[i])
    ensures |ps| > 0 ==> o.done[|o.done| - 1].cr == ps[|ps| - 1].cr
  {
    var d := o.done[|o.done| - |ps|..];
    forall i | 0 <= i < |sent|
      ensures IsSent(d[i], sent[i])
    {
      assert d[i] == Done(ps[i].tx, ps[i].cr, ends[i].last);
    }
    if |ps| > 0 {
      assert o.done[|o.done| - 1] == d[|ps| - 1];
    }
  }

  /** Fetching the byte received changes nothing an observer records. */
  lemma FetchKeepsEnd(w: seq<Event>, sent: seq<Sent>, value: nat)
    requires Ends(w, sent)
    ensures Ends(w + [ReadRxr(value)], sent)
  {
    forall o | Quiet(o)
      ensures EndsFor(o, w + [ReadRxr(value)], sent)
    {
      assert EndsFor(o, w, sent);
      assert (w + [ReadRxr(value)])[..|w|] == w;
    }
  }

  lemma WriteSends(address: nat, data: nat, t: Transaction)
    requires TransactionOk(WritePhases(address, data), t)
    ensures Ends(TransactionEvents(WritePhases(address, data), t),
             [Sent(Some(2 * address % 0x100), true, false, false, true, false, false),
              Sent(Some(data), false, true, false, true, false, false)])
  {
    var sent := [Sent(Some(2 * address % 0x100), true, false, false, true, false, false),
                 Sent(Some(data), false, true, false, true, false, false)];
    RoutinesAreScripts(address, 0, data);
    CallEnds(WritePhases(address, data), t, sent);
  }

  lemma WriteRegSends(address: nat, reg: nat, data: nat, t: Transaction)
    requires TransactionOk(WriteRegPhases(address, reg, data), t)
    ensures Ends(TransactionEvents(WriteRegPhases(address, reg, data), t),
             [Sent(Some(2 * address % 0x100), true, false, false, true, false, false),
              Sent(Some(reg), false, false, false, true, false, false),
              Sent(Some(data), false, true, false, true, false, false)])
  {
    var sent := [Sent(Some(2 * address % 0x100), true, false, false, true, false, false),
                 Sent(Some(reg), false, false, false, true, false, false),
                 Sent(Some(data), false, true, false, true, false, false)];
    RoutinesAreScripts(address, reg, data);
    CallEnds(WriteRegPhases(address, reg, data), t, sent);
  }

  lemma ReadSends(address: nat, value: nat, t: Transaction)
    requires TransactionOk(ReadPhases(address), t)
    ensures Ends(TransactionEvents(ReadPhases(address), t) + [ReadRxr(value)],
             [Sent(Some(2 * address % 0x100 + 1), true, false, false, true, false, false),
              Sent(None, false, true, true, false, true, true)])
  {
    var sent := [Sent(Some(2 * address % 0x100 + 1), true, false, false, true, false, false),
                 Sent(None, false, true, true, false, true, true)];
    RoutinesAreScripts(address, 0, 0);
    CallEnds(ReadPhases(address), t, sent);
    FetchKeepsEnd(TransactionEvents(ReadPhases(address), t), sent, value);
  }

  lemma ReadRegSends(address: nat, reg: nat, value: nat, t: Transaction)
    requires TransactionOk(ReadRegPhases(address, reg), t)
    ensures Ends(TransactionEvents(ReadRegPhases(address, reg), t) + [ReadRxr(value)],
             [Sent(Some(2 * address % 0x100), true, false, false, true, false, false),
              Sent(Some(reg), false, false, false, true, false, false),
              Sent(Some(2 * address % 0x100 + 1), true, false, false, true, false, false),
              Sent(None, false, true, true, false, true, true)])
  {
    var sent := [Sent(Some(2 * address % 0x100), true, false, false, true, false, false),
                 Sent(Some(reg), false, false, false, true, false, false),
                 Sent(Some(2 * address % 0x100 + 1), true, false, false, true, false, false),
                 Sent(None, false, true, true, false, true, true)];
    RoutinesAreScripts(address, reg, 0);
    CallEnds(ReadRegPhases(address, reg), t, sent);
    FetchKeepsEnd(TransactionEvents(ReadRegPhases(address, reg), t), sent, value);
  }

  /** The address byte carries the address and the direction exactly for 7-bit addresses. */
  lemma AddressByteIff(address: nat, read: bool)
    requires address < 0x100
    ensures AddressByte(address, read) < 0x100
    ensures AddressByte(address, read) / 2 == address <==> address < 0x80
    ensures AddressByte(address, read) % 2 == 1 <==> read
  {
  }
}

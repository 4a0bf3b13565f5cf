/** What holds over every run of the supervisor's main loop. */
module SupervisorTheorems {
  import opened IpcCodec
  import opened Options
  import opened Supervisor

  /** Just before the first poll; `garbage` is what the command variable happens to hold. */
  function Begin(garbage: Word, fmRetries: nat, monRetries: nat): Loop {
    Loop(garbage, Child(fmRetries, 0, 0, 1, 0, 2), Child(monRetries, 0, 0, 1, 0, 2), Running, [])
  }

  // ---- retries, spawns and pipe ends

  /** While the loop runs: the 16-bit counter is the number of failed probes. */
  predicate Counted(c: Child) {
    && c.retries == c.failed <= c.maxRetries + 1
    && c.spawns + c.halves <= c.failed + 1
    && c.ends == 2 * (c.spawns + c.halves)
  }

  /** When it has ended: one failed probe more is possible. */
  predicate Bounded(c: Child) {
    && c.failed <= c.maxRetries + 2
    && c.spawns + c.halves <= c.maxRetries + 2
    && c.ends == 2 * (c.spawns + c.halves)
  }

  lemma ProbedIsBounded(c: Child, probe: Probe)
    requires Counted(c) && c.maxRetries < USHORT - 1
    ensures var (c', ending) := Probed(c, probe);
      && c'.maxRetries == c.maxRetries && Bounded(c')
      && (ending.Running? ==> Counted(c'))
      && (ending.RetriesExhausted? <==> c'.failed == c.maxRetries + 2)
  {
  }

  ghost predicate LoopBounded(s: Loop, fmRetries: nat, monRetries: nat) {
    && s.fm.maxRetries == fmRetries && s.mon.maxRetries == monRetries
    && Bounded(s.fm) && Bounded(s.mon)
    && (s.ending.Running? ==> Counted(s.fm) && Counted(s.mon))
    && (s.ending.RetriesExhausted? <==> s.fm.failed == fmRetries + 2 || s.mon.failed == monRetries + 2)
  }

  lemma GuardedIsBounded(s: Loop, answer: Answer, f: nat, m: nat)
    requires LoopBounded(s, f, m)
    ensures LoopBounded(Guarded(s, answer), f, m)
  {
  }

  lemma TickedIsBounded(s: Loop, tick: Tick, f: nat, m: nat)
    requires LoopBounded(s, f, m) && f < USHORT - 1 && m < USHORT - 1
    ensures LoopBounded(Ticked(s, tick), f, m)
  {
    GuardedIsBounded(s, tick.drainFm, f, m);
    var s1 := Guarded(s, tick.drainFm);
    GuardedIsBounded(s1, tick.drainMon, f, m);
    var s2 := Guarded(s1, tick.drainMon);
    if s2.ending.Running? {
      ProbedIsBounded(s2.fm, tick.probeFm);
    }
    var s3 := FmProbed(s2, tick.probeFm);
    assert LoopBounded(s3, f, m);
    if s3.ending.Running? {
      ProbedIsBounded(s3.mon, tick.probeMon.(respawn := tick.probeMon.respawn.(timers := true)));
    }
  }

  lemma BranchesAreBounded(s: Loop, fm: Option<Answer>, mon: Option<Answer>, tick: Option<Tick>, f: nat, m: nat)
    requires LoopBounded(s, f, m) && f < USHORT - 1 && m < USHORT - 1
    ensures LoopBounded(Branches(s, fm, mon, tick), f, m)
  {
    var s1, s2 := s, s;
    if fm.Some? {
      GuardedIsBounded(s, fm.value, f, m);
      s1 := Guarded(s, fm.value);
      s2 := s1;
    }
    if mon.Some? {
      GuardedIsBounded(s1, mon.value, f, m);
      s2 := Guarded(s1, mon.value);
    }
    if tick.Some? {
      TickedIsBounded(s2, tick.value, f, m);
    }
  }

  lemma EndedIsBounded(s: Loop, ending: Ending, f: nat, m: nat)
    requires LoopBounded(s, f, m) && s.ending.Running? && !ending.Running? && !ending.RetriesExhausted?
    ensures LoopBounded(s.(ending := ending), f, m)
  {
  }

  lemma RoundIsBounded(s: Loop, poll: Poll, f: nat, m: nat)
    requires LoopBounded(s, f, m) && s.ending.Running? && f < USHORT - 1 && m < USHORT - 1
    ensures LoopBounded(Round(s, poll), f, m)
  {
    match poll
    case PollFailed => EndedIsBounded(s, Failed, f, m);
    case PollInterrupted =>
    case Polled(signal, client, fm, mon, tick) =>
      EndedIsBounded(s, Failed, f, m);
      EndedIsBounded(s, Stopped, f, m);
      BranchesAreBounded(s, fm, mon, tick, f, m);
  }

  lemma {:induction false} RoundsAreBounded(s: Loop, script: seq<Poll>, f: nat, m: nat)
    requires LoopBounded(s, f, m) && f < USHORT - 1 && m < USHORT - 1
    ensures LoopBounded(Rounds(s, script), f, m)
    decreases |script|
  {
    if script != [] && s.ending.Running? {
      RoundIsBounded(s, script[0], f, m);
      RoundsAreBounded(Round(s, script[0]), script[1..], f, m);
    }
  }

  /** In every run, for retry limits that leave the 16-bit counter room: each child is spawned
      at most limit + 2 times; the daemon gives up exactly on a child's failed probe number
      limit + 2, and the counter has not wrapped before; and it holds two pipe ends for every
      completed spawn, and two for every spawn that failed between its two pipes. */
  lemma SpawnsAndExits(garbage: Word, f: nat, m: nat, script: seq<Poll>)
    requires f < USHORT - 1 && m < USHORT - 1
    ensures var s := Rounds(Begin(garbage, f, m), script);
      && s.fm.spawns <= f + 2 && s.mon.spawns <= m + 2
      && s.fm.failed <= f + 2 && s.mon.failed <= m + 2
      && (s.ending.RetriesExhausted? <==> s.fm.failed == f + 2 || s.mon.failed == m + 2)
      && (s.ending.Running? ==> s.fm.retries == s.fm.failed && s.mon.retries == s.mon.failed)
      && s.fm.ends == 2 * (s.fm.spawns + s.fm.halves) && s.mon.ends == 2 * (s.mon.spawns + s.mon.halves)
  {
    RoundsAreBounded(Begin(garbage, f, m), script, f, m);
  }

  /** A probe that finds its child gone and starts it anew, and one that is answered. */
  const FAILING: Probe := Probe(false, TimedOut, Spawn(BothPipes, true, true, true))
  const ANSWERED: Probe := Probe(true, Got(COMMAND_ACK), Spawn(BothPipes, true, true, true))

  /** A poll that only finds the timer of the probes, after an ACK left in a pipe. */
  function ProbesOnly(fm: Probe, mon: Probe): Poll {
    Polled(None, None, None, None, Some(Tick(true, Got(COMMAND_ACK), TimedOut, fm, mon)))
  }

  lemma Drained(s: Loop)
    requires s.ending.Running?
    ensures Guarded(Guarded(s, Got(COMMAND_ACK)), TimedOut)
         == s.(command := COMMAND_ACK, heard := s.heard + [Got(COMMAND_ACK)] + [TimedOut])
  {
    CommandsAsAck(COMMAND_ACK);
  }

  lemma Answered(c: Child)
    ensures Probed(c, ANSWERED) == (c, Running)
  {
    CommandsAsAck(COMMAND_ACK);
  }

  /** Such a poll does nothing but the two probes. */
  lemma ProbesOnlyRound(s: Loop, fm: Probe, mon: Probe)
    requires s.ending.Running?
    requires fm in {FAILING, ANSWERED} && mon in {FAILING, ANSWERED} && (fm == ANSWERED || mon == ANSWERED)
    ensures var next := Round(s, ProbesOnly(fm, mon));
      && next.fm == Probed(s.fm, fm).0 && next.mon == Probed(s.mon, mon).0
      && next.ending == (if fm == ANSWERED then Probed(s.mon, mon).1 else Probed(s.fm, fm).1)
  {
    Drained(s);
    Answered(s.fm);
    Answered(s.mon);
    assert mon.(respawn := mon.respawn.(timers := true)) == mon;
  }

  lemma FailingProbe(c: Child)
    requires c.retries <= c.maxRetries + 1 < USHORT
    ensures var (c', ending) := Probed(c, FAILING);
      && c'.maxRetries == c.maxRetries
      && (if c.retries <= c.maxRetries then ending.Running? && c'.retries == c.retries + 1
          else ending.RetriesExhausted?)
  {
  }

  /** Enough failing probes of one child, the other one answering, end the run. */
  lemma {:induction false} FmFailsOn(s: Loop, n: nat)
    requires s.ending.Running? && s.fm.retries <= s.fm.maxRetries + 1 < USHORT
    requires n == s.fm.maxRetries + 2 - s.fm.retries
    ensures var end := Rounds(s, seq(n, _ => ProbesOnly(FAILING, ANSWERED)));
      end.ending.RetriesExhausted? && end.mon == s.mon
    decreases n
  {
    var poll := ProbesOnly(FAILING, ANSWERED);
    var script := seq(n, _ => poll);
    assert script[0] == poll && script[1..] == seq(n - 1, _ => poll);
    ProbesOnlyRound(s, FAILING, ANSWERED);
    Answered(s.mon);
    FailingProbe(s.fm);
    if s.fm.retries <= s.fm.maxRetries {
      FmFailsOn(Round(s, poll), n - 1);
    }
  }

  lemma {:induction false} MonFailsOn(s: Loop, n: nat)
    requires s.ending.Running? && s.mon.retries <= s.mon.maxRetries + 1 < USHORT
    requires n == s.mon.maxRetries + 2 - s.mon.retries
    ensures var end := Rounds(s, seq(n, _ => ProbesOnly(ANSWERED, FAILING)));
      end.ending.RetriesExhausted? && end.fm == s.fm
    decreases n
  {
    var poll := ProbesOnly(ANSWERED, FAILING);
    var script := seq(n, _ => poll);
    assert script[0] == poll && script[1..] == seq(n - 1, _ => poll);
    ProbesOnlyRound(s, ANSWERED, FAILING);
    Answered(s.fm);
    FailingProbe(s.mon);
    if s.mon.retries <= s.mon.maxRetries {
      MonFailsOn(Round(s, poll), n - 1);
    }
  }

  /** The daemon has given up, and not for a probe of the other child. */
  predicate GaveUpOnFm(s: Loop) {
    s.ending.RetriesExhausted? && s.mon.failed == 0
  }

  predicate GaveUpOnMon(s: Loop) {
    s.ending.RetriesExhausted? && s.fm.failed == 0
  }

  /** What every run keeps, whatever the limits: only a child whose limit is below the largest a
      16-bit field can hold, and that has failed a probe, is given up on. */
  ghost predicate Unlimited(s: Loop, f: nat, m: nat) {
    && s.fm.maxRetries == f && s.mon.maxRetries == m && s.fm.retries < USHORT && s.mon.retries < USHORT
    && (s.ending.RetriesExhausted? ==>
          (f < USHORT - 1 && s.fm.failed > 0) || (m < USHORT - 1 && s.mon.failed > 0))
  }

  lemma ProbedCounts(c: Child, probe: Probe)
    requires c.retries < USHORT
    ensures var (c', ending) := Probed(c, probe);
      && c'.maxRetries == c.maxRetries && c'.retries < USHORT && c'.failed >= c.failed
      && (ending.RetriesExhausted? ==> c.retries > c.maxRetries && c'.failed > 0)
  {
  }

  lemma GuardedIsUnlimited(s: Loop, answer: Answer, f: nat, m: nat)
    requires Unlimited(s, f, m)
    ensures Unlimited(Guarded(s, answer), f, m)
  {
  }

  lemma TickedIsUnlimited(s: Loop, tick: Tick, f: nat, m: nat)
    requires Unlimited(s, f, m)
    ensures Unlimited(Ticked(s, tick), f, m)
  {
    GuardedIsUnlimited(s, tick.drainFm, f, m);
    GuardedIsUnlimited(Guarded(s, tick.drainFm), tick.drainMon, f, m);
    var s2 := Guarded(Guarded(s, tick.drainFm), tick.drainMon);
    ProbedCounts(s2.fm, tick.probeFm);
    var s3 := FmProbed(s2, tick.probeFm);
    ProbedCounts(s3.mon, tick.probeMon.(respawn := tick.probeMon.respawn.(timers := true)));
  }

  lemma BranchesAreUnlimited(s: Loop, fm: Option<Answer>, mon: Option<Answer>, tick: Option<Tick>, f: nat, m: nat)
    requires Unlimited(s, f, m)
    ensures Unlimited(Branches(s, fm, mon, tick), f, m)
  {
    var s1, s2 := s, s;
    if fm.Some? {
      GuardedIsUnlimited(s, fm.value, f, m);
      s1 := Guarded(s, fm.value);
      s2 := s1;
    }
    if mon.Some? {
      GuardedIsUnlimited(s1, mon.value, f, m);
      s2 := Guarded(s1, mon.value);
    }
    if tick.Some? {
      TickedIsUnlimited(s2, tick.value, f, m);
    }
  }

  lemma EndedIsUnlimited(s: Loop, ending: Ending, f: nat, m: nat)
    requires Unlimited(s, f, m) && !ending.RetriesExhausted?
    ensures Unlimited(s.(ending := ending), f, m)
  {
  }

  lemma RoundIsUnlimited(s: Loop, poll: Poll, f: nat, m: nat)
    requires Unlimited(s, f, m) && s.ending.Running?
    ensures Unlimited(Round(s, poll), f, m)
  {
    match poll
    case PollFailed => EndedIsUnlimited(s, Failed, f, m);
    case PollInterrupted =>
    case Polled(signal, client, fm, mon, tick) =>
      EndedIsUnlimited(s, Failed, f, m);
      EndedIsUnlimited(s, Stopped, f, m);
      BranchesAreUnlimited(s, fm, mon, tick, f, m);
  }

  lemma {:induction false} RoundsAreUnlimited(s: Loop, script: seq<Poll>, f: nat, m: nat)
    requires Unlimited(s, f, m)
    ensures Unlimited(Rounds(s, script), f, m)
    decreases |script|
  {
    if script != [] && s.ending.Running? {
      RoundIsUnlimited(s, script[0], f, m);
      RoundsAreUnlimited(Round(s, script[0]), script[1..], f, m);
    }
  }

  /** A child's retry limit is one if and only if it is below 65535, the largest value its
      16-bit field can hold: with that value no run of the main loop, whatever happens in it,
      ends because of that child's failed probes. */
  lemma LimitWorksExactly(garbage: Word, f: nat, m: nat)
    requires f < USHORT && m < USHORT
    ensures (exists script :: GaveUpOnFm(Rounds(Begin(garbage, f, m), script))) <==> f < USHORT - 1
    ensures (exists script :: GaveUpOnMon(Rounds(Begin(garbage, f, m), script))) <==> m < USHORT - 1
    ensures (exists script :: Rounds(Begin(garbage, f, m), script).ending.RetriesExhausted?)
            <==> f < USHORT - 1 || m < USHORT - 1
  {
    var s := Begin(garbage, f, m);
    if f < USHORT - 1 {
      FmFailsOn(s, f + 2);
      assert GaveUpOnFm(Rounds(s, seq(f + 2, _ => ProbesOnly(FAILING, ANSWERED))));
    }
    if m < USHORT - 1 {
      MonFailsOn(s, m + 2);
      assert GaveUpOnMon(Rounds(s, seq(m + 2, _ => ProbesOnly(ANSWERED, FAILING))));
    }
    forall script ensures Unlimited(Rounds(s, script), f, m) {
      RoundsAreUnlimited(s, script, f, m);
    }
  }

  // ---- PANIC

  predicate NoPanicBefore(heard: seq<Answer>) {
    forall i :: 0 <= i < |heard| - 1 ==> !IsPanic(heard[i])
  }

  /** No word heard so far was a PANIC, except the very last one, and that one ended the run. */
  ghost predicate PanicInv(s: Loop) {
    && (s.ending.Running? ==> s.command != COMMAND_PANIC)
    && NoPanicBefore(s.heard)
    && (s.ending.Panicked? <==> s.heard != [] && IsPanic(s.heard[|s.heard| - 1]))
  }

  lemma GuardedHears(s: Loop, answer: Answer)
    requires PanicInv(s)
    ensures PanicInv(Guarded(s, answer))
  {
  }

  lemma TickedHears(s: Loop, tick: Tick)
    requires PanicInv(s)
    ensures PanicInv(Ticked(s, tick))
  {
    GuardedHears(s, tick.drainFm);
    var s1 := Guarded(s, tick.drainFm);
    GuardedHears(s1, tick.drainMon);
    var s2 := Guarded(s1, tick.drainMon);
    var s3 := FmProbed(s2, tick.probeFm);
    ProbedEnding(s2.fm, tick.probeFm);
    assert PanicInv(s3);
    ProbedEnding(s3.mon, tick.probeMon.(respawn := tick.probeMon.respawn.(timers := true)));
  }

  lemma ProbedEnding(c: Child, probe: Probe)
    ensures !Probed(c, probe).1.Panicked?
  {
  }

  lemma BranchesHear(s: Loop, fm: Option<Answer>, mon: Option<Answer>, tick: Option<Tick>)
    requires PanicInv(s)
    ensures PanicInv(Branches(s, fm, mon, tick))
  {
    var s1, s2 := s, s;
    if fm.Some? {
      GuardedHears(s, fm.value);
      s1 := Guarded(s, fm.value);
      s2 := s1;
    }
    if mon.Some? {
      GuardedHears(s1, mon.value);
      s2 := Guarded(s1, mon.value);
    }
    if tick.Some? {
      TickedHears(s2, tick.value);
    }
  }

  lemma EndedHears(s: Loop, ending: Ending)
    requires PanicInv(s) && s.ending.Running? && !ending.Running? && !ending.Panicked?
    ensures PanicInv(s.(ending := ending))
  {
  }

  lemma RoundHears(s: Loop, poll: Poll)
    requires PanicInv(s) && s.ending.Running?
    ensures PanicInv(Round(s, poll))
  {
    match poll
    case PollFailed => EndedHears(s, Failed);
    case PollInterrupted =>
    case Polled(signal, client, fm, mon, tick) =>
      EndedHears(s, Failed);
      EndedHears(s, Stopped);
      BranchesHear(s, fm, mon, tick);
  }

  lemma {:induction false} RoundsHear(s: Loop, script: seq<Poll>)
    requires PanicInv(s)
    ensures PanicInv(Rounds(s, script))
    decreases |script|
  {
    if script != [] && s.ending.Running? {
      RoundHears(s, script[0]);
      RoundsHear(Round(s, script[0]), script[1..]);
    }
  }

  /** The run ends in the PANIC exit when, and only when, a poll branch or a read before a
      probe has just delivered a PANIC word. */
  ghost predicate PanicIsHonest(s: Loop) {
    s.ending.Panicked? <==> s.heard != [] && IsPanic(s.heard[|s.heard| - 1])
  }

  /** Between two rounds the command variable does not hold PANIC. */
  ghost predicate NoPanicHeld(s: Loop) {
    s.ending.Running? ==> s.command != COMMAND_PANIC
  }

  /** The command variable is shared by all the reads and left alone by the ones that fail, but
      this never makes an old word count as a new PANIC: in every run the PANIC exit is taken
      exactly on a PANIC word just read, provided, and only provided, that the variable, which
      the source does not initialise, does not hold PANIC to begin with. */
  lemma PanicExactly(garbage: Word, f: nat, m: nat)
    ensures (forall script :: PanicIsHonest(Rounds(Begin(garbage, f, m), script))) <==> garbage != COMMAND_PANIC
    ensures (forall script :: NoPanicHeld(Rounds(Begin(garbage, f, m), script))) <==> garbage != COMMAND_PANIC
  {
    var s := Begin(garbage, f, m);
    if garbage != COMMAND_PANIC {
      forall script ensures PanicIsHonest(Rounds(s, script)) && NoPanicHeld(Rounds(s, script)) {
        RoundsHear(s, script);
      }
    } else {
      SpuriousPanic(f, m);
      HeldFromTheStart(f, m);
    }
  }

  lemma HeldFromTheStart(f: nat, m: nat)
    ensures !NoPanicHeld(Rounds(Begin(COMMAND_PANIC, f, m), []))
  {
  }

  /** A single poll whose read times out is enough. */
  lemma SpuriousPanic(f: nat, m: nat)
    ensures !PanicIsHonest(Rounds(Begin(COMMAND_PANIC, f, m), [Polled(None, None, Some(TimedOut), None, None)]))
  {
    var poll := Polled(None, None, Some(TimedOut), None, None);
    var s := Begin(COMMAND_PANIC, f, m);
    assert [poll][1..] == [];
    var s1 := Round(s, poll);
    assert s1.ending.Panicked? && s1.heard == [TimedOut];
    assert Rounds(s, [poll]) == Rounds(s1, []);
  }

  // ---- PANIC as the answer to a probe

  /** The probe with an ACK in the place of a PANIC answer. */
  function Calm(probe: Probe): Probe {
    if IsPanic(probe.answer) then probe.(answer := Got(COMMAND_ACK)) else probe
  }

  function CalmTick(tick: Tick): Tick {
    tick.(probeFm := Calm(tick.probeFm), probeMon := Calm(tick.probeMon))
  }

  /** The script with every PANIC that answers a probe replaced by an ACK. */
  function CalmPoll(poll: Poll): Poll {
    if poll.Polled? && poll.tick.Some? then poll.(tick := Some(CalmTick(poll.tick.value))) else poll
  }

  function CalmScript(script: seq<Poll>): seq<Poll> {
    if script == [] then [] else [CalmPoll(script[0])] + CalmScript(script[1..])
  }

  lemma CalmProbed(c: Child, probe: Probe)
    ensures Probed(c, Calm(probe)) == Probed(c, probe)
  {
    CommandsAsAck(COMMAND_ACK);
  }

  lemma CalmTicked(s: Loop, tick: Tick)
    ensures Ticked(s, CalmTick(tick)) == Ticked(s, tick)
  {
    var s2 := Guarded(Guarded(s, tick.drainFm), tick.drainMon);
    CalmProbed(s2.fm, tick.probeFm);
    var s3 := FmProbed(s2, tick.probeFm);
    CalmProbed(s3.mon, tick.probeMon.(respawn := tick.probeMon.respawn.(timers := true)));
  }

  lemma CalmRound(s: Loop, poll: Poll)
    ensures Round(s, CalmPoll(poll)) == Round(s, poll)
  {
    if poll.Polled? && poll.tick.Some? {
      var s1 := if poll.fm.Some? then Guarded(s, poll.fm.value) else s;
      var s2 := if poll.mon.Some? then Guarded(s1, poll.mon.value) else s1;
      CalmTicked(s2, poll.tick.value);
    }
  }

  /** A PANIC word that arrives as the answer to a probe is never noticed: every run goes
      exactly as if each such word had been an acknowledgement. */
  lemma {:induction false} PanicAnswersAreSwallowed(s: Loop, script: seq<Poll>)
    ensures Rounds(s, CalmScript(script)) == Rounds(s, script)
    decreases |script|
  {
    if script != [] && s.ending.Running? {
      assert CalmScript(script)[1..] == CalmScript(script[1..]);
      CalmRound(s, script[0]);
      PanicAnswersAreSwallowed(Round(s, script[0]), script[1..]);
    }
  }

  /** Each probe of the child in the script finds it alive and is answered by a PANIC. */
  predicate AlwaysPanics(script: seq<Poll>, fm: bool) {
    forall poll | poll in script && poll.Polled? && poll.tick.Some? ::
      var probe := if fm then poll.tick.value.probeFm else poll.tick.value.probeMon;
      probe.alive && IsPanic(probe.answer)
  }

  lemma PanickedProbe(c: Child, probe: Probe)
    requires probe.alive && IsPanic(probe.answer)
    ensures Probed(c, probe) == (c, Running)
  {
  }

  function ChildOf(s: Loop, fm: bool): Child {
    if fm then s.fm else s.mon
  }

  lemma PanickedTick(s: Loop, tick: Tick, fm: bool)
    requires var probe := if fm then tick.probeFm else tick.probeMon; probe.alive && IsPanic(probe.answer)
    ensures ChildOf(Ticked(s, tick), fm) == ChildOf(s, fm)
  {
    var s2 := Guarded(Guarded(s, tick.drainFm), tick.drainMon);
    assert ChildOf(s2, fm) == ChildOf(s, fm);
    if fm {
      PanickedProbe(s2.fm, tick.probeFm);
    } else {
      PanickedProbe(FmProbed(s2, tick.probeFm).mon, tick.probeMon.(respawn := tick.probeMon.respawn.(timers := true)));
    }
  }

  lemma PanickedRound(s: Loop, poll: Poll, fm: bool)
    requires AlwaysPanics([poll], fm)
    ensures ChildOf(Round(s, poll), fm) == ChildOf(s, fm)
  {
    assert poll in [poll];
    if poll.Polled? && poll.tick.Some? {
      var s1 := if poll.fm.Some? then Guarded(s, poll.fm.value) else s;
      var s2 := if poll.mon.Some? then Guarded(s1, poll.mon.value) else s1;
      assert ChildOf(s2, fm) == ChildOf(s, fm);
      PanickedTick(s2, poll.tick.value, fm);
    }
  }

  /** So a child that answers every probe with PANIC is never counted as failed and never
      started anew, in any run: the daemon holds for it what it held at the start. */
  lemma {:induction false} PanickingChildIsKept(s: Loop, script: seq<Poll>, fm: bool)
    requires AlwaysPanics(script, fm)
    ensures ChildOf(Rounds(s, script), fm) == ChildOf(s, fm)
    decreases |script|
  {
    if script != [] && s.ending.Running? {
      assert script[0] in script && AlwaysPanics([script[0]], fm);
      PanickedRound(s, script[0], fm);
      assert AlwaysPanics(script[1..], fm);
      PanickingChildIsKept(Round(s, script[0]), script[1..], fm);
    }
  }
}

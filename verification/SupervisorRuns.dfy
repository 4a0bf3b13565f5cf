/** The supervisor's main loop told from its script alone: how the counters of a child follow
    from what its probes met, and how each run goes on or ends. Nothing here speaks of the
    functions that the loop is computed with, but of words, answers and outcomes. */
module SupervisorRuns {
  import opened IpcCodec
  import opened Options
  import opened Supervisor
  import opened SupervisorTheorems

  // ---- what the script says

  /** The answer is a word with the command tag. */
  predicate Tagged(answer: Answer) {
    answer.Got? && answer.word & 0xFF000000 == 0xFF000000
  }

  predicate PanicWord(answer: Answer) {
    Tagged(answer) && answer.word & 0xFFFFFFFF == 0xFFACFFAC
  }

  /** The probe fails: the child is dead, or what it sends in time is no command. */
  predicate NoAnswer(probe: Probe) {
    !probe.alive || !Tagged(probe.answer)
  }

  predicate NewPipes(probe: Probe) {
    NoAnswer(probe) && probe.respawn.pipes.BothPipes? && probe.respawn.forked
  }

  predicate HalfPipes(probe: Probe) {
    NoAnswer(probe) && probe.respawn.pipes.OnePipe?
  }

  /** The child that was to replace the failed one cannot be forked, does not say hello, or, if
      it is to report timers, does not report them. */
  predicate BadRespawn(probe: Probe, reports: bool) {
    var spawn := probe.respawn;
    NoAnswer(probe) && ((spawn.pipes.BothPipes? && !spawn.forked) || !spawn.hello || (reports && !spawn.timers))
  }

  /** The poll gets to the probes, if it gets past its reads. */
  predicate Ticks(poll: Poll) {
    poll.Polled? && poll.tick.Some? && poll.client != Some(AcceptFailed)
  }

  function ProbeOf(poll: Poll, fm: bool): Probe
    requires Ticks(poll)
  {
    if fm then poll.tick.value.probeFm else poll.tick.value.probeMon
  }

  /** How many probes of the child in the script are of a kind. */
  function Count(script: seq<Poll>, fm: bool, which: Probe -> bool): nat {
    if script == [] then 0
    else (if Ticks(script[0]) && which(ProbeOf(script[0], fm)) then 1 else 0) + Count(script[1..], fm, which)
  }

  lemma {:induction false} CountSnoc(script: seq<Poll>, poll: Poll, fm: bool, which: Probe -> bool)
    ensures Count(script + [poll], fm, which)
         == Count(script, fm, which) + (if Ticks(poll) && which(ProbeOf(poll, fm)) then 1 else 0)
    decreases |script|
  {
    if script == [] {
      assert [] + [poll] == [poll] && [poll][1..] == [];
    } else {
      CountSnoc(script[1..], poll, fm, which);
      assert (script + [poll])[1..] == script[1..] + [poll];
    }
  }

  lemma {:induction false} RoundsSnoc(s: Loop, script: seq<Poll>, poll: Poll)
    ensures Rounds(s, script + [poll])
         == (if Rounds(s, script).ending.Running? then Round(Rounds(s, script), poll) else Rounds(s, script))
    decreases |script|
  {
    if script == [] {
      assert [] + [poll] == [poll] && [poll][1..] == [];
    } else {
      assert (script + [poll])[1..] == script[1..] + [poll];
      if s.ending.Running? {
        RoundsSnoc(Round(s, script[0]), script[1..], poll);
      }
    }
  }

  // ---- the counters

  /** What one probe adds to the child, while the run goes on. */
  lemma ProbeAddsUp(c: Child, probe: Probe, reports: bool)
    requires c.retries < USHORT
    ensures var (c', ending) := Probed(c, if reports then probe else probe.(respawn := probe.respawn.(timers := true)));
      && (NoAnswer(probe) ==>
            && c'.failed == c.failed + 1 && c'.retries == (c.retries + 1) % 65536
            && ending == if c.retries > c.maxRetries then RetriesExhausted
                         else if BadRespawn(probe, reports) then SpawnFailed else Running)
      && (!NoAnswer(probe) ==> (c', ending) == (c, Running))
      && (ending.Running? ==>
            && c'.spawns == c.spawns + (if NewPipes(probe) then 1 else 0)
            && c'.halves == c.halves + (if HalfPipes(probe) then 1 else 0)
            && c'.ends == c.ends + (if NewPipes(probe) || HalfPipes(probe) then 2 else 0))
      && c'.maxRetries == c.maxRetries
  {
  }

  /** How a read that is followed by the test for PANIC goes, when no PANIC is held. */
  lemma GuardedGoesOn(s: Loop, answer: Answer)
    requires s.ending.Running? && s.command != COMMAND_PANIC
    ensures var next := Guarded(s, answer);
      && next.fm == s.fm && next.mon == s.mon
      && next.ending == (if PanicWord(answer) then Panicked else Running)
      && (next.ending.Running? ==> next.command != COMMAND_PANIC)
  {
  }

  /** How a poll ends, told from the poll and the failed probes so far. */
  function Outcome(poll: Poll, fmFailed: nat, monFailed: nat, f: nat, m: nat): Ending {
    match poll
    case PollFailed => Failed
    case PollInterrupted => Running
    case Polled(signal, client, fm, mon, tick) =>
      if signal == Some(BadSignalRead) then Failed
      else if signal == Some(Terminate) then Stopped
      else if client == Some(AcceptFailed) then Running
      else if client == Some(Served(true)) then Stopped
      else BranchesOutcome(fm, mon, tick, fmFailed, monFailed, f, m)
  }

  function BranchesOutcome(fm: Option<Answer>, mon: Option<Answer>, tick: Option<Tick>,
      fmFailed: nat, monFailed: nat, f: nat, m: nat): Ending
  {
    if (fm.Some? && PanicWord(fm.value)) || (mon.Some? && PanicWord(mon.value)) then Panicked
    else if tick.None? then Running
    else TickOutcome(tick.value, fmFailed, monFailed, f, m)
  }

  function TickOutcome(tick: Tick, fmFailed: nat, monFailed: nat, f: nat, m: nat): Ending {
    if !tick.rearmed then Failed
    else if PanicWord(tick.drainFm) || PanicWord(tick.drainMon) then Panicked
    else if NoAnswer(tick.probeFm) && fmFailed == f + 1 then RetriesExhausted
    else if BadRespawn(tick.probeFm, true) then SpawnFailed
    else if NoAnswer(tick.probeMon) && monFailed == m + 1 then RetriesExhausted
    else if BadRespawn(tick.probeMon, false) then SpawnFailed
    else Running
  }

  /** The child's counters are those that the script makes, from one spawn and two pipe ends on. */
  ghost predicate AddsUp(c: Child, max: nat, script: seq<Poll>, fm: bool) {
    && c.maxRetries == max
    && c.failed == Count(script, fm, NoAnswer) && c.retries == c.failed % 65536
    && c.spawns == 1 + Count(script, fm, NewPipes)
    && c.halves == Count(script, fm, HalfPipes)
    && c.ends == 2 * (c.spawns + c.halves)
  }

  ghost predicate RunAddsUp(s: Loop, f: nat, m: nat, script: seq<Poll>) {
    s.command != COMMAND_PANIC && AddsUp(s.fm, f, script, true) && AddsUp(s.mon, m, script, false)
  }

  lemma ChildAddsUp(c: Child, max: nat, script: seq<Poll>, poll: Poll, fm: bool)
    requires AddsUp(c, max, script, fm) && Ticks(poll)
    ensures var probe := ProbeOf(poll, fm);
      var (c', ending) := Probed(c, if fm then probe else probe.(respawn := probe.respawn.(timers := true)));
      && (ending.Running? ==> AddsUp(c', max, script + [poll], fm))
      && (max < 65535 && c.failed <= max + 1 ==>
            ending == if NoAnswer(probe) && c.failed == max + 1 then RetriesExhausted
                      else if BadRespawn(probe, fm) then SpawnFailed else Running)
  {
    ProbeAddsUp(c, ProbeOf(poll, fm), fm);
    CountSnoc(script, poll, fm, NoAnswer);
    CountSnoc(script, poll, fm, NewPipes);
    CountSnoc(script, poll, fm, HalfPipes);
  }

  lemma NothingAdded(c: Child, max: nat, script: seq<Poll>, poll: Poll, fm: bool)
    requires AddsUp(c, max, script, fm) && !Ticks(poll)
    ensures AddsUp(c, max, script + [poll], fm)
  {
    CountSnoc(script, poll, fm, NoAnswer);
    CountSnoc(script, poll, fm, NewPipes);
    CountSnoc(script, poll, fm, HalfPipes);
  }

  // ---- one poll, and runs

  /** The limits leave the 16-bit counters room, and both children are within them. */
  predicate WithinLimits(s: Loop, f: nat, m: nat) {
    f < 65535 && m < 65535 && s.fm.failed <= f + 1 && s.mon.failed <= m + 1
  }

  /** The two reads before the probes leave the children alone. */
  lemma DrainsGoOn(s: Loop, tick: Tick)
    requires s.ending.Running? && s.command != COMMAND_PANIC && tick.rearmed
    ensures var s2 := Guarded(Guarded(s, tick.drainFm), tick.drainMon);
      && s2.fm == s.fm && s2.mon == s.mon
      && s2.ending == (if PanicWord(tick.drainFm) || PanicWord(tick.drainMon) then Panicked else Running)
      && (s2.ending.Running? ==> s2.command != COMMAND_PANIC)
      && Ticked(s, tick) == MonProbed(FmProbed(s2, tick.probeFm), tick.probeMon)
  {
    GuardedGoesOn(s, tick.drainFm);
    var s1 := Guarded(s, tick.drainFm);
    if s1.ending.Running? {
      GuardedGoesOn(s1, tick.drainMon);
    }
  }

  lemma TickGoesOn(s: Loop, f: nat, m: nat, script: seq<Poll>, poll: Poll)
    requires s.ending.Running? && RunAddsUp(s, f, m, script) && Ticks(poll)
    ensures var next := Ticked(s, poll.tick.value);
      && (next.ending.Running? ==> RunAddsUp(next, f, m, script + [poll]))
      && (WithinLimits(s, f, m) ==> next.ending == TickOutcome(poll.tick.value, s.fm.failed, s.mon.failed, f, m))
  {
    var tick := poll.tick.value;
    if tick.rearmed {
      DrainsGoOn(s, tick);
      ChildAddsUp(s.fm, f, script, poll, true);
      ChildAddsUp(s.mon, m, script, poll, false);
    }
  }

  lemma ReadsGoOn(s: Loop, fm: Option<Answer>, mon: Option<Answer>)
    requires s.ending.Running? && s.command != COMMAND_PANIC
    ensures var s2 := Branches(s, fm, mon, None);
      && s2.fm == s.fm && s2.mon == s.mon
      && s2.ending == (if (fm.Some? && PanicWord(fm.value)) || (mon.Some? && PanicWord(mon.value)) then Panicked
                       else Running)
      && (s2.ending.Running? ==> s2.command != COMMAND_PANIC)
  {
    var s1 := if fm.Some? then Guarded(s, fm.value) else s;
    if fm.Some? {
      GuardedGoesOn(s, fm.value);
    }
    if mon.Some? && s1.ending.Running? {
      GuardedGoesOn(s1, mon.value);
    }
  }

  lemma BranchesGoOn(s: Loop, f: nat, m: nat, script: seq<Poll>, poll: Poll)
    requires s.ending.Running? && RunAddsUp(s, f, m, script) && poll.Polled? && poll.client != Some(AcceptFailed)
    ensures var next := Branches(s, poll.fm, poll.mon, poll.tick);
      && (next.ending.Running? ==> RunAddsUp(next, f, m, script + [poll]))
      && (WithinLimits(s, f, m) ==>
            next.ending == BranchesOutcome(poll.fm, poll.mon, poll.tick, s.fm.failed, s.mon.failed, f, m))
  {
    ReadsGoOn(s, poll.fm, poll.mon);
    var s2 := Branches(s, poll.fm, poll.mon, None);
    if poll.tick.None? {
      NothingAdded(s.fm, f, script, poll, true);
      NothingAdded(s.mon, m, script, poll, false);
    } else {
      assert Branches(s, poll.fm, poll.mon, poll.tick) == Ticked(s2, poll.tick.value);
      if s2.ending.Running? {
        TickGoesOn(s2, f, m, script, poll);
      }
    }
  }

  lemma RoundGoesOn(s: Loop, f: nat, m: nat, script: seq<Poll>, poll: Poll)
    requires s.ending.Running? && RunAddsUp(s, f, m, script)
    ensures var next := Round(s, poll);
      && (next.ending.Running? ==> RunAddsUp(next, f, m, script + [poll]))
      && (WithinLimits(s, f, m) ==> next.ending == Outcome(poll, s.fm.failed, s.mon.failed, f, m))
  {
    if !Ticks(poll) {
      NothingAdded(s.fm, f, script, poll, true);
      NothingAdded(s.mon, m, script, poll, false);
    }
    match poll
    case PollFailed =>
    case PollInterrupted =>
    case Polled(signal, client, fm, mon, tick) =>
      if client != Some(AcceptFailed) {
        BranchesGoOn(s, f, m, script, poll);
      }
  }

  lemma OutcomeRuns(poll: Poll, fmFailed: nat, monFailed: nat, f: nat, m: nat)
    requires fmFailed <= f + 1 && monFailed <= m + 1
    ensures Outcome(poll, fmFailed, monFailed, f, m).Running?
       <==> && poll != PollFailed && Harmless(poll)
            && (Ticks(poll) && NoAnswer(ProbeOf(poll, true)) ==> fmFailed <= f)
            && (Ticks(poll) && NoAnswer(ProbeOf(poll, false)) ==> monFailed <= m)
  {
  }

  lemma {:induction false} RunsAddUp(garbage: Word, f: nat, m: nat, script: seq<Poll>)
    requires garbage != COMMAND_PANIC && Rounds(Begin(garbage, f, m), script).ending.Running?
    ensures RunAddsUp(Rounds(Begin(garbage, f, m), script), f, m, script)
    decreases |script|
  {
    if script != [] {
      var before, poll := script[..|script| - 1], script[|script| - 1];
      assert script == before + [poll];
      RoundsSnoc(Begin(garbage, f, m), before, poll);
      RunsAddUp(garbage, f, m, before);
      RoundGoesOn(Rounds(Begin(garbage, f, m), before), f, m, before, poll);
    }
  }

  /** While a run goes on, a child's failed probes are exactly those that found it dead or got no
      word with the command tag in time, whatever the limits; the retry counter is their number
      in 16 bits; and its spawns and the daemon's pipe ends for it are those of the first start
      and of the failed probes that came as far as new pipes. */
  lemma CountersExactly(garbage: Word, f: nat, m: nat, script: seq<Poll>)
    requires garbage != 0xFFACFFAC && Rounds(Begin(garbage, f, m), script).ending.Running?
    ensures var s := Rounds(Begin(garbage, f, m), script);
      && s.fm.failed == Count(script, true, NoAnswer) && s.mon.failed == Count(script, false, NoAnswer)
      && s.fm.retries == s.fm.failed % 65536 && s.mon.retries == s.mon.failed % 65536
      && s.fm.spawns == 1 + Count(script, true, NewPipes) && s.mon.spawns == 1 + Count(script, false, NewPipes)
      && s.fm.ends == 2 * (1 + Count(script, true, NewPipes) + Count(script, true, HalfPipes))
      && s.mon.ends == 2 * (1 + Count(script, false, NewPipes) + Count(script, false, HalfPipes))
  {
    RunsAddUp(garbage, f, m, script);
  }

  /** How every run goes on from where it has got to: the next poll ends it as `Outcome` says,
      with the failed probes so far counted from the script. */
  lemma RunEndsExactly(garbage: Word, f: nat, m: nat, script: seq<Poll>, poll: Poll)
    requires garbage != 0xFFACFFAC && f < 65535 && m < 65535
    requires Rounds(Begin(garbage, f, m), script).ending.Running?
    ensures Rounds(Begin(garbage, f, m), script + [poll]).ending
         == Outcome(poll, Count(script, true, NoAnswer), Count(script, false, NoAnswer), f, m)
  {
    var s := Rounds(Begin(garbage, f, m), script);
    RunsAddUp(garbage, f, m, script);
    RoundsAreBounded(Begin(garbage, f, m), script, f, m);
    RoundsSnoc(Begin(garbage, f, m), script, poll);
    RoundGoesOn(s, f, m, script, poll);
  }

  /** Nothing in the poll ends the run, as long as the retries last. */
  predicate Harmless(poll: Poll) {
    poll.Polled? ==>
      && poll.signal != Some(BadSignalRead) && poll.signal != Some(Terminate) && poll.client != Some(Served(true))
      && (poll.client != Some(AcceptFailed) ==>
            && !(poll.fm.Some? && PanicWord(poll.fm.value)) && !(poll.mon.Some? && PanicWord(poll.mon.value))
            && (poll.tick.Some? ==>
                  var tick := poll.tick.value;
                  && tick.rearmed && !PanicWord(tick.drainFm) && !PanicWord(tick.drainMon)
                  && !BadRespawn(tick.probeFm, true) && !BadRespawn(tick.probeMon, false)))
  }

  predicate AllHarmless(script: seq<Poll>) {
    forall poll | poll in script :: poll != PollFailed && Harmless(poll)
  }

  /** A run goes on if and only if poll never fails, nothing in any poll ends it, and neither
      child has failed more than its limit + 1 probes. */
  lemma {:induction false} RunsOnExactly(garbage: Word, f: nat, m: nat, script: seq<Poll>)
    requires garbage != 0xFFACFFAC && f < 65535 && m < 65535
    ensures Rounds(Begin(garbage, f, m), script).ending.Running?
       <==> && AllHarmless(script)
            && Count(script, true, NoAnswer) <= f + 1 && Count(script, false, NoAnswer) <= m + 1
    decreases |script|
  {
    if script != [] {
      var before, poll := script[..|script| - 1], script[|script| - 1];
      assert script == before + [poll];
      RunsOnExactly(garbage, f, m, before);
      RoundsSnoc(Begin(garbage, f, m), before, poll);
      CountSnoc(before, poll, true, NoAnswer);
      CountSnoc(before, poll, false, NoAnswer);
      assert AllHarmless(script) <==> AllHarmless(before) && poll != PollFailed && Harmless(poll) by {
        assert forall p :: p in script <==> p in before || p == poll;
      }
      if Rounds(Begin(garbage, f, m), before).ending.Running? {
        RunEndsExactly(garbage, f, m, before, poll);
        OutcomeRuns(poll, Count(before, true, NoAnswer), Count(before, false, NoAnswer), f, m);
      }
    }
  }

  /** A poll in which only the timer of the probes is due: the file manager is alive and silent,
      the monitor answers with an ACK, and every respawn works. */
  const SILENT: Poll :=
    Polled(None, None, None, None,
           Some(Tick(true, TimedOut, TimedOut,
                     Probe(true, TimedOut, Spawn(BothPipes, true, true, true)),
                     Probe(true, Got(0xFF000002), Spawn(BothPipes, true, true, true)))))

  lemma {:induction false} SilentCounts(n: nat)
    ensures var script := seq(n, _ => SILENT);
      Count(script, true, NoAnswer) == n == Count(script, true, NewPipes) && Count(script, false, NoAnswer) == 0
  {
    if n > 0 {
      var script := seq(n, _ => SILENT);
      assert script[0] == SILENT && script[1..] == seq(n - 1, _ => SILENT);
      SilentCounts(n - 1);
    }
  }

  lemma {:induction false} SilentHalves(n: nat)
    ensures Count(seq(n, _ => SILENT), true, HalfPipes) == 0
  {
    if n > 0 {
      var script := seq(n, _ => SILENT);
      assert script[0] == SILENT && script[1..] == seq(n - 1, _ => SILENT);
      SilentHalves(n - 1);
    }
  }

  lemma SilentChildLives(garbage: Word, f: nat, m: nat, n: nat)
    requires garbage != 0xFFACFFAC && f < 65535 && m < 65535 && n <= f + 1
    ensures var s := Rounds(Begin(garbage, f, m), seq(n, _ => SILENT));
      s.ending.Running? && s.fm == Child(f, n, n, n + 1, 0, 2 * (n + 1))
  {
    var script := seq(n, _ => SILENT);
    SilentCounts(n);
    SilentHalves(n);
    RunsOnExactly(garbage, f, m, script);
    RunsAddUp(garbage, f, m, script);
  }

  /** A child that is alive but never answers is started anew at each probe up to number
      limit + 1, and ends the run at probe number limit + 2. */
  lemma SilentChildEnds(garbage: Word, f: nat, m: nat, n: nat)
    requires garbage != 0xFFACFFAC && f < 65535 && m < 65535
    ensures n <= f + 1 ==>
      var s := Rounds(Begin(garbage, f, m), seq(n, _ => SILENT));
      s.ending.Running? && s.fm == Child(f, n, n, n + 1, 0, 2 * (n + 1))
    ensures n == f + 2 ==> Rounds(Begin(garbage, f, m), seq(n, _ => SILENT)).ending.RetriesExhausted?
  {
    if n <= f + 1 {
      SilentChildLives(garbage, f, m, n);
    } else if n == f + 2 {
      var before := seq(n - 1, _ => SILENT);
      assert seq(n, _ => SILENT) == before + [SILENT];
      SilentCounts(n - 1);
      SilentChildLives(garbage, f, m, n - 1);
      RunEndsExactly(garbage, f, m, before, SILENT);
    }
  }

  /** What the command variable holds at the start matters in one case: if that is PANIC, the
      first read takes the PANIC exit unless it gets a word with the command tag that is none. */
  lemma HeldPanicStrikes(f: nat, m: nat, answer: Answer)
    ensures Rounds(Begin(0xFFACFFAC, f, m), [Polled(None, None, Some(answer), None, None)]).ending
         == if Tagged(answer) && !PanicWord(answer) then Running else Panicked
  {
    var poll, s := Polled(None, None, Some(answer), None, None), Begin(0xFFACFFAC, f, m);
    assert [] + [poll] == [poll];
    RoundsSnoc(s, [], poll);
    assert Round(s, poll) == Guarded(s, answer);
  }
}

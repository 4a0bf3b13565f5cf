/** reportmand's main loop with everything it waits for given by a script: what each poll
    reports, what each read delivers, how each probe and each spawn goes. A script is a
    finite piece of a run, so a claim about all scripts is a claim about all runs. */
module Supervisor {
  import opened IpcCodec
  import opened Options

  /** What one select-and-read of ipc_get_command meets. */
  datatype Answer = TimedOut | SelectFailed | ReadFailed | Got(word: Word)

  const IPC_TIMEOUT_ERR: int := -3

  function GetResult(answer: Answer): int {
    match answer
    case TimedOut => IPC_TIMEOUT_ERR
    case SelectFailed => 0
    case ReadFailed => 0
    case Got(word) => if IsCommand(word) then 1 else 0
  }

  /** The command variable after ipc_get_command: only a tagged word replaces it. */
  function Held(command: Word, answer: Answer): Word {
    if answer.Got? && IsCommand(answer.word) then AsCommand(answer.word) else command
  }

  predicate IsPanic(answer: Answer) {
    answer.Got? && IsCommand(answer.word) && AsCommand(answer.word) == COMMAND_PANIC
  }

  // ---- one child

  /** How start_child_process fares; a failing pipe is reported to a caller that does not look. */
  datatype Pipes = BothPipes | OnePipe | NoPipe

  datatype Spawn = Spawn(pipes: Pipes, forked: bool, hello: bool, timers: bool)

  datatype Probe = Probe(alive: bool, answer: Answer, respawn: Spawn)

  datatype Ending = Running | Panicked | RetriesExhausted | SpawnFailed | Stopped | Failed

  /** `failed` counts failed probes, `spawns` completed spawns and `ends` the pipe ends that
      the daemon holds for the child. */
  datatype Child = Child(maxRetries: nat, retries: nat, failed: nat, spawns: nat, halves: nat, ends: nat)

  const USHORT: nat := 0x10000

  /** __child_spawn and what follows it. */
  function Respawned(c: Child, spawn: Spawn): (Child, Ending) {
    var c' := match spawn.pipes
      case BothPipes => if spawn.forked then c.(spawns := c.spawns + 1, ends := c.ends + 2) else c
      case OnePipe => c.(halves := c.halves + 1, ends := c.ends + 2)
      case NoPipe => c;
    (c', if (spawn.pipes.BothPipes? && !spawn.forked) || !spawn.hello || !spawn.timers then SpawnFailed else Running)
  }

  /** __health_probe_child_process. */
  function Probed(c: Child, probe: Probe): (Child, Ending) {
    if probe.alive && GetResult(probe.answer) == 1 then (c, Running)
    else
      var counted := c.(retries := (c.retries + 1) % USHORT, failed := c.failed + 1);
      if c.retries > c.maxRetries then (counted, RetriesExhausted) else Respawned(counted, probe.respawn)
  }

  /** child_process_t, with the counters that the claims are about. */
  class ChildProcess {
    const maxRetries: nat
    var retries: nat
    var isAlive: bool
    var failed: nat
    var spawns: nat
    var halves: nat
    var ends: nat

    /** After the first spawn. */
    constructor (maxRetries: nat)
      requires maxRetries < USHORT
      ensures View() == Child(maxRetries, 0, 0, 1, 0, 2)
    {
      this.maxRetries := maxRetries;
      retries, isAlive, failed, spawns, halves, ends := 0, true, 0, 1, 0, 2;
    }

    function View(): Child
      reads this
    {
      Child(maxRetries, retries, failed, spawns, halves, ends)
    }

    method StartChildProcess(spawn: Spawn) returns (ok: bool)
      modifies this
      ensures (View(), if ok then Running else SpawnFailed)
           == Respawned(old(View()), spawn.(hello := true, timers := true))
    {
      match spawn.pipes {
        case NoPipe => return true;
        case OnePipe => halves, ends := halves + 1, ends + 2; return true;
        case BothPipes =>
      }
      if !spawn.forked {
        return false;
      }
      ends := ends + 4;
      ends := ends - 2;
      spawns, isAlive := spawns + 1, true;
      ok := true;
    }

    method HealthProbe(probe: Probe) returns (ending: Ending)
      modifies this
      ensures (View(), ending) == Probed(old(View()), probe)
      ensures failed == old(failed)
        + if probe.alive && probe.answer.Got? && probe.answer.word & 0xFF000000 == 0xFF000000 then 0 else 1
    {
      isAlive := probe.alive;
      if isAlive {
        if GetResult(probe.answer) == 1 {
          return Running;
        }
        isAlive := false;
      }
      var before := retries;
      retries := (retries + 1) % USHORT;
      failed := failed + 1;
      if before > maxRetries {
        return RetriesExhausted;
      }
      var ok := StartChildProcess(probe.respawn);
      ending := if ok && probe.respawn.hello && probe.respawn.timers then Running else SpawnFailed;
    }
  }

  // ---- the main loop

  datatype Signal = BadSignalRead | Terminate | OtherSignal

  datatype Client = AcceptFailed | Served(close: bool)

  datatype Tick = Tick(rearmed: bool, drainFm: Answer, drainMon: Answer, probeFm: Probe, probeMon: Probe)

  datatype Poll =
    | PollFailed
    | PollInterrupted
    | Polled(
        signal: Option<Signal>, client: Option<Client>,
        fm: Option<Answer>, mon: Option<Answer>, tick: Option<Tick>)

  /** `heard`: what the reads that are followed by a test for PANIC have delivered. */
  datatype Loop = Loop(command: Word, fm: Child, mon: Child, ending: Ending, heard: seq<Answer>)

  function Guarded(s: Loop, answer: Answer): Loop {
    if !s.ending.Running? then s else
      var command := Held(s.command, answer);
      s.(command := command, heard := s.heard + [answer],
         ending := if command == COMMAND_PANIC then Panicked else Running)
  }

  function FmProbed(s: Loop, probe: Probe): Loop {
    if !s.ending.Running? then s else
      var (child, ending) := Probed(s.fm, probe);
      s.(fm := child, ending := ending)
  }

  function MonProbed(s: Loop, probe: Probe): Loop {
    if !s.ending.Running? then s else
      var (child, ending) := Probed(s.mon, probe.(respawn := probe.respawn.(timers := true)));
      s.(mon := child, ending := ending)
  }

  function Ticked(s: Loop, tick: Tick): Loop {
    if !s.ending.Running? then s
    else if !tick.rearmed then s.(ending := Failed)
    else MonProbed(FmProbed(Guarded(Guarded(s, tick.drainFm), tick.drainMon), tick.probeFm), tick.probeMon)
  }

  /** The poll branches that come after the signal and the client. */
  function Branches(s: Loop, fm: Option<Answer>, mon: Option<Answer>, tick: Option<Tick>): Loop {
    var s1 := if fm.Some? then Guarded(s, fm.value) else s;
    var s2 := if mon.Some? then Guarded(s1, mon.value) else s1;
    if tick.Some? then Ticked(s2, tick.value) else s2
  }

  function Round(s: Loop, poll: Poll): Loop {
    match poll
    case PollFailed => s.(ending := Failed)
    case PollInterrupted => s
    case Polled(signal, client, fm, mon, tick) =>
      if signal == Some(BadSignalRead) then s.(ending := Failed)
      else if signal == Some(Terminate) then s.(ending := Stopped)
      else if client == Some(AcceptFailed) then s
      else if client == Some(Served(true)) then s.(ending := Stopped)
      else Branches(s, fm, mon, tick)
  }

  function Rounds(s: Loop, script: seq<Poll>): Loop
    decreases |script|
  {
    if script == [] || !s.ending.Running? then s else Rounds(Round(s, script[0]), script[1..])
  }

  class Daemon {
    var command: Word
    const fm: ChildProcess
    const mon: ChildProcess
    ghost var heard: seq<Answer>

    ghost predicate Valid()
    {
      fm != mon
    }

    constructor (garbage: Word, fm: ChildProcess, mon: ChildProcess)
      requires fm != mon
      ensures Valid() && this.fm == fm && this.mon == mon && command == garbage && heard == []
    {
      this.command, this.fm, this.mon, heard := garbage, fm, mon, [];
    }

    ghost function View(ending: Ending): Loop
      reads this, fm, mon
    {
      Loop(command, fm.View(), mon.View(), ending, heard)
    }

    method GuardedRead(answer: Answer) returns (ending: Ending)
      requires Valid()
      modifies this
      ensures View(ending) == Guarded(old(View(Running)), answer)
    {
      if answer.Got? && IsCommand(answer.word) {
        command := AsCommand(answer.word);
      }
      heard := heard + [answer];
      ending := if command == COMMAND_PANIC then Panicked else Running;
    }

    method HealthTick(tick: Tick) returns (ending: Ending)
      requires Valid()
      modifies this, fm, mon
      ensures View(ending) == Ticked(old(View(Running)), tick)
    {
      if !tick.rearmed {
        return Failed;
      }
      ending := GuardedRead(tick.drainFm);
      if !ending.Running? {
        return;
      }
      ending := GuardedRead(tick.drainMon);
      if !ending.Running? {
        return;
      }
      ending := fm.HealthProbe(tick.probeFm);
      if !ending.Running? {
        return;
      }
      ending := mon.HealthProbe(tick.probeMon.(respawn := tick.probeMon.respawn.(timers := true)));
    }

    method OnePoll(poll: Poll) returns (ending: Ending)
      requires Valid()
      modifies this, fm, mon
      ensures View(ending) == Round(old(View(Running)), poll)
    {
      ending := Running;
      if poll.PollFailed? {
        return Failed;
      }
      if poll.PollInterrupted? {
        return;
      }
      if poll.signal.Some? {
        match poll.signal.value {
          case BadSignalRead => return Failed;
          case Terminate => return Stopped;
          case OtherSignal =>
        }
      }
      if poll.client.Some? {
        match poll.client.value {
          case AcceptFailed => return;
          case Served(close) => if close { return Stopped; }
        }
      }
      if poll.fm.Some? {
        ending := GuardedRead(poll.fm.value);
        if !ending.Running? {
          return;
        }
      }
      if poll.mon.Some? {
        ending := GuardedRead(poll.mon.value);
        if !ending.Running? {
          return;
        }
      }
      if poll.tick.Some? {
        ending := HealthTick(poll.tick.value);
      }
    }

    /** __listen_to_clients, for as long as the script goes. */
    method ListenToClients(script: seq<Poll>) returns (ending: Ending)
      requires Valid()
      modifies this, fm, mon
      ensures View(ending) == Rounds(old(View(Running)), script)
    {
      ending := Running;
      var i := 0;
      while i < |script| && ending.Running?
        invariant 0 <= i <= |script|
        invariant Rounds(View(ending), script[i..]) == Rounds(old(View(Running)), script)
      {
        ending := OnePoll(script[i]);
        assert script[i..][1..] == script[i + 1..];
        i := i + 1;
      }
    }
  }
}

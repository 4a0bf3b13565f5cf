/** The daemon and one child over the life of several pipe generations: start-up handshake,
    health probes with timeouts, kills and respawns with fresh pipes, every interleaving. The
    child answers each probe with one ACK and sends nothing else after its start-up. */
module ProbeProtocol {
  import opened IpcCodec

  /** A word in a pipe with the bookkeeping the processes do not see: the generation of the
      pipe and the number of the probe it is, or answers. */
  datatype Msg =
    | Hello(gen: nat)
    | Timer(gen: nat, value: Word)
    | Probe(gen: nat, serial: nat)
    | Reply(gen: nat, serial: nat)

  /** The word itself; an ACK looks the same whatever it acknowledges. */
  function WordOf(m: Msg): Word {
    match m
    case Hello(_) => COMMAND_ACK
    case Timer(_, value) => Encode(value)
    case Probe(_, _) => COMMAND_HEALTH_PROBE
    case Reply(_, _) => COMMAND_ACK
  }

  /** What the child reports at start-up; a monitor reports nothing. */
  datatype Kind = Monitor | FileManager(backup: Word, transfer: Word)

  /** The words of the report: a timer id that does not fit the codec ends it. */
  function Report(kind: Kind, gen: nat): seq<Msg> {
    if kind.Monitor? || !Sendable(kind.backup) then []
    else if !Sendable(kind.transfer) then [Timer(gen, kind.backup)]
    else [Timer(gen, kind.backup), Timer(gen, kind.transfer)]
  }

  datatype DaemonPc = Idle | Probing | Killing | WaitHello | WaitBackup | WaitTransfer | Exited

  datatype ChildPc = Dead | SendHello | WaitHelloBack | SendBackup | SendTransfer | Polling | Replying(probe: Msg)

  /** `accepted`: the words taken as answers to a probe, with the number of the probe that had
      been sent last when each was taken. */
  datatype State = State(
    daemon: DaemonPc, child: ChildPc, gen: nat, serial: nat,
    toChild: seq<Msg>, toDaemon: seq<Msg>,
    accepted: seq<(Msg, Msg)>)

  datatype Step =
    | Drain          // a poll branch, or the read before a probe, finds a word
    | SendProbe      // kill(pid, 0) succeeds
    | TakeReply | ProbeTimeout
    | Reap           // waitpid returns after the SIGTERM
    | FindDead       // kill(pid, 0) fails
    | GiveUp         // the retry cap, a signal, a client's close
    | TakeHello | TakeBackup | TakeTransfer | StartTimeout
    | ChildSays | ChildReads | ChildDies

  /** Reads wait for a word, and a timeout can strike whenever there is none. */
  predicate Enabled(s: State, step: Step) {
    match step
    case Drain => s.daemon.Idle? && s.toDaemon != []
    case SendProbe => s.daemon.Idle?
    case TakeReply => s.daemon.Probing? && s.toDaemon != []
    case ProbeTimeout => s.daemon.Probing? && s.toDaemon == []
    case Reap => s.daemon.Killing? && s.child.Dead?
    case FindDead => s.daemon.Idle? && s.child.Dead?
    case GiveUp => true
    case TakeHello => s.daemon.WaitHello? && s.toDaemon != []
    case TakeBackup => s.daemon.WaitBackup? && s.toDaemon != []
    case TakeTransfer => s.daemon.WaitTransfer? && s.toDaemon != []
    case StartTimeout => (s.daemon.WaitHello? || s.daemon.WaitBackup?) && s.toDaemon == []
    case ChildSays => s.child.SendHello? || s.child.SendBackup? || s.child.SendTransfer? || s.child.Replying?
    case ChildReads => (s.child.WaitHelloBack? || s.child.Polling?) && s.toChild != []
    case ChildDies => true
  }

  /** start_child_process: a new child over new pipes. */
  function Respawn(s: State): State {
    s.(daemon := WaitHello, child := SendHello, gen := s.gen + 1, toChild := [], toDaemon := [])
  }

  function DaemonDo(kind: Kind, s: State, step: Step): State
    requires Enabled(s, step)
  {
    match step
    case Drain => s.(toDaemon := s.toDaemon[1..])
    case SendProbe =>
      s.(daemon := Probing, serial := s.serial + 1, toChild := s.toChild + [Probe(s.gen, s.serial + 1)])
    case TakeReply =>
      if IsCommand(WordOf(s.toDaemon[0])) then
        s.(daemon := Idle, toDaemon := s.toDaemon[1..],
           accepted := s.accepted + [(s.toDaemon[0], Probe(s.gen, s.serial))])
      else s.(daemon := Killing, toDaemon := s.toDaemon[1..])
    case ProbeTimeout => s.(daemon := Killing)
    case Reap => Respawn(s)
    case FindDead => Respawn(s)
    case GiveUp => s.(daemon := Exited)
    case TakeHello =>
      if IsAck(WordOf(s.toDaemon[0])) then
        s.(daemon := if kind.FileManager? then WaitBackup else Idle,
           toDaemon := s.toDaemon[1..], toChild := s.toChild + [Hello(s.gen)])
      else s.(daemon := Exited)
    case TakeBackup =>
      if Decode(WordOf(s.toDaemon[0])) == VALUE_FLAG then s.(daemon := Exited)
      else s.(daemon := WaitTransfer, toDaemon := s.toDaemon[1..])
    case TakeTransfer =>
      if Decode(WordOf(s.toDaemon[0])) == VALUE_FLAG then s.(daemon := Exited)
      else s.(daemon := Idle, toDaemon := s.toDaemon[1..])
    case StartTimeout => s.(daemon := Exited)
    case _ => s
  }

  function ChildDo(kind: Kind, s: State, step: Step): State
    requires Enabled(s, step)
  {
    match step
    case ChildSays =>
      (match s.child
       case SendHello => s.(child := WaitHelloBack, toDaemon := s.toDaemon + [Hello(s.gen)])
       case SendBackup =>
         if kind.FileManager? && Sendable(kind.backup)
         then s.(child := SendTransfer, toDaemon := s.toDaemon + [Timer(s.gen, kind.backup)]) else s.(child := Polling)
       case SendTransfer =>
         if kind.FileManager? && Sendable(kind.transfer)
         then s.(child := Polling, toDaemon := s.toDaemon + [Timer(s.gen, kind.transfer)]) else s.(child := Polling)
       case Replying(probe) =>
         var ack := if probe.Probe? then Reply(probe.gen, probe.serial) else Hello(s.gen);
         s.(child := Polling, toDaemon := s.toDaemon + [ack])
       case _ => s)
    case ChildReads =>
      if s.child.WaitHelloBack? then
        s.(child := if kind.FileManager? then SendBackup else Polling, toChild := s.toChild[1..])
      else
        var word := WordOf(s.toChild[0]);
        if IsCommand(word) && AsCommand(word) == COMMAND_HEALTH_PROBE then
          s.(child := Replying(s.toChild[0]), toChild := s.toChild[1..])
        else if IsCommand(word) && AsCommand(word) == COMMAND_PANIC then
          s.(child := Dead, toChild := s.toChild[1..])
        else s.(toChild := s.toChild[1..])
    case ChildDies => s.(child := Dead)
    case _ => s
  }

  function Do(kind: Kind, s: State, step: Step): State
    requires Enabled(s, step)
  {
    if step.ChildSays? || step.ChildReads? || step.ChildDies? then ChildDo(kind, s, step) else DaemonDo(kind, s, step)
  }

  datatype Outcome = Stuck | At(state: State)

  function Exec(kind: Kind, s: State, steps: seq<Step>): Outcome
    decreases |steps|
  {
    if steps == [] then At(s)
    else if !Enabled(s, steps[0]) then Stuck
    else Exec(kind, Do(kind, s, steps[0]), steps[1..])
  }

  /** The first spawn. */
  const START: State := State(WaitHello, SendHello, 0, 0, [], [], [])

  // ---- the invariant

  predicate IdleInv(kind: Kind, s: State) {
    s.toDaemon == [] &&
    match s.child
    case Dead => true
    case WaitHelloBack => kind.Monitor? && s.toChild == [Hello(s.gen)]
    case Polling => s.toChild == []
    case _ => false
  }

  predicate ProbingInv(kind: Kind, s: State) {
    var probe, reply := Probe(s.gen, s.serial), Reply(s.gen, s.serial);
    match s.child
    case Dead => s.toDaemon == [] || s.toDaemon == [reply]
    case WaitHelloBack => kind.Monitor? && s.toChild == [Hello(s.gen), probe] && s.toDaemon == []
    case Polling => (s.toChild == [probe] && s.toDaemon == []) || (s.toChild == [] && s.toDaemon == [reply])
    case Replying(m) => m == probe && s.toChild == [] && s.toDaemon == []
    case _ => false
  }

  predicate HelloInv(s: State) {
    match s.child
    case Dead => s.toDaemon == [] || s.toDaemon == [Hello(s.gen)]
    case SendHello => s.toChild == [] && s.toDaemon == []
    case WaitHelloBack => s.toChild == [] && s.toDaemon == [Hello(s.gen)]
    case _ => false
  }

  predicate BackupInv(kind: Kind, s: State) {
    kind.FileManager? &&
    var report := Report(kind, s.gen);
    match s.child
    case Dead => s.toDaemon <= report
    case WaitHelloBack => s.toChild == [Hello(s.gen)] && s.toDaemon == []
    case SendBackup => s.toChild == [] && s.toDaemon == []
    case SendTransfer => s.toChild == [] && Sendable(kind.backup) && s.toDaemon == [report[0]]
    case Polling => s.toChild == [] && s.toDaemon == report
    case _ => false
  }

  predicate TransferInv(kind: Kind, s: State) {
    kind.FileManager? && Sendable(kind.backup) &&
    var rest := Report(kind, s.gen)[1..];
    match s.child
    case Dead => s.toDaemon <= rest
    case SendTransfer => s.toChild == [] && s.toDaemon == []
    case Polling => s.toChild == [] && s.toDaemon == rest
    case _ => false
  }

  /** Every accepted word is the reply to the probe that had just been sent. */
  predicate Answers(accepted: seq<(Msg, Msg)>) {
    forall i :: 0 <= i < |accepted| ==>
      accepted[i].1.Probe? && accepted[i].0 == Reply(accepted[i].1.gen, accepted[i].1.serial)
  }

  /** The daemon writes its half of the handshake and probes, and nothing else. */
  predicate FromDaemon(toChild: seq<Msg>) {
    forall m | m in toChild :: m.Hello? || m.Probe?
  }

  predicate Inv(kind: Kind, s: State) {
    && Answers(s.accepted) && FromDaemon(s.toChild)
    && match s.daemon
       case Idle => IdleInv(kind, s)
       case Probing => ProbingInv(kind, s)
       case WaitHello => HelloInv(s)
       case WaitBackup => BackupInv(kind, s)
       case WaitTransfer => TransferInv(kind, s)
       case Killing => true
       case Exited => true
  }

  /** What the two programs make of the words. */
  lemma WordFacts(m: Msg)
    ensures m.Hello? || m.Reply? ==> IsAck(WordOf(m)) && IsCommand(WordOf(m)) && AsCommand(WordOf(m)) == COMMAND_ACK
    ensures m.Probe? ==> IsCommand(WordOf(m)) && AsCommand(WordOf(m)) == COMMAND_HEALTH_PROBE
    ensures m.Timer? ==> Decode(WordOf(m)) != VALUE_FLAG
  {
    if m.Timer? {
      NeverFails(m.value);
    } else {
      CommandsAsAck(WordOf(m));
    }
  }

  lemma DaemonKeepsInv(kind: Kind, s: State, step: Step)
    requires Inv(kind, s) && Enabled(s, step) && !step.ChildSays? && !step.ChildReads? && !step.ChildDies?
    ensures Inv(kind, DaemonDo(kind, s, step))
    ensures DaemonDo(kind, s, step).daemon.Exited? ==> s.daemon.Exited? || step.GiveUp? || step.StartTimeout?
  {
    if s.toDaemon != [] {
      WordFacts(s.toDaemon[0]);
    }
  }

  lemma SayingKeepsInv(kind: Kind, s: State)
    requires Inv(kind, s) && Enabled(s, ChildSays)
    ensures Inv(kind, ChildDo(kind, s, ChildSays))
  {
    match s.child
    case SendHello =>
    case SendBackup =>
    case SendTransfer =>
    case Replying(probe) =>
  }

  lemma ReadingKeepsInv(kind: Kind, s: State)
    requires Inv(kind, s) && Enabled(s, ChildReads)
    ensures Inv(kind, ChildDo(kind, s, ChildReads))
  {
    if s.child.WaitHelloBack? {
      HelloReadKeepsInv(kind, s);
    } else {
      PollKeepsInv(kind, s);
    }
  }

  lemma HelloReadKeepsInv(kind: Kind, s: State)
    requires Inv(kind, s) && s.child.WaitHelloBack? && s.toChild != []
    ensures Inv(kind, ChildDo(kind, s, ChildReads))
  {
  }

  /** The only word that waits for a polling child is the last probe. */
  lemma PollKeepsInv(kind: Kind, s: State)
    requires Inv(kind, s) && s.child.Polling? && s.toChild != []
    ensures Inv(kind, ChildDo(kind, s, ChildReads))
  {
    if s.daemon.Probing? {
      assert s.toChild == [Probe(s.gen, s.serial)];
      WordFacts(s.toChild[0]);
    }
  }

  lemma DyingKeepsInv(kind: Kind, s: State)
    requires Inv(kind, s)
    ensures Inv(kind, s.(child := Dead))
  {
  }

  lemma ChildKeepsInv(kind: Kind, s: State, step: Step)
    requires Inv(kind, s) && Enabled(s, step) && (step.ChildSays? || step.ChildReads? || step.ChildDies?)
    ensures Inv(kind, ChildDo(kind, s, step))
  {
    match step
    case ChildSays => SayingKeepsInv(kind, s);
    case ChildReads => ReadingKeepsInv(kind, s);
    case ChildDies => DyingKeepsInv(kind, s);
  }

  lemma {:induction false} RunKeepsInv(kind: Kind, s: State, steps: seq<Step>)
    requires Inv(kind, s) && Exec(kind, s, steps).At?
    ensures Inv(kind, Exec(kind, s, steps).state)
    decreases |steps|
  {
    if steps != [] {
      if steps[0].ChildSays? || steps[0].ChildReads? || steps[0].ChildDies? {
        ChildKeepsInv(kind, s, steps[0]);
      } else {
        DaemonKeepsInv(kind, s, steps[0]);
      }
      RunKeepsInv(kind, Do(kind, s, steps[0]), steps[1..]);
    }
  }

  // ---- results over all runs

  /** In every run, with any delays, timeouts, deaths, kills and respawns: between probes
      nothing is left in the pipe to the daemon, and nothing in the pipe to a living child but
      the handshake word a monitor has not taken yet; and every word that was accepted as the
      answer to a probe answers the very probe that had been sent last, over the current
      pipes. */
  lemma RepliesAreNeverStale(kind: Kind, steps: seq<Step>)
    requires Exec(kind, START, steps).At?
    ensures var s := Exec(kind, START, steps).state;
      && Answers(s.accepted)
      && (s.daemon.Idle? ==> s.toDaemon == [])
      && (s.daemon.Idle? && !s.child.Dead? ==>
            s.toChild == [] || (kind.Monitor? && s.child.WaitHelloBack? && s.toChild == [Hello(s.gen)]))
  {
    RunKeepsInv(kind, START, steps);
  }

  /** A child that is up and polling does answer a probe: the exchange brings both processes
      back to where they were, one accepted reply further, with empty pipes. */
  lemma AProbeIsAnswered(kind: Kind, s: State)
    requires Inv(kind, s) && s.daemon.Idle? && s.child.Polling?
    ensures Exec(kind, s, PROBE_ROUND)
         == At(s.(serial := s.serial + 1,
                  accepted := s.accepted + [(Reply(s.gen, s.serial + 1), Probe(s.gen, s.serial + 1))]))
  {
    var probe, reply := Probe(s.gen, s.serial + 1), Reply(s.gen, s.serial + 1);
    var s1 := s.(daemon := Probing, serial := s.serial + 1, toChild := [probe]);
    var s2 := s1.(child := Replying(probe), toChild := []);
    var s3 := s2.(child := Polling, toDaemon := [reply]);
    ProbeSeen(kind, s, probe);
    ReplySent(kind, s2, probe);
    ReplyTaken(kind, s3, reply, probe);
    Unroll(kind, s, PROBE_ROUND, s1);
    Unroll(kind, s1, PROBE_ROUND[1..], s2);
    Unroll(kind, s2, PROBE_ROUND[2..], s3);
    Unroll(kind, s3, PROBE_ROUND[3..], Do(kind, s3, TakeReply));
  }

  lemma ProbeSeen(kind: Kind, s: State, probe: Msg)
    requires s.daemon.Idle? && s.child.Polling? && s.toChild == [] && probe == Probe(s.gen, s.serial + 1)
    ensures var s1 := Do(kind, s, SendProbe);
      && s1 == s.(daemon := Probing, serial := s.serial + 1, toChild := [probe])
      && Do(kind, s1, ChildReads) == s1.(child := Replying(probe), toChild := [])
  {
    WordFacts(probe);
  }

  lemma ReplySent(kind: Kind, s: State, probe: Msg)
    requires s.child == Replying(probe) && s.toDaemon == [] && probe.Probe?
    ensures Do(kind, s, ChildSays) == s.(child := Polling, toDaemon := [Reply(probe.gen, probe.serial)])
  {
  }

  const PROBE_ROUND: seq<Step> := [SendProbe, ChildReads, ChildSays, TakeReply]

  lemma ReplyTaken(kind: Kind, s: State, reply: Msg, probe: Msg)
    requires s.daemon.Probing? && s.toDaemon == [reply] && reply.Reply? && probe == Probe(s.gen, s.serial)
    ensures Do(kind, s, TakeReply) == s.(daemon := Idle, toDaemon := [], accepted := s.accepted + [(reply, probe)])
  {
    WordFacts(reply);
  }

  lemma Unroll(kind: Kind, s: State, steps: seq<Step>, next: State)
    requires steps != [] && Enabled(s, steps[0]) && next == Do(kind, s, steps[0])
    ensures Exec(kind, s, steps) == Exec(kind, next, steps[1..])
  {
  }

  // ---- recovery

  /** The daemon is at rest, its child is up and polling, and nothing is in the pipes. */
  predicate AtRest(s: State) {
    s.daemon.Idle? && s.child.Polling? && s.toChild == [] && s.toDaemon == []
  }

  /** Both ids that a file manager has to report fit the codec. */
  predicate Reports(kind: Kind) {
    kind.FileManager? ==> kind.backup <= 0xEFFFFFFF && kind.transfer <= 0xEFFFFFFF
  }

  const MONITOR_START: seq<Step> := [ChildSays, TakeHello, ChildReads]
  const FILE_MANAGER_START: seq<Step> :=
    [ChildSays, TakeHello, ChildReads, ChildSays, TakeBackup, ChildSays, TakeTransfer]

  function StartUp(kind: Kind): seq<Step> {
    if kind.Monitor? then MONITOR_START else FILE_MANAGER_START
  }

  /** A child that has just been started over new pipes. */
  predicate Respawned(s: State) {
    s.daemon.WaitHello? && s.child.SendHello? && s.toChild == [] && s.toDaemon == []
  }

  lemma HelloExchanged(kind: Kind, s: State)
    requires Respawned(s)
    ensures Exec(kind, s, MONITOR_START)
         == At(s.(daemon := if kind.Monitor? then Idle else WaitBackup,
                  child := if kind.Monitor? then Polling else SendBackup))
  {
    var hello := Hello(s.gen);
    var s1 := s.(child := WaitHelloBack, toDaemon := [hello]);
    var s2 := s1.(daemon := if kind.Monitor? then Idle else WaitBackup, toDaemon := [], toChild := [hello]);
    var s3 := s2.(child := if kind.Monitor? then Polling else SendBackup, toChild := []);
    WordFacts(hello);
    Unroll(kind, s, MONITOR_START, s1);
    Unroll(kind, s1, MONITOR_START[1..], s2);
    Unroll(kind, s2, MONITOR_START[2..], s3);
  }

  lemma TimersReported(kind: Kind, s: State, steps: seq<Step>)
    requires kind.FileManager? && Sendable(kind.backup) && Sendable(kind.transfer)
    requires s.toChild == [] && s.toDaemon == []
    requires s.daemon.WaitBackup? && s.child.SendBackup? && steps == [ChildSays, TakeBackup, ChildSays, TakeTransfer]
    ensures Exec(kind, s, steps) == At(s.(daemon := Idle, child := Polling))
  {
    var backup, transfer := Timer(s.gen, kind.backup), Timer(s.gen, kind.transfer);
    var s1 := s.(child := SendTransfer, toDaemon := [backup]);
    var s2 := s1.(daemon := WaitTransfer, toDaemon := []);
    var s3 := s2.(child := Polling, toDaemon := [transfer]);
    var s4 := s3.(daemon := Idle, toDaemon := []);
    BackupReported(kind, s, backup);
    TransferReported(kind, s2, transfer);
    Unroll(kind, s, steps, s1);
    Unroll(kind, s1, steps[1..], s2);
    Unroll(kind, s2, steps[2..], s3);
    Unroll(kind, s3, steps[3..], s4);
  }

  lemma BackupReported(kind: Kind, s: State, timer: Msg)
    requires kind.FileManager? && Sendable(kind.backup) && s.toDaemon == [] && timer == Timer(s.gen, kind.backup)
    requires s.daemon.WaitBackup? && s.child.SendBackup?
    ensures Do(kind, s, ChildSays) == s.(child := SendTransfer, toDaemon := [timer])
    ensures Do(kind, Do(kind, s, ChildSays), TakeBackup) == s.(daemon := WaitTransfer, child := SendTransfer)
  {
    WordFacts(timer);
  }

  lemma TransferReported(kind: Kind, s: State, timer: Msg)
    requires kind.FileManager? && Sendable(kind.transfer) && s.toDaemon == [] && timer == Timer(s.gen, kind.transfer)
    requires s.daemon.WaitTransfer? && s.child.SendTransfer?
    ensures Do(kind, s, ChildSays) == s.(child := Polling, toDaemon := [timer])
    ensures Do(kind, Do(kind, s, ChildSays), TakeTransfer) == s.(daemon := Idle, child := Polling)
  {
    WordFacts(timer);
  }

  lemma {:induction false} ExecConcat(kind: Kind, s: State, a: seq<Step>, b: seq<Step>)
    requires Exec(kind, s, a).At?
    ensures Exec(kind, s, a + b) == Exec(kind, Exec(kind, s, a).state, b)
    decreases |a|
  {
    if a == [] {
      assert a + b == b;
    } else {
      ExecConcat(kind, Do(kind, s, a[0]), a[1..], b);
      assert (a + b)[1..] == a[1..] + b;
    }
  }

  /** A new child comes up: the start-up leads to rest, with nothing else changed. */
  lemma StartsUp(kind: Kind, s: State)
    requires Respawned(s) && Reports(kind)
    ensures Exec(kind, s, StartUp(kind)) == At(s.(daemon := Idle, child := Polling))
  {
    HelloExchanged(kind, s);
    if kind.FileManager? {
      var more := [ChildSays, TakeBackup, ChildSays, TakeTransfer];
      assert FILE_MANAGER_START == MONITOR_START + more;
      ExecConcat(kind, s, MONITOR_START, more);
      TimersReported(kind, s.(daemon := WaitBackup, child := SendBackup), more);
    }
  }

  lemma Chained(kind: Kind, s: State, a: seq<Step>, mid: State, b: seq<Step>, end: State)
    requires Exec(kind, s, a) == At(mid) && Exec(kind, mid, b) == At(end)
    ensures Exec(kind, s, a + b) == At(end)
  {
    ExecConcat(kind, s, a, b);
  }

  const UNANSWERED: seq<Step> := [SendProbe, ChildReads, ProbeTimeout]
  const REPLACED: seq<Step> := [ChildDies, Reap]

  /** A child that takes a probe and does not answer it is killed and comes back: the daemon and
      a new child are at rest again over the next generation of pipes, and nothing was taken for
      an answer. */
  lemma HungChildRecovers(kind: Kind, s: State)
    requires AtRest(s) && Reports(kind)
    ensures Exec(kind, s, UNANSWERED + (REPLACED + StartUp(kind))) == At(s.(gen := s.gen + 1, serial := s.serial + 1))
  {
    var hung := s.(daemon := Killing, child := Replying(Probe(s.gen, s.serial + 1)), serial := s.serial + 1);
    ProbeTimesOut(kind, s);
    ReplacedStartsUp(kind, hung);
    Chained(kind, s, UNANSWERED, hung, REPLACED + StartUp(kind), s.(gen := s.gen + 1, serial := s.serial + 1));
  }

  lemma ReplacedStartsUp(kind: Kind, s: State)
    requires s.daemon.Killing? && s.toChild == [] && s.toDaemon == [] && Reports(kind)
    ensures Exec(kind, s, REPLACED + StartUp(kind)) == At(s.(daemon := Idle, child := Polling, gen := s.gen + 1))
  {
    var restarted := s.(daemon := WaitHello, child := SendHello, gen := s.gen + 1);
    KilledAndReplaced(kind, s);
    StartsUp(kind, restarted);
    Chained(kind, s, REPLACED, restarted, StartUp(kind), restarted.(daemon := Idle, child := Polling));
  }

  lemma ProbeTimesOut(kind: Kind, s: State)
    requires AtRest(s)
    ensures Exec(kind, s, UNANSWERED)
         == At(s.(daemon := Killing, child := Replying(Probe(s.gen, s.serial + 1)), serial := s.serial + 1))
  {
    var probe := Probe(s.gen, s.serial + 1);
    var s1 := s.(daemon := Probing, serial := s.serial + 1, toChild := [probe]);
    var s2 := s1.(child := Replying(probe), toChild := []);
    ProbeSeen(kind, s, probe);
    Unroll(kind, s, UNANSWERED, s1);
    Unroll(kind, s1, UNANSWERED[1..], s2);
    Unroll(kind, s2, UNANSWERED[2..], s2.(daemon := Killing));
  }

  lemma KilledAndReplaced(kind: Kind, s: State)
    requires s.daemon.Killing?
    ensures Exec(kind, s, REPLACED)
         == At(s.(daemon := WaitHello, child := SendHello, gen := s.gen + 1, toChild := [], toDaemon := []))
  {
    var dead := s.(child := Dead);
    Unroll(kind, s, REPLACED, dead);
    Unroll(kind, dead, REPLACED[1..], Do(kind, dead, Reap));
  }

  /** So does a dead one, wherever it died: when a probe finds it dead, and when the daemon has
      given up on an answer and waited for its end. */
  lemma DeadChildRecovers(kind: Kind, s: State)
    requires s.child.Dead? && (s.daemon.Idle? || s.daemon.Killing?) && Reports(kind)
    ensures var found := if s.daemon.Idle? then FindDead else Reap;
      Exec(kind, s, [found] + StartUp(kind))
      == At(s.(daemon := Idle, child := Polling, gen := s.gen + 1, toChild := [], toDaemon := []))
  {
    var found := if s.daemon.Idle? then FindDead else Reap;
    var next := s.(daemon := WaitHello, child := SendHello, gen := s.gen + 1, toChild := [], toDaemon := []);
    Unroll(kind, s, [found] + StartUp(kind), next);
    assert ([found] + StartUp(kind))[1..] == StartUp(kind);
    StartsUp(kind, next);
  }

  /** A step that is not a death from outside and not the daemon's decision to end. */
  predicate Ordinary(step: Step) {
    !step.ChildDies? && !step.GiveUp?
  }

  ghost predicate CanMove(s: State) {
    exists step: Step :: Ordinary(step) && Enabled(s, step)
  }

  /** Where a run can stand still: at the end; while the child has not yet died of the SIGTERM;
      and in the read of the second timer, which has no timeout, when the child is dead or has
      nothing to report. */
  predicate StandsStill(s: State) {
    || s.daemon.Exited?
    || (s.daemon.Killing? && !s.child.Dead?)
    || (s.daemon.WaitTransfer? && s.toDaemon == [])
  }

  /** In every run, as long as it stands nowhere else, something can happen without a death or
      a decision to end; and the wait for the second timer is stuck if and only if no word is
      there and the child will send none. */
  lemma StandsStillOnlyThere(kind: Kind, steps: seq<Step>)
    requires Exec(kind, START, steps).At?
    ensures var s := Exec(kind, START, steps).state;
      && (!StandsStill(s) ==> CanMove(s))
      && (s.daemon.WaitTransfer? ==> (CanMove(s) <==> s.toDaemon != [] || s.child.SendTransfer?))
  {
    var s := Exec(kind, START, steps).state;
    RunKeepsInv(kind, START, steps);
    if !StandsStill(s) {
      MovesUnlessThere(s);
    }
    if s.daemon.WaitTransfer? {
      SecondTimerWaits(kind, s);
    }
  }

  lemma MovesUnlessThere(s: State)
    requires !StandsStill(s)
    ensures CanMove(s)
  {
    match s.daemon
    case Idle => assert Enabled(s, SendProbe);
    case Probing => assert Enabled(s, TakeReply) || Enabled(s, ProbeTimeout);
    case Killing => assert Enabled(s, Reap);
    case WaitHello => assert Enabled(s, TakeHello) || Enabled(s, StartTimeout);
    case WaitBackup => assert Enabled(s, TakeBackup) || Enabled(s, StartTimeout);
    case WaitTransfer => assert Enabled(s, TakeTransfer);
  }

  lemma SecondTimerWaits(kind: Kind, s: State)
    requires Inv(kind, s) && s.daemon.WaitTransfer?
    ensures CanMove(s) <==> s.toDaemon != [] || s.child.SendTransfer?
  {
    assert Enabled(s, TakeTransfer) <==> s.toDaemon != [];
    assert s.child.SendTransfer? ==> Enabled(s, ChildSays);
  }

  // ---- what a run's steps add up to

  /** How many of the steps are one of `kinds`. */
  function Count(steps: seq<Step>, kinds: set<Step>): nat {
    if steps == [] then 0 else (if steps[0] in kinds then 1 else 0) + Count(steps[1..], kinds)
  }

  /** The daemon ends by its own decision or on a silent start-up and for no other reason, sends
      SIGTERM on a silent probe and for no other reason, and has new pipes only when it starts a
      child for one it waited for or found dead. */
  lemma StepAddsUp(kind: Kind, s: State, step: Step)
    requires Inv(kind, s) && Enabled(s, step)
    ensures var next := Do(kind, s, step);
      && (next.daemon.Exited? <==> s.daemon.Exited? || step.GiveUp? || step.StartTimeout?)
      && (next.daemon.Killing? <==> step.ProbeTimeout? || (s.daemon.Killing? && !step.Reap? && !step.GiveUp?))
      && next.gen == s.gen + (if step in {Reap, FindDead} then 1 else 0)
      && next.serial == s.serial + (if step == SendProbe then 1 else 0)
      && |next.accepted| == |s.accepted| + (if step == TakeReply then 1 else 0)
      && next.gen + Deaths(next) <= s.gen + Deaths(s) + (if step == ChildDies then 1 else 0)
  {
    if s.toDaemon != [] {
      WordFacts(s.toDaemon[0]);
    }
    if IsChild(step) {
      ChildAddsNothing(kind, s, step);
    }
  }

  /** A child that is dead and not yet replaced. */
  function Deaths(s: State): nat {
    if s.child.Dead? then 1 else 0
  }

  predicate IsChild(step: Step) {
    step.ChildSays? || step.ChildReads? || step.ChildDies?
  }

  lemma ChildAddsNothing(kind: Kind, s: State, step: Step)
    requires Enabled(s, step) && IsChild(step)
    ensures var next := Do(kind, s, step);
      && (next.daemon, next.gen, next.serial, next.accepted) == (s.daemon, s.gen, s.serial, s.accepted)
      && (Inv(kind, s) && next.child.Dead? ==> s.child.Dead? || step.ChildDies?)
  {
    if step.ChildReads? {
      assert s.toChild[0] in s.toChild;
      WordFacts(s.toChild[0]);
    }
  }

  lemma {:induction false} StepsAddUp(kind: Kind, s: State, steps: seq<Step>)
    requires Inv(kind, s) && Exec(kind, s, steps).At?
    ensures var end := Exec(kind, s, steps).state;
      && (end.daemon.Exited? <==> s.daemon.Exited? || GiveUp in steps || StartTimeout in steps)
      && end.gen == s.gen + Count(steps, {Reap, FindDead})
      && end.serial == s.serial + Count(steps, {SendProbe})
      && |end.accepted| == |s.accepted| + Count(steps, {TakeReply})
      && end.gen + Deaths(end) <= s.gen + Deaths(s) + Count(steps, {ChildDies})
    decreases |steps|
  {
    if steps != [] {
      StepAddsUp(kind, s, steps[0]);
      if steps[0].ChildSays? || steps[0].ChildReads? || steps[0].ChildDies? {
        ChildKeepsInv(kind, s, steps[0]);
      } else {
        DaemonKeepsInv(kind, s, steps[0]);
      }
      StepsAddUp(kind, Do(kind, s, steps[0]), steps[1..]);
      assert steps == [steps[0]] + steps[1..];
    }
  }

  /** In every run: the daemon is at its end if and only if it decided to or a start-up was
      silent; the pipes are of the generation that the respawns make, and there is no respawn
      without a death of its own; and every answer that was taken is in the record. */
  lemma RunsAddUp(kind: Kind, steps: seq<Step>)
    requires Exec(kind, START, steps).At?
    ensures var end := Exec(kind, START, steps).state;
      && (end.daemon.Exited? <==> GiveUp in steps || StartTimeout in steps)
      && end.gen == Count(steps, {Reap, FindDead})
      && end.serial == Count(steps, {SendProbe})
      && |end.accepted| == Count(steps, {TakeReply})
      && end.gen <= Count(steps, {ChildDies})
  {
    StepsAddUp(kind, START, steps);
  }
}

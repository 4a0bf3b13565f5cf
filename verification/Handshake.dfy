/** The start-up conversation of reportmand with reportman_fm: ACK, ACK, backup timer,
    transfer timer, as every interleaving of the two processes over two FIFO pipes. */
module Handshake {
  import opened IpcCodec

  /** The timer ids that the child has to report. */
  datatype Timers = Timers(backup: Word, transfer: Word)

  /** Where the daemon is in acknowledge_client and __reportman_fm_get_timers. */
  datatype DaemonPc = SelectAck | ReadAck | WriteAck | SelectTimers | ReadBackup | ReadTransfer | Ready | Exited

  /** Where the child is in acknowledge_daemon and __report_to_daemon. */
  datatype ChildPc = SendAck | AwaitAck | SendBackup | SendTransfer | Polling

  datatype State = State(
    daemon: DaemonPc, child: ChildPc,
    toDaemon: seq<Word>, toChild: seq<Word>,
    backup: Word, transfer: Word)

  datatype Step =
    | DaemonSelect | DaemonTimeout | DaemonReadAck | DaemonWriteAck | DaemonReadBackup | DaemonReadTransfer
    | ChildSendAck | ChildReadAck | ChildSendBackup | ChildSendTransfer

  predicate Selecting(s: State) {
    s.daemon.SelectAck? || s.daemon.SelectTimers?
  }

  /** A select returns when there is a word to read, or it times out; a read blocks until
      there is one. */
  predicate Enabled(s: State, step: Step) {
    match step
    case DaemonSelect => Selecting(s) && s.toDaemon != []
    case DaemonTimeout => Selecting(s) && s.toDaemon == []
    case DaemonReadAck => s.daemon.ReadAck? && s.toDaemon != []
    case DaemonWriteAck => s.daemon.WriteAck?
    case DaemonReadBackup => s.daemon.ReadBackup? && s.toDaemon != []
    case DaemonReadTransfer => s.daemon.ReadTransfer? && s.toDaemon != []
    case ChildSendAck => s.child.SendAck?
    case ChildReadAck => s.child.AwaitAck? && s.toChild != []
    case ChildSendBackup => s.child.SendBackup?
    case ChildSendTransfer => s.child.SendTransfer?
  }

  function Do(k: Timers, s: State, step: Step): State
    requires Enabled(s, step)
  {
    match step
    case DaemonSelect => s.(daemon := if s.daemon.SelectAck? then ReadAck else ReadBackup)
    case DaemonTimeout => s.(daemon := Exited)
    case DaemonReadAck =>
      s.(daemon := if IsAck(s.toDaemon[0]) then WriteAck else Exited, toDaemon := s.toDaemon[1..])
    case DaemonWriteAck => s.(daemon := SelectTimers, toChild := s.toChild + [COMMAND_ACK])
    case DaemonReadBackup =>
      var value := Decode(s.toDaemon[0]);
      if value == VALUE_FLAG then s.(daemon := Exited, toDaemon := s.toDaemon[1..])
      else s.(daemon := ReadTransfer, backup := value, toDaemon := s.toDaemon[1..])
    case DaemonReadTransfer =>
      var value := Decode(s.toDaemon[0]);
      if value == VALUE_FLAG then s.(daemon := Exited, toDaemon := s.toDaemon[1..])
      else s.(daemon := Ready, transfer := value, toDaemon := s.toDaemon[1..])
    case ChildSendAck => s.(child := AwaitAck, toDaemon := s.toDaemon + [COMMAND_ACK])
    // the result of the handshake is not looked at
    case ChildReadAck => s.(child := SendBackup, toChild := s.toChild[1..])
    case ChildSendBackup =>
      if Sendable(k.backup) then s.(child := SendTransfer, toDaemon := s.toDaemon + [Encode(k.backup)])
      else s.(child := Polling)
    case ChildSendTransfer =>
      if Sendable(k.transfer) then s.(child := Polling, toDaemon := s.toDaemon + [Encode(k.transfer)])
      else s.(child := Polling)
  }

  /** The state after a run, if every step of it is enabled in its turn. */
  datatype Outcome = Stuck | At(state: State)

  function Exec(k: Timers, s: State, steps: seq<Step>): Outcome
    decreases |steps|
  {
    if steps == [] then At(s)
    else if !Enabled(s, steps[0]) then Stuck
    else Exec(k, Do(k, s, steps[0]), steps[1..])
  }

  const START: State := State(SelectAck, SendAck, [], [], 0, 0)

  // ---- the invariant

  /** All the child has written when it is at `child`. */
  function Sent(k: Timers, child: ChildPc): seq<Word> {
    match child
    case SendAck => []
    case AwaitAck => [COMMAND_ACK]
    case SendBackup => [COMMAND_ACK]
    case SendTransfer => [COMMAND_ACK, Encode(k.backup)]
    case Polling =>
      if !Sendable(k.backup) then [COMMAND_ACK]
      else if !Sendable(k.transfer) then [COMMAND_ACK, Encode(k.backup)]
      else [COMMAND_ACK, Encode(k.backup), Encode(k.transfer)]
  }

  /** How many of those words the daemon has read when it is at `daemon`. */
  function Received(daemon: DaemonPc): nat {
    match daemon
    case SelectAck | ReadAck | Exited => 0
    case WriteAck | SelectTimers | ReadBackup => 1
    case ReadTransfer => 2
    case Ready => 3
  }

  predicate Acknowledged(daemon: DaemonPc) {
    daemon.SelectTimers? || daemon.ReadBackup? || daemon.ReadTransfer? || daemon.Ready?
  }

  /** What is in the pipes is what one side has written and the other has not read. */
  predicate Inv(k: Timers, s: State) {
    s.daemon.Exited? || (
      var sent := Sent(k, s.child);
      && Received(s.daemon) <= |sent|
      && s.toDaemon == sent[Received(s.daemon)..]
      && (s.daemon.ReadAck? || s.daemon.ReadBackup? ==> s.toDaemon != [])
      && (s.child.SendTransfer? ==> Sendable(k.backup))
      && (if s.child.SendAck? || s.child.AwaitAck?
          then s.toChild == if Acknowledged(s.daemon) then [COMMAND_ACK] else []
          else s.toChild == [] && Acknowledged(s.daemon))
      && (s.daemon.ReadTransfer? || s.daemon.Ready? ==> Sendable(k.backup) && s.backup == Decode(Encode(k.backup)))
      && (s.daemon.Ready? ==> Sendable(k.transfer) && s.transfer == Decode(Encode(k.transfer))))
  }

  lemma ReadAckStep(k: Timers, s: State)
    requires Inv(k, s) && s.daemon.ReadAck?
    ensures s.toDaemon[0] == COMMAND_ACK && Inv(k, Do(k, s, DaemonReadAck))
    ensures !Do(k, s, DaemonReadAck).daemon.Exited?
  {
    assert s.toDaemon[1..] == Sent(k, s.child)[1..];
    CommandsAsAck(COMMAND_ACK);
  }

  lemma ReadBackupStep(k: Timers, s: State)
    requires Inv(k, s) && s.daemon.ReadBackup?
    ensures Inv(k, Do(k, s, DaemonReadBackup)) && !Do(k, s, DaemonReadBackup).daemon.Exited?
  {
    var sent := Sent(k, s.child);
    assert sent[1] == Encode(k.backup) && s.toDaemon[0] == sent[1] && s.toDaemon[1..] == sent[2..];
    NeverFails(k.backup);
  }

  lemma ReadTransferStep(k: Timers, s: State)
    requires Inv(k, s) && s.daemon.ReadTransfer? && s.toDaemon != []
    ensures Inv(k, Do(k, s, DaemonReadTransfer)) && !Do(k, s, DaemonReadTransfer).daemon.Exited?
  {
    var sent := Sent(k, s.child);
    assert sent[2] == Encode(k.transfer) && s.toDaemon[0] == sent[2] && s.toDaemon[1..] == sent[3..];
    NeverFails(k.transfer);
  }

  lemma SendAckStep(k: Timers, s: State)
    requires Inv(k, s) && s.child.SendAck? && !s.daemon.Exited?
    ensures Inv(k, Do(k, s, ChildSendAck))
  {
    assert s.daemon.SelectAck? && s.toDaemon == [];
  }

  lemma SendBackupStep(k: Timers, s: State)
    requires Inv(k, s) && s.child.SendBackup? && !s.daemon.Exited?
    ensures Inv(k, Do(k, s, ChildSendBackup))
  {
    assert s.daemon.SelectTimers? && s.toDaemon == [];
    var next := Do(k, s, ChildSendBackup);
    assert next.toDaemon == Sent(k, next.child)[1..];
  }

  lemma SendTransferStep(k: Timers, s: State)
    requires Inv(k, s) && s.child.SendTransfer? && !s.daemon.Exited?
    ensures Inv(k, Do(k, s, ChildSendTransfer))
  {
    var next := Do(k, s, ChildSendTransfer);
    assert Received(s.daemon) == 1 || Received(s.daemon) == 2;
    assert next.toDaemon == Sent(k, next.child)[Received(s.daemon)..];
  }

  lemma SelectStep(k: Timers, s: State)
    requires Inv(k, s) && Enabled(s, DaemonSelect)
    ensures Inv(k, Do(k, s, DaemonSelect))
  {
    assert Received(Do(k, s, DaemonSelect).daemon) == Received(s.daemon);
  }

  lemma WriteAckStep(k: Timers, s: State)
    requires Inv(k, s) && s.daemon.WriteAck?
    ensures Inv(k, Do(k, s, DaemonWriteAck))
  {
    assert s.child.AwaitAck? && s.toChild == [];
  }

  lemma ReadBackStep(k: Timers, s: State)
    requires Inv(k, s) && Enabled(s, ChildReadAck)
    ensures Inv(k, Do(k, s, ChildReadAck))
  {
    assert Sent(k, SendBackup) == Sent(k, s.child);
  }

  lemma StepKeepsInv(k: Timers, s: State, step: Step)
    requires Inv(k, s) && Enabled(s, step)
    ensures Inv(k, Do(k, s, step))
    ensures Do(k, s, step).daemon.Exited? ==> s.daemon.Exited? || step.DaemonTimeout?
  {
    if s.daemon.Exited? {
      ExitedStep(k, s, step);
    } else if IsChildStep(step) {
      ChildStep(k, s, step);
    } else {
      DaemonStep(k, s, step);
    }
  }

  predicate IsChildStep(step: Step) {
    step.ChildSendAck? || step.ChildReadAck? || step.ChildSendBackup? || step.ChildSendTransfer?
  }

  lemma ExitedStep(k: Timers, s: State, step: Step)
    requires s.daemon.Exited? && Enabled(s, step)
    ensures Do(k, s, step).daemon.Exited?
  {
  }

  lemma ChildStep(k: Timers, s: State, step: Step)
    requires Inv(k, s) && Enabled(s, step) && !s.daemon.Exited? && IsChildStep(step)
    ensures Inv(k, Do(k, s, step)) && Do(k, s, step).daemon == s.daemon
  {
    match step
    case ChildSendAck => SendAckStep(k, s);
    case ChildReadAck => ReadBackStep(k, s);
    case ChildSendBackup => SendBackupStep(k, s);
    case ChildSendTransfer => SendTransferStep(k, s);
  }

  lemma DaemonStep(k: Timers, s: State, step: Step)
    requires Inv(k, s) && Enabled(s, step) && !s.daemon.Exited? && !IsChildStep(step)
    ensures Inv(k, Do(k, s, step))
    ensures Do(k, s, step).daemon.Exited? ==> step.DaemonTimeout?
  {
    match step
    case DaemonSelect => SelectStep(k, s);
    case DaemonTimeout =>
    case DaemonReadAck => ReadAckStep(k, s);
    case DaemonWriteAck => WriteAckStep(k, s);
    case DaemonReadBackup => ReadBackupStep(k, s);
    case DaemonReadTransfer => ReadTransferStep(k, s);
  }

  lemma {:induction false} RunKeepsInv(k: Timers, s: State, steps: seq<Step>)
    requires Inv(k, s) && Exec(k, s, steps).At?
    ensures Inv(k, Exec(k, s, steps).state)
    decreases |steps|
  {
    if steps != [] {
      StepKeepsInv(k, s, steps[0]);
      RunKeepsInv(k, Do(k, s, steps[0]), steps[1..]);
    }
  }

  // ---- results over all runs

  predicate Finished(s: State) {
    s.daemon.Ready? && s.child.Polling?
  }

  /** The conversation can go on without a timeout. */
  ghost predicate CanGoOn(s: State) {
    exists step: Step :: !step.DaemonTimeout? && Enabled(s, step)
  }

  /** However far a run has got, it is over for both, or the daemon has given up, or some
      process can move without waiting for a timeout. */
  ghost predicate DeadlockFree(k: Timers) {
    forall steps {:trigger Exec(k, START, steps)} ::
      var end := Exec(k, START, steps);
      end.At? ==> Finished(end.state) || end.state.daemon.Exited? || CanGoOn(end.state)
  }

  lemma Progress(k: Timers, s: State)
    requires Inv(k, s) && Sendable(k.backup) && Sendable(k.transfer)
    requires !Finished(s) && !s.daemon.Exited?
    ensures CanGoOn(s)
  {
    if s.child.SendAck? {
      assert Enabled(s, ChildSendAck);
    } else if s.child.SendBackup? {
      assert Enabled(s, ChildSendBackup);
    } else if s.child.SendTransfer? {
      assert Enabled(s, ChildSendTransfer);
    } else if s.child.AwaitAck? && Acknowledged(s.daemon) {
      assert Enabled(s, ChildReadAck);
    } else {
      DaemonCanRead(k, s);
      DaemonProgress(s);
    }
  }

  /** While the daemon still has to read, and the child has sent all it sends for now, there is
      a word in the pipe. */
  lemma DaemonCanRead(k: Timers, s: State)
    requires Inv(k, s) && Sendable(k.backup) && Sendable(k.transfer) && !Finished(s) && !s.daemon.Exited?
    requires s.child.Polling? || (s.child.AwaitAck? && !Acknowledged(s.daemon))
    ensures s.daemon.WriteAck? || s.toDaemon != []
    ensures !s.daemon.Ready?
  {
    assert |s.toDaemon| == |Sent(k, s.child)| - Received(s.daemon);
  }

  lemma DaemonProgress(s: State)
    requires !s.daemon.Exited? && !s.daemon.Ready? && (s.daemon.WriteAck? || s.toDaemon != [])
    ensures CanGoOn(s)
  {
    match s.daemon
    case SelectAck | SelectTimers => assert Enabled(s, DaemonSelect);
    case ReadAck => assert Enabled(s, DaemonReadAck);
    case WriteAck => assert Enabled(s, DaemonWriteAck);
    case ReadBackup => assert Enabled(s, DaemonReadBackup);
    case ReadTransfer => assert Enabled(s, DaemonReadTransfer);
  }

  /** The start-up can always go on without a timeout if and only if both timer ids fit the codec. */
  lemma DeadlockFreeExactly(k: Timers)
    ensures DeadlockFree(k) <==> k.backup <= 0xEFFFFFFF && k.transfer <= 0xEFFFFFFF
  {
    if Sendable(k.backup) && Sendable(k.transfer) {
      forall steps | Exec(k, START, steps).At?
        ensures var s := Exec(k, START, steps).state; Finished(s) || s.daemon.Exited? || CanGoOn(s)
      {
        RunKeepsInv(k, START, steps);
        var s := Exec(k, START, steps).state;
        if !Finished(s) && !s.daemon.Exited? {
          Progress(k, s);
        }
      }
    } else {
      var steps, stuck := ADeadlock(k);
      assert Exec(k, START, steps).At?;
    }
  }

  /** A state that nothing gets out of, not even a timeout, before the start-up is finished or
      given up. */
  ghost predicate Hangs(s: State) {
    !Finished(s) && !s.daemon.Exited? && forall step: Step :: !Enabled(s, step)
  }

  /** A start-up can hang for good if and only if the backup timer id fits the codec and the
      transfer timer id does not: the select before the first timer gives up in time, but the
      read of the second one has no timeout. */
  lemma HangsExactly(k: Timers)
    ensures (exists steps :: Exec(k, START, steps).At? && Hangs(Exec(k, START, steps).state))
            <==> k.backup <= 0xEFFFFFFF && k.transfer > 0xEFFFFFFF
  {
    if Sendable(k.backup) && !Sendable(k.transfer) {
      Opening(k);
      var more, stuck := LateDeadlock(k, State(SelectTimers, SendBackup, [], [], 0, 0));
      ExecConcat(k, START, OPENING, more);
      assert Exec(k, START, OPENING + more).At?;
    } else {
      forall steps | Exec(k, START, steps).At? ensures !Hangs(Exec(k, START, steps).state) {
        RunKeepsInv(k, START, steps);
        NoHang(k, Exec(k, START, steps).state);
      }
    }
  }

  lemma NoHang(k: Timers, s: State)
    requires Inv(k, s) && (Sendable(k.backup) ==> Sendable(k.transfer))
    ensures !Hangs(s)
  {
    if !Finished(s) && !s.daemon.Exited? {
      if Selecting(s) {
        assert Enabled(s, DaemonSelect) || Enabled(s, DaemonTimeout);
      } else if Sendable(k.backup) {
        Progress(k, s);
      } else {
        match s.daemon {
          case ReadAck => assert Enabled(s, DaemonReadAck);
          case WriteAck => assert Enabled(s, DaemonWriteAck);
          case ReadBackup => assert Enabled(s, DaemonReadBackup);
        }
      }
    }
  }

  /** The first five steps, up to the child's first report. */
  const OPENING: seq<Step> := [ChildSendAck, DaemonSelect, DaemonReadAck, DaemonWriteAck, ChildReadAck]

  lemma Opening(k: Timers)
    ensures Exec(k, START, OPENING) == At(State(SelectTimers, SendBackup, [], [], 0, 0))
  {
    CommandsAsAck(COMMAND_ACK);
    var s1 := State(SelectAck, AwaitAck, [COMMAND_ACK], [], 0, 0);
    var s2 := s1.(daemon := ReadAck);
    var s3 := State(WriteAck, AwaitAck, [], [], 0, 0);
    var s4 := State(SelectTimers, AwaitAck, [], [COMMAND_ACK], 0, 0);
    var s5 := State(SelectTimers, SendBackup, [], [], 0, 0);
    Unroll(k, START, OPENING, s1);
    Unroll(k, s1, OPENING[1..], s2);
    Unroll(k, s2, OPENING[2..], s3);
    Unroll(k, s3, OPENING[3..], s4);
    Unroll(k, s4, OPENING[4..], s5);
  }

  /** A run into the deadlock when a timer id is too large: the daemon waits for a word that
      the child will never send. */
  lemma ADeadlock(k: Timers) returns (steps: seq<Step>, stuck: State)
    requires !Sendable(k.backup) || !Sendable(k.transfer)
    ensures Exec(k, START, steps) == At(stuck)
    ensures !Finished(stuck) && !stuck.daemon.Exited? && !CanGoOn(stuck)
  {
    Opening(k);
    var s5 := State(SelectTimers, SendBackup, [], [], 0, 0);
    var more;
    if !Sendable(k.backup) {
      more := [ChildSendBackup];
      stuck := s5.(child := Polling);
      Unroll(k, s5, more, stuck);
    } else {
      more, stuck := LateDeadlock(k, s5);
    }
    ExecConcat(k, START, OPENING, more);
    steps := OPENING + more;
  }

  lemma LateDeadlock(k: Timers, s: State) returns (more: seq<Step>, stuck: State)
    requires Sendable(k.backup) && !Sendable(k.transfer)
    requires s == State(SelectTimers, SendBackup, [], [], 0, 0)
    ensures Exec(k, s, more) == At(stuck)
    ensures !Finished(stuck) && !stuck.daemon.Exited? && !CanGoOn(stuck) && Hangs(stuck)
  {
    NeverFails(k.backup);
    var word := Encode(k.backup);
    more := [ChildSendBackup, DaemonSelect, DaemonReadBackup, ChildSendTransfer];
    var s1 := State(SelectTimers, SendTransfer, [word], [], 0, 0);
    var s2 := s1.(daemon := ReadBackup);
    var s3 := State(ReadTransfer, SendTransfer, [], [], Decode(word), 0);
    stuck := s3.(child := Polling);
    Unroll(k, s, more, s1);
    Unroll(k, s1, more[1..], s2);
    Unroll(k, s2, more[2..], s3);
    Unroll(k, s3, more[3..], stuck);
  }

  lemma Unroll(k: Timers, s: State, steps: seq<Step>, next: State)
    requires steps != [] && Enabled(s, steps[0]) && next == Do(k, s, steps[0])
    ensures Exec(k, s, steps) == Exec(k, next, steps[1..])
  {
  }

  lemma {:induction false} ExecConcat(k: Timers, s: State, a: seq<Step>, b: seq<Step>)
    requires Exec(k, s, a).At?
    ensures Exec(k, s, a + b) == Exec(k, Exec(k, s, a).state, b)
    decreases |a|
  {
    if a == [] {
      assert a + b == b;
    } else {
      ExecConcat(k, Do(k, s, a[0]), a[1..], b);
      assert (a + b)[1..] == a[1..] + b;
    }
  }

  /** `received` is what the codec leaves of `timer`: its low 28 bits, so the timer itself if
      and only if that is below 2^28. */
  predicate Reduced(timer: Word, received: Word) {
    received == timer & 0x0FFFFFFF && (received == timer <==> timer < 0x10000000)
  }

  lemma Reduces(timer: Word)
    requires Sendable(timer)
    ensures Reduced(timer, Decode(Encode(timer)))
  {
    DecodeEncode(timer);
  }

  /** Where every finished start-up ends: both pipes are empty and the daemon holds the backup
      timer and then the transfer timer, each reduced. */
  lemma FinishedStartUp(k: Timers, steps: seq<Step>)
    requires Exec(k, START, steps).At? && Finished(Exec(k, START, steps).state)
    ensures var s := Exec(k, START, steps).state;
      && s.toDaemon == [] && s.toChild == []
      && Reduced(k.backup, s.backup) && Reduced(k.transfer, s.transfer)
  {
    RunKeepsInv(k, START, steps);
    FinishedTimers(k, Exec(k, START, steps).state);
    Reduces(k.backup);
    Reduces(k.transfer);
  }

  lemma FinishedTimers(k: Timers, s: State)
    requires Inv(k, s) && Finished(s)
    ensures s.toDaemon == [] && s.toChild == [] && Sendable(k.backup) && Sendable(k.transfer)
    ensures s.backup == Decode(Encode(k.backup)) && s.transfer == Decode(Encode(k.transfer))
  {
  }

  /** The daemon gives up on a start-up only after a timeout. */
  lemma {:induction false} GivesUpOnlyOnTimeout(k: Timers, s: State, steps: seq<Step>)
    requires Inv(k, s) && Exec(k, s, steps).At? && !s.daemon.Exited?
    ensures Exec(k, s, steps).state.daemon.Exited? ==> DaemonTimeout in steps
    decreases |steps|
  {
    if steps != [] {
      StepKeepsInv(k, s, steps[0]);
      if !steps[0].DaemonTimeout? {
        GivesUpOnlyOnTimeout(k, Do(k, s, steps[0]), steps[1..]);
      }
    }
  }

  /** Steps left to each process. */
  function Rank(s: State): nat {
    (match s.daemon
     case SelectAck => 6 case ReadAck => 5 case WriteAck => 4 case SelectTimers => 3
     case ReadBackup => 2 case ReadTransfer => 1 case Ready => 0 case Exited => 0)
    + (match s.child
       case SendAck => 4 case AwaitAck => 3 case SendBackup => 2 case SendTransfer => 1 case Polling => 0)
  }

  lemma RankDrops(k: Timers, s: State, step: Step)
    requires Enabled(s, step)
    ensures Rank(Do(k, s, step)) < Rank(s)
  {
    match step
    case DaemonSelect =>
    case _ =>
  }

  /** Every step of a run uses up some of the rank. */
  lemma {:induction false} RunsAreShort(k: Timers, s: State, steps: seq<Step>)
    requires Exec(k, s, steps).At?
    ensures |steps| + Rank(Exec(k, s, steps).state) <= Rank(s)
    decreases |steps|
  {
    if steps != [] {
      RankDrops(k, s, steps[0]);
      RunsAreShort(k, Do(k, s, steps[0]), steps[1..]);
    }
  }

  /** With fitting timer ids every run that is not cut short by a timeout and goes on for as
      long as anything can move is over after at most ten steps, and then it is finished. */
  lemma MaximalRunFinishes(k: Timers, steps: seq<Step>)
    requires k.backup <= 0xEFFFFFFF && k.transfer <= 0xEFFFFFFF
    requires Exec(k, START, steps).At? && DaemonTimeout !in steps
    requires !CanGoOn(Exec(k, START, steps).state)
    ensures Finished(Exec(k, START, steps).state) && |steps| <= 10
  {
    var s := Exec(k, START, steps).state;
    RunKeepsInv(k, START, steps);
    GivesUpOnlyOnTimeout(k, START, steps);
    RunsAreShort(k, START, steps);
    if !Finished(s) {
      Progress(k, s);
    }
  }
}

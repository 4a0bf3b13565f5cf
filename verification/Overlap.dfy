/** Two transfers of the same file at the same time. The timer of reportman_fm and a client of
    reportmand both move files from dashboard to backup, in two processes, and nothing keeps
    them apart: every interleaving of their system calls on one source path and one
    destination path, down to single writes and reads of the copy. */
module Overlaps {
  import opened Bytes
  import opened Digests
  import opened FileSystems
  import opened Options
  import opened Streams
  import opened Transacts

  datatype Who = First | Second

  function Other(who: Who): Who {
    if who.First? then Second else First
  }

  /** What the outside decides of one process's transaction: which opens succeed, the bytes its
      writes put into the copy and those its hashing pass sees of the source, whether it can
      read the copy back, and whether it is a TRANSFER whose remove succeeds. */
  datatype Plan = Plan(
    opensSource: bool, opensDest: bool,
    copy: seq<Byte>, hashed: seq<Byte>,
    readable: bool, removes: bool)

  datatype Pair = Pair(alg: Algorithm, bytes: seq<Byte>, first: Plan, second: Plan)

  function PlanOf(two: Pair, who: Who): Plan {
    if who.First? then two.first else two.second
  }

  /** How far a process is. `Writing`: how much of its copy it has written; `Verifying`: what
      its second hashing pass has seen so far; `Agreed`: the digests were equal. */
  datatype Stage = Start | Opened | Writing(pos: nat) | Verifying(seen: seq<Byte>) | Agreed | Done

  /** Whether the source path is there, what is in the destination file, and the two processes.
      Both have the same file open behind the destination path, since opening it again only
      truncates it; the source is never written. */
  datatype World = World(source: bool, dest: Option<seq<Byte>>, first: Stage, second: Stage)

  function StageOf(w: World, who: Who): Stage {
    if who.First? then w.first else w.second
  }

  function WithStage(w: World, who: Who, stage: Stage): World {
    if who.First? then w.(first := stage) else w.(second := stage)
  }

  /** write(2) at an offset: a gap behind the end of the file is filled with zeros. */
  function WriteAt(file: seq<Byte>, pos: nat, data: seq<Byte>): seq<Byte> {
    if data == [] then file
    else if pos <= |file| then
      file[..pos] + data + (if pos + |data| <= |file| then file[pos + |data|..] else [])
    else file + seq(pos - |file|, _ => 0) + data
  }

  /** What is where after a write. */
  lemma Written(file: seq<Byte>, pos: nat, data: seq<Byte>)
    ensures var r := WriteAt(file, pos, data);
      && |r| == (if data != [] && pos + |data| > |file| then pos + |data| else |file|)
      && forall i :: 0 <= i < |r| ==>
           r[i] == if pos <= i < pos + |data| then data[i - pos] else if i < |file| then file[i] else 0
  {
  }

  function Content(dest: Option<seq<Byte>>): seq<Byte> {
    if dest.Some? then dest.value else []
  }

  /** The next call of `who`; `n` is how many bytes it moves, at most, where it moves any. A
      pass over the copy ends where it ends, or sooner when a read fails (`n` is zero). */
  function Step(two: Pair, w: World, who: Who, n: nat): World {
    var plan := PlanOf(two, who);
    match StageOf(w, who)
    case Start => WithStage(w, who, if w.source && plan.opensSource then Opened else Done)
    case Opened =>
      if plan.opensDest then WithStage(w.(dest := Some([])), who, Writing(0)) else WithStage(w, who, Done)
    case Writing(pos) =>
      if pos >= |plan.copy| then WithStage(w, who, Verifying([])) else
        var piece := Piece(two, w, who, n);
        WithPiece(w, who, WriteAt(Content(w.dest), pos, piece), pos + |piece|)
    case Verifying(seen) =>
      if Looks(two, w, who, n) then
        WithStage(w, who, Verifying(seen + Content(w.dest)[|seen|..Min(|seen| + n, |Content(w.dest)|)]))
      else WithStage(w, who, if Digest(two.alg, seen) == Digest(two.alg, plan.hashed) then Agreed else Done)
    case Agreed => WithStage(w.(source := w.source && !plan.removes), who, Done)
    case Done => w
  }

  /** A read of the copy that delivers something. */
  predicate Looks(two: Pair, w: World, who: Who, n: nat) {
    && StageOf(w, who).Verifying?
    && n > 0 && PlanOf(two, who).readable && |StageOf(w, who).seen| < |Content(w.dest)|
  }

  /** `who` is about to write something. */
  predicate Writes(two: Pair, w: World, who: Who) {
    StageOf(w, who).Writing? && StageOf(w, who).pos < |PlanOf(two, who).copy|
  }

  /** The piece of the copy that goes out next. */
  function Piece(two: Pair, w: World, who: Who, n: nat): seq<Byte>
    requires Writes(two, w, who)
  {
    var copy, pos := PlanOf(two, who).copy, StageOf(w, who).pos;
    copy[pos..pos + Min(n, |copy| - pos)]
  }

  function WithPiece(w: World, who: Who, dest: seq<Byte>, pos: nat): World {
    WithStage(w.(dest := Some(dest)), who, Writing(pos))
  }

  /** The world after a schedule: who makes the next call, and how far it gets. */
  function Run(two: Pair, w: World, schedule: seq<(Who, nat)>): World
    decreases |schedule|
  {
    if schedule == [] then w else Run(two, Step(two, w, schedule[0].0, schedule[0].1), schedule[1..])
  }

  /** Both are about to start; `dest` is what the destination holds until then. */
  function Begin(dest: Option<seq<Byte>>): World {
    World(true, dest, Start, Start)
  }

  predicate Over(w: World) {
    w.first.Done? && w.second.Done?
  }

  /** The source is gone and the destination does not hold its bytes. */
  predicate Lost(two: Pair, w: World) {
    !w.source && w.dest != Some(two.bytes)
  }

  // ---- exactly when the file is lost

  /** What the destination holds once `who` has made the writes it still has ahead. */
  function Settled(two: Pair, w: World, who: Who): Option<seq<Byte>> {
    var plan := PlanOf(two, who);
    match StageOf(w, who)
    case Opened => if plan.opensDest then Some(plan.copy) else w.dest
    case Writing(pos) =>
      if pos < |plan.copy| then Some(WriteAt(Content(w.dest), pos, plan.copy[pos..])) else w.dest
    case _ => w.dest
  }

  /** `who` is about to remove the source, and what the other has ahead, or has done, does not
      leave the destination with the bytes. */
  predicate RemovesTooEarly(two: Pair, w: World, who: Who) {
    && w.source && StageOf(w, who).Agreed? && PlanOf(two, who).removes
    && Settled(two, w, Other(who)) != Some(two.bytes)
  }

  function EarlyRemoval(two: Pair): (World, Who) -> bool {
    (w: World, who: Who) => RemovesTooEarly(two, w, who)
  }

  /** Somewhere in the schedule a process makes a step that is such an event. */
  ghost predicate Ever(two: Pair, w: World, schedule: seq<(Who, nat)>, event: (World, Who) -> bool) {
    exists i :: 0 <= i < |schedule| && event(Run(two, w, schedule[..i]), schedule[i].0)
  }

  lemma WriteTwice(file: seq<Byte>, pos: nat, a: seq<Byte>, b: seq<Byte>)
    ensures WriteAt(WriteAt(file, pos, a), pos + |a|, b) == WriteAt(file, pos, a + b)
  {
    Written(file, pos, a);
    Written(WriteAt(file, pos, a), pos + |a|, b);
    Written(file, pos, a + b);
  }

  /** Its own steps keep what the destination will be when `who` has made its writes. */
  lemma SettledStays(two: Pair, w: World, who: Who, n: nat)
    requires !w.source
    ensures Settled(two, Step(two, w, who, n), who) == Settled(two, w, who)
  {
    if Writes(two, w, who) {
      SettledWrite(two, w, who, n);
    } else if StageOf(w, who).Opened? {
      assert WriteAt([], 0, PlanOf(two, who).copy[0..]) == PlanOf(two, who).copy;
    }
  }

  lemma SettledWrite(two: Pair, w: World, who: Who, n: nat)
    requires Writes(two, w, who)
    ensures Settled(two, Step(two, w, who, n), who) == Settled(two, w, who)
  {
    var copy, pos, piece, dest := PlanOf(two, who).copy, StageOf(w, who).pos, Piece(two, w, who, n), Content(w.dest);
    var next := pos + |piece|;
    var r := WriteAt(dest, pos, piece);
    WriteStep(two, w, who, n);
    assert piece + copy[next..] == copy[pos..];
    WriteTwice(dest, pos, piece, copy[next..]);
    assert next == |copy| ==> piece == copy[pos..];
  }

  /** With the source gone and `who` done, nothing but the other's writes is still to come. */
  lemma {:induction false} AfterRemoval(two: Pair, w: World, who: Who, schedule: seq<(Who, nat)>)
    requires !w.source && StageOf(w, who).Done? && Over(Run(two, w, schedule))
    ensures var end := Run(two, w, schedule); !end.source && end.dest == Settled(two, w, Other(who))
    decreases |schedule|
  {
    if schedule != [] {
      if schedule[0].0 != who {
        SettledStays(two, w, Other(who), schedule[0].1);
        assert StageOf(Step(two, w, Other(who), schedule[0].1), who) == StageOf(w, who);
      }
      AfterRemoval(two, Step(two, w, schedule[0].0, schedule[0].1), who, schedule[1..]);
    }
  }

  lemma RunPrefix(two: Pair, w: World, schedule: seq<(Who, nat)>, i: nat)
    requires 0 < i <= |schedule|
    ensures Run(two, w, schedule[..i])
         == Run(two, Step(two, w, schedule[0].0, schedule[0].1), schedule[1..][..i - 1])
  {
    assert schedule[..i][1..] == schedule[1..][..i - 1];
  }

  /** It is the first step, or a later one. */
  lemma NowOrLater(two: Pair, w: World, schedule: seq<(Who, nat)>, event: (World, Who) -> bool)
    requires schedule != []
    ensures var next := Step(two, w, schedule[0].0, schedule[0].1);
      Ever(two, w, schedule, event) <==> event(w, schedule[0].0) || Ever(two, next, schedule[1..], event)
  {
    var next := Step(two, w, schedule[0].0, schedule[0].1);
    assert schedule[..0] == [];
    if i :| 0 <= i < |schedule| && event(Run(two, w, schedule[..i]), schedule[i].0) {
      if i > 0 {
        RunPrefix(two, w, schedule, i);
        assert event(Run(two, next, schedule[1..][..i - 1]), schedule[1..][i - 1].0);
      }
    }
    if i :| 0 <= i < |schedule| - 1 && event(Run(two, next, schedule[1..][..i]), schedule[1..][i].0) {
      RunPrefix(two, w, schedule, i + 1);
      assert event(Run(two, w, schedule[..i + 1]), schedule[i + 1].0);
    }
    if event(w, schedule[0].0) {
      assert event(Run(two, w, schedule[..0]), schedule[0].0);
    }
  }

  lemma {:induction false} NoMoreRemovals(two: Pair, w: World, schedule: seq<(Who, nat)>)
    requires !w.source
    ensures !Ever(two, w, schedule, EarlyRemoval(two))
    decreases |schedule|
  {
    if schedule != [] {
      NowOrLater(two, w, schedule, EarlyRemoval(two));
      NoMoreRemovals(two, Step(two, w, schedule[0].0, schedule[0].1), schedule[1..]);
    }
  }

  /** Whatever the two processes copy, hash and read, and however their calls fall together,
      the file is lost if and only if, at the moment its source is removed, what the other
      process has done and still has ahead does not leave the bytes in the destination. */
  lemma {:induction false} OverlapLosesExactly(two: Pair, w: World, schedule: seq<(Who, nat)>)
    requires w.source && Over(Run(two, w, schedule))
    ensures Lost(two, Run(two, w, schedule)) <==> Ever(two, w, schedule, EarlyRemoval(two))
    decreases |schedule|
  {
    if schedule != [] {
      var who, n := schedule[0].0, schedule[0].1;
      var next := Step(two, w, who, n);
      NowOrLater(two, w, schedule, EarlyRemoval(two));
      if next.source {
        OverlapLosesExactly(two, next, schedule[1..]);
      } else {
        AfterRemoval(two, next, who, schedule[1..]);
        NoMoreRemovals(two, next, schedule[1..]);
      }
    }
  }

  // ---- whole copies

  /** How many bytes a process that has opened the destination has written. */
  function Progress(plan: Plan, stage: Stage): nat {
    match stage
    case Writing(pos) => pos
    case Start | Opened => 0
    case _ => |plan.copy|
  }

  /** `last` was the last to truncate the destination: what it has written since is there. */
  predicate Right(two: Pair, w: World, last: Who) {
    var dest, done := Content(w.dest), Progress(PlanOf(two, last), StageOf(w, last));
    && !StageOf(w, last).Start? && !StageOf(w, last).Opened?
    && w.dest.Some? && done <= |dest| <= |two.bytes|
    && dest[..done] == two.bytes[..done]
  }

  predicate InBounds(plan: Plan, stage: Stage) {
    stage.Writing? ==> stage.pos <= |plan.copy|
  }

  /** No process has truncated the destination yet. */
  predicate Untouched(w: World) {
    w.source && Waiting(w.first) && Waiting(w.second)
  }

  /** A process that has not emptied the destination and, if it is done, never will. */
  predicate Waiting(stage: Stage) {
    stage.Start? || stage.Opened? || stage.Done?
  }

  predicate Truncates(two: Pair, w: World, who: Who) {
    StageOf(w, who).Opened? && PlanOf(two, who).opensDest
  }

  lemma InBoundsStep(two: Pair, w: World, who: Who, n: nat)
    requires InBounds(two.first, w.first) && InBounds(two.second, w.second)
    ensures var next := Step(two, w, who, n); InBounds(two.first, next.first) && InBounds(two.second, next.second)
  {
  }

  ghost predicate WholeInv(two: Pair, w: World) {
    && InBounds(two.first, w.first) && InBounds(two.second, w.second)
    && (Untouched(w) || exists last :: Right(two, w, last))
  }

  /** The bytes of a write that are right at its offset. */
  predicate RightAt(bytes: seq<Byte>, pos: nat, data: seq<Byte>) {
    pos + |data| <= |bytes| && data == bytes[pos..pos + |data|]
  }

  /** A write of right bytes keeps what is right, and adds to it when it starts inside. */
  lemma WriteRight(file: seq<Byte>, bytes: seq<Byte>, pos: nat, data: seq<Byte>, done: nat)
    requires RightAt(bytes, pos, data) && done <= |file| <= |bytes| && file[..done] == bytes[..done]
    ensures var r, end := WriteAt(file, pos, data), pos + |data|;
      && done <= |r| <= |bytes| && r[..done] == bytes[..done] && (|r| <= |file| || |r| == end)
      && (pos <= done ==> end <= |r| && r[..end] == bytes[..end])
  {
    var r := WriteAt(file, pos, data);
    Written(file, pos, data);
    forall i | 0 <= i < |r| && (i < done || (pos <= done && i < pos + |data|)) ensures r[i] == bytes[i] {
      assert i < done ==> file[..done][i] == bytes[..done][i];
    }
  }

  lemma WriteStep(two: Pair, w: World, who: Who, n: nat)
    requires Writes(two, w, who)
    ensures var pos, piece := StageOf(w, who).pos, Piece(two, w, who, n);
      Step(two, w, who, n) == WithPiece(w, who, WriteAt(Content(w.dest), pos, piece), pos + |piece|)
  {
  }

  lemma RightStep(two: Pair, w: World, last: Who, who: Who, n: nat)
    requires PlanOf(two, last).copy == PlanOf(two, who).copy == two.bytes
    requires InBounds(PlanOf(two, who), StageOf(w, who)) && Right(two, w, last)
    requires !Truncates(two, w, who)
    ensures Right(two, Step(two, w, who, n), last)
  {
    if Writes(two, w, who) {
      var pos, piece := StageOf(w, who).pos, Piece(two, w, who, n);
      var r := WriteAt(Content(w.dest), pos, piece);
      WriteRight(Content(w.dest), two.bytes, pos, piece, Progress(PlanOf(two, last), StageOf(w, last)));
      RightWritten(two, w, last, who, pos + |piece|, r);
      WriteStep(two, w, who, n);
    } else {
      RightMove(two, w, last, who, n);
    }
  }

  lemma RightMove(two: Pair, w: World, last: Who, who: Who, n: nat)
    requires PlanOf(two, last).copy == PlanOf(two, who).copy == two.bytes
    requires InBounds(PlanOf(two, who), StageOf(w, who)) && Right(two, w, last)
    requires !Truncates(two, w, who) && !Writes(two, w, who)
    ensures Right(two, Step(two, w, who, n), last)
  {
    var next := Step(two, w, who, n);
    assert next.dest == w.dest;
    assert Progress(PlanOf(two, last), StageOf(next, last)) == Progress(PlanOf(two, last), StageOf(w, last));
  }

  lemma RightWritten(two: Pair, w: World, last: Who, who: Who, pos: nat, r: seq<Byte>)
    requires PlanOf(two, last).copy == PlanOf(two, who).copy == two.bytes
    requires Right(two, w, last) && StageOf(w, who).Writing? && pos <= |two.bytes|
    requires var done := Progress(PlanOf(two, last), StageOf(w, last));
      && done <= |r| <= |two.bytes| && r[..done] == two.bytes[..done]
      && (StageOf(w, who).pos <= done ==> pos <= |r| && r[..pos] == two.bytes[..pos])
    ensures Right(two, WithPiece(w, who, r, pos), last)
  {
  }

  lemma WholeStep(two: Pair, w: World, who: Who, n: nat)
    requires two.first.copy == two.second.copy == two.bytes
    requires WholeInv(two, w)
    ensures WholeInv(two, Step(two, w, who, n))
  {
    InBoundsStep(two, w, who, n);
    if Truncates(two, w, who) {
      assert Right(two, Step(two, w, who, n), who);
    } else if !Untouched(w) {
      var last :| Right(two, w, last);
      RightStep(two, w, last, who, n);
    } else {
      assert Untouched(Step(two, w, who, n));
    }
  }

  lemma {:induction false} WholeRun(two: Pair, w: World, schedule: seq<(Who, nat)>)
    requires two.first.copy == two.second.copy == two.bytes && WholeInv(two, w)
    ensures WholeInv(two, Run(two, w, schedule))
    decreases |schedule|
  {
    if schedule != [] {
      WholeStep(two, w, schedule[0].0, schedule[0].1);
      WholeRun(two, Step(two, w, schedule[0].0, schedule[0].1), schedule[1..]);
    }
  }

  /** Whoever agrees has been through its copying, and the other one only has right bytes to add. */
  lemma AgreedIsSettled(two: Pair, w: World, who: Who)
    requires two.first.copy == two.second.copy == two.bytes
    requires WholeInv(two, w) && StageOf(w, who).Agreed?
    ensures Settled(two, w, Other(who)) == Some(two.bytes)
  {
    var last :| Right(two, w, last);
    var stage, dest := StageOf(w, Other(who)), Content(w.dest);
    var done := Progress(PlanOf(two, last), StageOf(w, last));
    assert last == who || last == Other(who);
    if Writes(two, w, Other(who)) {
      RestIsRight(dest, two.bytes, stage.pos, done);
    } else {
      assert done == |two.bytes|;
      assert two.bytes[..done] == two.bytes && dest[..done] == dest;
    }
  }

  /** The rest of the bytes, written from a place up to which all is right, makes all of it right. */
  lemma RestIsRight(file: seq<Byte>, bytes: seq<Byte>, pos: nat, done: nat)
    requires pos <= done <= |file| <= |bytes| && file[..done] == bytes[..done]
    ensures WriteAt(file, pos, bytes[pos..]) == bytes
  {
    assert bytes[pos..|bytes|] == bytes[pos..];
    WriteRight(file, bytes, pos, bytes[pos..], done);
    var r := WriteAt(file, pos, bytes[pos..]);
    assert r[..|r|] == r && bytes[..|bytes|] == bytes;
  }

  /** With no read error and no short write in the two copying loops, no interleaving loses the
      file, whatever becomes of the opens, the hashing, the comparisons and the removes, and
      even if a comparison is fooled: once both are done the bytes are at the source or at the
      destination. */
  lemma WholeCopiesSurvive(two: Pair, dest: Option<seq<Byte>>, schedule: seq<(Who, nat)>)
    requires two.first.copy == two.second.copy == two.bytes
    requires Over(Run(two, Begin(dest), schedule))
    ensures !Lost(two, Run(two, Begin(dest), schedule))
  {
    OverlapLosesExactly(two, Begin(dest), schedule);
    forall i | 0 <= i < |schedule|
      ensures !RemovesTooEarly(two, Run(two, Begin(dest), schedule[..i]), schedule[i].0)
    {
      var w := Run(two, Begin(dest), schedule[..i]);
      WholeRun(two, Begin(dest), schedule[..i]);
      if StageOf(w, schedule[i].0).Agreed? {
        AgreedIsSettled(two, w, schedule[i].0);
      }
    }
  }

  // ---- one whole copy, and one that falls short

  /** `full` copies and hashes all of the file; the other one hashes all of it and copies a
      proper prefix, as when the disk is full or a read fails. */
  predicate OneFallsShort(two: Pair, full: Who) {
    && PlanOf(two, full).copy == PlanOf(two, full).hashed == two.bytes
    && PlanOf(two, Other(full)).copy < two.bytes && PlanOf(two, Other(full)).hashed == two.bytes
  }

  /** A comparison takes two different contents for the same. */
  predicate Fooled(two: Pair, w: World, who: Who, n: nat) {
    && StageOf(w, who).Verifying? && !Looks(two, w, who, n)
    && StageOf(w, who).seen != PlanOf(two, who).hashed
    && Digest(two.alg, StageOf(w, who).seen) == Digest(two.alg, PlanOf(two, who).hashed)
  }

  predicate NeverFooled(two: Pair, w: World, schedule: seq<(Who, nat)>)
    decreases |schedule|
  {
    schedule == [] ||
    (!Fooled(two, w, schedule[0].0, schedule[0].1)
      && NeverFooled(two, Step(two, w, schedule[0].0, schedule[0].1), schedule[1..]))
  }

  /** `who` has read all of the bytes back: it agrees, or has agreed and removed the source. */
  predicate HasSeenAll(two: Pair, w: World, who: Who) {
    match StageOf(w, who)
    case Verifying(seen) => seen == two.bytes
    case Agreed => true
    case Done => !w.source
    case _ => false
  }

  /** The process that falls short empties the destination when the other one has already
      read its own copy back. */
  function LateTruncation(two: Pair, full: Who): (World, Who) -> bool {
    (w: World, who: Who) => who == Other(full) && Truncates(two, w, who) && HasSeenAll(two, w, full)
  }

  /** Who has emptied the destination so far, and when: `Mixed`, the short one while the full
      one was still writing; `Spoilt`, after that and before it had read everything back;
      `TooLate`, after that. */
  datatype Phase = Fresh | FullOnly | ShortOnly | FullLast | Mixed | Spoilt | TooLate

  function NextPhase(two: Pair, w: World, full: Who, phase: Phase, who: Who): Phase {
    if !Truncates(two, w, who) then phase
    else if who == full then (if phase.Fresh? then FullOnly else FullLast)
    else if phase.Fresh? then ShortOnly
    else if HasSeenAll(two, w, full) then TooLate
    else if StageOf(w, full).Writing? && StageOf(w, full).pos < |two.bytes| then Mixed
    else Spoilt
  }

  predicate Truncated(stage: Stage) {
    !stage.Start? && !stage.Opened?
  }

  /** The destination is the prefix of its copy that `who` has written, and so is what it saw. */
  predicate Alone(two: Pair, w: World, who: Who) {
    var copy, stage := PlanOf(two, who).copy, StageOf(w, who);
    && Truncated(stage)
    && w.dest == Some(copy[..Min(Progress(PlanOf(two, who), stage), |copy|)])
    && (stage.Verifying? ==> stage.seen <= copy)
  }

  predicate FullOnlyInv(two: Pair, w: World, full: Who) {
    && Alone(two, w, full) && Waiting(StageOf(w, Other(full)))
    && (!w.source ==> StageOf(w, full).Done? && PlanOf(two, full).removes)
  }

  predicate ShortOnlyInv(two: Pair, w: World, full: Who) {
    && w.source && Waiting(StageOf(w, full))
    && Alone(two, w, Other(full)) && !StageOf(w, Other(full)).Agreed?
  }

  predicate FullLastInv(two: Pair, w: World, full: Who) {
    var dest, short := Content(w.dest), StageOf(w, Other(full));
    var done, other := Progress(PlanOf(two, full), StageOf(w, full)), |PlanOf(two, Other(full)).copy|;
    && Truncated(StageOf(w, full)) && Truncated(short) && w.dest.Some?
    && done <= |dest| && done <= |two.bytes| && (|dest| <= done || |dest| <= other) && dest[..done] == two.bytes[..done]
    && (short.Verifying? ==> |short.seen| <= done || |short.seen| <= other)
    && (short.Agreed? || !w.source ==> done == |two.bytes|)
  }

  /** What has been seen is there still, or has become right. */
  predicate SeenOrRight(two: Pair, w: World, who: Who) {
    var dest, stage := Content(w.dest), StageOf(w, who);
    && Truncated(stage)
    && (stage.Verifying? ==>
          && |stage.seen| <= |dest| <= |two.bytes|
          && forall i :: 0 <= i < |stage.seen| ==> dest[i] == stage.seen[i] || dest[i] == two.bytes[i])
    && (stage.Agreed? || !w.source ==> dest == two.bytes)
  }

  predicate MixedInv(two: Pair, w: World) {
    && w.dest.Some? && |Content(w.dest)| <= |two.bytes|
    && SeenOrRight(two, w, First) && SeenOrRight(two, w, Second)
  }

  predicate SpoiltInv(two: Pair, w: World, full: Who) {
    var stage, short, other := StageOf(w, full), StageOf(w, Other(full)), |PlanOf(two, Other(full)).copy|;
    && w.source && |Content(w.dest)| <= other
    && match stage {
         case Writing(pos) => pos == |two.bytes|
         case Verifying(seen) => |seen| < |two.bytes|
         case Done => true
         case _ => false
       }
    && Truncated(short) && !short.Agreed? && (short.Verifying? ==> |short.seen| <= other)
  }

  predicate TooLateInv(two: Pair, w: World, full: Who) {
    var stage := StageOf(w, full);
    && (stage == Verifying(two.bytes) || stage.Agreed? || stage.Done?)
    && (w.source <==> !(stage.Done? && PlanOf(two, full).removes))
    && Alone(two, w, Other(full)) && !StageOf(w, Other(full)).Agreed?
  }

  predicate PhaseInv(two: Pair, w: World, full: Who, phase: Phase) {
    && InBounds(two.first, w.first) && InBounds(two.second, w.second)
    && match phase
       case Fresh => w.source && Waiting(w.first) && Waiting(w.second)
       case FullOnly => FullOnlyInv(two, w, full)
       case ShortOnly => ShortOnlyInv(two, w, full)
       case FullLast => FullLastInv(two, w, full)
       case Mixed => MixedInv(two, w)
       case Spoilt => SpoiltInv(two, w, full)
       case TooLate => TooLateInv(two, w, full)
  }

  // what one step does in each phase, when it empties nothing

  /** The next bytes of a prefix go right behind it. */
  lemma WriteOn(copy: seq<Byte>, pos: nat, k: nat)
    requires pos + k <= |copy|
    ensures WriteAt(copy[..pos], pos, copy[pos..pos + k]) == copy[..pos + k]
  {
  }

  lemma AloneStep(two: Pair, w: World, who: Who, mover: Who, n: nat)
    requires Alone(two, w, who) && InBounds(PlanOf(two, who), StageOf(w, who))
    requires mover == who || (Waiting(StageOf(w, mover)) && !Truncates(two, w, mover))
    ensures Alone(two, Step(two, w, mover, n), who)
  {
    if mover == who && Writes(two, w, who) {
      WriteOn(PlanOf(two, who).copy, StageOf(w, who).pos, |Piece(two, w, who, n)|);
    } else if mover == who && Looks(two, w, who, n) {
      LookOn(StageOf(w, who).seen, Content(w.dest), PlanOf(two, who).copy, n);
    }
  }

  lemma LookOn(seen: seq<Byte>, dest: seq<Byte>, copy: seq<Byte>, n: nat)
    requires seen <= copy && dest <= copy && |seen| < |dest|
    ensures seen + dest[|seen|..Min(|seen| + n, |dest|)] <= copy
  {
  }

  /** What both copies have in common: they are made of right bytes. */
  lemma RightPiece(two: Pair, full: Who, w: World, who: Who, n: nat)
    requires OneFallsShort(two, full) && Writes(two, w, who)
    ensures var pos, piece := StageOf(w, who).pos, Piece(two, w, who, n);
      pos + |piece| <= |PlanOf(two, who).copy| && RightAt(two.bytes, pos, piece)
  {
    assert who == full || who == Other(full);
  }

  lemma FullLastWrite(two: Pair, w: World, full: Who, who: Who, n: nat)
    requires OneFallsShort(two, full) && PhaseInv(two, w, full, FullLast) && Writes(two, w, who)
    ensures FullLastInv(two, Step(two, w, who, n), full)
  {
    var pos, piece := StageOf(w, who).pos, Piece(two, w, who, n);
    var r := WriteAt(Content(w.dest), pos, piece);
    RightPiece(two, full, w, who, n);
    WriteRight(Content(w.dest), two.bytes, pos, piece, Progress(PlanOf(two, full), StageOf(w, full)));
    FullLastWritten(two, w, full, who, pos, |piece|, r);
    WriteStep(two, w, who, n);
  }

  lemma FullLastWritten(two: Pair, w: World, full: Who, who: Who, pos: nat, k: nat, r: seq<Byte>)
    requires OneFallsShort(two, full) && FullLastInv(two, w, full)
    requires StageOf(w, who) == Writing(pos) && pos + k <= |PlanOf(two, who).copy|
    requires var done := Progress(PlanOf(two, full), StageOf(w, full));
      && done <= |r| <= |two.bytes| && r[..done] == two.bytes[..done]
      && (|r| <= |Content(w.dest)| || |r| == pos + k)
      && (pos <= done ==> pos + k <= |r| && r[..pos + k] == two.bytes[..pos + k])
    ensures FullLastInv(two, WithPiece(w, who, r, pos + k), full)
  {
    assert who == full || who == Other(full);
  }

  lemma FullLastStep(two: Pair, w: World, full: Who, who: Who, n: nat)
    requires OneFallsShort(two, full) && PhaseInv(two, w, full, FullLast) && !Fooled(two, w, who, n)
    ensures FullLastInv(two, Step(two, w, who, n), full)
  {
    if Writes(two, w, who) {
      FullLastWrite(two, w, full, who, n);
    } else if who == full {
      FullLastMove(two, w, full, n);
    } else {
      ShortAfterFullMove(two, w, full, n);
    }
  }

  lemma FullLastMove(two: Pair, w: World, full: Who, n: nat)
    requires OneFallsShort(two, full) && PhaseInv(two, w, full, FullLast) && !Writes(two, w, full)
    ensures FullLastInv(two, Step(two, w, full, n), full)
  {
    var next := Step(two, w, full, n);
    assert Progress(PlanOf(two, full), StageOf(w, full)) == |two.bytes|;
    assert Progress(PlanOf(two, full), StageOf(next, full)) == |two.bytes|;
    assert StageOf(next, Other(full)) == StageOf(w, Other(full)) && next.dest == w.dest;
  }

  lemma ShortAfterFullMove(two: Pair, w: World, full: Who, n: nat)
    requires OneFallsShort(two, full) && PhaseInv(two, w, full, FullLast)
    requires !Writes(two, w, Other(full)) && !Fooled(two, w, Other(full), n)
    ensures FullLastInv(two, Step(two, w, Other(full), n), full)
  {
    var next := Step(two, w, Other(full), n);
    assert StageOf(next, full) == StageOf(w, full) && next.dest == w.dest;
  }

  /** A right write changes nothing but to what is right. */
  lemma WriteRights(file: seq<Byte>, bytes: seq<Byte>, pos: nat, data: seq<Byte>)
    requires RightAt(bytes, pos, data) && |file| <= |bytes|
    ensures var r := WriteAt(file, pos, data);
      && |file| <= |r| <= |bytes|
      && (forall i :: 0 <= i < |file| ==> r[i] == file[i] || r[i] == bytes[i])
      && (file == bytes ==> r == bytes)
  {
    Written(file, pos, data);
  }

  lemma MixedWrite(two: Pair, w: World, full: Who, who: Who, n: nat, other: Who)
    requires OneFallsShort(two, full) && PhaseInv(two, w, full, Mixed) && Writes(two, w, who)
    ensures SeenOrRight(two, Step(two, w, who, n), other)
    ensures |Content(Step(two, w, who, n).dest)| <= |two.bytes|
  {
    var pos, piece := StageOf(w, who).pos, Piece(two, w, who, n);
    var r := WriteAt(Content(w.dest), pos, piece);
    RightPiece(two, full, w, who, n);
    WriteRights(Content(w.dest), two.bytes, pos, piece);
    MixedWritten(two, w, who, pos, |piece|, other, r);
    WriteStep(two, w, who, n);
  }

  lemma MixedWritten(two: Pair, w: World, who: Who, pos: nat, k: nat, other: Who, r: seq<Byte>)
    requires SeenOrRight(two, w, First) && SeenOrRight(two, w, Second) && StageOf(w, who) == Writing(pos)
    requires var dest := Content(w.dest);
      && |dest| <= |r| <= |two.bytes|
      && (forall i :: 0 <= i < |dest| ==> r[i] == dest[i] || r[i] == two.bytes[i])
      && (dest == two.bytes ==> r == two.bytes)
    ensures SeenOrRight(two, WithPiece(w, who, r, pos + k), other)
  {
    assert SeenOrRight(two, w, other);
  }

  lemma MixedStep(two: Pair, w: World, full: Who, who: Who, n: nat, other: Who)
    requires OneFallsShort(two, full) && PhaseInv(two, w, full, Mixed) && !Fooled(two, w, who, n)
    ensures SeenOrRight(two, Step(two, w, who, n), other)
    ensures |Content(Step(two, w, who, n).dest)| <= |two.bytes|
  {
    assert SeenOrRight(two, w, who) && SeenOrRight(two, w, other);
    if Writes(two, w, who) {
      MixedWrite(two, w, full, who, n, other);
    } else {
      assert Step(two, w, who, n).dest == w.dest;
      assert other != who ==> StageOf(Step(two, w, who, n), other) == StageOf(w, other);
      if Looks(two, w, who, n) {
        MixedLook(two, w, who, n, other);
      } else {
        MixedMove(two, w, full, who, n, other);
      }
    }
  }

  lemma MixedKeeps(two: Pair, w: World, full: Who, who: Who, n: nat)
    requires OneFallsShort(two, full) && PhaseInv(two, w, full, Mixed)
    requires !Truncates(two, w, who) && !Fooled(two, w, who, n)
    ensures MixedInv(two, Step(two, w, who, n))
  {
    MixedStep(two, w, full, who, n, First);
    MixedStep(two, w, full, who, n, Second);
  }

  lemma MixedLook(two: Pair, w: World, who: Who, n: nat, other: Who)
    requires SeenOrRight(two, w, who) && SeenOrRight(two, w, other) && Looks(two, w, who, n)
    ensures SeenOrRight(two, Step(two, w, who, n), other)
  {
  }

  lemma MixedMove(two: Pair, w: World, full: Who, who: Who, n: nat, other: Who)
    requires OneFallsShort(two, full) && PhaseInv(two, w, full, Mixed) && !Fooled(two, w, who, n)
    requires !Writes(two, w, who) && !Looks(two, w, who, n)
    ensures SeenOrRight(two, Step(two, w, who, n), other)
  {
    assert SeenOrRight(two, w, who) && SeenOrRight(two, w, other);
    assert PlanOf(two, who).hashed == two.bytes;
  }

  lemma SpoiltStep(two: Pair, w: World, full: Who, who: Who, n: nat)
    requires OneFallsShort(two, full) && PhaseInv(two, w, full, Spoilt) && !Fooled(two, w, who, n)
    ensures SpoiltInv(two, Step(two, w, who, n), full)
  {
    if Writes(two, w, who) {
      var pos, piece := StageOf(w, who).pos, Piece(two, w, who, n);
      assert who == Other(full);
      Written(Content(w.dest), pos, piece);
      SpoiltWritten(two, w, full, pos + |piece|, WriteAt(Content(w.dest), pos, piece));
      WriteStep(two, w, who, n);
    } else {
      SpoiltMove(two, w, full, who, n);
    }
  }

  lemma SpoiltWritten(two: Pair, w: World, full: Who, pos: nat, r: seq<Byte>)
    requires SpoiltInv(two, w, full) && StageOf(w, Other(full)).Writing? && |r| <= |PlanOf(two, Other(full)).copy|
    ensures SpoiltInv(two, WithPiece(w, Other(full), r, pos), full)
  {
  }

  lemma SpoiltMove(two: Pair, w: World, full: Who, who: Who, n: nat)
    requires OneFallsShort(two, full) && SpoiltInv(two, w, full) && !Writes(two, w, who) && !Fooled(two, w, who, n)
    ensures SpoiltInv(two, Step(two, w, who, n), full)
  {
    assert Step(two, w, who, n).dest == w.dest && PlanOf(two, who).hashed == two.bytes;
  }

  lemma TooLateStep(two: Pair, w: World, full: Who, who: Who, n: nat)
    requires OneFallsShort(two, full) && PhaseInv(two, w, full, TooLate) && !Fooled(two, w, who, n)
    ensures TooLateInv(two, Step(two, w, who, n), full)
  {
    if who != full {
      AloneStep(two, w, who, who, n);
    }
  }

  lemma FullEmpties(two: Pair, w: World, full: Who, phase: Phase, n: nat)
    requires OneFallsShort(two, full) && PhaseInv(two, w, full, phase) && Truncates(two, w, full)
    ensures PhaseInv(two, Step(two, w, full, n), full, NextPhase(two, w, full, phase, full))
  {
    var next := Step(two, w, full, n);
    assert next.dest == Some([]) && StageOf(next, full) == Writing(0);
    assert StageOf(next, Other(full)) == StageOf(w, Other(full)) && next.source == w.source;
  }

  lemma ShortEmpties(two: Pair, w: World, full: Who, phase: Phase, n: nat)
    requires OneFallsShort(two, full) && PhaseInv(two, w, full, phase) && Truncates(two, w, Other(full))
    ensures PhaseInv(two, Step(two, w, Other(full), n), full, NextPhase(two, w, full, phase, Other(full)))
  {
    var next := Step(two, w, Other(full), n);
    assert next.dest == Some([]) && StageOf(next, Other(full)) == Writing(0);
    assert StageOf(next, full) == StageOf(w, full) && next.source == w.source;
  }

  lemma FreshStep(two: Pair, w: World, who: Who, n: nat)
    requires w.source && Waiting(w.first) && Waiting(w.second) && !Truncates(two, w, who)
    ensures var next := Step(two, w, who, n); next.source && Waiting(next.first) && Waiting(next.second)
  {
  }

  lemma FullOnlyStep(two: Pair, w: World, full: Who, who: Who, n: nat)
    requires PhaseInv(two, w, full, FullOnly) && !Truncates(two, w, who)
    ensures FullOnlyInv(two, Step(two, w, who, n), full)
  {
    AloneStep(two, w, full, who, n);
  }

  lemma ShortOnlyStep(two: Pair, w: World, full: Who, who: Who, n: nat)
    requires OneFallsShort(two, full) && PhaseInv(two, w, full, ShortOnly)
    requires !Truncates(two, w, who) && !Fooled(two, w, who, n)
    ensures ShortOnlyInv(two, Step(two, w, who, n), full)
  {
    AloneStep(two, w, Other(full), who, n);
  }

  lemma QuietStep(two: Pair, w: World, full: Who, phase: Phase, who: Who, n: nat)
    requires OneFallsShort(two, full) && PhaseInv(two, w, full, phase)
    requires !Truncates(two, w, who) && !Fooled(two, w, who, n)
    ensures PhaseInv(two, Step(two, w, who, n), full, phase)
  {
    InBoundsStep(two, w, who, n);
    match phase
    case Fresh => FreshStep(two, w, who, n);
    case FullOnly => FullOnlyStep(two, w, full, who, n);
    case ShortOnly => ShortOnlyStep(two, w, full, who, n);
    case FullLast => FullLastStep(two, w, full, who, n);
    case Mixed => MixedKeeps(two, w, full, who, n);
    case Spoilt => SpoiltStep(two, w, full, who, n);
    case TooLate => TooLateStep(two, w, full, who, n);
  }

  lemma PhaseStep(two: Pair, w: World, full: Who, phase: Phase, who: Who, n: nat)
    requires OneFallsShort(two, full) && PhaseInv(two, w, full, phase) && !Fooled(two, w, who, n)
    ensures PhaseInv(two, Step(two, w, who, n), full, NextPhase(two, w, full, phase, who))
  {
    if !Truncates(two, w, who) {
      QuietStep(two, w, full, phase, who, n);
    } else if who == full {
      FullEmpties(two, w, full, phase, n);
    } else {
      assert who == Other(full);
      ShortEmpties(two, w, full, phase, n);
    }
  }

  /** Where a run ends, by its last phase. */
  lemma EndOfPhase(two: Pair, w: World, full: Who, phase: Phase)
    requires OneFallsShort(two, full) && PhaseInv(two, w, full, phase) && Over(w)
    ensures Lost(two, w) <==> phase.TooLate? && PlanOf(two, full).removes
  {
    assert two.bytes[..|two.bytes|] == two.bytes && Content(w.dest)[..|Content(w.dest)|] == Content(w.dest);
  }

  lemma {:induction false} ShortRun(two: Pair, w: World, full: Who, phase: Phase, schedule: seq<(Who, nat)>)
    requires OneFallsShort(two, full) && PhaseInv(two, w, full, phase)
    requires NeverFooled(two, w, schedule) && Over(Run(two, w, schedule))
    ensures Lost(two, Run(two, w, schedule))
            <==> PlanOf(two, full).removes && (phase.TooLate? || Ever(two, w, schedule, LateTruncation(two, full)))
    decreases |schedule|
  {
    if schedule == [] {
      EndOfPhase(two, w, full, phase);
    } else {
      var who, n := schedule[0].0, schedule[0].1;
      PhaseStep(two, w, full, phase, who, n);
      NowOrLater(two, w, schedule, LateTruncation(two, full));
      ShortRun(two, Step(two, w, who, n), full, NextPhase(two, w, full, phase, who), schedule[1..]);
    }
  }

  /** When one process copies the whole file and the other falls short, and no comparison is
      fooled, the file is lost if and only if the one that falls short empties the destination
      after the other has read its copy back to the end, and that other is a TRANSFER whose
      remove works. To empty it then it must have opened the source before that remove. Every
      other interleaving keeps the bytes, emptying in the middle of the other's writes or of
      its reading back included. */
  lemma ShortCopyLosesExactly(two: Pair, full: Who, dest: Option<seq<Byte>>, schedule: seq<(Who, nat)>)
    requires OneFallsShort(two, full)
    requires NeverFooled(two, Begin(dest), schedule) && Over(Run(two, Begin(dest), schedule))
    ensures Lost(two, Run(two, Begin(dest), schedule))
            <==> PlanOf(two, full).removes && Ever(two, Begin(dest), schedule, LateTruncation(two, full))
  {
    ShortRun(two, Begin(dest), full, Fresh, schedule);
  }

  // ---- one process at a time

  lemma Unroll(two: Pair, w: World, schedule: seq<(Who, nat)>, next: World)
    requires schedule != [] && next == Step(two, w, schedule[0].0, schedule[0].1)
    ensures Run(two, w, schedule) == Run(two, next, schedule[1..])
  {
  }

  lemma {:induction false} RunConcat(two: Pair, w: World, a: seq<(Who, nat)>, b: seq<(Who, nat)>)
    ensures Run(two, w, a + b) == Run(two, Run(two, w, a), b)
    decreases |a|
  {
    if a == [] {
      assert a + b == b;
    } else {
      RunConcat(two, Step(two, w, a[0].0, a[0].1), a[1..], b);
      assert (a + b)[1..] == a[1..] + b;
    }
  }

  /** Open the destination, copy, rewind, read `k` bytes back, compare, remove; and before that
      open the source. */
  function Rest(who: Who, copy: seq<Byte>, k: nat): seq<(Who, nat)> {
    [(who, 0), (who, |copy|), (who, 0), (who, k), (who, 0), (who, 0)]
  }

  function Solo(who: Who, copy: seq<Byte>, k: nat): seq<(Who, nat)> {
    [(who, 0)] + Rest(who, copy, k)
  }

  lemma {:induction false} DoneStays(two: Pair, w: World, who: Who, schedule: seq<(Who, nat)>)
    requires StageOf(w, who).Done? && forall step | step in schedule :: step.0 == who
    ensures Run(two, w, schedule) == w
    decreases |schedule|
  {
    if schedule != [] {
      assert schedule[0] in schedule;
      DoneStays(two, w, who, schedule[1..]);
    }
  }

  /** From an empty destination to the end, with nobody else moving. */
  lemma RestRun(two: Pair, w: World, who: Who, k: nat)
    requires var plan := PlanOf(two, who); k <= |plan.copy| && (k > 0 ==> plan.readable)
    requires StageOf(w, who).Opened? && PlanOf(two, who).opensDest
    ensures var plan := PlanOf(two, who);
      var agreed := Digest(two.alg, plan.copy[..k]) == Digest(two.alg, plan.hashed);
      Run(two, w, Rest(who, plan.copy, k))
      == WithStage(w.(source := w.source && !(agreed && plan.removes), dest := Some(plan.copy)), who, Done)
  {
    var copy, rest := PlanOf(two, who).copy, Rest(who, PlanOf(two, who).copy, k);
    var w2 := WithStage(w.(dest := Some(copy)), who, if copy == [] then Verifying([]) else Writing(|copy|));
    WriteAllRun(two, w, who, rest);
    if copy == [] {
      CompareRun(two, w2, who, [], rest[2..]);
    } else {
      var w3 := WithStage(w2, who, Verifying([]));
      Unroll(two, w2, rest[2..], w3);
      ReadBackRun(two, w3, who, k, rest[3..]);
    }
  }

  lemma WriteAllRun(two: Pair, w: World, who: Who, schedule: seq<(Who, nat)>)
    requires StageOf(w, who).Opened? && PlanOf(two, who).opensDest
    requires |schedule| >= 2 && schedule[0] == (who, 0) && schedule[1] == (who, |PlanOf(two, who).copy|)
    ensures var copy := PlanOf(two, who).copy;
      Run(two, w, schedule)
      == Run(two, WithStage(w.(dest := Some(copy)), who, if copy == [] then Verifying([]) else Writing(|copy|)),
             schedule[2..])
  {
    var copy, w1 := PlanOf(two, who).copy, WithStage(w.(dest := Some([])), who, Writing(0));
    Unroll(two, w, schedule, w1);
    WriteAllStep(two, w1, who);
    Unroll(two, w1, schedule[1..], Step(two, w1, who, |copy|));
    assert schedule[1..][1..] == schedule[2..];
  }

  lemma WriteAllStep(two: Pair, w: World, who: Who)
    requires StageOf(w, who) == Writing(0) && w.dest == Some([])
    ensures var copy := PlanOf(two, who).copy;
      Step(two, w, who, |copy|)
      == WithStage(w.(dest := Some(copy)), who, if copy == [] then Verifying([]) else Writing(|copy|))
  {
    var copy := PlanOf(two, who).copy;
    if copy != [] {
      WriteStep(two, w, who, |copy|);
      WholePiece(copy);
      assert Piece(two, w, who, |copy|) == copy[0..|copy|];
    }
  }

  lemma WholePiece(copy: seq<Byte>)
    ensures copy[0..|copy|] == copy && WriteAt([], 0, copy) == copy
  {
  }

  lemma ReadBackRun(two: Pair, w: World, who: Who, k: nat, schedule: seq<(Who, nat)>)
    requires var plan := PlanOf(two, who); w.dest == Some(plan.copy) && k <= |plan.copy| && (k > 0 ==> plan.readable)
    requires StageOf(w, who) == Verifying([]) && schedule == [(who, k), (who, 0), (who, 0)]
    ensures var plan := PlanOf(two, who);
      var agreed := Digest(two.alg, plan.copy[..k]) == Digest(two.alg, plan.hashed);
      Run(two, w, schedule) == WithStage(w.(source := w.source && !(agreed && plan.removes)), who, Done)
  {
    var copy := PlanOf(two, who).copy;
    assert [] + copy[0..k] == copy[..k];
    if k == 0 {
      CompareRun(two, w, who, [], schedule);
    } else {
      var w1 := WithStage(w, who, Verifying(copy[..k]));
      Unroll(two, w, schedule, w1);
      CompareRun(two, w1, who, copy[..k], schedule[1..]);
    }
  }

  lemma CompareRun(two: Pair, w: World, who: Who, seen: seq<Byte>, schedule: seq<(Who, nat)>)
    requires StageOf(w, who) == Verifying(seen)
    requires |schedule| >= 2 && schedule[0] == (who, 0) && forall step | step in schedule :: step.0 == who
    ensures var plan := PlanOf(two, who);
      var agreed := Digest(two.alg, seen) == Digest(two.alg, plan.hashed);
      Run(two, w, schedule) == WithStage(w.(source := w.source && !(agreed && plan.removes)), who, Done)
  {
    var plan := PlanOf(two, who);
    var agreed := Digest(two.alg, seen) == Digest(two.alg, plan.hashed);
    var w1 := WithStage(w, who, if agreed then Agreed else Done);
    Unroll(two, w, schedule, w1);
    assert schedule[1] in schedule && forall step | step in schedule[1..] :: step in schedule;
    if agreed {
      var w2 := WithStage(w1.(source := w.source && !plan.removes), who, Done);
      Unroll(two, w1, schedule[1..], w2);
      assert forall step | step in schedule[1..][1..] :: step in schedule;
      DoneStays(two, w2, who, schedule[1..][1..]);
    } else {
      DoneStays(two, w1, who, schedule[1..]);
    }
  }

  function BytesOf(nodes: Nodes, p: Path): Option<seq<Byte>> {
    if IsFile(nodes, p) then Some(nodes[p].bytes) else None
  }

  /** What `env` and the tree decide of a transaction from `s` to `d`. */
  function PlanFor(nodes: Nodes, env: Env, how: Method, s: Path, d: Path): Plan
    requires IsFile(nodes, s)
  {
    Plan(!env.faults.openSource(s), !env.faults.openDest(d) && CanWrite(nodes, d),
         CopyOf(env, nodes[s].bytes, s, d), SourceHashed(env, nodes[s].bytes, s),
         env.readable, how.Transfer? && !env.faults.remove(s))
  }

  /** One process on its own is the transaction: its calls, one after the other, leave the
      source and the destination as `Transacted` says. */
  lemma TransactionIsARun(nodes: Nodes, env: Env, how: Method, s: Path, d: Path, other: Plan)
    requires IsFile(nodes, s) && s != d
    ensures var bytes, plan, after := nodes[s].bytes, PlanFor(nodes, env, how, s, d), Transacted(nodes, env, how, s, d);
      var end := Run(Pair(env.alg, bytes, plan, other), Begin(BytesOf(nodes, d)),
                     Solo(First, plan.copy, |DestHashed(env, bytes, s, d)|));
      end.first.Done? && end.source == (s in after) && end.dest == BytesOf(after, d)
  {
    var bytes, plan := nodes[s].bytes, PlanFor(nodes, env, how, s, d);
    var two, k := Pair(env.alg, bytes, plan, other), |DestHashed(env, bytes, s, d)|;
    SeenIsPrefix(env, bytes, s, d);
    SoloRun(two, Begin(BytesOf(nodes, d)), First, k);
    assert Opens(nodes, env, s, d, HasHome(nodes, d)) <==> plan.opensSource && plan.opensDest;
  }

  lemma SeenIsPrefix(env: Env, bytes: seq<Byte>, s: Path, d: Path)
    ensures var copy, seen := CopyOf(env, bytes, s, d), DestHashed(env, bytes, s, d);
      |seen| <= |copy| && seen == copy[..|seen|] && (seen != [] ==> env.readable)
  {
    ReadThroughIsPrefix(if env.readable then CopyOf(env, bytes, s, d) else [], env.faults.fread(d, HashingDest), 0);
  }

  /** One process from its start to its end, with nobody else moving. */
  lemma SoloRun(two: Pair, w: World, who: Who, k: nat)
    requires var plan := PlanOf(two, who); k <= |plan.copy| && (k > 0 ==> plan.readable)
    requires StageOf(w, who).Start? && w.source
    ensures var plan := PlanOf(two, who);
      var agreed := Digest(two.alg, plan.copy[..k]) == Digest(two.alg, plan.hashed);
      Run(two, w, Solo(who, plan.copy, k))
      == WithStage(if plan.opensSource && plan.opensDest
                   then w.(source := !(agreed && plan.removes), dest := Some(plan.copy)) else w, who, Done)
  {
    var plan := PlanOf(two, who);
    var solo, ended := Solo(who, plan.copy, k), WithStage(w, who, Done);
    assert solo[1..] == Rest(who, plan.copy, k);
    if !plan.opensSource {
      Unroll(two, w, solo, ended);
      DoneStays(two, ended, who, solo[1..]);
    } else {
      var w1 := WithStage(w, who, Opened);
      Unroll(two, w, solo, w1);
      if plan.opensDest {
        RestRun(two, w1, who, k);
      } else {
        Unroll(two, w1, solo[1..], ended);
        DoneStays(two, ended, who, solo[1..][1..]);
      }
    }
  }

  /** The loss does happen: the second process opens the source, the first makes its whole
      transfer, and then the second goes on. */
  lemma OverlapCanLose(two: Pair, dest: Option<seq<Byte>>)
    requires OneFallsShort(two, First) && two.first.readable && two.first.removes
    requires two.first.opensSource && two.first.opensDest && two.second.opensSource && two.second.opensDest
    ensures exists schedule :: Over(Run(two, Begin(dest), schedule)) && Lost(two, Run(two, Begin(dest), schedule))
  {
    var w := Begin(dest);
    var a, b, c := [(Second, 0)], Solo(First, two.bytes, |two.bytes|), Rest(Second, two.second.copy, 0);
    var w1 := w.(second := Opened);
    Unroll(two, w, a, w1);
    assert two.bytes[..|two.bytes|] == two.bytes;
    SoloRun(two, w1, First, |two.bytes|);
    RestRun(two, Run(two, w1, b), Second, 0);
    RunConcat(two, w, a, b);
    RunConcat(two, w, a + b, c);
    assert Lost(two, Run(two, w, a + b + c));
  }

  /** As written, where neither process can read its copy back, no interleaving removes a file
      that does not hash as the empty one does. */
  lemma {:induction false} WriteOnlyOverlapIsSafe(two: Pair, w: World, schedule: seq<(Who, nat)>)
    requires forall who :: !PlanOf(two, who).readable && Digest(two.alg, PlanOf(two, who).hashed) != Digest(two.alg, [])
    requires w.source && NothingSeen(w.first) && NothingSeen(w.second)
    ensures Run(two, w, schedule).source
    decreases |schedule|
  {
    if schedule != [] {
      var who := schedule[0].0;
      assert !PlanOf(two, who).readable;
      WriteOnlyOverlapIsSafe(two, Step(two, w, who, schedule[0].1), schedule[1..]);
    }
  }

  predicate NothingSeen(stage: Stage) {
    !stage.Agreed? && (stage.Verifying? ==> stage.seen == [])
  }
}

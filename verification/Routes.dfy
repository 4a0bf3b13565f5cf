/** Who feeds whom: the timers and the command line of reportman_fm, and the client commands
    of reportmand, over the three roots; and what holds over any run of them. */
module Routes {
  import opened Bytes
  import opened FileSystems
  import opened Options
  import opened Transacts
  import opened TransferSpec
  import opened TransferWalk
  import opened TransferTheorems
  import opened Permissions
  import opened PostOrders

  const REPORTS: Path := ["srv", "reportman", "reports"]
  const DASHBOARD: Path := ["srv", "reportman", "dashboard"]
  const BACKUP: Path := ["srv", "reportman", "backup"]

  const SIGRTMIN: int := 34

  datatype Command = ClientBackup | ClientTransfer | ClientOther

  /** The six routes of the source. */
  datatype Route =
    | TimedBackup | TimedTransfer
    | CommandLineBackup | CommandLineTransfer
    | CommandBackup | CommandTransfer

  function JobOf(route: Route, env: Env): Job {
    match route
    case TimedBackup => Job(env, Backup, REPORTS, DASHBOARD)
    case TimedTransfer => Job(env, Transfer, DASHBOARD, BACKUP)
    case CommandLineBackup => Job(env, Backup, DASHBOARD, BACKUP)
    case CommandLineTransfer => Job(env, Transfer, REPORTS, DASHBOARD)
    case CommandBackup => Job(env, Backup, REPORTS, BACKUP)
    case CommandTransfer => Job(env, Transfer, DASHBOARD, BACKUP)
  }

  lemma RootsApart(route: Route, env: Env)
    ensures Apart(JobOf(route, env).s, JobOf(route, env).d)
  {
    assert REPORTS[2] != DASHBOARD[2] && DASHBOARD[2] != BACKUP[2] && REPORTS[2] != BACKUP[2];
  }

  // ---- one event of a run

  /** The nodes one chmod walk changed, and the mode it gave them. */
  datatype Walk = Walk(paths: set<Path>, mode: nat)

  function Walked(nodes: Nodes, walks: seq<Walk>): Nodes
    decreases |walks|
  {
    if walks == [] then nodes else Walked(WithMode(nodes, walks[0].paths, walks[0].mode), walks[1..])
  }

  datatype Event = Event(route: Route, env: Env, locking: seq<Walk>, unlocking: seq<Walk>)

  function Happen(nodes: Nodes, event: Event): Nodes {
    Walked(After(Walked(nodes, event.locking), JobOf(event.route, event.env)), event.unlocking)
  }

  function Run(nodes: Nodes, events: seq<Event>): Nodes
    decreases |events|
  {
    if events == [] then nodes else Run(Happen(nodes, events[0]), events[1..])
  }

  lemma {:induction false} WalkedKeepsContent(nodes: Nodes, walks: seq<Walk>)
    ensures Walked(nodes, walks).Keys == nodes.Keys
    ensures forall p :: IsFile(Walked(nodes, walks), p) <==> IsFile(nodes, p)
    decreases |walks|
  {
    if walks != [] {
      WalkedKeepsContent(WithMode(nodes, walks[0].paths, walks[0].mode), walks[1..]);
    }
  }

  /** How far along reports, dashboard, backup there is a file at the relative path `r`;
      zero when there is none. */
  function Furthest(nodes: Nodes, r: Path): nat {
    if IsFile(nodes, BACKUP + r) then 3
    else if IsFile(nodes, DASHBOARD + r) then 2
    else if IsFile(nodes, REPORTS + r) then 1
    else 0
  }

  predicate IsRoot(p: Path) {
    p == REPORTS || p == DASHBOARD || p == BACKUP
  }

  /** A path lies under one root at most. */
  lemma OneRoot(a: Path, b: Path, r: Path)
    requires IsRoot(a) && IsRoot(b) && a <= b + r
    ensures a == b
  {
    assert (b + r)[2] == b[2];
    assert a[2] == b[2];
  }

  /** A file stays a file, unless it lies under the source root and is gone. */
  lemma StaysUnlessMoved(nodes: Nodes, job: Job, q: Path)
    requires Apart(job.s, job.d) && IsFile(nodes, q)
    ensures IsFile(After(nodes, job), q) || (job.s <= q && q !in After(nodes, job))
  {
    GetAfter(nodes, job, q);
    if job.s <= q {
      assert job.s + q[|job.s|..] == q;
    } else if job.d <= q {
      assert job.d + q[|job.d|..] == q;
    }
  }

  lemma MovedOut(nodes: Nodes, job: Job, root: Path, r: Path)
    requires Apart(job.s, job.d) && IsRoot(job.s) && IsRoot(root)
    requires IsFile(nodes, root + r) && !IsFile(After(nodes, job), root + r)
    ensures job.how.Transfer? && job.s == root && IsFile(After(nodes, job), job.d + r)
  {
    StaysUnlessMoved(nodes, job, root + r);
    OneRoot(job.s, root, r);
    RemovedIsThere(nodes, job, r);
  }

  /** Every TRANSFER leads from a root to the next. */
  lemma RouteForward(route: Route, env: Env)
    ensures var job := JobOf(route, env);
            && IsRoot(job.s)
            && (job.how.Transfer? ==>
                  (job.s == REPORTS && job.d == DASHBOARD) || (job.s == DASHBOARD && job.d == BACKUP))
  {
  }

  /** The same of the whole event, whose chmod walks move nothing. */
  lemma MovedOutBy(nodes: Nodes, event: Event, job: Job, root: Path, r: Path)
    requires job == JobOf(event.route, event.env)
    requires Apart(job.s, job.d) && IsRoot(job.s) && IsRoot(root)
    requires IsFile(nodes, root + r) && !IsFile(Happen(nodes, event), root + r)
    ensures job.how.Transfer? && job.s == root && IsFile(Happen(nodes, event), job.d + r)
  {
    var locked := Walked(nodes, event.locking);
    WalkedKeepsContent(nodes, event.locking);
    WalkedKeepsContent(After(locked, job), event.unlocking);
    MovedOut(locked, job, root, r);
  }

  /** A file disappears from a root only by a TRANSFER to the next root, where it then is. */
  lemma FilesOnlyMoveForward(nodes: Nodes, event: Event, root: Path, r: Path)
    requires IsRoot(root)
    requires IsFile(nodes, root + r) && !IsFile(Happen(nodes, event), root + r)
    ensures var job := JobOf(event.route, event.env);
            && job.how.Transfer? && job.s == root
            && ((root == REPORTS && job.d == DASHBOARD) || (root == DASHBOARD && job.d == BACKUP))
            && IsFile(Happen(nodes, event), job.d + r)
  {
    RootsApart(event.route, event.env);
    RouteForward(event.route, event.env);
    MovedOutBy(nodes, event, JobOf(event.route, event.env), root, r);
  }

  /** Over any run of scheduled, command-line and client operations with any faults, the
      furthest root that holds a file at `r` never falls back; so a file that is under some
      root stays under some root. */
  lemma {:induction false} NeverFallsBack(nodes: Nodes, events: seq<Event>, r: Path)
    ensures Furthest(Run(nodes, events), r) >= Furthest(nodes, r)
    decreases |events|
  {
    if events != [] {
      var next := Happen(nodes, events[0]);
      if IsFile(nodes, BACKUP + r) && !IsFile(next, BACKUP + r) {
        FilesOnlyMoveForward(nodes, events[0], BACKUP, r);
      } else if IsFile(nodes, DASHBOARD + r) && !IsFile(next, DASHBOARD + r) {
        FilesOnlyMoveForward(nodes, events[0], DASHBOARD, r);
      } else if IsFile(nodes, REPORTS + r) && !IsFile(next, REPORTS + r) {
        FilesOnlyMoveForward(nodes, events[0], REPORTS, r);
      }
      NeverFallsBack(next, events[1..], r);
    }
  }

  /** The backup root never loses a path, be it a file's or a directory's. */
  lemma {:induction false} BackupNeverShrinks(nodes: Nodes, events: seq<Event>)
    ensures Subtree(nodes, BACKUP) <= Subtree(Run(nodes, events), BACKUP)
    decreases |events|
  {
    if events != [] {
      forall q | q in Subtree(nodes, BACKUP) ensures q in Subtree(Happen(nodes, events[0]), BACKUP) {
        StaysInBackup(nodes, events[0], q);
      }
      BackupNeverShrinks(Happen(nodes, events[0]), events[1..]);
    }
  }

  lemma StaysInBackup(nodes: Nodes, event: Event, q: Path)
    requires q in nodes && BACKUP <= q
    ensures q in Happen(nodes, event)
  {
    var job := JobOf(event.route, event.env);
    var locked := Walked(nodes, event.locking);
    WalkedKeepsContent(nodes, event.locking);
    WalkedKeepsContent(After(locked, job), event.unlocking);
    RootsApart(event.route, event.env);
    assert q[2] == BACKUP[2] != job.s[2];
    NothingElseGoes(locked, job, q);
  }

  // ---- the bytes of the copy that is least far along

  /** The bytes of the file at `p`. */
  function BytesAt(nodes: Nodes, p: Path): Option<seq<Byte>> {
    if IsFile(nodes, p) then Some(nodes[p].bytes) else None
  }

  /** The bytes at the relative path `r` in the first root, from reports on, that has a file there. */
  function Rearmost(nodes: Nodes, r: Path): Option<seq<Byte>> {
    if IsFile(nodes, REPORTS + r) then BytesAt(nodes, REPORTS + r)
    else if IsFile(nodes, DASHBOARD + r) then BytesAt(nodes, DASHBOARD + r)
    else BytesAt(nodes, BACKUP + r)
  }

  /** A transfer hashes the bytes soundly, should they be what it finds at `r`. */
  predicate HashesSoundly(event: Event, bytes: seq<Byte>, r: Path) {
    var job := JobOf(event.route, event.env);
    SoundHash(event.env, bytes, job.s + r, job.d + r)
  }

  lemma {:induction false} WalkedKeepsBytes(nodes: Nodes, walks: seq<Walk>, p: Path)
    ensures BytesAt(Walked(nodes, walks), p) == BytesAt(nodes, p)
    decreases |walks|
  {
    if walks != [] {
      WalkedKeepsBytes(WithMode(nodes, walks[0].paths, walks[0].mode), walks[1..], p);
    }
  }

  /** Where there is no file in the source, a transfer leaves the files at both places alone. */
  lemma NothingToMove(nodes: Nodes, job: Job, r: Path)
    requires Apart(job.s, job.d) && !IsFile(nodes, job.s + r)
    ensures !IsFile(After(nodes, job), job.s + r)
    ensures BytesAt(After(nodes, job), job.d + r) == BytesAt(nodes, job.d + r)
  {
    AfterAt(nodes, job, r);
  }

  /** A soundly hashed file stays as it is, or goes to the destination as it is. */
  lemma StaysOrMoves(nodes: Nodes, job: Job, r: Path)
    requires Apart(job.s, job.d) && IsFile(nodes, job.s + r)
    requires SoundHash(job.env, nodes[job.s + r].bytes, job.s + r, job.d + r)
    ensures var after := After(nodes, job);
      || BytesAt(after, job.s + r) == BytesAt(nodes, job.s + r)
      || (job.how.Transfer? && !IsFile(after, job.s + r) && BytesAt(after, job.d + r) == BytesAt(nodes, job.s + r))
  {
    AfterAt(nodes, job, r);
    if Moved(nodes, job, HasHome(nodes, job.d), r) {
      VerifiedCopyIsExact(job.env, nodes[job.s + r].bytes, job.s + r, job.d + r);
    }
  }

  lemma ElsewhereSame(nodes: Nodes, job: Job, root: Path, r: Path)
    requires Apart(job.s, job.d) && IsRoot(job.s) && IsRoot(job.d) && IsRoot(root)
    requires root != job.s && root != job.d
    ensures BytesAt(After(nodes, job), root + r) == BytesAt(nodes, root + r)
  {
    if job.s <= root + r {
      OneRoot(job.s, root, r);
    }
    if job.d <= root + r {
      OneRoot(job.d, root, r);
    }
    NothingElseGoes(nodes, job, root + r);
  }

  /** Every route leads forward, and a TRANSFER to the very next root. */
  predicate LeadsForward(job: Job) {
    || (job.s == REPORTS && job.d == DASHBOARD)
    || (job.s == DASHBOARD && job.d == BACKUP)
    || (job.s == REPORTS && job.d == BACKUP && !job.how.Transfer?)
  }

  lemma RoutesLeadForward(route: Route, env: Env)
    ensures LeadsForward(JobOf(route, env)) && JobOf(route, env).env == env
  {
  }

  /** One transfer keeps the rearmost bytes, if it hashes them soundly. */
  lemma TransferKeepsRearmost(nodes: Nodes, job: Job, r: Path)
    requires Apart(job.s, job.d) && LeadsForward(job)
    requires Rearmost(nodes, r).Some? && SoundHash(job.env, Rearmost(nodes, r).value, job.s + r, job.d + r)
    ensures Rearmost(After(nodes, job), r) == Rearmost(nodes, r)
  {
    RootsDiffer();
    forall root | IsRoot(root) && root != job.s && root != job.d
      ensures BytesAt(After(nodes, job), root + r) == BytesAt(nodes, root + r)
    {
      ElsewhereSame(nodes, job, root, r);
    }
    if !IsFile(nodes, job.s + r) {
      NothingToMove(nodes, job, r);
    } else if job.s == REPORTS || !IsFile(nodes, REPORTS + r) {
      StaysOrMoves(nodes, job, r);
    }
  }

  lemma RootsDiffer()
    ensures REPORTS != DASHBOARD && DASHBOARD != BACKUP && REPORTS != BACKUP
  {
    assert REPORTS[2] != DASHBOARD[2] && DASHBOARD[2] != BACKUP[2] && REPORTS[2] != BACKUP[2];
  }

  /** So does the whole event: its chmod walks change no bytes. */
  lemma WalksAndTransferKeepRearmost(nodes: Nodes, job: Job, locking: seq<Walk>, unlocking: seq<Walk>, r: Path)
    requires Apart(job.s, job.d) && LeadsForward(job)
    requires Rearmost(nodes, r).Some? && SoundHash(job.env, Rearmost(nodes, r).value, job.s + r, job.d + r)
    ensures Rearmost(Walked(After(Walked(nodes, locking), job), unlocking), r) == Rearmost(nodes, r)
  {
    var locked := Walked(nodes, locking);
    WalksKeepRearmost(nodes, locking, r);
    TransferKeepsRearmost(locked, job, r);
    WalksKeepRearmost(After(locked, job), unlocking, r);
  }

  lemma EventKeepsRearmost(nodes: Nodes, event: Event, r: Path)
    requires Rearmost(nodes, r).Some? && HashesSoundly(event, Rearmost(nodes, r).value, r)
    ensures Rearmost(Happen(nodes, event), r) == Rearmost(nodes, r)
  {
    RootsApart(event.route, event.env);
    RoutesLeadForward(event.route, event.env);
    WalksAndTransferKeepRearmost(nodes, JobOf(event.route, event.env), event.locking, event.unlocking, r);
  }

  lemma WalksKeepRearmost(nodes: Nodes, walks: seq<Walk>, r: Path)
    ensures Rearmost(Walked(nodes, walks), r) == Rearmost(nodes, r)
  {
    WalkedKeepsBytes(nodes, walks, REPORTS + r);
    WalkedKeepsBytes(nodes, walks, DASHBOARD + r);
    WalkedKeepsBytes(nodes, walks, BACKUP + r);
  }

  /** Over any run of scheduled, command-line and client operations, with any faults outside
      the hashing of these bytes, the bytes of the copy that is least far along are never lost
      and never changed: they stay, or they move on as they are and are again the rearmost. */
  lemma {:induction false} RearmostBytesSurvive(nodes: Nodes, events: seq<Event>, r: Path)
    requires Rearmost(nodes, r).Some?
    requires forall event | event in events :: HashesSoundly(event, Rearmost(nodes, r).value, r)
    ensures Rearmost(Run(nodes, events), r) == Rearmost(nodes, r)
    decreases |events|
  {
    if events != [] {
      assert events[0] in events;
      EventKeepsRearmost(nodes, events[0], r);
      RearmostBytesSurvive(Happen(nodes, events[0]), events[1..], r);
    }
  }

  // ---- which root feeds which

  lemma {:induction false} WalkedKeepsClean(nodes: Nodes, walks: seq<Walk>, job: Job)
    requires Clean(nodes, job)
    ensures Clean(Walked(nodes, walks), job)
    decreases |walks|
  {
    if walks != [] {
      var next := WithMode(nodes, walks[0].paths, walks[0].mode);
      forall p | p in next && |p| > 0 ensures HasHome(next, p) {
        assert HasHome(nodes, p);
      }
      WalkedKeepsClean(next, walks[1..], job);
    }
  }

  lemma {:induction false} WalkedKeepsContentAt(nodes: Nodes, walks: seq<Walk>, p: Path)
    ensures ContentAt(Walked(nodes, walks), p) == ContentAt(nodes, p)
    decreases |walks|
  {
    if walks != [] {
      WalkedKeepsContentAt(WithMode(nodes, walks[0].paths, walks[0].mode), walks[1..], p);
    }
  }

  /** At the relative path `r`, `to` has become `from` laid over what it was, `third` is as it
      was, and so is `from` but for a file that moved: with `moves`, any, or only one that
      hashes as the empty one when copies cannot be read back. */
  predicate FedAt(before: Nodes, after: Nodes, env: Env, from: Path, to: Path, third: Path, moves: bool, r: Path) {
    && ContentAt(after, to + r)
       == (if from + r in before then ContentAt(before, from + r) else ContentAt(before, to + r))
    && ContentAt(after, third + r) == ContentAt(before, third + r)
    && ContentAt(after, from + r)
       == (if moves && IsFile(before, from + r) && (env.readable || HashesAsEmpty(env.alg, before[from + r].bytes))
           then None else ContentAt(before, from + r))
  }

  ghost predicate Fed(before: Nodes, after: Nodes, env: Env, from: Path, to: Path, third: Path, moves: bool) {
    forall r :: FedAt(before, after, env, from, to, third, moves, r)
  }

  lemma CleanJobAt(nodes: Nodes, job: Job, third: Path, r: Path)
    requires Clean(nodes, job) && IsRoot(job.s) && IsRoot(job.d) && IsRoot(third)
    requires third != job.s && third != job.d
    ensures FedAt(nodes, After(nodes, job), job.env, job.s, job.d, third, job.how.Transfer?, r)
  {
    CleanOverlay(nodes, job, r);
    ThirdRootSame(nodes, job, third, r);
  }

  lemma SameContentFedAt(before: Nodes, locked: Nodes, moved: Nodes, after: Nodes, env: Env,
      from: Path, to: Path, third: Path, moves: bool, r: Path)
    requires forall p :: ContentAt(locked, p) == ContentAt(before, p) && ContentAt(after, p) == ContentAt(moved, p)
    requires FedAt(locked, moved, env, from, to, third, moves, r)
    ensures FedAt(before, after, env, from, to, third, moves, r)
  {
    assert ContentAt(locked, from + r) == ContentAt(before, from + r);
    assert ContentAt(locked, to + r) == ContentAt(before, to + r);
    assert ContentAt(locked, third + r) == ContentAt(before, third + r);
  }

  lemma CleanEvent(nodes: Nodes, event: Event, job: Job, third: Path)
    requires job == JobOf(event.route, event.env) && Clean(nodes, job)
    requires IsRoot(job.s) && IsRoot(job.d) && IsRoot(third) && third != job.s && third != job.d
    ensures Fed(nodes, Happen(nodes, event), event.env, job.s, job.d, third, job.how.Transfer?)
  {
    var locked := Walked(nodes, event.locking);
    var moved := After(locked, job);
    WalkedKeepsClean(nodes, event.locking, job);
    RoutesLeadForward(event.route, event.env);
    forall p ensures ContentAt(locked, p) == ContentAt(nodes, p)
                  && ContentAt(Walked(moved, event.unlocking), p) == ContentAt(moved, p)
    {
      WalkedKeepsContentAt(nodes, event.locking, p);
      WalkedKeepsContentAt(moved, event.unlocking, p);
    }
    forall r ensures FedAt(nodes, Happen(nodes, event), event.env, job.s, job.d, third, job.how.Transfer?, r) {
      CleanJobAt(locked, job, third, r);
      SameContentFedAt(nodes, locked, moved, Walked(moved, event.unlocking), job.env,
                       job.s, job.d, third, job.how.Transfer?, r);
    }
  }

  lemma ThirdRootSame(nodes: Nodes, job: Job, third: Path, r: Path)
    requires Apart(job.s, job.d) && IsRoot(job.s) && IsRoot(job.d) && IsRoot(third)
    requires third != job.s && third != job.d
    ensures Get(After(nodes, job), third + r) == Get(nodes, third + r)
  {
    if job.s <= third + r {
      OneRoot(job.s, third, r);
    }
    if job.d <= third + r {
      OneRoot(job.d, third, r);
    }
    NothingElseGoes(nodes, job, third + r);
  }

  /** The timed backup feeds the dashboard from reports. */
  lemma TimedBackupFeeds(nodes: Nodes, event: Event)
    requires event.route == TimedBackup
    requires Clean(nodes, Job(event.env, Backup, ["srv", "reportman", "reports"], ["srv", "reportman", "dashboard"]))
    ensures Fed(nodes, Happen(nodes, event), event.env, ["srv", "reportman", "reports"],
                ["srv", "reportman", "dashboard"], ["srv", "reportman", "backup"], false)
  {
    RootsDiffer();
    CleanEvent(nodes, event, JobOf(TimedBackup, event.env), BACKUP);
  }

  /** The timed transfer moves the dashboard to the backup. */
  lemma TimedTransferMoves(nodes: Nodes, event: Event)
    requires event.route == TimedTransfer
    requires Clean(nodes, Job(event.env, Transfer, ["srv", "reportman", "dashboard"], ["srv", "reportman", "backup"]))
    ensures Fed(nodes, Happen(nodes, event), event.env, ["srv", "reportman", "dashboard"],
                ["srv", "reportman", "backup"], ["srv", "reportman", "reports"], true)
  {
    RootsDiffer();
    CleanEvent(nodes, event, JobOf(TimedTransfer, event.env), REPORTS);
  }

  /** The command line's backup feeds the backup from the dashboard. */
  lemma CommandLineBackupFeeds(nodes: Nodes, event: Event)
    requires event.route == CommandLineBackup
    requires Clean(nodes, Job(event.env, Backup, ["srv", "reportman", "dashboard"], ["srv", "reportman", "backup"]))
    ensures Fed(nodes, Happen(nodes, event), event.env, ["srv", "reportman", "dashboard"],
                ["srv", "reportman", "backup"], ["srv", "reportman", "reports"], false)
  {
    RootsDiffer();
    CleanEvent(nodes, event, JobOf(CommandLineBackup, event.env), REPORTS);
  }

  /** The command line's transfer moves reports to the dashboard. */
  lemma CommandLineTransferMoves(nodes: Nodes, event: Event)
    requires event.route == CommandLineTransfer
    requires Clean(nodes, Job(event.env, Transfer, ["srv", "reportman", "reports"], ["srv", "reportman", "dashboard"]))
    ensures Fed(nodes, Happen(nodes, event), event.env, ["srv", "reportman", "reports"],
                ["srv", "reportman", "dashboard"], ["srv", "reportman", "backup"], true)
  {
    RootsDiffer();
    CleanEvent(nodes, event, JobOf(CommandLineTransfer, event.env), BACKUP);
  }

  /** A client's backup feeds the backup from reports, past the dashboard. */
  lemma ClientBackupFeeds(nodes: Nodes, event: Event)
    requires event.route == CommandBackup
    requires Clean(nodes, Job(event.env, Backup, ["srv", "reportman", "reports"], ["srv", "reportman", "backup"]))
    ensures Fed(nodes, Happen(nodes, event), event.env, ["srv", "reportman", "reports"],
                ["srv", "reportman", "backup"], ["srv", "reportman", "dashboard"], false)
  {
    RootsDiffer();
    CleanEvent(nodes, event, JobOf(CommandBackup, event.env), DASHBOARD);
  }

  /** A client's transfer moves the dashboard to the backup. */
  lemma ClientTransferMoves(nodes: Nodes, event: Event)
    requires event.route == CommandTransfer
    requires Clean(nodes, Job(event.env, Transfer, ["srv", "reportman", "dashboard"], ["srv", "reportman", "backup"]))
    ensures Fed(nodes, Happen(nodes, event), event.env, ["srv", "reportman", "dashboard"],
                ["srv", "reportman", "backup"], ["srv", "reportman", "reports"], true)
  {
    RootsDiffer();
    CleanEvent(nodes, event, JobOf(CommandTransfer, event.env), REPORTS);
  }

  /** The number of errors a client is told of when nothing goes wrong: none with read-back, and
      as written the number of files of reports, or of the dashboard, that do not hash as the
      empty one. */
  lemma ClientErrors(nodes: Nodes, env: Env, backup: bool)
    requires Clean(nodes,
      if backup then Job(env, Backup, ["srv", "reportman", "reports"], ["srv", "reportman", "backup"])
      else Job(env, Transfer, ["srv", "reportman", "dashboard"], ["srv", "reportman", "backup"]))
    ensures var job := JobOf(if backup then CommandBackup else CommandTransfer, env);
      var from := if backup then ["srv", "reportman", "reports"] else ["srv", "reportman", "dashboard"];
      |UnopenedDirectories(nodes, job)| + |FailedFiles(nodes, job)|
      == if env.readable then 0
         else |set p | p in nodes && from <= p && IsFile(nodes, p) && !HashesAsEmpty(env.alg, nodes[p].bytes)|
  {
    if backup {
      CleanErrorCount(nodes, JobOf(CommandBackup, env));
    } else {
      CleanErrorCount(nodes, JobOf(CommandTransfer, env));
    }
  }

  lemma CleanErrorCount(nodes: Nodes, job: Job)
    requires Clean(nodes, job)
    ensures |UnopenedDirectories(nodes, job)| + |FailedFiles(nodes, job)|
         == if job.env.readable then 0
            else |set p | p in nodes && job.s <= p && IsFile(nodes, p) && !HashesAsEmpty(job.env.alg, nodes[p].bytes)|
  {
    ErrorCount(nodes, job);
    CleanErrors(nodes, job);
  }

  // ---- the operations

  /** What a chmod walk over `root` changes: in some post-order of the tree, exactly the nodes
      before the first one whose chmod fails, so all of them when none does. */
  ghost predicate WalkOf(nodes: Nodes, root: Path, fault: Path -> bool, paths: set<Path>) {
    && WellFormed(nodes)
    && (if root !in nodes then paths == {}
        else exists order, n: nat :: StopsAt(nodes, root, fault, order, n) && paths == Elements(order[..n]))
  }

  /** The four walks of a timed backup: the target to 0440, the source to 0440, then after the
      copy the target to 0440 and the source to 0660. */
  ghost predicate BackupWalks(nodes: Nodes, chmodFaults: seq<Path -> bool>, event: Event)
    requires |chmodFaults| == 4
  {
    var job := JobOf(TimedBackup, event.env);
    && event.route.TimedBackup?
    && |event.locking| == 2 && |event.unlocking| == 2
    && event.locking[0].mode == event.locking[1].mode == event.unlocking[0].mode == LOCKED_MODE
    && event.unlocking[1].mode == UNLOCKED_MODE
    && (var n1 := WithMode(nodes, event.locking[0].paths, LOCKED_MODE);
        var n3 := After(WithMode(n1, event.locking[1].paths, LOCKED_MODE), job);
        var n4 := WithMode(n3, event.unlocking[0].paths, LOCKED_MODE);
        && WalkOf(nodes, job.d, chmodFaults[0], event.locking[0].paths)
        && WalkOf(n1, job.s, chmodFaults[1], event.locking[1].paths)
        && WalkOf(n3, job.d, chmodFaults[2], event.unlocking[0].paths)
        && WalkOf(n4, job.s, chmodFaults[3], event.unlocking[1].paths))
  }

  lemma TwoWalks(nodes: Nodes, a: Walk, b: Walk)
    ensures Walked(nodes, [a, b]) == WithMode(WithMode(nodes, a.paths, a.mode), b.paths, b.mode)
  {
    assert [a, b][1..] == [b];
    OneWalk(WithMode(nodes, a.paths, a.mode), b);
  }

  lemma OneWalk(nodes: Nodes, a: Walk)
    ensures Walked(nodes, [a]) == WithMode(nodes, a.paths, a.mode)
  {
    assert [a][1..] == [];
  }

  /** chmod over `root`, for the record of an event. */
  method WalkRoot(fs: FileSystem, root: Path, mode: nat, fault: Path -> bool) returns (walk: Walk)
    requires fs.Valid()
    modifies fs
    ensures fs.Valid() && walk.mode == mode
    ensures fs.nodes == WithMode(old(fs.nodes), walk.paths, mode)
    ensures WalkOf(old(fs.nodes), root, fault, walk.paths)
  {
    ghost var before := fs.nodes;
    var r, visited, order := ChmodWalk(fs, root, mode, fault);
    assert root in before ==> StopsAt(before, root, fault, order, |visited|);
    walk := Walk(Elements(visited), mode);
  }

  /** The callback of the backup timer: lock both trees, copy, unlock. */
  method BackUpDirectory(fs: FileSystem, signo: int, env: Env, chmodFaults: seq<Path -> bool>)
    returns (event: Event)
    requires fs.Valid() && |chmodFaults| == 4
    modifies fs
    ensures fs.Valid()
    ensures signo != SIGRTMIN ==> fs.nodes == old(fs.nodes)
    ensures signo == SIGRTMIN ==>
      event.env == env && fs.nodes == Happen(old(fs.nodes), event) && BackupWalks(old(fs.nodes), chmodFaults, event)
  {
    event := Event(TimedBackup, env, [], []);
    if signo != SIGRTMIN {
      return;
    }
    var job := JobOf(TimedBackup, env);
    RootsApart(TimedBackup, env);
    ghost var before := fs.nodes;
    var lockTarget := WalkRoot(fs, job.d, LOCKED_MODE, chmodFaults[0]);
    var lockSource := WalkRoot(fs, job.s, LOCKED_MODE, chmodFaults[1]);
    var errors := TransferDirectory(fs, job);
    ghost var copied := fs.nodes;
    var unlockTarget := WalkRoot(fs, job.d, LOCKED_MODE, chmodFaults[2]);
    var unlockSource := WalkRoot(fs, job.s, UNLOCKED_MODE, chmodFaults[3]);
    event := Event(TimedBackup, env, [lockTarget, lockSource], [unlockTarget, unlockSource]);
    TwoWalks(before, lockTarget, lockSource);
    TwoWalks(copied, unlockTarget, unlockSource);
  }

  /** A walk in which no chmod fails leaves its whole tree at its mode and the rest alone. */
  lemma WalkModes(nodes: Nodes, root: Path, fault: Path -> bool, paths: set<Path>, mode: nat, q: Path)
    requires WalkOf(nodes, root, fault, paths) && q in nodes
    requires forall p :: !fault(p)
    ensures root <= q ==> WithMode(nodes, paths, mode)[q].mode == mode
    ensures !(root <= q) ==> WithMode(nodes, paths, mode)[q] == nodes[q]
  {
    if root <= q {
      RootIsThere(nodes, root, q);
      var order, n :| StopsAt(nodes, root, fault, order, n) && paths == Elements(order[..n]);
      assert order[..n] == order;
    } else if root in nodes {
      var order, n :| StopsAt(nodes, root, fault, order, n) && paths == Elements(order[..n]);
      assert q !in Elements(order);
    }
  }

  /** When no chmod fails, a timed backup starts to copy with every node of both trees at
      0440, which is 288, and ends with the whole target, the new files included, at 0440 and
      the whole source at 0660, which is 432, whatever else goes wrong. */
  lemma BackupModes(nodes: Nodes, chmodFaults: seq<Path -> bool>, event: Event, q: Path)
    requires |chmodFaults| == 4 && BackupWalks(nodes, chmodFaults, event)
    requires forall i, p | 0 <= i < 4 :: !chmodFaults[i](p)
    ensures var locked, after := Walked(nodes, event.locking), Happen(nodes, event);
            && (q in locked && (DASHBOARD <= q || REPORTS <= q) ==> locked[q].mode == 288)
            && (q in after && DASHBOARD <= q ==> after[q].mode == 288)
            && (q in after && REPORTS <= q ==> after[q].mode == 432)
  {
    assert LOCKED_MODE == 288 && UNLOCKED_MODE == 432;
    var job := JobOf(TimedBackup, event.env);
    var w1, w2, w3, w4 := event.locking[0], event.locking[1], event.unlocking[0], event.unlocking[1];
    assert event.locking == [w1, w2] && event.unlocking == [w3, w4];
    TwoWalks(nodes, w1, w2);
    var n1 := WithMode(nodes, w1.paths, LOCKED_MODE);
    var n3 := After(WithMode(n1, w2.paths, LOCKED_MODE), job);
    TwoWalks(n3, w3, w4);
    assert DASHBOARD <= q ==> q[2] == DASHBOARD[2] != REPORTS[2];
    if q in nodes {
      WalkModes(nodes, job.d, chmodFaults[0], w1.paths, LOCKED_MODE, q);
      WalkModes(n1, job.s, chmodFaults[1], w2.paths, LOCKED_MODE, q);
    }
    if q in n3 {
      WalkModes(n3, job.d, chmodFaults[2], w3.paths, LOCKED_MODE, q);
      WalkModes(WithMode(n3, w3.paths, LOCKED_MODE), job.s, chmodFaults[3], w4.paths, UNLOCKED_MODE, q);
    }
  }

  /** The two walks of a timed transfer: before and after it over the dashboard, the target of
      the backup timer, to 0440 and to 0660. */
  ghost predicate TransferWalks(nodes: Nodes, chmodFaults: seq<Path -> bool>, event: Event)
    requires |chmodFaults| == 2
  {
    && event.route.TimedTransfer?
    && |event.locking| == |event.unlocking| == 1
    && event.locking[0].mode == LOCKED_MODE && event.unlocking[0].mode == UNLOCKED_MODE
    && (var moved := After(WithMode(nodes, event.locking[0].paths, LOCKED_MODE), JobOf(TimedTransfer, event.env));
        && WalkOf(nodes, DASHBOARD, chmodFaults[0], event.locking[0].paths)
        && WalkOf(moved, DASHBOARD, chmodFaults[1], event.unlocking[0].paths))
  }

  /** When no chmod fails, a timed transfer finds the dashboard at 0440 and leaves it at 0660;
      what is already in the backup keeps its modes throughout, and new nodes of the backup have
      07 and 0666. */
  lemma TransferModes(nodes: Nodes, chmodFaults: seq<Path -> bool>, event: Event, q: Path)
    requires |chmodFaults| == 2 && TransferWalks(nodes, chmodFaults, event)
    requires forall i, p | 0 <= i < 2 :: !chmodFaults[i](p)
    ensures var locked, after := Walked(nodes, event.locking), Happen(nodes, event);
            && (q in locked && DASHBOARD <= q ==> locked[q].mode == 288)
            && (q in after && DASHBOARD <= q ==> after[q].mode == 432)
            && (q in after && !(DASHBOARD <= q) ==>
                  after[q].mode == if q in nodes then nodes[q].mode else if after[q].Dir? then 7 else 438)
  {
    assert LOCKED_MODE == 288 && UNLOCKED_MODE == 432;
    var job, w1, w2 := JobOf(TimedTransfer, event.env), event.locking[0], event.unlocking[0];
    assert event.locking == [w1] && event.unlocking == [w2];
    RootsApart(TimedTransfer, event.env);
    OneWalk(nodes, w1);
    var n1 := WithMode(nodes, w1.paths, LOCKED_MODE);
    var n2 := After(n1, job);
    OneWalk(n2, w2);
    if q in nodes {
      WalkModes(nodes, DASHBOARD, chmodFaults[0], w1.paths, LOCKED_MODE, q);
    }
    if q in n2 {
      ModesAfter(n1, job, q);
      WalkModes(n2, DASHBOARD, chmodFaults[1], w2.paths, UNLOCKED_MODE, q);
    }
  }

  /** The callback of the transfer timer. Its locks walk the target of the backup timer. */
  method TransferDirectoryOnTimer(fs: FileSystem, signo: int, env: Env, chmodFaults: seq<Path -> bool>)
    returns (event: Event)
    requires fs.Valid() && |chmodFaults| == 2
    modifies fs
    ensures fs.Valid()
    ensures signo != SIGRTMIN + 1 ==> fs.nodes == old(fs.nodes)
    ensures signo == SIGRTMIN + 1 ==>
      event.env == env && fs.nodes == Happen(old(fs.nodes), event) && TransferWalks(old(fs.nodes), chmodFaults, event)
  {
    event := Event(TimedTransfer, env, [], []);
    if signo != SIGRTMIN + 1 {
      return;
    }
    var job := JobOf(TimedTransfer, env);
    RootsApart(TimedTransfer, env);
    ghost var before := fs.nodes;
    var lock := WalkRoot(fs, DASHBOARD, LOCKED_MODE, chmodFaults[0]);
    var errors := TransferDirectory(fs, job);
    ghost var moved := fs.nodes;
    var unlock := WalkRoot(fs, DASHBOARD, UNLOCKED_MODE, chmodFaults[1]);
    event := Event(TimedTransfer, env, [lock], [unlock]);
    OneWalk(before, lock);
    OneWalk(moved, unlock);
  }

  lemma RunOne(nodes: Nodes, a: Event)
    ensures Run(nodes, [a]) == Happen(nodes, a)
  {
    assert [a][1..] == [];
  }

  lemma RunTwo(nodes: Nodes, a: Event, b: Event)
    ensures Run(nodes, [a] + [b]) == Happen(Happen(nodes, a), b)
  {
    assert ([a] + [b])[1..] == [b] && ([a] + [b])[0] == a;
    RunOne(Happen(nodes, a), b);
  }

  /** main of reportman_fm when it is not run by the daemon. */
  method CommandLine(fs: FileSystem, doBackup: bool, doTransfer: bool, envs: (Env, Env))
    requires fs.Valid()
    modifies fs
    ensures fs.Valid()
    ensures fs.nodes == Run(old(fs.nodes),
      (if doBackup then [Event(CommandLineBackup, envs.0, [], [])] else [])
      + (if doTransfer then [Event(CommandLineTransfer, envs.1, [], [])] else []))
  {
    ghost var before := fs.nodes;
    ghost var backup, transfer := Event(CommandLineBackup, envs.0, [], []), Event(CommandLineTransfer, envs.1, [], []);
    if doBackup {
      RootsApart(CommandLineBackup, envs.0);
      var errors := TransferDirectory(fs, JobOf(CommandLineBackup, envs.0));
    }
    assert fs.nodes == if doBackup then Happen(before, backup) else before;
    if doTransfer {
      RootsApart(CommandLineTransfer, envs.1);
      var errors := TransferDirectory(fs, JobOf(CommandLineTransfer, envs.1));
    }
    RunOne(before, backup);
    RunOne(before, transfer);
    RunTwo(before, backup, transfer);
    assert [backup] + [] == [backup] && [] + [transfer] == [transfer];
  }

  /** The transfer cases of the daemon's __handle_command; the number is the one reported to
      the client. */
  method HandleCommand(fs: FileSystem, command: Command, env: Env) returns (errors: nat)
    requires fs.Valid()
    modifies fs
    ensures fs.Valid()
    ensures command.ClientOther? ==> fs.nodes == old(fs.nodes) && errors == 0
    ensures JobOf(CommandBackup, env)
         == Job(env, Backup, ["srv", "reportman", "reports"], ["srv", "reportman", "backup"])
    ensures JobOf(CommandTransfer, env)
         == Job(env, Transfer, ["srv", "reportman", "dashboard"], ["srv", "reportman", "backup"])
    ensures !command.ClientOther? ==>
      var event := Event(if command.ClientBackup? then CommandBackup else CommandTransfer, env, [], []);
      && fs.nodes == Happen(old(fs.nodes), event)
      && errors == |UnopenedDirectories(old(fs.nodes), JobOf(event.route, env))|
                   + |FailedFiles(old(fs.nodes), JobOf(event.route, env))|
  {
    errors := 0;
    match command {
      case ClientBackup =>
        RootsApart(CommandBackup, env);
        ErrorCount(fs.nodes, JobOf(CommandBackup, env));
        errors := TransferDirectory(fs, JobOf(CommandBackup, env));
      case ClientTransfer =>
        RootsApart(CommandTransfer, env);
        ErrorCount(fs.nodes, JobOf(CommandTransfer, env));
        errors := TransferDirectory(fs, JobOf(CommandTransfer, env));
      case ClientOther =>
    }
  }
}

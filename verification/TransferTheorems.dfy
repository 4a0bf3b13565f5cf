/** What a transfer of a whole tree guarantees: nothing is lost under any faults, and with no
    faults the destination is the source laid over the old destination. */
module TransferTheorems {
  import opened Bytes
  import opened FileSystems
  import opened Options
  import opened Digests
  import opened Streams
  import opened Transacts
  import opened TransferSpec

  // ---- conservation, whatever goes wrong

  /** The bytes of the file at `r` are where they were, or at the matching path. */
  predicate Kept(before: Nodes, after: Nodes, job: Job, r: Path)
    requires IsFile(before, job.s + r)
  {
    || (IsFile(after, job.s + r) && after[job.s + r] == before[job.s + r])
    || (IsFile(after, job.d + r) && after[job.d + r].bytes == before[job.s + r].bytes)
  }

  /** Under any pattern of faults of mkdir, opendir, stat, open, remove, short writes, and
      short reads in every other pass, a file of the source tree that is hashed to its end, and
      whose one comparison is not fooled by a collision, keeps its bytes: at its own path, or at
      the matching path of the destination. */
  lemma NoFileIsLost(nodes: Nodes, job: Job, r: Path)
    requires Apart(job.s, job.d) && IsFile(nodes, job.s + r)
    requires SoundHash(job.env, nodes[job.s + r].bytes, job.s + r, job.d + r)
    ensures Kept(nodes, After(nodes, job), job, r)
  {
    AfterAt(nodes, job, r);
    if Moved(nodes, job, HasHome(nodes, job.d), r) {
      VerifiedCopyIsExact(job.env, nodes[job.s + r].bytes, job.s + r, job.d + r);
    }
  }

  /** Paths outside both trees keep their nodes, and no path of the destination disappears. */
  lemma NothingElseGoes(nodes: Nodes, job: Job, q: Path)
    requires Apart(job.s, job.d)
    ensures !(job.s <= q) && !(job.d <= q) ==> Get(After(nodes, job), q) == Get(nodes, q)
    ensures q in nodes && !(job.s <= q) ==> q in After(nodes, job)
    ensures IsDir(nodes, q) ==> Get(After(nodes, job), q) == Get(nodes, q)
  {
    GetAfter(nodes, job, q);
    if job.s <= q {
      assert job.s + q[|job.s|..] == q;
    } else if job.d <= q {
      assert job.d + q[|job.d|..] == q;
    }
  }

  /** A file leaves the source only on TRANSFER and only once there is a file at its matching
      path; this needs no assumption about the digest. */
  lemma RemovedIsThere(nodes: Nodes, job: Job, r: Path)
    requires Apart(job.s, job.d)
    requires job.s + r in nodes && job.s + r !in After(nodes, job)
    ensures job.how.Transfer? && IsFile(nodes, job.s + r) && IsFile(After(nodes, job), job.d + r)
  {
    AfterAt(nodes, job, r);
  }

  /** Directories the walk gets to and cannot open; the source root always counts as one. */
  function UnopenedDirectories(nodes: Nodes, job: Job): set<Path> {
    set q | q in nodes.Keys + {job.s} && job.s <= q && (q == job.s || IsDir(nodes, q))
         && Reached(nodes, job.env.faults, job.s, q[|job.s|..]) && !Listed(nodes, job.env.faults, q)
  }

  /** Files the walk gets to whose transaction fails. */
  function FailedFiles(nodes: Nodes, job: Job): set<Path> {
    set q | q in nodes && job.s < q && IsFile(nodes, q)
         && Reached(nodes, job.env.faults, job.s, q[|job.s|..])
         && Fails(nodes, job, HasHome(nodes, job.d), q[|job.s|..])
  }

  /** The number transfer_directory returns is the number of the one plus that of the other;
      an entry whose stat fails is in neither. */
  lemma ErrorCount(nodes: Nodes, job: Job)
    ensures |Failures(nodes, job, HasHome(nodes, job.d))|
         == |UnopenedDirectories(nodes, job)| + |FailedFiles(nodes, job)|
  {
    var failures, directories, files :=
      Failures(nodes, job, HasHome(nodes, job.d)), UnopenedDirectories(nodes, job), FailedFiles(nodes, job);
    forall q ensures q in failures <==> q in directories || q in files {
      if job.s <= q {
        assert job.s + q[|job.s|..] == q;
        assert q[|job.s|..] == [] <==> q == job.s;
      }
    }
    assert failures == directories + files && directories !! files;
  }

  // ---- no faults

  ghost predicate FaultFree(f: Faults) {
    && (forall p :: !f.mkdir(p) && !f.opendir(p) && !f.stat(p) && !f.openSource(p) && !f.openDest(p) && !f.remove(p))
    && (forall p, pass :: NoReadError(f.fread(p, pass)))
    && (forall p :: NoShortWrite(f.fwrite(p)))
  }

  /** A place that is taken in both trees is taken by the same kind of node. */
  ghost predicate NoClash(nodes: Nodes, s: Path, d: Path) {
    forall r: Path {:trigger d + r} :: s + r in nodes && d + r in nodes ==> nodes[s + r].Dir? == nodes[d + r].Dir?
  }

  /** The situation the transfer is made for. */
  ghost predicate Clean(nodes: Nodes, job: Job) {
    && WellFormed(nodes)
    && Apart(job.s, job.d)
    && FaultFree(job.env.faults)
    && NoClash(nodes, job.s, job.d)
    && IsDir(nodes, job.s)
    && (job.d in nodes || HasHome(nodes, job.d))
    && !job.how.Undefined?
  }

  lemma {:induction false} AllReached(nodes: Nodes, f: Faults, s: Path, r: Path)
    requires WellFormed(nodes) && FaultFree(f) && s + r in nodes
    ensures Reached(nodes, f, s, r)
    decreases |r|
  {
    if r != [] {
      PrefixIsDir(nodes, s + r, |s|);
      assert (s + r)[..|s|] == s;
      var next := s + [r[0]];
      assert next + r[1..] == s + r;
      if r[1..] != [] {
        PrefixIsDir(nodes, s + r, |next|);
        assert (s + r)[..|next|] == next;
      } else {
        assert next == s + r;
      }
      AllReached(nodes, f, next, r[1..]);
    }
  }

  lemma NoClashBelow(nodes: Nodes, s: Path, d: Path, n: string)
    requires NoClash(nodes, s, d)
    ensures NoClash(nodes, s + [n], d + [n])
  {
    forall r: Path ensures s + [n] + r in nodes && d + [n] + r in nodes ==>
      nodes[s + [n] + r].Dir? == nodes[d + [n] + r].Dir?
    {
      assert s + [n] + r == s + ([n] + r) && d + [n] + r == d + ([n] + r);
    }
  }

  lemma {:induction false} AllHome(nodes: Nodes, f: Faults, s: Path, d: Path, home: bool, r: Path)
    requires WellFormed(nodes) && FaultFree(f) && NoClash(nodes, s, d)
    requires s + r in nodes && (d in nodes || home)
    ensures d + r in nodes || Home(nodes, f, d, home, r)
    decreases |r|
  {
    if r == [] {
      assert d + r == d;
    } else {
      PrefixIsDir(nodes, s + r, |s|);
      assert (s + r)[..|s|] == s && s + [] == s && d + [] == d;
      assert s + [r[0]] + r[1..] == s + r && d + [r[0]] + r[1..] == d + r;
      NoClashBelow(nodes, s, d, r[0]);
      AllHome(nodes, f, s + [r[0]], d + [r[0]], Ready(nodes, f, d, home), r[1..]);
    }
  }

  /** The bytes have the digest of no bytes, which is all that is seen of a copy that cannot be
      read back. */
  predicate HashesAsEmpty(alg: Algorithm, bytes: seq<Byte>) {
    Digest(alg, bytes) == Digest(alg, [])
  }

  /** With no fault every transaction opens both files and copies all of the bytes, and only an
      unreadable copy of a file that does not hash as the empty one fails to verify. */
  lemma CleanTransaction(nodes: Nodes, job: Job, r: Path)
    requires Clean(nodes, job) && IsFile(nodes, job.s + r)
    ensures var home := HasHome(nodes, job.d);
            var bytes := nodes[job.s + r].bytes;
            && Written(nodes, job, home, r)
            && CopyOf(job.env, bytes, job.s + r, job.d + r) == bytes
            && (Verifies(job.env, bytes, job.s + r, job.d + r)
                <==> job.env.readable || HashesAsEmpty(job.env.alg, bytes))
  {
    var s, d, f, bytes := job.s + r, job.d + r, job.env.faults, nodes[job.s + r].bytes;
    assert r == [] ==> s == job.s;
    AllReached(nodes, f, job.s, r);
    AllHome(nodes, f, job.s, job.d, HasHome(nodes, job.d), r);
    assert s in nodes && d in nodes ==> nodes[s].Dir? == nodes[d].Dir?;
    FaultFreeCopyVerifies(job.env.alg, bytes, f.fread(s, Copying), f.fwrite(d),
                          f.fread(s, HashingSource), f.fread(d, HashingDest));
  }

  datatype Content = Folder | Bytes(bytes: seq<Byte>)

  /** A node without its mode. */
  function ContentAt(nodes: Nodes, p: Path): Option<Content> {
    if p !in nodes then None
    else if nodes[p].Dir? then Some(Folder)
    else Some(Bytes(nodes[p].bytes))
  }

  /** The destination becomes the source laid over the old destination. On TRANSFER the source
      keeps its directories; with read-back it loses every file, and as written, where the copy
      cannot be read back, exactly those that hash as the empty file does. BACKUP leaves the
      source as it was. */
  lemma CleanOverlay(nodes: Nodes, job: Job, r: Path)
    requires Clean(nodes, job)
    ensures ContentAt(After(nodes, job), job.d + r)
         == if job.s + r in nodes then ContentAt(nodes, job.s + r) else ContentAt(nodes, job.d + r)
    ensures Get(After(nodes, job), job.s + r)
         == if job.how.Transfer? && IsFile(nodes, job.s + r)
               && (job.env.readable || HashesAsEmpty(job.env.alg, nodes[job.s + r].bytes))
            then None else Get(nodes, job.s + r)
  {
    AfterAt(nodes, job, r);
    if IsFile(nodes, job.s + r) {
      assert job.s <= job.s + r;
      CleanTransaction(nodes, job, r);
    } else {
      CleanElsewhere(nodes, job, r);
    }
  }

  /** Without a fault, directories are made and what is not in the source is left alone. */
  lemma CleanElsewhere(nodes: Nodes, job: Job, r: Path)
    requires Clean(nodes, job) && !IsFile(nodes, job.s + r)
    ensures var home := HasHome(nodes, job.d);
      && SourceAfter(nodes, job, home, r) == Get(nodes, job.s + r)
      && (job.s + r in nodes ==>
            DestAfter(nodes, job, home, r)
            == Some(if job.d + r in nodes then nodes[job.d + r] else Dir(NEW_DIRECTORY_MODE))
            && (job.d + r in nodes ==> nodes[job.d + r].Dir?))
      && (job.s + r !in nodes ==> DestAfter(nodes, job, home, r) == Get(nodes, job.d + r))
  {
    if job.s + r in nodes {
      AllReached(nodes, job.env.faults, job.s, r);
      AllHome(nodes, job.env.faults, job.s, job.d, HasHome(nodes, job.d), r);
    } else {
      assert job.s + [] == job.s;
      if Reached(nodes, job.env.faults, job.s, r) && r != [] {
        ReachedIsThere(nodes, job.env.faults, job.s, r);
      }
    }
  }

  /** The number returned: none with read-back, and as written the number of files that do not
      hash as the empty one. */
  lemma CleanErrors(nodes: Nodes, job: Job)
    requires Clean(nodes, job)
    ensures Failures(nodes, job, HasHome(nodes, job.d))
         == if job.env.readable then {}
            else set p | p in nodes && job.s <= p && IsFile(nodes, p) && !HashesAsEmpty(job.env.alg, nodes[p].bytes)
  {
    var home := HasHome(nodes, job.d);
    forall p | p in nodes && job.s <= p
      ensures FailedAt(nodes, job, home, p[|job.s|..]) <==>
        IsFile(nodes, p) && !HashesAsEmpty(job.env.alg, nodes[p].bytes) && !job.env.readable
    {
      var r := p[|job.s|..];
      assert job.s + r == p;
      AllReached(nodes, job.env.faults, job.s, r);
      if IsFile(nodes, p) {
        CleanTransaction(nodes, job, r);
      }
    }
  }

  // ---- what the recursion comes to, place by place

  /** Every directory from `s` to above `q` can be opened, and every stat on the way works. */
  ghost predicate ClearWay(f: Faults, s: Path, q: Path) {
    && (forall p | s <= p < q :: !f.opendir(p))
    && (forall p | s < p <= q :: !f.stat(p))
  }

  lemma ClearWayBelow(f: Faults, s: Path, q: Path)
    requires s < q
    ensures var next := s + [q[|s|]];
      ClearWay(f, s, q) <==> !f.opendir(s) && !f.stat(next) && ClearWay(f, next, q)
  {
    var next := s + [q[|s|]];
    if ClearWay(f, s, q) {
      forall p | next <= p < q ensures !f.opendir(p) { PrefixOf(s, next, p); }
      forall p | next < p <= q ensures !f.stat(p) { PrefixOf(s, next, p); }
    }
    if !f.opendir(s) && !f.stat(next) && ClearWay(f, next, q) {
      forall p | s <= p < q ensures !f.opendir(p) { AtOrBelow(s, p, q); }
      forall p | s < p <= q ensures !f.stat(p) {
        AtOrBelow(s, p, q);
        assert p == next || next < p;
      }
    }
  }

  lemma PrefixOf(a: Path, b: Path, c: Path)
    requires a <= b <= c
    ensures a <= c && (a < b ==> a < c)
  {
  }

  lemma AtOrBelow(s: Path, p: Path, q: Path)
    requires s < q && s <= p <= q
    ensures p == s || s + [q[|s|]] <= p
  {
    assert p == q[..|p|] && s == q[..|s|];
  }

  /** The walk gets to a node if and only if the way to it is clear. */
  lemma {:induction false} ReachedExactly(nodes: Nodes, f: Faults, s: Path, r: Path)
    requires WellFormed(nodes) && s + r in nodes
    ensures Reached(nodes, f, s, r) <==> ClearWay(f, s, s + r)
    decreases |r|
  {
    if r != [] {
      var next := s + [r[0]];
      assert next + r[1..] == s + r;
      PrefixIsDir(nodes, s + r, |s|);
      assert (s + r)[..|s|] == s && (s + r)[|s|] == r[0];
      if r[1..] != [] {
        PrefixIsDir(nodes, s + r, |next|);
        assert (s + r)[..|next|] == next;
      } else {
        assert next == s + r;
      }
      ClearWayBelow(f, s, s + r);
      ReachedExactly(nodes, f, next, r[1..]);
    }
  }

  /** Each directory from `d` to above `q` is there, or it is missing and mkdir works for it. */
  ghost predicate MadeWay(nodes: Nodes, f: Faults, d: Path, q: Path) {
    forall p | d <= p < q :: if p in nodes then IsDir(nodes, p) else !f.mkdir(p)
  }

  lemma MadeWayBelow(nodes: Nodes, f: Faults, d: Path, q: Path)
    requires d < q
    ensures MadeWay(nodes, f, d, q)
       <==> (if d in nodes then IsDir(nodes, d) else !f.mkdir(d)) && MadeWay(nodes, f, d + [q[|d|]], q)
  {
    var next := d + [q[|d|]];
    if MadeWay(nodes, f, d, q) {
      forall p | next <= p < q ensures if p in nodes then IsDir(nodes, p) else !f.mkdir(p) {
        PrefixOf(d, next, p);
      }
    }
    if (if d in nodes then IsDir(nodes, d) else !f.mkdir(d)) && MadeWay(nodes, f, next, q) {
      forall p | d <= p < q ensures if p in nodes then IsDir(nodes, p) else !f.mkdir(p) {
        AtOrBelow(d, p, q);
      }
    }
  }

  /** After the mkdirs there is a directory for `d + r` if and only if the way to it is made and
      the first directory of that way is there or has a place of its own. */
  lemma {:induction false} HomeExactly(nodes: Nodes, f: Faults, d: Path, home: bool, r: Path)
    requires WellFormed(nodes)
    ensures Home(nodes, f, d, home, r)
            <==> MadeWay(nodes, f, d, d + r) && (home || (r != [] && d in nodes))
    decreases |r|
  {
    if r == [] {
      assert d + r == d;
    } else {
      var q, next := d + r, d + [r[0]];
      assert next + r[1..] == q && d < next <= q;
      if next in nodes {
        assert HasHome(nodes, next) && Parent(next) == d;
      }
      MadeWayBelow(nodes, f, d, q);
      HomeExactly(nodes, f, next, Ready(nodes, f, d, home), r[1..]);
    }
  }

  /** The modes after any transfer, whatever goes wrong: what was there keeps its own, a new
      directory has 07 and a new file 0666. */
  lemma ModesAfter(nodes: Nodes, job: Job, q: Path)
    requires Apart(job.s, job.d) && q in After(nodes, job)
    ensures After(nodes, job)[q].mode
         == if q in nodes then nodes[q].mode else if After(nodes, job)[q].Dir? then 7 else 438
  {
    assert NEW_DIRECTORY_MODE == 7 && NEW_FILE_MODE == 438;
    GetAfter(nodes, job, q);
    if job.s <= q {
      assert job.s + q[|job.s|..] == q;
    } else if job.d <= q {
      assert job.d + q[|job.d|..] == q;
    }
  }

  /** A file below the source is opened at both ends: the walk gets to it, neither open fails,
      and the directory and the place for its copy are there or have been made. */
  ghost predicate Attempted(nodes: Nodes, job: Job, r: Path) {
    var f, s, d := job.env.faults, job.s + r, job.d + r;
    && ClearWay(f, job.s, s) && !f.openSource(s) && !f.openDest(d)
    && (if d in nodes then IsFile(nodes, d)
        else MadeWay(nodes, f, job.d, d) && (job.d in nodes || HasHome(nodes, job.d)))
  }

  /** What becomes of every file of the source tree, under any faults, said of its two places
      alone: one that cannot be got to or opened at both ends stays, and so does its matching
      path; the copy of any other is what the copying delivered; and its source goes exactly on
      a TRANSFER whose two digests are equal and whose remove works. */
  lemma FileExactly(nodes: Nodes, job: Job, r: Path)
    requires WellFormed(nodes) && Apart(job.s, job.d) && r != [] && IsFile(nodes, job.s + r)
    ensures var s, d, after, bytes := job.s + r, job.d + r, After(nodes, job), nodes[job.s + r].bytes;
      if Attempted(nodes, job, r) && (job.how == Transfer || job.how == Backup) then
        && IsFile(after, d) && after[d].bytes == CopyOf(job.env, bytes, s, d)
        && Get(after, s) == (if job.how == Transfer && Verifies(job.env, bytes, s, d) && !job.env.faults.remove(s)
                             then None else Get(nodes, s))
      else Get(after, s) == Get(nodes, s) && Get(after, d) == Get(nodes, d)
  {
    AfterAt(nodes, job, r);
    FileOpens(nodes, job, r);
  }

  lemma FileOpens(nodes: Nodes, job: Job, r: Path)
    requires WellFormed(nodes) && r != [] && IsFile(nodes, job.s + r)
    ensures Written(nodes, job, HasHome(nodes, job.d), r) <==> Attempted(nodes, job, r) && !job.how.Undefined?
  {
    ReachedExactly(nodes, job.env.faults, job.s, r);
    HomeExactly(nodes, job.env.faults, job.d, HasHome(nodes, job.d), r);
  }

  /** The paths that count as errors: a directory that is got to and cannot be opened, the root
      included, and a file that is got to and not opened at both ends, or whose digests differ,
      or that comes with an unknown method. */
  lemma FailuresExactly(nodes: Nodes, job: Job, q: Path)
    requires WellFormed(nodes) && q in nodes && job.s <= q
    ensures var r := q[|job.s|..];
      q in Failures(nodes, job, HasHome(nodes, job.d))
      <==> ClearWay(job.env.faults, job.s, q)
           && (if IsDir(nodes, q) then job.env.faults.opendir(q)
               else r == [] || job.how == Undefined || !Attempted(nodes, job, r)
                    || !Verifies(job.env, nodes[q].bytes, q, job.d + r))
  {
    var r := q[|job.s|..];
    assert job.s + r == q;
    ReachedExactly(nodes, job.env.faults, job.s, r);
    if r != [] && IsFile(nodes, q) {
      FileOpens(nodes, job, r);
    }
  }

  /** What becomes of the places of directories: a missing one is made exactly where the source
      has a directory that is got to (or at the root), the way to it is made and its own mkdir
      works. */
  lemma DirectoryExactly(nodes: Nodes, job: Job, r: Path)
    requires WellFormed(nodes) && Apart(job.s, job.d) && (r == [] || IsDir(nodes, job.s + r))
    ensures var d, f := job.d + r, job.env.faults;
      Get(After(nodes, job), d)
      == if d !in nodes && (r == [] || ClearWay(f, job.s, job.s + r)) && !f.mkdir(d)
            && MadeWay(nodes, f, job.d, d) && (HasHome(nodes, job.d) || (r != [] && job.d in nodes))
         then Some(Dir(7)) else Get(nodes, d)
  {
    assert NEW_DIRECTORY_MODE == 7;
    AfterAt(nodes, job, r);
    if r != [] {
      ReachedExactly(nodes, job.env.faults, job.s, r);
    }
    HomeExactly(nodes, job.env.faults, job.d, HasHome(nodes, job.d), r);
  }
}

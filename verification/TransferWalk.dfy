/** The recursive walk of transfer_directory, proved to have exactly the effect that
    TransferSpec states path by path, in whatever order readdir lists the entries. */
module TransferWalk {
  import opened FileSystems
  import opened Options
  import opened Transacts
  import opened TransferSpec

  /** The node at `q` when the entries named in `done` have been dealt with. */
  function Midway(before: Nodes, job: Job, home: bool, done: set<string>, q: Path): Option<Node> {
    if job.s <= q then
      (if q == job.s || q[|job.s|] !in done then Get(before, q) else SourceAfter(before, job, home, q[|job.s|..]))
    else if job.d <= q then
      (if q == job.d || q[|job.d|] in done then DestAfter(before, job, home, q[|job.d|..]) else Get(before, q))
    else Get(before, q)
  }

  ghost predicate Visited(before: Nodes, now: Nodes, job: Job, home: bool, done: set<string>) {
    forall q :: Get(now, q) == Midway(before, job, home, done, q)
  }

  /** The failures below the entries named in `done`. */
  function DoneFailures(before: Nodes, job: Job, home: bool, done: set<string>): set<Path> {
    set q | q in before && job.s < q && q[|job.s|] in done && FailedAt(before, job, home, q[|job.s|..])
  }

  lemma Start(before: Nodes, now: Nodes, job: Job)
    requires Apart(job.s, job.d)
    requires now == if job.d !in before && HasHome(before, job.d) && !job.env.faults.mkdir(job.d)
                    then before[job.d := Dir(NEW_DIRECTORY_MODE)] else before
    ensures Visited(before, now, job, HasHome(before, job.d), {})
  {
    assert job.d + [] == job.d;
  }

  lemma Skip(before: Nodes, now: Nodes, job: Job, home: bool, done: set<string>, n: string)
    requires Visited(before, now, job, home, done) && !Enters(before, job, n)
    ensures Visited(before, now, job, home, done + {n})
    ensures DoneFailures(before, job, home, done + {n}) == DoneFailures(before, job, home, done)
  {
    forall q ensures Get(now, q) == Midway(before, job, home, done + {n}, q) {
      if job.s < q {
        SkipAt(before, job, home, n, q[|job.s|..]);
        assert job.s + q[|job.s|..] == q;
      } else if job.d < q {
        SkipAt(before, job, home, n, q[|job.d|..]);
        assert job.d + q[|job.d|..] == q;
      }
    }
    forall q | job.s < q && q[|job.s|] == n ensures !FailedAt(before, job, home, q[|job.s|..]) {
      SkipAt(before, job, home, n, q[|job.s|..]);
    }
  }

  lemma SkipAt(before: Nodes, job: Job, home: bool, n: string, r: Path)
    requires r != [] && !Enters(before, job, n)
    ensures r[0] == n ==> SourceAfter(before, job, home, r) == Get(before, job.s + r)
    ensures r[0] == n ==> DestAfter(before, job, home, r) == Get(before, job.d + r)
    ensures r[0] == n ==> !FailedAt(before, job, home, r)
  {
    if r[0] == n {
      Untouched(before, job, home, r);
    }
  }

  /** Below an entry still to come, the tree is as it was, and `d` has been made. */
  lemma StillToCome(before: Nodes, now: Nodes, job: Job, home: bool, done: set<string>, n: string)
    requires Visited(before, now, job, home, done) && Apart(job.s, job.d) && n !in done && !Dots(n)
    ensures Agree(before, now, job.s + [n]) && Agree(before, now, job.d + [n])
    ensures Get(now, job.s + [n]) == Get(before, job.s + [n])
    ensures Get(now, job.d + [n]) == Get(before, job.d + [n])
    ensures HasHome(now, job.d + [n]) == Ready(before, job.env.faults, job.d, home)
  {
    forall q ensures job.s + [n] <= q ==> Get(before, q) == Get(now, q)
             ensures job.d + [n] <= q ==> Get(before, q) == Get(now, q) {
      assert Get(now, q) == Midway(before, job, home, done, q);
      assert job.s + [n] <= q ==> job.s < q && q[|job.s|] == n;
      assert job.d + [n] <= q ==> job.d < q && q[|job.d|] == n;
    }
    assert Parent(job.d + [n]) == job.d && job.d + [] == job.d;
    assert Get(now, job.d) == Midway(before, job, home, done, job.d) == DestAfter(before, job, home, []);
  }

  /** What the job of the directory `n` does at `q` is what the walk is to do there. */
  lemma AtDirectory(before: Nodes, now: Nodes, job: Job, home: bool, n: string, q: Path)
    requires Agree(before, now, job.s + [n]) && Agree(before, now, job.d + [n]) && Apart(job.s, job.d)
    requires Enters(before, job, n) && IsDir(before, job.s + [n])
    ensures var below := Ready(before, job.env.faults, job.d, home);
            && (job.s + [n] <= q ==>
                  NodeAfter(now, Into(job, n), below, q) == SourceAfter(before, job, home, q[|job.s|..]))
            && (job.d + [n] <= q ==>
                  NodeAfter(now, Into(job, n), below, q) == DestAfter(before, job, home, q[|job.d|..]))
            && (!(job.s + [n] <= q) && !(job.d + [n] <= q) ==> NodeAfter(now, Into(job, n), below, q) == Get(now, q))
  {
    var inner, below := Into(job, n), Ready(before, job.env.faults, job.d, home);
    ApartSuffixes(job.s, job.d, [n], [n]);
    if inner.s <= q {
      var r := q[|inner.s|..];
      AfterAgrees(before, now, inner, below, r);
      Descend(before, job, home, n, r);
      assert [n] + r == q[|job.s|..];
    } else if inner.d <= q {
      var r := q[|inner.d|..];
      AfterAgrees(before, now, inner, below, r);
      Descend(before, job, home, n, r);
      assert [n] + r == q[|job.d|..];
    }
  }

  /** The recursive call on the directory `n` deals with that entry. */
  lemma AfterDirectory(before: Nodes, now: Nodes, next: Nodes, job: Job, home: bool, done: set<string>, n: string)
    requires Visited(before, now, job, home, done) && Apart(job.s, job.d) && n !in done
    requires Enters(before, job, n) && IsDir(before, job.s + [n])
    requires forall q :: Get(next, q) == NodeAfter(now, Into(job, n), HasHome(now, job.d + [n]), q)
    ensures Visited(before, next, job, home, done + {n})
  {
    StillToCome(before, now, job, home, done, n);
    forall q ensures Get(next, q) == Midway(before, job, home, done + {n}, q) {
      AtDirectory(before, now, job, home, n, q);
      EntryPaths(job, n, q);
      assert Get(now, q) == Midway(before, job, home, done, q);
    }
  }

  lemma DirectoryFailures(before: Nodes, now: Nodes, job: Job, home: bool, done: set<string>, n: string)
    requires Visited(before, now, job, home, done) && Apart(job.s, job.d) && n !in done
    requires Enters(before, job, n) && IsDir(before, job.s + [n])
    ensures var below := Failures(now, Into(job, n), HasHome(now, job.d + [n]));
            && DoneFailures(before, job, home, done + {n}) == DoneFailures(before, job, home, done) + below
            && DoneFailures(before, job, home, done) !! below
  {
    StillToCome(before, now, job, home, done, n);
    var inner := Into(job, n);
    var below := Failures(now, inner, HasHome(now, job.d + [n]));
    forall q
      ensures q in below <==>
        q in before && job.s < q && q[|job.s|] == n && FailedAt(before, job, home, q[|job.s|..])
    {
      assert job.s < q && q[|job.s|] == n <==> inner.s <= q;
      if inner.s <= q {
        FailedBelow(before, now, job, home, n, q);
      }
    }
  }

  lemma FailedBelow(before: Nodes, now: Nodes, job: Job, home: bool, n: string, q: Path)
    requires Enters(before, job, n) && IsDir(before, job.s + [n]) && job.s + [n] <= q
    requires Agree(before, now, job.s + [n]) && Agree(before, now, job.d + [n])
    requires HasHome(now, job.d + [n]) == Ready(before, job.env.faults, job.d, home)
    ensures q in before <==> q in now
    ensures FailedAt(now, Into(job, n), HasHome(now, job.d + [n]), q[|job.s| + 1..])
            <==> FailedAt(before, job, home, q[|job.s|..])
  {
    var inner := Into(job, n);
    var r := q[|inner.s|..];
    AfterAgrees(before, now, inner, HasHome(now, job.d + [n]), r);
    Descend(before, job, home, n, r);
    assert [n] + r == q[|job.s|..];
    assert Get(before, q) == Get(now, q);
  }

  /** The spec at a file entry and at anything below one. */
  lemma FileEntry(before: Nodes, job: Job, home: bool, n: string, r: Path)
    requires Enters(before, job, n) && IsFile(before, job.s + [n]) && r != [] && r[0] == n
    ensures Reached(before, job.env.faults, job.s, r) <==> r == [n]
    ensures Home(before, job.env.faults, job.d, home, [n]) == Ready(before, job.env.faults, job.d, home)
  {
    if r != [n] {
      assert r[1..] != [];
    } else {
      assert r[1..] == [];
    }
  }

  lemma TransactedAgrees(a: Nodes, b: Nodes, env: Env, how: Method, s: Path, d: Path, home: bool)
    requires Get(a, s) == Get(b, s) && Get(a, d) == Get(b, d)
    ensures Code(a, env, s, d, home) == Code(b, env, s, d, home)
    ensures Opens(a, env, s, d, home) == Opens(b, env, s, d, home)
    ensures Removes(a, env, how, s, d, home) == Removes(b, env, how, s, d, home)
    ensures Opens(a, env, s, d, home) ==>
      Stored(a, d, CopyOf(env, a[s].bytes, s, d)) == Stored(b, d, CopyOf(env, b[s].bytes, s, d))
  {
  }

  /** A transaction touches its two paths and nothing else. */
  lemma TransactedAt(nodes: Nodes, env: Env, how: Method, s: Path, d: Path, q: Path)
    requires s != d
    ensures var home := HasHome(nodes, d);
      Get(Transacted(nodes, env, how, s, d), q)
      == if q == s && Removes(nodes, env, how, s, d, home) then None
         else if q == d && Opens(nodes, env, s, d, home) then Some(Stored(nodes, d, CopyOf(env, nodes[s].bytes, s, d)))
         else Get(nodes, q)
  {
  }

  /** The specification at the file entry `n`, and at paths below it. */
  lemma SpecAtFile(nodes: Nodes, job: Job, home: bool, n: string, r: Path)
    requires Enters(nodes, job, n) && IsFile(nodes, job.s + [n]) && r != [] && r[0] == n
    ensures var s, d, below := job.s + [n], job.d + [n], Ready(nodes, job.env.faults, job.d, home);
      && SourceAfter(nodes, job, home, r)
         == (if r == [n] && Removes(nodes, job.env, job.how, s, d, below) then None else Get(nodes, job.s + r))
      && DestAfter(nodes, job, home, r)
         == (if r == [n] && !job.how.Undefined? && Opens(nodes, job.env, s, d, below)
             then Some(Stored(nodes, d, CopyOf(job.env, nodes[s].bytes, s, d))) else Get(nodes, job.d + r))
  {
    FileEntry(nodes, job, home, n, r);
    if r != [n] {
      assert !Handled(nodes, job, r);
    }
  }

  /** What the transaction on the file `n` does at `q` is what the walk is to do there. */
  lemma AtFile(before: Nodes, now: Nodes, job: Job, home: bool, n: string, q: Path)
    requires Enters(before, job, n) && IsFile(before, job.s + [n]) && Apart(job.s, job.d)
    requires Get(before, job.s + [n]) == Get(now, job.s + [n]) && Get(before, job.d + [n]) == Get(now, job.d + [n])
    requires job.s + [n] <= q || job.d + [n] <= q ==> Get(before, q) == Get(now, q)
    requires HasHome(now, job.d + [n]) == Ready(before, job.env.faults, job.d, home)
    ensures var next := if job.how.Undefined? then now else Transacted(now, job.env, job.how, job.s + [n], job.d + [n]);
      && (job.s + [n] <= q ==> Get(next, q) == SourceAfter(before, job, home, q[|job.s|..]))
      && (job.d + [n] <= q ==> Get(next, q) == DestAfter(before, job, home, q[|job.d|..]))
      && (!(job.s + [n] <= q) && !(job.d + [n] <= q) ==> Get(next, q) == Get(now, q))
  {
    var s, d := job.s + [n], job.d + [n];
    TransactedAgrees(before, now, job.env, job.how, s, d, Ready(before, job.env.faults, job.d, home));
    ApartSuffixes(job.s, job.d, [n], [n]);
    TransactedAt(now, job.env, job.how, s, d, q);
    if s <= q {
      SpecAtFile(before, job, home, n, q[|job.s|..]);
      assert job.s + q[|job.s|..] == q;
      assert q == s <==> q[|job.s|..] == [n];
    } else if d <= q {
      SpecAtFile(before, job, home, n, q[|job.d|..]);
      assert job.d + q[|job.d|..] == q;
      assert q == d <==> q[|job.d|..] == [n];
    }
  }

  /** The two places of an entry, in terms of their first name. */
  lemma EntryPaths(job: Job, n: string, q: Path)
    requires Apart(job.s, job.d)
    ensures job.s < q && q[|job.s|] == n <==> job.s + [n] <= q
    ensures job.d < q && q[|job.d|] == n <==> job.d + [n] <= q
    ensures job.d <= q ==> !(job.s <= q)
  {
  }

  /** The transaction on the file `n` deals with that entry. */
  lemma AfterFile(before: Nodes, now: Nodes, next: Nodes, job: Job, home: bool, done: set<string>, n: string)
    requires Visited(before, now, job, home, done) && Apart(job.s, job.d) && n !in done
    requires Enters(before, job, n) && IsFile(before, job.s + [n])
    requires next == if job.how.Undefined? then now else Transacted(now, job.env, job.how, job.s + [n], job.d + [n])
    ensures Visited(before, next, job, home, done + {n})
  {
    StillToCome(before, now, job, home, done, n);
    forall q ensures Get(next, q) == Midway(before, job, home, done + {n}, q) {
      AtFile(before, now, job, home, n, q);
      EntryPaths(job, n, q);
      assert Get(now, q) == Midway(before, job, home, done, q);
    }
  }

  lemma FileFailures(before: Nodes, now: Nodes, job: Job, home: bool, done: set<string>, n: string)
    requires Visited(before, now, job, home, done) && Apart(job.s, job.d) && n !in done
    requires Enters(before, job, n) && IsFile(before, job.s + [n])
    ensures var failed := job.how.Undefined?
              || Code(now, job.env, job.s + [n], job.d + [n], HasHome(now, job.d + [n])) != TRANSACT_SUCCESS;
            && DoneFailures(before, job, home, done + {n})
               == DoneFailures(before, job, home, done) + (if failed then {job.s + [n]} else {})
            && job.s + [n] !in DoneFailures(before, job, home, done)
  {
    StillToCome(before, now, job, home, done, n);
    var s, d, below := job.s + [n], job.d + [n], Ready(before, job.env.faults, job.d, home);
    TransactedAgrees(before, now, job.env, job.how, s, d, below);
    forall q | job.s < q && q[|job.s|] == n
      ensures FailedAt(before, job, home, q[|job.s|..]) <==>
        q == s && (job.how.Undefined? || Code(now, job.env, s, d, below) != TRANSACT_SUCCESS)
    {
      FileEntry(before, job, home, n, q[|job.s|..]);
      assert q == s <==> q[|job.s|..] == [n];
    }
  }

  /** Where no entry is left to enter, the walk has done what the specification says. */
  lemma FinishAt(before: Nodes, job: Job, home: bool, done: set<string>, q: Path)
    requires Apart(job.s, job.d)
    requires forall n :: Enters(before, job, n) ==> n in done
    ensures Midway(before, job, home, done, q) == NodeAfter(before, job, home, q)
    ensures job.s < q && q[|job.s|] !in done ==> !FailedAt(before, job, home, q[|job.s|..])
  {
    if job.s <= q {
      var r := q[|job.s|..];
      assert job.s + r == q;
      if r != [] {
        UntouchedUnlessDone(before, job, home, done, r);
      }
    } else if job.d <= q {
      var r := q[|job.d|..];
      assert job.d + r == q;
      if r != [] {
        UntouchedUnlessDone(before, job, home, done, r);
      }
    }
  }

  lemma UntouchedUnlessDone(before: Nodes, job: Job, home: bool, done: set<string>, r: Path)
    requires r != [] && forall n :: Enters(before, job, n) ==> n in done
    ensures r[0] in done
         || (SourceAfter(before, job, home, r) == Get(before, job.s + r)
             && DestAfter(before, job, home, r) == Get(before, job.d + r)
             && !FailedAt(before, job, home, r))
  {
    var n := r[0];
    if n !in done {
      assert Enters(before, job, n) ==> n in done;
      Untouched(before, job, home, r);
    }
  }

  lemma Finish(before: Nodes, now: Nodes, job: Job, home: bool, done: set<string>)
    requires Visited(before, now, job, home, done) && Apart(job.s, job.d)
    requires forall n :: Enters(before, job, n) ==> n in done
    ensures forall q :: Get(now, q) == NodeAfter(before, job, home, q)
    ensures Failures(before, job, home)
         == DoneFailures(before, job, home, done) + (if Listed(before, job.env.faults, job.s) then {} else {job.s})
  {
    forall q ensures Get(now, q) == NodeAfter(before, job, home, q) {
      assert Get(now, q) == Midway(before, job, home, done, q);
      FinishAt(before, job, home, done, q);
    }
    forall q ensures q in Failures(before, job, home) <==>
      q in DoneFailures(before, job, home, done) || (q == job.s && !Listed(before, job.env.faults, job.s))
    {
      FinishAt(before, job, home, done, q);
      RootFailure(before, job, home);
      assert job.s <= q ==> q == job.s || job.s < q;
    }
  }

  lemma RootFailure(before: Nodes, job: Job, home: bool)
    ensures FailedAt(before, job, home, job.s[|job.s|..]) <==> !Listed(before, job.env.faults, job.s)
  {
    assert job.s[|job.s|..] == [] && job.s + [] == job.s;
  }

  lemma SmallerSubtree(before: Nodes, now: Nodes, s: Path, n: string)
    requires s in before
    requires forall q | s + [n] <= q :: q in before <==> q in now
    ensures |Subtree(now, s + [n])| < |Subtree(before, s)|
  {
    assert Subtree(now, s + [n]) == Subtree(before, s + [n]);
    forall q | q in Subtree(before, s + [n]) ensures q in Subtree(before, s) {
      assert s <= q;
    }
    assert s !in Subtree(before, s + [n]) && s in Subtree(before, s);
    StrictSubset(Subtree(before, s + [n]), Subtree(before, s), s);
  }

  lemma StrictSubset(a: set<Path>, b: set<Path>, x: Path)
    requires a <= b && x in b && x !in a
    ensures |a| < |b|
  {
    SubsetSize(a, b - {x});
  }

  lemma {:induction false} SubsetSize(a: set<Path>, b: set<Path>)
    requires a <= b
    ensures |a| <= |b|
    decreases |a|
  {
    if a != {} {
      var x :| x in a;
      SubsetSize(a - {x}, b - {x});
    }
  }

  lemma SameNodes(a: Nodes, b: Nodes)
    requires forall q :: Get(a, q) == Get(b, q)
    ensures a == b
  {
    forall q ensures q in a <==> q in b {
      assert Get(a, q) == Get(b, q);
    }
    forall q | q in a ensures a[q] == b[q] {
      assert Get(a, q) == Get(b, q);
    }
  }

  /** transfer_directory. */
  method TransferDirectory(fs: FileSystem, job: Job) returns (errors: nat)
    requires fs.Valid() && Apart(job.s, job.d)
    modifies fs
    ensures fs.Valid()
    ensures fs.nodes == After(old(fs.nodes), job)
    ensures errors == |Failures(old(fs.nodes), job, HasHome(old(fs.nodes), job.d))|
    decreases |Subtree(fs.nodes, job.s)|, 2
  {
    ghost var before, home := fs.nodes, HasHome(fs.nodes, job.d);
    fs.Mkdir(job.d, NEW_DIRECTORY_MODE, job.env.faults.mkdir(job.d));
    Start(before, fs.nodes, job);
    assert Get(fs.nodes, job.s) == Midway(before, job, home, {}, job.s);
    if !Listed(fs.nodes, job.env.faults, job.s) {
      Conclude(before, fs.nodes, job, {});
      errors := 1;
    } else {
      ghost var done;
      errors, done := TransferEntries(fs, job, before, home);
      Conclude(before, fs.nodes, job, done);
    }
  }

  lemma Conclude(before: Nodes, now: Nodes, job: Job, done: set<string>)
    requires Visited(before, now, job, HasHome(before, job.d), done) && Apart(job.s, job.d)
    requires forall n :: Enters(before, job, n) ==> n in done
    ensures now == After(before, job)
    ensures var home := HasHome(before, job.d);
      |Failures(before, job, home)|
      == |DoneFailures(before, job, home, done)| + (if Listed(before, job.env.faults, job.s) then 0 else 1)
    ensures done == {} ==> |DoneFailures(before, job, HasHome(before, job.d), done)| == 0
  {
    var home := HasHome(before, job.d);
    Finish(before, now, job, home, done);
    IsAfter(before, now, job);
    assert job.s !in DoneFailures(before, job, home, done);
    assert done == {} ==> DoneFailures(before, job, home, done) == {};
  }

  /** The loop over the entries; the ghost parameters are the tree before the call and whether
      the destination had a home in it. */
  method TransferEntries(fs: FileSystem, job: Job, ghost before: Nodes, ghost home: bool)
    returns (errors: nat, ghost done: set<string>)
    requires fs.Valid() && Apart(job.s, job.d)
    requires Visited(before, fs.nodes, job, home, {})
    requires Listed(before, job.env.faults, job.s)
    modifies fs
    ensures fs.Valid() && Visited(before, fs.nodes, job, home, done)
    ensures forall n :: Enters(before, job, n) ==> n in done
    ensures errors == |DoneFailures(before, job, home, done)|
    decreases |Subtree(before, job.s)|, 1
  {
    done := {};
    errors := 0;
    var entries := fs.ReadDir(job.s);
    AllNames(before, fs.nodes, job, home, entries);
    for i := 0 to |entries|
      invariant fs.Valid() && Visited(before, fs.nodes, job, home, done)
      invariant forall n :: n in done <==> n in entries[..i]
      invariant errors == |DoneFailures(before, job, home, done)|
    {
      var failed := TransferEntry(fs, job, entries[i], before, home, done);
      errors := errors + failed;
      done := done + {entries[i]};
    }
    assert entries[..|entries|] == entries;
  }

  lemma IsAfter(before: Nodes, now: Nodes, job: Job)
    requires Apart(job.s, job.d)
    requires forall q :: Get(now, q) == NodeAfter(before, job, HasHome(before, job.d), q)
    ensures now == After(before, job)
  {
    forall q ensures Get(now, q) == Get(After(before, job), q) {
      GetAfter(before, job, q);
    }
    SameNodes(now, After(before, job));
  }

  lemma AllNames(before: Nodes, now: Nodes, job: Job, home: bool, entries: seq<string>)
    requires Visited(before, now, job, home, {})
    requires forall n :: n in entries <==> Dots(n) || job.s + [n] in now
    ensures forall n :: n in entries <==> Dots(n) || job.s + [n] in before
  {
    forall n ensures n in entries <==> Dots(n) || job.s + [n] in before {
      assert Get(now, job.s + [n]) == Midway(before, job, home, {}, job.s + [n]);
    }
  }

  /** The body of the loop over the entries; returns how much it adds to the error count. The
      ghost parameters describe the walk so far: the tree at its start and the entries done. */
  method TransferEntry(fs: FileSystem, job: Job, name: string,
      ghost before: Nodes, ghost home: bool, ghost done: set<string>)
    returns (failed: nat)
    requires fs.Valid() && Apart(job.s, job.d)
    requires Visited(before, fs.nodes, job, home, done) && name !in done
    requires Listed(before, job.env.faults, job.s)
    requires Dots(name) || job.s + [name] in before
    modifies fs
    ensures fs.Valid() && Visited(before, fs.nodes, job, home, done + {name})
    ensures |DoneFailures(before, job, home, done)| + failed == |DoneFailures(before, job, home, done + {name})|
    decreases |Subtree(before, job.s)|, 0
  {
    if Dots(name) {
      Skip(before, fs.nodes, job, home, done, name);
      return 0;
    }
    var s, d := job.s + [name], job.d + [name];
    StillToCome(before, fs.nodes, job, home, done, name);
    if job.env.faults.stat(s) {
      Skip(before, fs.nodes, job, home, done, name);
      return 0;
    }
    ghost var now := fs.nodes;
    if IsDir(fs.nodes, s) {
      ApartSuffixes(job.s, job.d, [name], [name]);
      forall q | s <= q ensures q in before <==> q in now {
        assert Get(before, q) == Get(now, q);
      }
      SmallerSubtree(before, now, job.s, name);
      failed := TransferDirectory(fs, Into(job, name));
      forall q { GetAfter(now, Into(job, name), q); }
      AfterDirectory(before, now, fs.nodes, job, home, done, name);
      DirectoryFailures(before, now, job, home, done, name);
      return;
    }
    failed := 0;
    if job.how.Undefined? {
      failed := 1;
    } else {
      ApartSuffixes(job.s, job.d, [name], [name]);
      var code := TransactTransferFile(fs, job.env, job.how, s, d);
      if code != TRANSACT_SUCCESS {
        failed := 1;
      }
    }
    AfterFile(before, now, fs.nodes, job, home, done, name);
    FileFailures(before, now, job, home, done, name);
  }
}

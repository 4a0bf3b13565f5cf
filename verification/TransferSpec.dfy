/** What a whole transfer_directory does, stated path by path: no order of visits, no loop,
    only the tree as it was and the faults. Relative paths `r` name the same place under the
    source root and under the destination root. */
module TransferSpec {
  import opened FileSystems
  import opened Options
  import opened Transacts

  datatype Job = Job(env: Env, how: Method, s: Path, d: Path)

  /** The job that one turn of the loop hands to the recursive call. */
  function Into(job: Job, n: string): Job {
    job.(s := job.s + [n], d := job.d + [n])
  }

  predicate Listed(nodes: Nodes, f: Faults, s: Path) {
    IsDir(nodes, s) && !f.opendir(s)
  }

  /** The walk gets to `r`: every directory above it is listed and every stat on the way works. */
  predicate Reached(nodes: Nodes, f: Faults, s: Path, r: Path)
    decreases |r|
  {
    r == [] ||
    var next := s + [r[0]];
    && Listed(nodes, f, s)
    && !Dots(r[0])
    && next in nodes
    && !f.stat(next)
    && Reached(nodes, f, next, r[1..])
  }

  /** After mkdir, `d` is a directory. `home`: its own directory is there. */
  predicate Ready(nodes: Nodes, f: Faults, d: Path, home: bool) {
    if d in nodes then nodes[d].Dir? else home && !f.mkdir(d)
  }

  /** After the mkdirs on the way to `d + r`, the directory that is to hold it is there. */
  predicate Home(nodes: Nodes, f: Faults, d: Path, home: bool, r: Path)
    decreases |r|
  {
    if r == [] then home else Home(nodes, f, d + [r[0]], Ready(nodes, f, d, home), r[1..])
  }

  /** The walk calls transact_transfer_file on the file at `r`. */
  predicate Handled(nodes: Nodes, job: Job, r: Path) {
    && r != []
    && Reached(nodes, job.env.faults, job.s, r)
    && IsFile(nodes, job.s + r)
    && !job.how.Undefined?
  }

  /** ... and the source file at `r` is removed. */
  predicate Moved(nodes: Nodes, job: Job, home: bool, r: Path) {
    && Handled(nodes, job, r)
    && Removes(nodes, job.env, job.how, job.s + r, job.d + r, Home(nodes, job.env.faults, job.d, home, r))
  }

  /** ... and the file at `r` is written at the destination. */
  predicate Written(nodes: Nodes, job: Job, home: bool, r: Path) {
    && Handled(nodes, job, r)
    && Opens(nodes, job.env, job.s + r, job.d + r, Home(nodes, job.env.faults, job.d, home, r))
  }

  function SourceAfter(nodes: Nodes, job: Job, home: bool, r: Path): Option<Node> {
    if Moved(nodes, job, home, r) then None else Get(nodes, job.s + r)
  }

  function DestAfter(nodes: Nodes, job: Job, home: bool, r: Path): Option<Node> {
    var to := job.d + r;
    if r == [] || (Reached(nodes, job.env.faults, job.s, r) && IsDir(nodes, job.s + r)) then
      if to !in nodes && Home(nodes, job.env.faults, job.d, home, r) && !job.env.faults.mkdir(to)
      then Some(Dir(NEW_DIRECTORY_MODE)) else Get(nodes, to)
    else if Written(nodes, job, home, r) then
      Some(Stored(nodes, to, CopyOf(job.env, nodes[job.s + r].bytes, job.s + r, to)))
    else Get(nodes, to)
  }

  /** The node at any path after the transfer. */
  function NodeAfter(nodes: Nodes, job: Job, home: bool, q: Path): Option<Node> {
    if job.s <= q then SourceAfter(nodes, job, home, q[|job.s|..])
    else if job.d <= q then DestAfter(nodes, job, home, q[|job.d|..])
    else Get(nodes, q)
  }

  /** The tree after the transfer. */
  function After(nodes: Nodes, job: Job): Nodes {
    var home := HasHome(nodes, job.d);
    map q | q in nodes.Keys + (set p | p in nodes && job.s <= p :: job.d + p[|job.s|..]) + {job.d}
        && NodeAfter(nodes, job, home, q).Some? :: NodeAfter(nodes, job, home, q).value
  }

  /** A visited directory that cannot be listed, or a visited file whose transaction fails. A
      failing stat is neither: it makes the entry unreached. */
  predicate FailedAt(nodes: Nodes, job: Job, home: bool, r: Path) {
    && Reached(nodes, job.env.faults, job.s, r)
    && var s := job.s + r;
       (if r == [] || IsDir(nodes, s) then !Listed(nodes, job.env.faults, s) else Fails(nodes, job, home, r))
  }

  /** The file at `r` is counted as an error, by its transaction or for the unknown method. */
  predicate Fails(nodes: Nodes, job: Job, home: bool, r: Path) {
    || job.how.Undefined?
    || Code(nodes, job.env, job.s + r, job.d + r, Home(nodes, job.env.faults, job.d, home, r)) != TRANSACT_SUCCESS
  }

  function Failures(nodes: Nodes, job: Job, home: bool): set<Path> {
    set q | q in nodes.Keys + {job.s} && job.s <= q && FailedAt(nodes, job, home, q[|job.s|..])
  }

  lemma ReachedIsThere(nodes: Nodes, f: Faults, s: Path, r: Path)
    requires r != [] && Reached(nodes, f, s, r)
    ensures s + r in nodes && IsDir(nodes, s)
    decreases |r|
  {
    assert s + [r[0]] + r[1..] == s + r;
    if r[1..] != [] {
      ReachedIsThere(nodes, f, s + [r[0]], r[1..]);
    } else {
      assert s + r == s + [r[0]];
    }
  }

  lemma GetAfter(nodes: Nodes, job: Job, q: Path)
    requires Apart(job.s, job.d)
    ensures Get(After(nodes, job), q) == NodeAfter(nodes, job, HasHome(nodes, job.d), q)
  {
    var home := HasHome(nodes, job.d);
    if job.s <= q {
      assert job.s + q[|job.s|..] == q;
    } else if job.d <= q {
      var r := q[|job.d|..];
      assert job.d + r == q && (r == [] ==> q == job.d);
      if r != [] && Reached(nodes, job.env.faults, job.s, r) {
        ReachedIsThere(nodes, job.env.faults, job.s, r);
        assert job.s <= job.s + r && (job.s + r)[|job.s|..] == r;
      }
    }
  }

  /** The tree afterwards at the two places of a relative path. */
  lemma AfterAt(nodes: Nodes, job: Job, r: Path)
    requires Apart(job.s, job.d)
    ensures Get(After(nodes, job), job.s + r) == SourceAfter(nodes, job, HasHome(nodes, job.d), r)
    ensures Get(After(nodes, job), job.d + r) == DestAfter(nodes, job, HasHome(nodes, job.d), r)
  {
    var s, d := job.s + r, job.d + r;
    ApartSuffixes(job.s, job.d, [], r);
    assert job.s + [] == job.s;
    assert s[|job.s|..] == r && d[|job.d|..] == r && job.s <= s && job.d <= d && !(job.s <= d);
    GetAfter(nodes, job, s);
    GetAfter(nodes, job, d);
  }

  // ---- a subtree only depends on the two subtrees the job names

  ghost predicate Agree(a: Nodes, b: Nodes, p: Path) {
    forall q | p <= q :: Get(a, q) == Get(b, q)
  }

  lemma AgreeBelow(a: Nodes, b: Nodes, p: Path, n: string)
    requires Agree(a, b, p)
    ensures Agree(a, b, p + [n])
  {
    assert p <= p + [n];
  }

  lemma {:induction false} ReachedAgrees(a: Nodes, b: Nodes, f: Faults, s: Path, r: Path)
    requires Agree(a, b, s)
    ensures Reached(a, f, s, r) == Reached(b, f, s, r)
    decreases |r|
  {
    assert Get(a, s) == Get(b, s);
    if r != [] {
      var next := s + [r[0]];
      assert s <= next;
      assert Get(a, next) == Get(b, next);
      AgreeBelow(a, b, s, r[0]);
      ReachedAgrees(a, b, f, next, r[1..]);
    }
  }

  lemma {:induction false} HomeAgrees(a: Nodes, b: Nodes, f: Faults, d: Path, home: bool, r: Path)
    requires Agree(a, b, d)
    ensures Home(a, f, d, home, r) == Home(b, f, d, home, r)
    decreases |r|
  {
    assert Get(a, d) == Get(b, d);
    if r != [] {
      AgreeBelow(a, b, d, r[0]);
      HomeAgrees(a, b, f, d + [r[0]], Ready(a, f, d, home), r[1..]);
    }
  }

  lemma AfterAgrees(a: Nodes, b: Nodes, job: Job, home: bool, r: Path)
    requires Agree(a, b, job.s) && Agree(a, b, job.d)
    ensures SourceAfter(a, job, home, r) == SourceAfter(b, job, home, r)
    ensures DestAfter(a, job, home, r) == DestAfter(b, job, home, r)
    ensures FailedAt(a, job, home, r) == FailedAt(b, job, home, r)
  {
    assert job.s <= job.s + r && job.d <= job.d + r;
    assert Get(a, job.s + r) == Get(b, job.s + r);
    assert Get(a, job.d + r) == Get(b, job.d + r);
    ReachedAgrees(a, b, job.env.faults, job.s, r);
    HomeAgrees(a, b, job.env.faults, job.d, home, r);
  }

  /** The walk enters the directory entry `n`. */
  predicate Enters(nodes: Nodes, job: Job, n: string) {
    && Listed(nodes, job.env.faults, job.s)
    && !Dots(n)
    && job.s + [n] in nodes
    && !job.env.faults.stat(job.s + [n])
  }

  /** What happens below an entered entry is what its own job does, once `d` has been made. */
  lemma Descend(nodes: Nodes, job: Job, home: bool, n: string, r: Path)
    requires Enters(nodes, job, n)
    requires r == [] ==> IsDir(nodes, job.s + [n])
    ensures var below := Ready(nodes, job.env.faults, job.d, home);
            && SourceAfter(nodes, job, home, [n] + r) == SourceAfter(nodes, Into(job, n), below, r)
            && DestAfter(nodes, job, home, [n] + r) == DestAfter(nodes, Into(job, n), below, r)
            && FailedAt(nodes, job, home, [n] + r) == FailedAt(nodes, Into(job, n), below, r)
  {
    var path, f, inner := [n] + r, job.env.faults, Into(job, n);
    assert path[1..] == r && path[0] == n;
    assert Reached(nodes, f, job.s, path) == Reached(nodes, f, job.s + [n], r);
    assert Home(nodes, f, job.d, home, path) == Home(nodes, f, job.d + [n], Ready(nodes, f, job.d, home), r);
    assert inner.s + r == job.s + path && inner.d + r == job.d + path;
    assert r == [] ==> inner.s + r == job.s + [n];
  }

  /** Nothing happens below an entry that is not entered. */
  lemma Untouched(nodes: Nodes, job: Job, home: bool, r: Path)
    requires r != [] && !Enters(nodes, job, r[0])
    ensures !Reached(nodes, job.env.faults, job.s, r)
    ensures SourceAfter(nodes, job, home, r) == Get(nodes, job.s + r)
    ensures DestAfter(nodes, job, home, r) == Get(nodes, job.d + r)
    ensures !FailedAt(nodes, job, home, r)
  {
  }
}

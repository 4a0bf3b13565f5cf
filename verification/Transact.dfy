/** transact_transfer_file: copy one file, compare digests, and on TRANSFER remove the source. */
module Transacts {
  import opened Bytes
  import opened FileSystems
  import opened Digests
  import opened Streams

  /** The two methods the daemon knows and any other value of the enumeration's type. */
  datatype Method = Backup | Transfer | Undefined

  datatype Pass = Copying | HashingSource | HashingDest

  /** Everything that can go wrong, as far as the tree itself does not decide it. A single
      transfer makes each call at most once for a path, so a function of the path is any
      pattern of faults. */
  datatype Faults = Faults(
    mkdir: Path -> bool,
    opendir: Path -> bool,
    stat: Path -> bool,
    openSource: Path -> bool,
    openDest: Path -> bool,
    remove: Path -> bool,
    fread: (Path, Pass) -> Sizes,
    fwrite: Path -> Sizes)

  /** `readable`: whether the stream the copy was written through can also be read. The
      source opens it "wb", where it cannot. */
  datatype Env = Env(alg: Algorithm, readable: bool, faults: Faults)

  const TRANSACT_SUCCESS: int := 0
  const TRANSACT_ERR_OPEN: int := -1
  const TRANSACT_HASH_FAILED: int := -2

  /** Both files can be opened; `home`: the copy's directory exists. */
  predicate Opens(nodes: Nodes, env: Env, s: Path, d: Path, home: bool) {
    && IsFile(nodes, s)
    && !env.faults.openSource(s)
    && !env.faults.openDest(d)
    && (if d in nodes then nodes[d].File? else home)
  }

  /** The bytes that reach the copy. */
  function CopyOf(env: Env, bytes: seq<Byte>, s: Path, d: Path): seq<Byte> {
    CopiedThrough(bytes, env.faults.fread(s, Copying), env.faults.fwrite(d), 0)
  }

  /** What hash_file sees of the source, and of the copy. */
  function SourceHashed(env: Env, bytes: seq<Byte>, s: Path): seq<Byte> {
    ReadThrough(bytes, env.faults.fread(s, HashingSource), 0)
  }

  function DestHashed(env: Env, bytes: seq<Byte>, s: Path, d: Path): seq<Byte> {
    ReadThrough(if env.readable then CopyOf(env, bytes, s, d) else [], env.faults.fread(d, HashingDest), 0)
  }

  predicate Verifies(env: Env, bytes: seq<Byte>, s: Path, d: Path) {
    Digest(env.alg, SourceHashed(env, bytes, s)) == Digest(env.alg, DestHashed(env, bytes, s, d))
  }

  function Code(nodes: Nodes, env: Env, s: Path, d: Path, home: bool): int {
    if !Opens(nodes, env, s, d, home) then TRANSACT_ERR_OPEN
    else if !Verifies(env, nodes[s].bytes, s, d) then TRANSACT_HASH_FAILED
    else TRANSACT_SUCCESS
  }

  /** The source file is gone afterwards. */
  predicate Removes(nodes: Nodes, env: Env, how: Method, s: Path, d: Path, home: bool) {
    how.Transfer? && Code(nodes, env, s, d, home) == TRANSACT_SUCCESS && !env.faults.remove(s)
  }

  function Transacted(nodes: Nodes, env: Env, how: Method, s: Path, d: Path): Nodes {
    var home := HasHome(nodes, d);
    if !Opens(nodes, env, s, d, home) then nodes else
      var copied := nodes[d := Stored(nodes, d, CopyOf(env, nodes[s].bytes, s, d))];
      if Removes(nodes, env, how, s, d, home) then copied - {s} else copied
  }

  /** The two opened streams from the first fread to the comparison of the digests. */
  method CopyAndVerify(env: Env, bytes: seq<Byte>, s: Path, d: Path) returns (copy: seq<Byte>, verified: int)
    ensures copy == CopyOf(env, bytes, s, d)
    ensures verified == if Verifies(env, bytes, s, d) then 0 else -1
  {
    var source := new Stream(bytes, true);
    var dest := new Stream([], env.readable);
    CopyStream(source, dest, env.faults.fread(s, Copying), env.faults.fwrite(d));
    copy := dest.data;
    verified := VerifyFiles(env.alg, source, dest,
                            env.faults.fread(s, HashingSource), env.faults.fread(d, HashingDest));
  }

  method TransactTransferFile(fs: FileSystem, env: Env, how: Method, s: Path, d: Path) returns (code: int)
    requires fs.Valid() && s != d && !IsDir(fs.nodes, s)
    modifies fs
    ensures fs.Valid()
    ensures code == Code(old(fs.nodes), env, s, d, HasHome(old(fs.nodes), d))
    ensures fs.nodes == Transacted(old(fs.nodes), env, how, s, d)
  {
    if s !in fs.nodes || env.faults.openSource(s) {
      return TRANSACT_ERR_OPEN;
    }
    if !CanWrite(fs.nodes, d) || env.faults.openDest(d) {
      return TRANSACT_ERR_OPEN;
    }
    var verified := WriteCopy(fs, env, s, d);
    if verified < 0 {
      return TRANSACT_HASH_FAILED;
    }
    match how {
      case Transfer => fs.Remove(s, env.faults.remove(s));
      case Backup =>
      case Undefined =>
    }
    code := TRANSACT_SUCCESS;
  }

  /** The part between opening the two files and closing them. */
  method WriteCopy(fs: FileSystem, env: Env, s: Path, d: Path) returns (verified: int)
    requires fs.Valid() && s != d && IsFile(fs.nodes, s) && CanWrite(fs.nodes, d)
    modifies fs
    ensures fs.Valid()
    ensures verified == if Verifies(env, old(fs.nodes)[s].bytes, s, d) then 0 else -1
    ensures fs.nodes == old(fs.nodes)[d := Stored(old(fs.nodes), d, CopyOf(env, old(fs.nodes)[s].bytes, s, d))]
  {
    // opening for writing truncates
    fs.Store(d, []);
    var copy;
    copy, verified := CopyAndVerify(env, fs.nodes[s].bytes, s, d);
    // what was written reaches the file when its stream is closed, at the latest
    fs.Store(d, copy);
  }

  /** The two byte sequences whose digests are compared are no collision. */
  predicate NoCollision(env: Env, bytes: seq<Byte>, s: Path, d: Path) {
    Verifies(env, bytes, s, d) ==> SourceHashed(env, bytes, s) == DestHashed(env, bytes, s, d)
  }

  /** The source is hashed to its end, and the one comparison made is not fooled. */
  predicate SoundHash(env: Env, bytes: seq<Byte>, s: Path, d: Path) {
    SourceHashed(env, bytes, s) == bytes && NoCollision(env, bytes, s, d)
  }

  /** Then a verified copy is an exact one, readable or not. */
  lemma VerifiedCopyIsExact(env: Env, bytes: seq<Byte>, s: Path, d: Path)
    requires SoundHash(env, bytes, s, d) && Verifies(env, bytes, s, d)
    ensures CopyOf(env, bytes, s, d) == bytes
    ensures env.readable || bytes == []
  {
    var copy := CopyOf(env, bytes, s, d);
    CopiedIsNoLonger(bytes, env.faults.fread(s, Copying), env.faults.fwrite(d), 0);
    var read := if env.readable then copy else [];
    ReadThroughIsPrefix(read, env.faults.fread(d, HashingDest), 0);
    assert DestHashed(env, bytes, s, d) == bytes;
  }

  /** The file's bytes are nowhere: its source is removed and its copy is not exact. */
  predicate Loses(env: Env, bytes: seq<Byte>, s: Path, d: Path) {
    Verifies(env, bytes, s, d) && !env.faults.remove(s) && CopyOf(env, bytes, s, d) != bytes
  }

  /** `env` hashes the source at `s` with the reads `sizes` and has the digest `alg`. */
  ghost predicate HashesWith(env: Env, alg: Algorithm, readable: bool, s: Path, sizes: Sizes) {
    env.alg == alg && env.readable == readable && env.faults.fread(s, HashingSource) == sizes
  }

  /** Faults that cut the copy off where the hashing pass over the source is cut off. */
  function CutShort(alg: Algorithm, readable: bool, sizes: Sizes): Env {
    Env(alg, readable, Faults(_ => false, _ => false, _ => false, _ => false, _ => false, _ => false,
      (p: Path, pass: Pass) => if pass.HashingDest? then _ => BUFFER_SIZE else sizes, _ => _ => BUFFER_SIZE))
  }

  /** The one kind of fault against which TRANSFER has no protection is a read error in the
      pass that hashes the source. With read-back, and short of a collision between the two
      contents compared, no combination of other faults loses the file if and only if that
      pass reads all of it. */
  lemma SafeWithReadBack(alg: Algorithm, bytes: seq<Byte>, s: Path, d: Path, sizes: Sizes)
    requires s != d
    ensures (forall env | HashesWith(env, alg, true, s, sizes) && NoCollision(env, bytes, s, d) ::
               !Loses(env, bytes, s, d))
            <==> ReadThrough(bytes, sizes, 0) == bytes
  {
    var hashed := ReadThrough(bytes, sizes, 0);
    if hashed == bytes {
      forall env | HashesWith(env, alg, true, s, sizes) && NoCollision(env, bytes, s, d)
        ensures !Loses(env, bytes, s, d)
      {
        if Verifies(env, bytes, s, d) {
          VerifiedCopyIsExact(env, bytes, s, d);
        }
      }
    } else {
      var env := CutShort(alg, true, sizes);
      var writes: Sizes := env.faults.fwrite(d);
      assert NoShortWrite(writes);
      CopiedIsRead(bytes, sizes, writes, 0);
      assert CopyOf(env, bytes, s, d) == hashed;
      ReadThroughAll(hashed, env.faults.fread(d, HashingDest), 0);
      assert HashesWith(env, alg, true, s, sizes) && NoCollision(env, bytes, s, d) && Loses(env, bytes, s, d);
    }
  }

  /** As written, with nothing to read back, it is safe if and only if the file is empty or
      the hashing pass reads at least one byte whose digest differs from that of nothing. */
  lemma SafeAsWritten(alg: Algorithm, bytes: seq<Byte>, s: Path, d: Path, sizes: Sizes)
    requires s != d
    ensures (forall env | HashesWith(env, alg, false, s, sizes) :: !Loses(env, bytes, s, d))
            <==> (bytes == [] || Digest(alg, ReadThrough(bytes, sizes, 0)) != Digest(alg, []))
  {
    if bytes == [] {
      forall env | HashesWith(env, alg, false, s, sizes) ensures !Loses(env, bytes, s, d) {
        assert CopyOf(env, bytes, s, d) == [];
      }
    } else if Digest(alg, ReadThrough(bytes, sizes, 0)) == Digest(alg, []) {
      var env := CutShort(alg, false, sizes).(faults := CutShort(alg, false, sizes).faults.(fwrite := _ => _ => 0));
      NothingWritten(bytes, env.faults.fread(s, Copying), env.faults.fwrite(d), 0);
      assert HashesWith(env, alg, false, s, sizes) && Loses(env, bytes, s, d);
    }
  }

  lemma {:induction false} NothingWritten(data: seq<Byte>, sizes: Sizes, writes: Sizes, k: nat)
    requires forall i :: writes(i) == 0
    ensures CopiedThrough(data, sizes, writes, k) == []
    decreases |data|
  {
    var n := Delivered(sizes, k, |data|);
    if n != 0 {
      NothingWritten(data[n..], sizes, writes, k + 1);
    }
  }

  // ---- with a digest that has no collisions

  /** Neither hashing pass meets a read error. */
  ghost predicate HashesAll(env: Env, s: Path, d: Path) {
    NoReadError(env.faults.fread(s, HashingSource)) && NoReadError(env.faults.fread(d, HashingDest))
  }

  /** All that one transaction does to the two files and returns, by what happens to it. A file
      that cannot be opened at either end leaves the tree as it is. Otherwise the copy is
      written whatever it is worth; the call succeeds if and only if the copy, as far as it can
      be read back, has all the bytes; and only then, and only on TRANSFER, the source goes. */
  lemma TransactionExactly(nodes: Nodes, env: Env, how: Method, s: Path, d: Path)
    requires CollisionFree(env.alg) && HashesAll(env, s, d) && s != d && IsFile(nodes, s)
    ensures var code, after := Code(nodes, env, s, d, HasHome(nodes, d)), Transacted(nodes, env, how, s, d);
      var bytes, copy := nodes[s].bytes, CopyOf(env, nodes[s].bytes, s, d);
      var seen := if env.readable then copy else [];
      if env.faults.openSource(s) || env.faults.openDest(d) || IsDir(nodes, d) || (d !in nodes && !HasHome(nodes, d))
      then code == -1 && after == nodes
      else
        && code == (if seen == bytes then 0 else -2)
        && IsFile(after, d) && after[d].bytes == copy
        && (s !in after <==> seen == bytes && how == Transfer && !env.faults.remove(s))
        && (s in after ==> after[s] == nodes[s])
        && forall q :: q != s && q != d ==> Get(after, q) == Get(nodes, q)
  {
    var bytes := nodes[s].bytes;
    var seen := if env.readable then CopyOf(env, bytes, s, d) else [];
    ReadThroughAll(bytes, env.faults.fread(s, HashingSource), 0);
    ReadThroughAll(seen, env.faults.fread(d, HashingDest), 0);
    assert Verifies(env, bytes, s, d) <==> seen == bytes;
  }

  /** A short write inside the file is always caught: the call returns -2 and the source stays,
      with or without read-back. */
  lemma ShortWriteIsCaught(nodes: Nodes, env: Env, how: Method, s: Path, d: Path, j: nat, w: nat)
    requires CollisionFree(env.alg) && HashesAll(env, s, d) && s != d && IsFile(nodes, s)
    requires !env.faults.openSource(s) && !env.faults.openDest(d) && CanWrite(nodes, d)
    requires WholeReads(env.faults.fread(s, Copying)) && OneShort(env.faults.fwrite(d), j, w)
    requires 1024 * j + w < |nodes[s].bytes|
    ensures Code(nodes, env, s, d, HasHome(nodes, d)) == -2
    ensures Get(Transacted(nodes, env, how, s, d), s) == Get(nodes, s)
  {
    TransactionExactly(nodes, env, how, s, d);
    OneShortWrite(nodes[s].bytes, env.faults.fread(s, Copying), env.faults.fwrite(d), j, w);
    assert |CopyOf(env, nodes[s].bytes, s, d)| < |nodes[s].bytes|;
  }
}

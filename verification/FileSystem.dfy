/** The part of a POSIX file system that the transfer engine sees: a finite tree of
    directories and regular files, each with its permission bits. Paths are sequences
    of names, so "%s/%s" is `p + [n]`. */
module FileSystems {
  import opened Bytes
  import opened Options

  type Path = seq<string>

  datatype Node = Dir(mode: nat) | File(mode: nat, bytes: seq<Byte>)

  type Nodes = map<Path, Node>

  /** A permission constant as it is written in C, digit by digit. */
  function Octal(user: nat, group: nat, other: nat): nat {
    64 * user + 8 * group + other
  }

  const NEW_DIRECTORY_MODE: nat := Octal(0, 0, 7)
  // fopen asks for 0666 and the daemon has set its umask to 0
  const NEW_FILE_MODE: nat := Octal(6, 6, 6)

  predicate Dots(name: string) {
    name == "." || name == ".."
  }

  predicate IsDir(nodes: Nodes, p: Path) {
    p in nodes && nodes[p].Dir?
  }

  predicate IsFile(nodes: Nodes, p: Path) {
    p in nodes && nodes[p].File?
  }

  function Get(nodes: Nodes, p: Path): Option<Node> {
    if p in nodes then Some(nodes[p]) else None
  }

  function Parent(p: Path): Path
    requires |p| > 0
  {
    p[..|p| - 1]
  }

  /** A node can be created at `p`: its directory is there and its last name is a real one. */
  predicate HasHome(nodes: Nodes, p: Path) {
    |p| > 0 && !Dots(p[|p| - 1]) && IsDir(nodes, Parent(p))
  }

  /** A tree: every node but the root sits in a directory under a real name. */
  ghost predicate WellFormed(nodes: Nodes) {
    forall p {:trigger HasHome(nodes, p)} | p in nodes && |p| > 0 :: HasHome(nodes, p)
  }

  /** Keeping every directory and homing every new node keeps the tree well-formed. */
  lemma StaysWellFormed(before: Nodes, after: Nodes)
    requires WellFormed(before)
    requires forall p :: IsDir(before, p) ==> IsDir(after, p)
    requires forall p :: p in after && |p| > 0 ==> p in before || HasHome(before, p)
    ensures WellFormed(after)
  {
    forall p | p in after && |p| > 0 ensures HasHome(after, p) {
      assert HasHome(before, p);
    }
  }

  /** Every proper prefix of a path in a tree is a directory in it. */
  lemma {:induction false} PrefixIsDir(nodes: Nodes, p: Path, k: nat)
    requires WellFormed(nodes) && p in nodes && k < |p|
    ensures IsDir(nodes, p[..k]) && !Dots(p[k])
    decreases |p|
  {
    assert HasHome(nodes, p);
    if k + 1 < |p| {
      PrefixIsDir(nodes, Parent(p), k);
      assert Parent(p)[..k] == p[..k];
    }
  }

  function Subtree(nodes: Nodes, p: Path): set<Path> {
    set q | q in nodes && p <= q
  }

  function Names(nodes: Nodes, p: Path): set<string> {
    set q | q in nodes && |q| == |p| + 1 && p < q :: q[|p|]
  }

  /** Neither tree contains the other. */
  predicate Apart(s: Path, d: Path) {
    !(s <= d) && !(d <= s)
  }

  lemma ApartSuffixes(s: Path, d: Path, u: Path, v: Path)
    requires Apart(s, d)
    ensures Apart(s + u, d + v)
    ensures s + u != d + v
  {
    var i :| 0 <= i < |s| && i < |d| && s[i] != d[i];
    assert (s + u)[i] == s[i] && (d + v)[i] == d[i];
  }

  lemma NamesAre(nodes: Nodes, p: Path, n: string)
    ensures n in Names(nodes, p) <==> p + [n] in nodes
  {
    if p + [n] in nodes {
      assert p < p + [n] && (p + [n])[|p|] == n;
    }
    if n in Names(nodes, p) {
      var q :| q in nodes && |q| == |p| + 1 && p < q && q[|p|] == n;
      assert q == p + [n];
    }
  }

  /** The mutable file system, with the system calls the transfer engine makes. `fault` is
      the part of each outcome that does not follow from the tree: a call told to fail
      changes nothing and reports an error. */
  class FileSystem {
    var nodes: Nodes

    ghost predicate Valid()
      reads this
    {
      WellFormed(nodes)
    }

    constructor (nodes: Nodes)
      requires WellFormed(nodes)
      ensures Valid() && this.nodes == nodes
    {
      this.nodes := nodes;
    }

    /** mkdir(p, mode): an existing node of either kind is left alone. */
    method Mkdir(p: Path, mode: nat, fault: bool)
      requires Valid()
      modifies this
      ensures Valid()
      ensures nodes == if p !in old(nodes) && HasHome(old(nodes), p) && !fault
                       then old(nodes)[p := Dir(mode)] else old(nodes)
    {
      if p !in nodes && HasHome(nodes, p) && !fault {
        StaysWellFormed(nodes, nodes[p := Dir(mode)]);
        nodes := nodes[p := Dir(mode)];
      }
    }

    /** All the names readdir returns for `p`, "." and ".." among them, in any order. */
    method ReadDir(p: Path) returns (names: seq<string>)
      ensures forall n :: n in names <==> Dots(n) || p + [n] in nodes
      ensures forall i, j :: 0 <= i < j < |names| ==> names[i] != names[j]
    {
      var rest := Names(nodes, p) + {".", ".."};
      ghost var all := rest;
      names := [];
      while rest != {}
        invariant forall n :: n in all <==> n in rest || n in names
        invariant forall n | n in names :: n !in rest
        invariant forall i, j :: 0 <= i < j < |names| ==> names[i] != names[j]
        decreases |rest|
      {
        var n :| n in rest;
        names := names + [n];
        rest := rest - {n};
      }
      forall n ensures n in names <==> Dots(n) || p + [n] in nodes {
        NamesAre(nodes, p, n);
      }
    }

    /** remove(p) for a regular file. */
    method Remove(p: Path, fault: bool)
      requires Valid()
      requires IsFile(nodes, p)
      modifies this
      ensures Valid()
      ensures nodes == if fault then old(nodes) else old(nodes) - {p}
    {
      if !fault {
        StaysWellFormed(nodes, nodes - {p});
        nodes := nodes - {p};
      }
    }

    /** The content of `p`, new or old, becomes `bytes`; an existing file keeps its mode. */
    method Store(p: Path, bytes: seq<Byte>)
      requires Valid()
      requires CanWrite(nodes, p)
      modifies this
      ensures Valid()
      ensures nodes == old(nodes)[p := Stored(old(nodes), p, bytes)]
    {
      StaysWellFormed(nodes, nodes[p := Stored(nodes, p, bytes)]);
      nodes := nodes[p := Stored(nodes, p, bytes)];
    }

    /** chmod(p, mode); -1 when it fails. */
    method Chmod(p: Path, mode: nat, fault: bool) returns (r: int)
      requires Valid()
      modifies this
      ensures Valid()
      ensures r == if fault || p !in old(nodes) then -1 else 0
      ensures nodes == if r < 0 then old(nodes) else old(nodes)[p := old(nodes)[p].(mode := mode)]
    {
      if fault || p !in nodes {
        return -1;
      }
      StaysWellFormed(nodes, nodes[p := nodes[p].(mode := mode)]);
      nodes := nodes[p := nodes[p].(mode := mode)];
      r := 0;
    }
  }

  predicate CanWrite(nodes: Nodes, p: Path) {
    if p in nodes then nodes[p].File? else HasHome(nodes, p)
  }

  function Stored(nodes: Nodes, p: Path, bytes: seq<Byte>): Node {
    File(if p in nodes then nodes[p].mode else NEW_FILE_MODE, bytes)
  }
}

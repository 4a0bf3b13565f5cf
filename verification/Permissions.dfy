/** The chmod walks around the timed transfers: nftw with FTW_DEPTH, stopped by the first
    visitor that fails. */
module Permissions {
  import opened FileSystems
  import opened PostOrders
  import opened TransferWalk

  const LOCKED_MODE: nat := Octal(4, 4, 0)
  const UNLOCKED_MODE: nat := Octal(6, 6, 0)

  /** The tree with the mode of exactly the nodes in `paths` replaced. */
  function WithMode(nodes: Nodes, paths: set<Path>, mode: nat): Nodes {
    map q | q in nodes :: if q in paths then nodes[q].(mode := mode) else nodes[q]
  }

  lemma WithModeTwice(nodes: Nodes, a: set<Path>, b: set<Path>, mode: nat)
    ensures WithMode(WithMode(nodes, a, mode), b, mode) == WithMode(nodes, a + b, mode)
  {
  }

  /** A walk in the order `order` that gets as far as the first node whose visit fails, the
      one at `n`; when `n` is the number of all the nodes, none fails. */
  ghost predicate StopsAt(nodes: Nodes, root: Path, fault: Path -> bool, order: seq<Path>, n: nat) {
    && PostOrder(nodes, root, order)
    && n <= |order|
    && (forall i :: 0 <= i < n ==> !fault(order[i]))
    && (n < |order| ==> fault(order[n]))
  }

  lemma DotsBelow(nodes: Nodes, root: Path, done: set<string>, n: string)
    requires WellFormed(nodes) && Dots(n)
    ensures Below(nodes, root, done + {n}) == Below(nodes, root, done)
  {
    forall q | q in nodes && root < q ensures !Dots(q[|root|]) {
      EntryIsThere(nodes, root, q);
    }
  }

  /** What a walk of the whole tree of the entry `n` adds to the walk so far. */
  lemma EntryWalked(before: Nodes, now: Nodes, root: Path, done: set<string>, n: string, mode: nat,
      visited: seq<Path>, tree: seq<Path>)
    requires now == WithMode(before, Elements(visited), mode) && n !in done
    requires Ordered(before, visited) && Elements(visited) == Below(before, root, done)
    requires PostOrder(now, root + [n], tree)
    ensures PostOrder(before, root + [n], tree)
    ensures Ordered(before, visited + tree) && Elements(visited + tree) == Below(before, root, done + {n})
  {
    SameOrders(now, before, root + [n], tree);
    BelowOne(before, root, done, n);
    OrderedConcat(before, visited, tree);
  }

  lemma ModesAddUp(before: Nodes, visited: seq<Path>, more: seq<Path>, mode: nat)
    ensures WithMode(WithMode(before, Elements(visited), mode), Elements(more), mode)
         == WithMode(before, Elements(visited + more), mode)
  {
    WithModeTwice(before, Elements(visited), Elements(more), mode);
    assert Elements(visited + more) == Elements(visited) + Elements(more);
  }

  /** A walk that stops in the tree of the entry `n` stops there in a post-order of the whole. */
  lemma StopsBelow(before: Nodes, root: Path, fault: Path -> bool, done: set<string>, n: string,
      visited: seq<Path>, tree: seq<Path>, k: nat) returns (order: seq<Path>)
    requires WellFormed(before) && root in before && n !in done
    requires Ordered(before, visited) && Elements(visited) == Below(before, root, done)
    requires forall p | p in visited :: !fault(p)
    requires StopsAt(before, root + [n], fault, tree, k) && k < |tree|
    ensures StopsAt(before, root, fault, order, |visited| + k) && |visited| + k < |order|
    ensures order[..|visited| + k] == visited + tree[..k]
  {
    order := Completed(before, root, done, n, visited, tree);
    assert order[..|visited| + |tree|] == visited + tree;
    assert order[..|visited| + k] == (visited + tree)[..|visited| + k] == visited + tree[..k];
    assert order[|visited| + k] == tree[k];
    forall i | 0 <= i < |visited| + k ensures !fault(order[i]) {
      assert order[i] == (visited + tree[..k])[i];
      assert i < |visited| ==> order[i] in visited;
    }
  }

  /** The visit of the root, with everything below it done, is the last one of a post-order. */
  lemma RootIsLast(before: Nodes, root: Path, fault: Path -> bool, done: set<string>, visited: seq<Path>)
    requires WellFormed(before) && root in before
    requires IsDir(before, root) ==> Names(before, root) <= done
    requires Ordered(before, visited) && Elements(visited) == Below(before, root, done)
    requires forall p | p in visited :: !fault(p)
    ensures StopsAt(before, root, fault, visited + [root], if fault(root) then |visited| else |visited| + 1)
  {
    BelowAll(before, root, done);
    assert root !in Elements(visited);
    OrderedSnoc(before, visited, root);
    forall i | 0 <= i < |visited| ensures !fault((visited + [root])[i]) {
      assert (visited + [root])[i] in visited;
    }
  }

  /** nftw(root, visitor, 20, FTW_DEPTH | FTW_PHYS), where the visitor is chmod to `mode`.
      `visited` lists the nodes it changed: exactly those before the first one in a post-order
      of the tree whose chmod fails. */
  method ChmodWalk(fs: FileSystem, root: Path, mode: nat, fault: Path -> bool)
    returns (r: int, visited: seq<Path>, ghost order: seq<Path>)
    requires fs.Valid()
    modifies fs
    ensures fs.Valid()
    ensures fs.nodes == WithMode(old(fs.nodes), Elements(visited), mode)
    ensures root in old(fs.nodes) ==> StopsAt(old(fs.nodes), root, fault, order, |visited|)
    ensures root in old(fs.nodes) ==> visited == order[..|visited|] && r == if |visited| < |order| then -1 else 0
    ensures root !in old(fs.nodes) ==> r == -1 && visited == []
    decreases |Subtree(fs.nodes, root)|, 1
  {
    ghost var before := fs.nodes;
    r, visited, order := 0, [], [];
    if root !in fs.nodes {
      return -1, [], [];
    }
    ghost var done := {};
    if IsDir(fs.nodes, root) {
      r, visited, order, done := ChmodEntries(fs, root, mode, fault);
      if r != 0 {
        return;
      }
    }
    RootIsLast(before, root, fault, done, visited);
    ModesAddUp(before, visited, [root], mode);
    order := visited + [root];
    r := fs.Chmod(root, mode, fault(root));
    if r == 0 {
      assert Elements([root]) == {root};
      visited := visited + [root];
    }
  }

  /** The part of the walk over a directory that comes before the directory itself. */
  method ChmodEntries(fs: FileSystem, root: Path, mode: nat, fault: Path -> bool)
    returns (r: int, visited: seq<Path>, ghost order: seq<Path>, ghost done: set<string>)
    requires fs.Valid() && IsDir(fs.nodes, root)
    modifies fs
    ensures fs.Valid() && fs.nodes == WithMode(old(fs.nodes), Elements(visited), mode)
    ensures r == 0 ==> Names(old(fs.nodes), root) <= done && (forall p | p in visited :: !fault(p))
    ensures r == 0 ==> Ordered(old(fs.nodes), visited) && Elements(visited) == Below(old(fs.nodes), root, done)
    ensures r != 0 ==> r == -1 && StopsAt(old(fs.nodes), root, fault, order, |visited|)
    ensures r != 0 ==> |visited| < |order| && visited == order[..|visited|]
    decreases |Subtree(fs.nodes, root)|, 0
  {
    ghost var before := fs.nodes;
    r, visited, order, done := 0, [], [], {};
    var entries := fs.ReadDir(root);
    for i := 0 to |entries|
      invariant fs.Valid() && fs.nodes == WithMode(before, Elements(visited), mode)
      invariant forall n :: n in done <==> n in entries[..i]
      invariant Ordered(before, visited) && Elements(visited) == Below(before, root, done)
      invariant forall p | p in visited :: !fault(p)
    {
      var n := entries[i];
      if Dots(n) {
        DotsBelow(before, root, done, n);
      } else {
        SmallerSubtree(before, fs.nodes, root, n);
        ghost var now := fs.nodes;
        var rest;
        ghost var tree;
        r, rest, tree := ChmodWalk(fs, root + [n], mode, fault);
        ModesAddUp(before, visited, rest, mode);
        EntryWalked(before, now, root, done, n, mode, visited, tree);
        if r != 0 {
          order := StopsBelow(before, root, fault, done, n, visited, tree, |rest|);
          visited := visited + rest;
          return;
        }
        assert rest == tree;
        FaultFree(visited, tree, fault);
        visited := visited + rest;
      }
      done := done + {n};
    }
    r := 0;
    AllListed(before, root, entries, done);
  }

  lemma AllListed(nodes: Nodes, root: Path, entries: seq<string>, done: set<string>)
    requires forall n :: n in entries <==> Dots(n) || root + [n] in nodes
    requires forall n :: n in done <==> n in entries[..|entries|]
    ensures Names(nodes, root) <= done
  {
    assert entries[..|entries|] == entries;
    forall n | n in Names(nodes, root) ensures n in done {
      NamesAre(nodes, root, n);
    }
  }

  lemma FaultFree(a: seq<Path>, b: seq<Path>, fault: Path -> bool)
    requires (forall p | p in a :: !fault(p)) && forall i :: 0 <= i < |b| ==> !fault(b[i])
    ensures forall p | p in a + b :: !fault(p)
  {
  }
}

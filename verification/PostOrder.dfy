/** The orders in which a depth-first walk can visit a tree, children before parents and
    siblings in any order. */
module PostOrders {
  import opened FileSystems
  import opened TransferWalk

  function Elements(order: seq<Path>): set<Path> {
    set p | p in order
  }

  /** The stretch from `start` to `k` is the whole tree under its last node, and nothing else. */
  ghost predicate Block(nodes: Nodes, order: seq<Path>, start: nat, k: nat) {
    start <= k < |order| && Elements(order[start..k + 1]) == Subtree(nodes, order[k])
  }

  ghost predicate HasBlock(nodes: Nodes, order: seq<Path>, k: nat) {
    exists start: nat :: Block(nodes, order, start, k)
  }

  /** Each node comes once, and directly behind all of its own tree. */
  ghost predicate Ordered(nodes: Nodes, order: seq<Path>) {
    && (forall i, j :: 0 <= i < j < |order| ==> order[i] != order[j])
    && (forall k :: 0 <= k < |order| ==> HasBlock(nodes, order, k))
  }

  /** A post-order of the tree under `root`. */
  ghost predicate PostOrder(nodes: Nodes, root: Path, order: seq<Path>) {
    Ordered(nodes, order) && Elements(order) == Subtree(nodes, root)
  }

  // ---- what a prefix of a post-order looks like

  /** Every node comes after everything below it. */
  lemma ChildrenFirst(nodes: Nodes, root: Path, order: seq<Path>, k: nat, q: Path)
    requires PostOrder(nodes, root, order) && k < |order| && q in nodes && order[k] < q
    ensures q in order[..k]
  {
    assert HasBlock(nodes, order, k);
    var start: nat :| Block(nodes, order, start, k);
    assert q in Elements(order[start..k + 1]);
    var i :| start <= i < k + 1 && order[i] == q;
    assert order[..k][i] == q;
  }

  /** When a walk has got to the node at `n`, every tree that does not hold that node has been
      visited as a whole or not at all, and of the nodes above it none has been visited. */
  lemma BranchesAreWhole(nodes: Nodes, root: Path, order: seq<Path>, n: nat, q: Path)
    requires PostOrder(nodes, root, order) && n < |order| && q in Subtree(nodes, root)
    ensures q <= order[n] ==> q !in order[..n]
    ensures !(q <= order[n]) ==>
      Subtree(nodes, q) <= Elements(order[..n]) || Subtree(nodes, q) !! Elements(order[..n])
  {
    assert q in Elements(order);
    var k :| 0 <= k < |order| && order[k] == q;
    assert HasBlock(nodes, order, k);
    var start: nat :| Block(nodes, order, start, k);
    if q <= order[n] {
      assert order[n] in Elements(order);
      assert order[n] in Elements(order[start..k + 1]);
      var i :| start <= i < k + 1 && order[i] == order[n];
    } else {
      InBlock(nodes, order, start, k);
      if k < n {
        forall p | p in Elements(order[start..k + 1]) ensures p in Elements(order[..n]) {
          var i :| start <= i < k + 1 && order[i] == p;
          assert order[..n][i] == p;
        }
      } else {
        forall p | p in Elements(order[start..k + 1]) ensures p !in Elements(order[..n]) {
          var i :| start <= i < k + 1 && order[i] == p;
        }
      }
    }
  }

  lemma InBlock(nodes: Nodes, order: seq<Path>, start: nat, k: nat)
    requires Block(nodes, order, start, k)
    ensures forall n :: start <= n <= k ==> order[k] <= order[n]
  {
    forall n | start <= n <= k ensures order[k] <= order[n] {
      assert order[start..k + 1][n - start] == order[n];
      assert order[n] in Elements(order[start..k + 1]);
    }
  }

  // ---- putting post-orders together

  lemma SameKeys(a: Nodes, b: Nodes)
    requires a.Keys == b.Keys
    ensures forall p :: Subtree(a, p) == Subtree(b, p)
  {
  }

  lemma SameOrders(a: Nodes, b: Nodes, root: Path, order: seq<Path>)
    requires a.Keys == b.Keys && PostOrder(a, root, order)
    ensures PostOrder(b, root, order)
  {
    SameKeys(a, b);
    forall k | 0 <= k < |order| ensures HasBlock(b, order, k) {
      assert HasBlock(a, order, k);
      var start: nat :| Block(a, order, start, k);
      assert Block(b, order, start, k);
    }
  }

  lemma OrderedConcat(nodes: Nodes, a: seq<Path>, b: seq<Path>)
    requires Ordered(nodes, a) && Ordered(nodes, b) && Elements(a) !! Elements(b)
    ensures Ordered(nodes, a + b) && Elements(a + b) == Elements(a) + Elements(b)
  {
    var ab := a + b;
    forall i, j | 0 <= i < j < |ab| ensures ab[i] != ab[j] {
      if i < |a| <= j {
        assert ab[i] in Elements(a) && ab[j] in Elements(b);
      }
    }
    forall k | 0 <= k < |ab| ensures HasBlock(nodes, ab, k) {
      if k < |a| {
        assert HasBlock(nodes, a, k);
        var start: nat :| Block(nodes, a, start, k);
        assert ab[start..k + 1] == a[start..k + 1];
        assert Block(nodes, ab, start, k);
      } else {
        assert HasBlock(nodes, b, k - |a|);
        var start: nat :| Block(nodes, b, start, k - |a|);
        assert ab[|a| + start..k + 1] == b[start..k - |a| + 1];
        assert Block(nodes, ab, |a| + start, k);
      }
    }
  }

  /** A node behind everything below it ends a post-order of its own tree. */
  lemma OrderedSnoc(nodes: Nodes, a: seq<Path>, p: Path)
    requires Ordered(nodes, a) && p !in a && Elements(a) + {p} == Subtree(nodes, p)
    ensures PostOrder(nodes, p, a + [p])
  {
    var all := a + [p];
    assert Elements(all) == Elements(a) + {p};
    forall i, j | 0 <= i < j < |all| ensures all[i] != all[j] {
      assert all[i] in a;
    }
    forall k | 0 <= k < |all| ensures HasBlock(nodes, all, k) {
      if k < |a| {
        assert HasBlock(nodes, a, k);
        var start: nat :| Block(nodes, a, start, k);
        assert all[start..k + 1] == a[start..k + 1];
        assert Block(nodes, all, start, k);
      } else {
        assert all[0..k + 1] == all;
        assert Block(nodes, all, 0, k);
      }
    }
  }

  /** The nodes below `root` under the names in `done`. */
  function Below(nodes: Nodes, root: Path, done: set<string>): set<Path> {
    set q | q in nodes && root < q && q[|root|] in done
  }

  lemma BelowOne(nodes: Nodes, root: Path, done: set<string>, n: string)
    requires n !in done
    ensures Below(nodes, root, done + {n}) == Below(nodes, root, done) + Subtree(nodes, root + [n])
    ensures Below(nodes, root, done) !! Subtree(nodes, root + [n])
  {
    forall q ensures root < q && q[|root|] == n <==> root + [n] <= q {
    }
  }

  /** The root with what is below its entries is its tree, whatever other names are listed. */
  lemma BelowAll(nodes: Nodes, root: Path, done: set<string>)
    requires WellFormed(nodes) && root in nodes
    requires IsDir(nodes, root) ==> Names(nodes, root) <= done
    ensures Below(nodes, root, done) + {root} == Subtree(nodes, root)
  {
    forall q | q in nodes && root < q ensures q in Below(nodes, root, done) {
      EntryIsThere(nodes, root, q);
      NamesAre(nodes, root, q[|root|]);
    }
    assert forall q | q in nodes :: root <= q <==> root < q || root == q;
  }

  /** The entry of `root` that leads to `q`. */
  lemma EntryIsThere(nodes: Nodes, root: Path, q: Path)
    requires WellFormed(nodes) && q in nodes && root < q
    ensures IsDir(nodes, root) && root + [q[|root|]] in nodes && !Dots(q[|root|])
  {
    PrefixIsDir(nodes, q, |root|);
    assert q[..|root|] == root;
    assert q[..|root| + 1] == root + [q[|root|]];
    if |root| + 1 < |q| {
      PrefixIsDir(nodes, q, |root| + 1);
    } else {
      assert q[..|root| + 1] == q;
    }
  }

  /** There is a post-order of what is below any entries, and of any tree. */
  lemma AnyForest(nodes: Nodes, root: Path, todo: set<string>) returns (order: seq<Path>)
    requires WellFormed(nodes) && root in nodes
    ensures Ordered(nodes, order) && Elements(order) == Below(nodes, root, todo)
    decreases |Subtree(nodes, root)|, 0, |todo|
  {
    order := [];
    if todo != {} {
      var n :| n in todo;
      var rest := todo - {n};
      order := AnyForest(nodes, root, rest);
      assert rest + {n} == todo;
      BelowOne(nodes, root, rest, n);
      if root + [n] in nodes {
        SmallerSubtree(nodes, nodes, root, n);
        var tree := AnyPostOrder(nodes, root + [n]);
        OrderedConcat(nodes, order, tree);
        order := order + tree;
      } else {
        NoTree(nodes, root + [n]);
      }
    }
  }

  lemma RootIsThere(nodes: Nodes, p: Path, q: Path)
    requires WellFormed(nodes) && q in nodes && p <= q
    ensures p in nodes
  {
    assert q[..|p|] == p && q[..|q|] == q;
    if |p| < |q| {
      PrefixIsDir(nodes, q, |p|);
    }
  }

  lemma NoTree(nodes: Nodes, p: Path)
    requires WellFormed(nodes) && p !in nodes
    ensures Subtree(nodes, p) == {}
  {
    if Subtree(nodes, p) != {} {
      var q :| q in Subtree(nodes, p);
      RootIsThere(nodes, p, q);
    }
  }

  lemma AnyPostOrder(nodes: Nodes, root: Path) returns (order: seq<Path>)
    requires WellFormed(nodes) && root in nodes
    ensures PostOrder(nodes, root, order)
    decreases |Subtree(nodes, root)|, 1
  {
    var below := AnyForest(nodes, root, Names(nodes, root));
    BelowAll(nodes, root, Names(nodes, root));
    assert root !in Elements(below);
    OrderedSnoc(nodes, below, root);
    order := below + [root];
  }

  /** A walk that is in the middle of the tree of the entry `n` is on its way through a
      post-order of the whole. */
  lemma Completed(nodes: Nodes, root: Path, done: set<string>, n: string, visited: seq<Path>, tree: seq<Path>)
    returns (order: seq<Path>)
    requires WellFormed(nodes) && root in nodes && n !in done
    requires Ordered(nodes, visited) && Elements(visited) == Below(nodes, root, done)
    requires PostOrder(nodes, root + [n], tree)
    ensures PostOrder(nodes, root, order) && visited + tree <= order
  {
    BelowOne(nodes, root, done, n);
    OrderedConcat(nodes, visited, tree);
    var first, seen := visited + tree, done + {n};
    var todo := Names(nodes, root) - seen;
    var later := AnyForest(nodes, root, todo);
    OrderedConcat(nodes, first, later);
    BelowAll(nodes, root, seen + todo);
    assert Below(nodes, root, seen + todo) == Below(nodes, root, seen) + Below(nodes, root, todo);
    assert root !in Elements(first + later);
    OrderedSnoc(nodes, first + later, root);
    order := first + later + [root];
  }
}

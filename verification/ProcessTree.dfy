/** scripts/idle_coexistence.py: a process and all its descendants, walked by a child index
    (`_descendants`) and by scanning every process (`_ps_stat_proc`). */
module ProcessTree {
  import opened Wrappers

  /** A child and its parent, as one snapshot lists them. */
  type Edge = (nat, nat)

  /** A way down from parent to child. */
  predicate IsPath(edges: set<Edge>, path: seq<nat>)
  {
    path != [] && forall i :: 0 <= i < |path| - 1 ==> (path[i + 1], path[i]) in edges
  }

  /** The process is the root, or its child, or a child's child, and so on. */
  ghost predicate Reaches(edges: set<Edge>, root: nat, x: nat)
  {
    exists path :: IsPath(edges, path) && path[0] == root && path[|path| - 1] == x
  }

  lemma ReachesSelf(edges: set<Edge>, root: nat)
    ensures Reaches(edges, root, root)
  {
    assert IsPath(edges, [root]);
  }

  lemma ReachesChild(edges: set<Edge>, root: nat, p: nat, kid: nat)
    requires Reaches(edges, root, p) && (kid, p) in edges
    ensures Reaches(edges, root, kid)
  {
    var path :| IsPath(edges, path) && path[0] == root && path[|path| - 1] == p;
    assert IsPath(edges, path + [kid]);
  }

  /** A set that holds the root and every child of its members holds all that is reached. */
  lemma {:induction false} ClosedHoldsPath(edges: set<Edge>, tree: set<nat>, path: seq<nat>)
    requires IsPath(edges, path) && path[0] in tree
    requires forall e :: e in edges && e.1 in tree ==> e.0 in tree
    ensures path[|path| - 1] in tree
  {
    if |path| > 1 {
      assert (path[1], path[0]) in edges;
      var rest := path[1..];
      forall i | 0 <= i < |rest| - 1 ensures (rest[i + 1], rest[i]) in edges {
        assert (path[i + 1 + 1], path[i + 1]) in edges;
      }
      ClosedHoldsPath(edges, tree, rest);
    }
  }

  lemma ClosedIsTree(edges: set<Edge>, tree: set<nat>, root: nat)
    requires root in tree && forall x :: x in tree ==> Reaches(edges, root, x)
    requires forall e :: e in edges && e.1 in tree ==> e.0 in tree
    ensures forall x :: x in tree <==> Reaches(edges, root, x)
  {
    forall x | Reaches(edges, root, x) ensures x in tree {
      var path :| IsPath(edges, path) && path[0] == root && path[|path| - 1] == x;
      ClosedHoldsPath(edges, tree, path);
    }
  }

  // ----- what both walks keep

  function Children(edges: set<Edge>): set<nat> { set e | e in edges :: e.0 }

  /** Between two steps: what waits is in the tree, what is in the tree is reached, and a member that
      does not wait has all its children in the tree. */
  ghost predicate Walked(edges: set<Edge>, root: nat, tree: set<nat>, frontier: seq<nat>)
  {
    && root in tree && tree <= Children(edges) + {root}
    && (forall x :: x in frontier ==> x in tree)
    && (forall x :: x in tree ==> Reaches(edges, root, x))
    && forall e :: e in edges && e.1 in tree && e.1 !in frontier ==> e.0 in tree
  }

  /** While the children of `parent` are looked at. */
  ghost predicate Walking(edges: set<Edge>, root: nat, tree: set<nat>, frontier: seq<nat>, parent: nat, seen: set<nat>)
  {
    && root in tree && parent in tree && tree <= Children(edges) + {root}
    && (forall x :: x in frontier ==> x in tree)
    && (forall x :: x in tree ==> Reaches(edges, root, x))
    && seen <= tree
    && forall e :: e in edges && e.1 in tree && e.1 !in frontier && e.1 != parent ==> e.0 in tree
  }

  lemma Pop(edges: set<Edge>, root: nat, tree: set<nat>, frontier: seq<nat>)
    requires Walked(edges, root, tree, frontier) && frontier != []
    ensures Walking(edges, root, tree, frontier[..|frontier| - 1], frontier[|frontier| - 1], {})
  {
    var init, parent := frontier[..|frontier| - 1], frontier[|frontier| - 1];
    assert frontier == init + [parent];
  }

  lemma Join(edges: set<Edge>, root: nat, tree: set<nat>, frontier: seq<nat>, parent: nat, seen: set<nat>, kid: nat)
    requires Walking(edges, root, tree, frontier, parent, seen) && (kid, parent) in edges
    ensures Walking(edges, root, tree + {kid}, if kid in tree then frontier else frontier + [kid], parent, seen + {kid})
  {
    ReachesChild(edges, root, parent, kid);
    assert kid in Children(edges) by { assert (kid, parent).0 == kid; }
  }

  lemma Popped(edges: set<Edge>, root: nat, tree: set<nat>, frontier: seq<nat>, parent: nat, seen: set<nat>)
    requires Walking(edges, root, tree, frontier, parent, seen)
    requires forall e :: e in edges && e.1 == parent ==> e.0 in seen
    ensures Walked(edges, root, tree, frontier)
  {
  }

  lemma Start(edges: set<Edge>, root: nat)
    ensures Walked(edges, root, {root}, [root])
  {
    ReachesSelf(edges, root);
  }

  lemma Finish(edges: set<Edge>, root: nat, tree: set<nat>)
    requires Walked(edges, root, tree, [])
    ensures forall x :: x in tree <==> Reaches(edges, root, x)
  {
    ClosedIsTree(edges, tree, root);
  }

  lemma {:induction false} Fewer(u: set<nat>, x: set<nat>, y: set<nat>)
    requires x <= y <= u
    ensures |u - y| <= |u - x| && (x != y ==> |u - y| < |u - x|)
  {
    var d := y - x;
    assert u - x == (u - y) + d && (u - y) !! d;
    assert |u - x| == |u - y| + |d|;
  }

  // ----- the walk over a child index

  function EdgesOf(pairs: seq<Edge>): set<Edge> { set e | e in pairs }

  method IndexChildren(pairs: seq<Edge>) returns (children: map<nat, seq<nat>>)
    ensures forall e: Edge :: e in EdgesOf(pairs) <==> e.1 in children && e.0 in children[e.1]
  {
    children := map[];
    for i := 0 to |pairs|
      invariant forall e: Edge :: e in pairs[..i] <==> e.1 in children && e.0 in children[e.1]
    {
      assert pairs[..i + 1] == pairs[..i] + [pairs[i]];
      var (pid, ppid) := pairs[i];
      children := children[ppid := (if ppid in children then children[ppid] else []) + [pid]];
    }
    assert pairs[..|pairs|] == pairs;
  }

  method Descendants(pairs: seq<Edge>, root: nat) returns (tree: set<nat>)
    ensures forall x :: x in tree <==> Reaches(EdgesOf(pairs), root, x)
  {
    hide Walked, Walking, Reaches, Children;
    ghost var edges := EdgesOf(pairs);
    ghost var all := Children(edges) + {root};
    var children := IndexChildren(pairs);
    var frontier := [root];
    tree := {root};
    Start(edges, root);
    while frontier != []
      invariant Walked(edges, root, tree, frontier) && tree <= all
      decreases |all - tree|, |frontier|
    {
      Pop(edges, root, tree, frontier);
      ghost var before := tree;
      var parent := frontier[|frontier| - 1];
      frontier := frontier[..|frontier| - 1];
      var kids := if parent in children then children[parent] else [];
      ghost var seen, popped := {}, frontier;
      for i := 0 to |kids|
        invariant Walking(edges, root, tree, frontier, parent, seen)
        invariant before <= tree <= all && (tree == before ==> frontier == popped)
        invariant forall k :: 0 <= k < i ==> kids[k] in seen
      {
        var kid := kids[i];
        assert (kid, parent) in edges;
        Join(edges, root, tree, frontier, parent, seen, kid);
        InAll(edges, kid, parent);
        if kid !in tree {
          tree := tree + {kid};
          frontier := frontier + [kid];
        } else {
          assert tree + {kid} == tree;
        }
        seen := seen + {kid};
      }
      Popped(edges, root, tree, frontier, parent, seen);
      Fewer(all, before, tree);
    }
    Finish(edges, root, tree);
  }

  lemma InAll(edges: set<Edge>, kid: nat, parent: nat)
    requires (kid, parent) in edges
    ensures kid in Children(edges)
  {
    assert (kid, parent).0 == kid;
  }

  // ----- the walk over all processes

  function EdgesIn(ppidOf: map<nat, nat>): set<Edge> { set k | k in ppidOf :: (k, ppidOf[k]) }

  /** The tree of `/proc`, `pids` being the order its processes are listed in; `None` when the root is
      not there. */
  method ProcTree(ppidOf: map<nat, nat>, pids: seq<nat>, root: nat) returns (r: Option<set<nat>>)
    requires forall k :: k in pids <==> k in ppidOf
    ensures r.Some? <==> root in ppidOf
    ensures r.Some? ==> forall x :: x in r.value <==> Reaches(EdgesIn(ppidOf), root, x)
  {
    if root !in ppidOf { return None; }
    hide Walked, Walking, Reaches, Children;
    ghost var edges := EdgesIn(ppidOf);
    ghost var all := Children(edges) + {root};
    var tree, frontier := {root}, [root];
    Start(edges, root);
    while frontier != []
      invariant Walked(edges, root, tree, frontier) && tree <= all
      decreases |all - tree|, |frontier|
    {
      Pop(edges, root, tree, frontier);
      ghost var before := tree;
      var parent := frontier[|frontier| - 1];
      frontier := frontier[..|frontier| - 1];
      ghost var seen, popped := {}, frontier;
      for i := 0 to |pids|
        invariant Walking(edges, root, tree, frontier, parent, seen)
        invariant before <= tree <= all && (tree == before ==> frontier == popped)
        invariant forall k :: 0 <= k < i && ppidOf[pids[k]] == parent ==> pids[k] in seen
      {
        var kid := pids[i];
        if ppidOf[kid] == parent {
          assert (kid, parent) in edges;
          Join(edges, root, tree, frontier, parent, seen, kid);
          InAll(edges, kid, parent);
          if kid !in tree {
            tree := tree + {kid};
            frontier := frontier + [kid];
          } else {
            assert tree + {kid} == tree;
          }
          seen := seen + {kid};
        }
      }
      forall e | e in edges && e.1 == parent ensures e.0 in seen {
        assert e.0 in pids;
        var k :| 0 <= k < |pids| && pids[k] == e.0;
      }
      Popped(edges, root, tree, frontier, parent, seen);
      Fewer(all, before, tree);
    }
    Finish(edges, root, tree);
    r := Some(tree);
  }

  /** Two walks over one snapshot, whatever order they list it in, find the same tree. */
  lemma WalksAgree(pairs: seq<Edge>, ppidOf: map<nat, nat>, root: nat, x: set<nat>, y: set<nat>)
    requires forall k, p :: (k, p) in pairs <==> k in ppidOf && ppidOf[k] == p
    requires forall n :: n in x <==> Reaches(EdgesOf(pairs), root, n)
    requires forall n :: n in y <==> Reaches(EdgesIn(ppidOf), root, n)
    ensures x == y
  {
    forall e: Edge ensures e in EdgesOf(pairs) <==> e in EdgesIn(ppidOf) {
      assert e == (e.0, e.1);
    }
    assert EdgesOf(pairs) == EdgesIn(ppidOf);
    hide Reaches;
  }
}

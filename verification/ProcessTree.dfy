/**
 The bounded breadth-first search for the agy process beneath a tmux pane
 (omnigent/antigravity_native_rpc.py). The process table is an arbitrary child
 function, cyclic ones included.
 */
module ProcessTree {
  import opened Common

  type Pid = int
  type Children = Pid -> seq<Pid>

  const MAX_PANE_SUBTREE_DEPTH: nat := 32

  // -------------------------------------------------------------- distance

  /** Some walk of exactly `d` parent-to-child steps leads from `root` to `q`. */
  ghost predicate Reaches(children: Children, root: Pid, d: nat, q: Pid) {
    if d == 0 then q == root else exists p :: Reaches(children, root, d - 1, p) && q in children(p)
  }

  ghost predicate Walk(children: Children, path: seq<Pid>) {
    forall i :: 0 <= i < |path| - 1 ==> path[i + 1] in children(path[i])
  }

  /** `Reaches` is what it says: a path in the process table. */
  lemma {:induction false} ReachesIffWalk(children: Children, root: Pid, d: nat, q: Pid)
    ensures Reaches(children, root, d, q) <==>
            exists path :: Walk(children, path) && |path| == d + 1 && path[0] == root && path[d] == q
  {
    if Reaches(children, root, d, q) {
      var path := WalkTo(children, root, d, q);
    }
    forall path | Walk(children, path) && |path| == d + 1 && path[0] == root && path[d] == q
      ensures Reaches(children, root, d, q)
    {
      WalkReaches(children, path, d);
    }
  }

  lemma {:induction false} WalkTo(children: Children, root: Pid, d: nat, q: Pid) returns (path: seq<Pid>)
    requires Reaches(children, root, d, q)
    ensures Walk(children, path) && |path| == d + 1 && path[0] == root && path[d] == q
  {
    if d == 0 {
      path := [root];
    } else {
      var p :| Reaches(children, root, d - 1, p) && q in children(p);
      path := WalkTo(children, root, d - 1, p);
      path := path + [q];
    }
  }

  lemma {:induction false} WalkReaches(children: Children, path: seq<Pid>, d: nat)
    requires Walk(children, path) && d < |path|
    ensures Reaches(children, path[0], d, path[d])
  {
    if d > 0 {
      WalkReaches(children, path, d - 1);
      assert path[d - 1 + 1] in children(path[d - 1]);
    }
  }

  // ---------------------------------------------------------------- the walk

  /** The walk state before level `d`: everything within `d` is visited, and no agy pid was. */
  ghost predicate Explored(children: Children, root: Pid, agy: set<Pid>, d: nat, frontier: seq<Pid>,
                           visited: set<Pid>) {
    && visited !! agy
    && (forall q :: q in frontier ==> Reaches(children, root, d, q))
    && Closed(children, frontier, visited)
    && Covers(children, root, d, visited)
  }

  /** Only the frontier can have unvisited children. */
  ghost predicate Closed(children: Children, frontier: seq<Pid>, visited: set<Pid>) {
    forall v, c :: v in visited && v !in frontier && c in children(v) ==> c in visited
  }

  ghost predicate Covers(children: Children, root: Pid, d: nat, visited: set<Pid>) {
    forall e: nat, q :: e <= d && Reaches(children, root, e, q) ==> q in visited
  }

  /** One level: every child of the frontier is visited, unless an agy pid turns up. */
  method ScanLevel(children: Children, agy: set<Pid>, frontier: seq<Pid>, visited: set<Pid>)
    returns (found: Option<Pid>, next: seq<Pid>, after: set<Pid>)
    requires visited !! agy
    ensures found.Some? ==> found.value in agy && exists p :: p in frontier && found.value in children(p)
    ensures found.None? ==>
              && after !! agy && after == visited + (set q | q in next)
              && (forall q :: q in next ==> exists p :: p in frontier && q in children(p))
              && (forall p, c :: p in frontier && c in children(p) ==> c in after)
  {
    found, next, after := None, [], visited;
    for i := 0 to |frontier|
      invariant after !! agy && after == visited + (set q | q in next)
      invariant forall q :: q in next ==> exists p :: p in frontier && q in children(p)
      invariant forall j, c :: 0 <= j < i && c in children(frontier[j]) ==> c in after
    {
      var parent := frontier[i];
      var kids := children(parent);
      for k := 0 to |kids|
        invariant after !! agy && after == visited + (set q | q in next)
        invariant forall q :: q in next ==> exists p :: p in frontier && q in children(p)
        invariant forall j, c :: 0 <= j < i && c in children(frontier[j]) ==> c in after
        invariant forall j :: 0 <= j < k ==> kids[j] in after
      {
        var child := kids[k];
        assert parent in frontier && child in children(parent);
        if child !in after {
          if child in agy {
            return Some(child), next, after;
          }
          after, next := after + {child}, next + [child];
        }
      }
    }
  }

  lemma {:induction false} NextLevel(children: Children, root: Pid, agy: set<Pid>, d: nat, frontier: seq<Pid>,
                                     visited: set<Pid>, next: seq<Pid>, after: set<Pid>)
    requires Explored(children, root, agy, d, frontier, visited)
    requires after !! agy && after == visited + (set q | q in next)
    requires forall q :: q in next ==> exists p :: p in frontier && q in children(p)
    requires forall p, c :: p in frontier && c in children(p) ==> c in after
    ensures Explored(children, root, agy, d + 1, next, after)
  {
    forall e: nat, q | e <= d + 1 && Reaches(children, root, e, q) ensures q in after {
      if e == d + 1 {
        var p :| Reaches(children, root, d, p) && q in children(p);
        assert p in visited;
      }
    }
  }

  /** When the frontier is empty nothing further is reachable at all. */
  lemma {:induction false} Exhausted(children: Children, root: Pid, d: nat, visited: set<Pid>, e: nat, q: Pid)
    requires Closed(children, [], visited) && Covers(children, root, d, visited) && Reaches(children, root, e, q)
    ensures q in visited
  {
    if e > d {
      var p :| Reaches(children, root, e - 1, p) && q in children(p);
      Exhausted(children, root, d, visited, e - 1, p);
    }
  }

  /** `q` is an agy pid, `d` steps below the pane, and no agy pid is nearer. */
  ghost predicate Nearest(children: Children, root: Pid, agy: set<Pid>, d: nat, q: Pid) {
    && q in agy && Reaches(children, root, d, q)
    && forall e: nat, a :: e < d && a in agy ==> !Reaches(children, root, e, a)
  }

  ghost predicate NoneWithin(children: Children, root: Pid, agy: set<Pid>, depth: nat) {
    forall e: nat, a :: e <= depth && a in agy ==> !Reaches(children, root, e, a)
  }

  /**
   The search ends on every table, returns a nearest agy pid, and finds none exactly
   when none lies within the depth limit.
   */
  method AgyPidInPaneSubtree(children: Children, agy: set<Pid>, pane: Pid) returns (r: Option<Pid>)
    ensures r.Some? ==> exists d: nat :: d <= 32 && Nearest(children, pane, agy, d, r.value)
    ensures r.None? <==> NoneWithin(children, pane, agy, 32)
  {
    if agy == {} {
      return None;
    }
    if pane in agy {
      assert Reaches(children, pane, 0, pane);
      assert Nearest(children, pane, agy, 0, pane);
      return Some(pane);
    }
    var visited, frontier := {pane}, [pane];
    for d := 0 to MAX_PANE_SUBTREE_DEPTH
      invariant Explored(children, pane, agy, d, frontier, visited)
    {
      if frontier == [] {
        forall e: nat, a | Reaches(children, pane, e, a) ensures a in visited {
          Exhausted(children, pane, d, visited, e, a);
        }
        return None;
      }
      var found, next, after := ScanLevel(children, agy, frontier, visited);
      if found.Some? {
        FoundIsNearest(children, pane, agy, d, frontier, visited, found.value);
        return found;
      }
      NextLevel(children, pane, agy, d, frontier, visited, next, after);
      frontier, visited := next, after;
    }
    r := None;
  }

  lemma {:induction false} FoundIsNearest(children: Children, root: Pid, agy: set<Pid>, d: nat, frontier: seq<Pid>,
                                          visited: set<Pid>, q: Pid)
    requires Explored(children, root, agy, d, frontier, visited)
    requires q in agy && exists p :: p in frontier && q in children(p)
    ensures Nearest(children, root, agy, d + 1, q)
  {
    var p :| p in frontier && q in children(p);
    assert Reaches(children, root, d, p);
    forall e: nat, a | e < d + 1 && a in agy ensures !Reaches(children, root, e, a) {
    }
  }
}

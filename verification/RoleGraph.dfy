/**
 * Role inheritance as a directed graph: reachability, acyclicity and what rewiring one
 * role does to them. Graphs may be cyclic and may name roles that do not exist.
 */
module RoleGraph {
  import opened Common

  datatype RoleValue = RoleValue(permissions: set<string>, inherits: seq<string>)

  type Graph = map<string, RoleValue>

  predicate Edge(g: Graph, x: string, y: string) {
    x in g && y in g[x].inherits
  }

  ghost predicate Path(g: Graph, p: seq<string>) {
    p != [] && forall i :: 0 <= i < |p| - 1 ==> Edge(g, p[i], p[i + 1])
  }

  ghost predicate PathBetween(g: Graph, p: seq<string>, a: string, b: string) {
    Path(g, p) && p[0] == a && p[|p| - 1] == b
  }

  /** `b` is `a` or one of its ancestors. */
  ghost predicate Reach(g: Graph, a: string, b: string) {
    exists p :: PathBetween(g, p, a, b)
  }

  /** `b` is an ancestor of `a`, over at least one step. */
  ghost predicate Above(g: Graph, a: string, b: string) {
    exists m :: Edge(g, a, m) && Reach(g, m, b)
  }

  ghost predicate Acyclic(g: Graph) {
    forall x :: !Above(g, x, x)
  }

  ghost predicate AnyReaches(g: Graph, from: seq<string>, target: string) {
    exists i :: 0 <= i < |from| && Reach(g, from[i], target)
  }

  // ---- Reachability -----------------------------------------------------------

  lemma PathTail(g: Graph, p: seq<string>)
    requires Path(g, p) && |p| > 1
    ensures Edge(g, p[0], p[1]) && Path(g, p[1..])
  {
    forall i | 0 <= i < |p[1..]| - 1 ensures Edge(g, p[1..][i], p[1..][i + 1]) {
      assert Edge(g, p[i + 1], p[i + 2]);
    }
  }

  lemma ReachSelf(g: Graph, a: string)
    ensures Reach(g, a, a)
  {
    assert PathBetween(g, [a], a, a);
  }

  lemma ReachStep(g: Graph, a: string, m: string, b: string)
    requires Edge(g, a, m) && Reach(g, m, b)
    ensures Reach(g, a, b) && Above(g, a, b)
  {
    var p :| PathBetween(g, p, m, b);
    assert PathBetween(g, [a] + p, a, b);
  }

  lemma {:induction false} ReachAppend(g: Graph, p: seq<string>, a: string, m: string, b: string)
    requires PathBetween(g, p, a, m) && Reach(g, m, b)
    ensures Reach(g, a, b)
    decreases |p|
  {
    if |p| > 1 {
      PathTail(g, p);
      ReachAppend(g, p[1..], p[1], m, b);
      ReachStep(g, a, p[1], b);
    }
  }

  lemma ReachTransitive(g: Graph, a: string, m: string, b: string)
    requires Reach(g, a, m) && Reach(g, m, b)
    ensures Reach(g, a, b)
  {
    var p :| PathBetween(g, p, a, m);
    ReachAppend(g, p, a, m, b);
  }

  lemma ReachSplits(g: Graph, a: string, b: string)
    ensures Reach(g, a, b) <==> a == b || Above(g, a, b)
  {
    ReachSelf(g, a);
    if Above(g, a, b) {
      var m :| Edge(g, a, m) && Reach(g, m, b);
      ReachStep(g, a, m, b);
    }
    if Reach(g, a, b) && a != b {
      var p :| PathBetween(g, p, a, b);
      PathTail(g, p);
      assert PathBetween(g, p[1..], p[1], b);
    }
  }

  ghost predicate Closed(g: Graph, s: set<string>) {
    forall x, y :: x in s && Edge(g, x, y) ==> y in s
  }

  lemma {:induction false} ClosedKeepsPaths(g: Graph, s: set<string>, p: seq<string>)
    requires Closed(g, s) && Path(g, p) && p[0] in s
    ensures p[|p| - 1] in s
  {
    if |p| > 1 {
      PathTail(g, p);
      ClosedKeepsPaths(g, s, p[1..]);
    }
  }

  /** What a closed set contains, it contains with all its ancestors. */
  lemma ClosedContainsReachable(g: Graph, s: set<string>, a: string, b: string)
    requires Closed(g, s) && a in s && Reach(g, a, b)
    ensures b in s
  {
    var p :| PathBetween(g, p, a, b);
    ClosedKeepsPaths(g, s, p);
  }

  // ---- Rewiring one role ------------------------------------------------------

  /** The graphs have the same edges, except possibly those leaving `r`. */
  ghost predicate SameExcept(g: Graph, h: Graph, r: string) {
    forall x, y :: x != r ==> (Edge(g, x, y) <==> Edge(h, x, y))
  }

  /** Whether `r` can be reached does not depend on where `r` itself leads. */
  lemma {:induction false} ReachIgnoresTarget(g: Graph, h: Graph, r: string, p: seq<string>)
    requires SameExcept(g, h, r) && Path(g, p) && p[|p| - 1] == r
    ensures Reach(h, p[0], r)
  {
    if p[0] == r {
      ReachSelf(h, r);
    } else {
      PathTail(g, p);
      ReachIgnoresTarget(g, h, r, p[1..]);
      ReachStep(h, p[0], p[1], r);
    }
  }

  lemma SameReachOfTarget(g: Graph, h: Graph, r: string, a: string)
    requires SameExcept(g, h, r)
    ensures Reach(g, a, r) <==> Reach(h, a, r)
  {
    if Reach(g, a, r) {
      var p :| PathBetween(g, p, a, r);
      ReachIgnoresTarget(g, h, r, p);
    }
    if Reach(h, a, r) {
      var p :| PathBetween(h, p, a, r);
      ReachIgnoresTarget(h, g, r, p);
    }
  }

  /** A path survives the loss of the edges leaving `r`, or it goes through `r`. */
  lemma {:induction false} PathSurvivesOrMeets(g: Graph, h: Graph, r: string, p: seq<string>)
    requires SameExcept(g, h, r) && Path(g, p)
    ensures Path(h, p) || (Reach(g, p[0], r) && Above(g, r, p[|p| - 1]))
  {
    if |p| > 1 {
      var q := p[1..];
      PathTail(g, p);
      if p[0] == r {
        ReachSelf(g, r);
        assert PathBetween(g, q, p[1], p[|p| - 1]);
      } else {
        PathSurvivesOrMeets(g, h, r, q);
        if Path(h, q) {
          assert Path(h, [p[0]] + q) && [p[0]] + q == p;
        } else {
          ReachStep(g, p[0], p[1], r);
        }
      }
    }
  }

  lemma {:induction false} EdgesOnlyGrow(g: Graph, h: Graph, a: string, b: string)
    requires forall x, y :: Edge(g, x, y) ==> Edge(h, x, y)
    requires Reach(g, a, b)
    ensures Reach(h, a, b)
  {
    var p :| PathBetween(g, p, a, b);
    assert PathBetween(h, p, a, b);
  }

  lemma SubgraphOfAcyclic(g: Graph, h: Graph)
    requires forall x, y :: Edge(g, x, y) ==> Edge(h, x, y)
    requires Acyclic(h)
    ensures Acyclic(g)
  {
    forall x ensures !Above(g, x, x) {
      if Above(g, x, x) {
        var m :| Edge(g, x, m) && Reach(g, m, x);
        EdgesOnlyGrow(g, h, m, x);
        ReachStep(h, x, m, x);
      }
    }
  }

  /**
   * Giving role `r` the parents `parents` yields an acyclic graph exactly when the rest of the
   * graph is acyclic and no parent already reaches `r`.
   */
  lemma RewiringExact(before: Graph, bare: Graph, after: Graph, r: string, parents: seq<string>)
    requires SameExcept(before, after, r) && SameExcept(bare, after, r)
    requires forall y :: !Edge(bare, r, y)
    requires forall y :: Edge(after, r, y) <==> y in parents
    ensures Acyclic(after) <==> Acyclic(bare) && !AnyReaches(before, parents, r)
  {
    if AnyReaches(before, parents, r) {
      var i :| 0 <= i < |parents| && Reach(before, parents[i], r);
      SameReachOfTarget(before, after, r, parents[i]);
      assert Edge(after, r, parents[i]);
      ReachStep(after, r, parents[i], r);
    }
    if Acyclic(after) {
      SubgraphOfAcyclic(bare, after);
    } else if Acyclic(bare) {
      var x :| Above(after, x, x);
      CycleGoesThrough(bare, after, r, x);
      var m :| Edge(after, r, m) && Reach(after, m, r);
      SameReachOfTarget(before, after, r, m);
      var i :| 0 <= i < |parents| && parents[i] == m;
      assert Reach(before, parents[i], r);
    }
  }

  lemma CycleGoesThrough(bare: Graph, after: Graph, r: string, x: string)
    requires SameExcept(bare, after, r) && Acyclic(bare) && Above(after, x, x)
    ensures Above(after, r, r)
  {
    var m :| Edge(after, x, m) && Reach(after, m, x);
    var p :| PathBetween(after, p, m, x);
    var q := [x] + p;
    assert Path(after, q);
    PathSurvivesOrMeets(after, bare, r, q);
    if Path(bare, q) {
      PathTail(bare, q);
      assert q[1..] == p && PathBetween(bare, p, m, x);
      ReachStep(bare, x, m, x);
    } else {
      var n :| Edge(after, r, n) && Reach(after, n, x);
      ReachTransitive(after, n, x, r);
    }
  }
}

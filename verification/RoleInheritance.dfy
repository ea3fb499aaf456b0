/** The two-pass hierarchy builder and the ancestor chain of a role. */
module RoleInheritance {
  import opened Common
  import opened RoleGraph
  import M = RoleManager

  datatype Definition = Definition(name: string, permissions: seq<string>, inherits: seq<string>)

  // ---- The two passes on graphs -----------------------------------------------

  function Bare(d: Definition): RoleValue { RoleValue((set p | p in d.permissions), []) }

  /** First pass: every role not yet known, without parents. */
  function Created(g: Graph, defs: seq<Definition>): Graph {
    if defs == [] then g
    else
      var g' := Created(g, defs[..|defs| - 1]);
      var d := defs[|defs| - 1];
      if d.name in g' then g' else g'[d.name := Bare(d)]
  }

  lemma {:induction false} CreatedKnowsAll(g: Graph, defs: seq<Definition>)
    ensures forall n :: n in Created(g, defs) <==> n in g || exists i :: 0 <= i < |defs| && defs[i].name == n
  {
    if defs != [] {
      var rest := defs[..|defs| - 1];
      CreatedKnowsAll(g, rest);
      assert forall i :: 0 <= i < |rest| ==> rest[i] == defs[i];
      forall n ensures n in Created(g, defs) <==> n in g || exists i :: 0 <= i < |defs| && defs[i].name == n {
        if exists i :: 0 <= i < |defs| && defs[i].name == n {
          var i :| 0 <= i < |defs| && defs[i].name == n;
          if i < |rest| { assert rest[i].name == n; }
        }
      }
    }
  }

  /** Second pass over the first `k` definitions: the graph wired so far, and whether nothing was refused. */
  ghost function Wired(g: Graph, defs: seq<Definition>, k: nat): (Graph, bool)
    requires k <= |defs|
  {
    if k == 0 then (g, true)
    else
      var (g', ok) := Wired(g, defs, k - 1);
      var d := defs[k - 1];
      if !ok || d.inherits == [] then (g', ok)
      else if d.name !in g' || AnyReaches(g', d.inherits, d.name) then (g', false)
      else (M.SetParents(g', d.name, d.inherits), true)
  }

  // ---- Building keeps a registry acyclic --------------------------------------

  lemma {:induction false} CreatedKeepsAcyclic(g: Graph, defs: seq<Definition>)
    requires Acyclic(g)
    ensures Acyclic(Created(g, defs))
  {
    if defs != [] {
      var rest, d := defs[..|defs| - 1], defs[|defs| - 1];
      CreatedKeepsAcyclic(g, rest);
      if d.name !in Created(g, rest) {
        M.CreateRoleKeepsAcyclicExactly(Created(g, rest), d.name, Bare(d));
      }
    }
  }

  /** However far a build gets, whatever was declared and whatever existed, it never leaves a cycle behind. */
  lemma {:induction false} BuildKeepsAcyclic(g: Graph, defs: seq<Definition>, k: nat)
    requires Acyclic(g) && k <= |defs|
    ensures Acyclic(Wired(g, defs, k).0)
  {
    if k > 0 {
      BuildKeepsAcyclic(g, defs, k - 1);
      var g', d := Wired(g, defs, k - 1).0, defs[k - 1];
      if d.name in g' { M.SetInheritanceKeepsAcyclic(g', d.name, d.inherits); }
    }
  }

  /** The first `k` definitions wired without any check. */
  function Forced(g: Graph, defs: seq<Definition>, k: nat): Graph
    requires k <= |defs|
  {
    if k == 0 then g
    else
      var g', d := Forced(g, defs, k - 1), defs[k - 1];
      if d.inherits == [] || d.name !in g' then g' else M.SetParents(g', d.name, d.inherits)
  }

  ghost predicate AllKnown(g: Graph, defs: seq<Definition>) {
    forall i :: 0 <= i < |defs| ==> defs[i].name in g
  }

  ghost predicate NeverCyclic(g: Graph, defs: seq<Definition>, k: nat)
    requires k <= |defs|
  {
    forall j :: 0 <= j <= k ==> Acyclic(Forced(g, defs, j))
  }

  lemma {:induction false} WiringExact(g: Graph, defs: seq<Definition>, k: nat)
    requires Acyclic(g) && AllKnown(g, defs) && k <= |defs|
    ensures Wired(g, defs, k).1 <==> NeverCyclic(g, defs, k)
    ensures Wired(g, defs, k).1 ==> Wired(g, defs, k).0 == Forced(g, defs, k)
    ensures forall n :: n in Forced(g, defs, k) <==> n in g
  {
    if k > 0 {
      WiringExact(g, defs, k - 1);
      var g', d := Forced(g, defs, k - 1), defs[k - 1];
      assert NeverCyclic(g, defs, k) <==> NeverCyclic(g, defs, k - 1) && Acyclic(Forced(g, defs, k));
      if NeverCyclic(g, defs, k - 1) {
        assert Acyclic(g');
        M.SetInheritanceKeepsAcyclic(g', d.name, d.inherits);
      }
    }
  }

  /**
   * Whatever acyclic registry it starts from, names repeated or not, a build succeeds exactly when wiring the
   * definitions one after another never closes a cycle; then the registry is the result of that wiring.
   */
  lemma BuildExact(g: Graph, defs: seq<Definition>)
    requires Acyclic(g)
    ensures
      var created := Created(g, defs);
      var (built, ok) := Wired(created, defs, |defs|);
      (ok <==> NeverCyclic(created, defs, |defs|)) && (ok ==> built == Forced(created, defs, |defs|))
  {
    CreatedKeepsAcyclic(g, defs);
    CreatedKnowsAll(g, defs);
    WiringExact(Created(g, defs), defs, |defs|);
  }

  // ---- On a fresh registry a build fails exactly for cyclic declarations -------

  ghost predicate DistinctNames(defs: seq<Definition>) {
    forall i, j :: 0 <= i < j < |defs| ==> defs[i].name != defs[j].name
  }

  /** The graph the definitions describe. */
  function Declared(defs: seq<Definition>): Graph {
    if defs == [] then map[]
    else
      var d := defs[|defs| - 1];
      Declared(defs[..|defs| - 1])[d.name := Bare(d).(inherits := d.inherits)]
  }

  /** The definitions with the parents of all but the first `k` blanked out. */
  function Strip(defs: seq<Definition>, k: nat): seq<Definition> {
    seq(|defs|, i requires 0 <= i < |defs| => if i < k then defs[i] else defs[i].(inherits := []))
  }

  /** The graph holds exactly the roles defined, each as defined. */
  ghost predicate Describes(g: Graph, defs: seq<Definition>) {
    && (forall i :: 0 <= i < |defs| ==>
          defs[i].name in g && g[defs[i].name] == Bare(defs[i]).(inherits := defs[i].inherits))
    && (forall n :: n in g ==> Named(defs, n))
  }

  ghost predicate Named(defs: seq<Definition>, n: string) {
    exists i :: 0 <= i < |defs| && defs[i].name == n
  }

  lemma {:induction false} DeclaredDescribes(defs: seq<Definition>)
    requires DistinctNames(defs)
    ensures Describes(Declared(defs), defs)
  {
    if defs != [] {
      var rest, d := defs[..|defs| - 1], defs[|defs| - 1];
      DeclaredDescribes(rest);
      DescribesOneMore(Declared(rest), rest, d);
      assert defs == rest + [d];
    }
  }

  lemma DescribesOneMore(g: Graph, defs: seq<Definition>, d: Definition)
    requires Describes(g, defs) && !Named(defs, d.name)
    ensures Describes(g[d.name := Bare(d).(inherits := d.inherits)], defs + [d])
  {
    var all := defs + [d];
    assert all[|defs|] == d;
    forall n | n in g ensures Named(all, n) {
      var i :| 0 <= i < |defs| && defs[i].name == n;
      assert all[i].name == n;
    }
  }

  lemma DescribedOnce(g: Graph, h: Graph, defs: seq<Definition>)
    requires Describes(g, defs) && Describes(h, defs)
    ensures g == h
  {
    forall n ensures n in g <==> n in h
      ensures n in g ==> g[n] == h[n]
    {
      if n in g || n in h {
        assert Named(defs, n);
        var i :| 0 <= i < |defs| && defs[i].name == n;
      }
    }
  }

  lemma {:induction false} FreshFirstPass(defs: seq<Definition>)
    requires DistinctNames(defs)
    ensures Created(map[], defs) == Declared(Strip(defs, 0))
  {
    if defs != [] {
      var rest := defs[..|defs| - 1];
      assert Strip(defs, 0)[..|defs| - 1] == Strip(rest, 0);
      FreshFirstPass(rest);
      CreatedKnowsAll(map[], rest);
    }
  }

  /** Wiring one more definition turns the graph of `k - 1` wired definitions into that of `k`. */
  lemma WireOneMore(defs: seq<Definition>, k: nat)
    requires DistinctNames(defs) && 0 < k <= |defs|
    ensures defs[k - 1].name in Declared(Strip(defs, k - 1))
    ensures Declared(Strip(defs, k))
         == M.SetParents(Declared(Strip(defs, k - 1)), defs[k - 1].name, defs[k - 1].inherits)
    ensures Declared(Strip(defs, k - 1))[defs[k - 1].name].inherits == []
  {
    StripDistinct(defs, k - 1);
    StripDistinct(defs, k);
    DeclaredDescribes(Strip(defs, k - 1));
    DeclaredDescribes(Strip(defs, k));
    WiredOnce(Declared(Strip(defs, k - 1)), Declared(Strip(defs, k)), defs, k);
  }

  lemma StripDistinct(defs: seq<Definition>, k: nat)
    requires DistinctNames(defs)
    ensures DistinctNames(Strip(defs, k))
  {
  }

  lemma WiredOnce(g: Graph, h: Graph, defs: seq<Definition>, k: nat)
    requires DistinctNames(defs) && 0 < k <= |defs| && Describes(g, Strip(defs, k - 1)) && Describes(h, Strip(defs, k))
    ensures defs[k - 1].name in g && g[defs[k - 1].name].inherits == []
    ensures h == M.SetParents(g, defs[k - 1].name, defs[k - 1].inherits)
  {
    StripDistinct(defs, k);
    RewiredOnce(g, h, Strip(defs, k - 1), Strip(defs, k), k - 1);
  }

  lemma RewiredOnce(g: Graph, h: Graph, p: seq<Definition>, n: seq<Definition>, k: nat)
    requires k < |p| == |n| && DistinctNames(n) && Describes(g, p) && Describes(h, n)
    requires forall i :: 0 <= i < |p| && i != k ==> p[i] == n[i]
    requires p[k] == n[k].(inherits := [])
    ensures n[k].name in g && g[n[k].name].inherits == []
    ensures h == M.SetParents(g, n[k].name, n[k].inherits)
  {
    assert p[k].name == n[k].name;
    RewireDescribed(g, p, n, k);
    DescribedOnce(h, M.SetParents(g, n[k].name, n[k].inherits), n);
  }

  lemma RewireDescribed(g: Graph, p: seq<Definition>, n: seq<Definition>, k: nat)
    requires k < |p| == |n| && DistinctNames(n) && Describes(g, p)
    requires forall i :: 0 <= i < |p| && i != k ==> p[i] == n[i]
    requires n[k] == p[k].(inherits := n[k].inherits)
    ensures n[k].name in g && Describes(M.SetParents(g, n[k].name, n[k].inherits), n)
  {
    assert p[k].name == n[k].name;
    forall m | m in g ensures Named(n, m) {
      assert Named(p, m);
      var i :| 0 <= i < |p| && p[i].name == m;
      assert n[i].name == m;
    }
  }

  /** Blanked parents only remove edges. */
  lemma StrippedIsSubgraph(defs: seq<Definition>, k: nat, x: string, y: string)
    requires DistinctNames(defs) && Edge(Declared(Strip(defs, k)), x, y)
    ensures Edge(Declared(defs), x, y)
  {
    DeclaredDescribes(Strip(defs, k));
    DeclaredDescribes(defs);
    assert Named(Strip(defs, k), x);
    var i :| 0 <= i < |defs| && Strip(defs, k)[i].name == x;
    assert defs[i].name == x;
  }

  lemma StrippedCycle(defs: seq<Definition>, k: nat)
    requires DistinctNames(defs) && !Acyclic(Declared(Strip(defs, k)))
    ensures !Acyclic(Declared(defs))
  {
    if Acyclic(Declared(defs)) {
      forall x, y | Edge(Declared(Strip(defs, k)), x, y) ensures Edge(Declared(defs), x, y) {
        StrippedIsSubgraph(defs, k, x, y);
      }
      SubgraphOfAcyclic(Declared(Strip(defs, k)), Declared(defs));
    }
  }

  lemma {:induction false} FreshSecondPass(defs: seq<Definition>, k: nat)
    requires DistinctNames(defs) && k <= |defs|
    ensures
      var (g, ok) := Wired(Created(map[], defs), defs, k);
      if ok then g == Declared(Strip(defs, k)) && Acyclic(g) else !Acyclic(Declared(defs))
  {
    if k == 0 {
      FreshFirstPass(defs);
      CreatedKeepsAcyclic(map[], defs);
    } else {
      FreshSecondPass(defs, k - 1);
      var (g, ok) := Wired(Created(map[], defs), defs, k - 1);
      var d := defs[k - 1];
      if ok {
        WireOneMore(defs, k);
        M.SetInheritanceKeepsAcyclic(g, d.name, d.inherits);
        if d.inherits == [] {
          assert Declared(Strip(defs, k)) == g;
        } else if AnyReaches(g, d.inherits, d.name) {
          StrippedCycle(defs, k);
        }
      }
    }
  }

  /**
   * On a fresh registry with distinct names the build succeeds exactly when the declared graph is
   * acyclic, and then the registry is that graph. The order of the definitions does not matter.
   */
  lemma FreshBuildExact(defs: seq<Definition>)
    requires DistinctNames(defs)
    ensures
      var (g, ok) := Wired(Created(map[], defs), defs, |defs|);
      (ok <==> Acyclic(Declared(defs))) && (ok ==> g == Declared(defs))
  {
    FreshSecondPass(defs, |defs|);
    assert Strip(defs, |defs|) == defs;
  }

  // ---- What a build leaves in the registry ------------------------------------

  /** Definition `i` is the first of its name, and the registry had no such role. */
  ghost predicate Introduces(g: Graph, defs: seq<Definition>, i: nat)
    requires i < |defs|
  {
    defs[i].name !in g && forall j :: 0 <= j < i ==> defs[j].name != defs[i].name
  }

  /** Roles that existed keep their permissions, a new role has those of its first definition. */
  ghost predicate GrantsAsDefined(g: Graph, built: Graph, defs: seq<Definition>) {
    && (forall n :: n in built <==> n in g || Named(defs, n))
    && (forall n :: n in g && n in built ==> built[n].permissions == g[n].permissions)
    && (forall i :: 0 <= i < |defs| && Introduces(g, defs, i) && defs[i].name in built ==>
          forall p :: p in built[defs[i].name].permissions <==> p in defs[i].permissions)
  }

  lemma NamedMore(defs: seq<Definition>, d: Definition, n: string)
    ensures Named(defs + [d], n) <==> Named(defs, n) || d.name == n
  {
    var all := defs + [d];
    assert all[|defs|] == d;
    if i :| 0 <= i < |defs| && defs[i].name == n { assert all[i].name == n; }
  }

  lemma IntroducesMore(g: Graph, defs: seq<Definition>, d: Definition, i: nat)
    requires i <= |defs| && Introduces(g, defs + [d], i)
    ensures i < |defs| ==> Introduces(g, defs, i) && (defs + [d])[i] == defs[i]
    ensures i == |defs| ==> d.name !in g && !Named(defs, d.name)
  {
    var all := defs + [d];
    assert forall j :: 0 <= j < |defs| ==> all[j] == defs[j];
  }

  lemma OneMoreGrants(g: Graph, built: Graph, defs: seq<Definition>, d: Definition)
    requires GrantsAsDefined(g, built, defs)
    ensures GrantsAsDefined(g, if d.name in built then built else built[d.name := Bare(d)], defs + [d])
  {
    var all, after := defs + [d], if d.name in built then built else built[d.name := Bare(d)];
    forall n ensures n in after <==> n in g || Named(all, n) { NamedMore(defs, d, n); }
    forall i | 0 <= i < |all| && Introduces(g, all, i) && all[i].name in after
      ensures forall p :: p in after[all[i].name].permissions <==> p in all[i].permissions
    {
      IntroducesMore(g, defs, d, i);
      if i < |defs| { assert Named(defs, defs[i].name); }
    }
  }

  lemma CreatedMore(g: Graph, defs: seq<Definition>, d: Definition)
    ensures
      var before := Created(g, defs);
      Created(g, defs + [d]) == if d.name in before then before else before[d.name := Bare(d)]
  {
    assert (defs + [d])[..|defs|] == defs;
  }

  lemma GrantsMore(g: Graph, defs: seq<Definition>, d: Definition)
    requires GrantsAsDefined(g, Created(g, defs), defs)
    ensures GrantsAsDefined(g, Created(g, defs + [d]), defs + [d])
  {
    OneMoreGrants(g, Created(g, defs), defs, d);
    CreatedMore(g, defs, d);
  }

  lemma {:induction false} CreatedGrants(g: Graph, defs: seq<Definition>)
    ensures GrantsAsDefined(g, Created(g, defs), defs)
  {
    if defs == [] {
      assert defs == [] && Created(g, defs) == g;
      NothingGranted(g);
    } else {
      var rest, d := defs[..|defs| - 1], defs[|defs| - 1];
      assert rest + [d] == defs;
      CreatedGrants(g, rest);
      GrantsMore(g, rest, d);
    }
  }

  lemma NothingGranted(g: Graph)
    ensures GrantsAsDefined(g, g, [])
  {
  }

  lemma {:induction false} CreatedParents(g: Graph, defs: seq<Definition>, n: string)
    requires n in Created(g, defs)
    ensures Created(g, defs)[n].inherits == if n in g then g[n].inherits else []
  {
    if defs != [] {
      var rest := defs[..|defs| - 1];
      CreatedKnowsAll(g, rest);
      if n in Created(g, rest) { CreatedParents(g, rest, n); }
    }
  }

  /** The parents of a role once the first `k` definitions are wired: the last non-empty list declared, if any. */
  function ParentsAfter(had: seq<string>, defs: seq<Definition>, k: nat, name: string): seq<string>
    requires k <= |defs|
  {
    if k == 0 then had
    else if defs[k - 1].name == name && defs[k - 1].inherits != [] then defs[k - 1].inherits
    else ParentsAfter(had, defs, k - 1, name)
  }

  /** Nothing but parents differs, and those are what the first `k` definitions say. */
  ghost predicate RewiredUpTo(g: Graph, built: Graph, defs: seq<Definition>, k: nat)
    requires k <= |defs|
  {
    && built.Keys == g.Keys
    && forall n :: n in g ==> built[n] == RoleValue(g[n].permissions, ParentsAfter(g[n].inherits, defs, k, n))
  }

  /**
   * However far a build gets, the roles have the parents declared by the definitions before the first refused one;
   * a refused definition names an unknown role or would have closed a cycle.
   */
  lemma {:induction false} WiringStopsAtFirstRefusal(g: Graph, defs: seq<Definition>, k: nat) returns (j: nat)
    requires k <= |defs|
    ensures j <= k && RewiredUpTo(g, Wired(g, defs, k).0, defs, j)
    ensures Wired(g, defs, k).1 <==> j == k
    ensures j < k ==>
      && defs[j].inherits != []
      && (defs[j].name !in g || AnyReaches(Wired(g, defs, k).0, defs[j].inherits, defs[j].name))
  {
    if k == 0 {
      j := 0;
    } else {
      j := WiringStopsAtFirstRefusal(g, defs, k - 1);
      var (g', ok) := Wired(g, defs, k - 1);
      if ok && Wired(g, defs, k).1 { j := k; }
    }
  }

  /** Whatever registry it starts from, and even if it is refused, a build grants exactly what was defined. */
  lemma BuildGrantsAsDefined(g: Graph, defs: seq<Definition>)
    ensures GrantsAsDefined(g, Wired(Created(g, defs), defs, |defs|).0, defs)
  {
    CreatedGrants(g, defs);
    var j := WiringStopsAtFirstRefusal(Created(g, defs), defs, |defs|);
  }

  /** After a successful build a role has the parents last declared for it, or else those it had, new roles none. */
  lemma BuildWiresAsDefined(g: Graph, defs: seq<Definition>, n: string)
    requires Wired(Created(g, defs), defs, |defs|).1 && n in Wired(Created(g, defs), defs, |defs|).0
    ensures Wired(Created(g, defs), defs, |defs|).0[n].inherits
         == ParentsAfter(if n in g then g[n].inherits else [], defs, |defs|, n)
  {
    var j := WiringStopsAtFirstRefusal(Created(g, defs), defs, |defs|);
    CreatedParents(g, defs, n);
  }

  /**
   * A successful build on a fresh registry with distinct names leaves exactly the roles defined, each with exactly
   * the permissions and the parents of its definition.
   */
  lemma FreshBuildDelivers(defs: seq<Definition>)
    requires DistinctNames(defs) && Wired(Created(map[], defs), defs, |defs|).1
    ensures
      var g := Wired(Created(map[], defs), defs, |defs|).0;
      && (forall n :: n in g <==> exists i :: 0 <= i < |defs| && defs[i].name == n)
      && forall i :: 0 <= i < |defs| ==>
           defs[i].name in g && g[defs[i].name] == RoleValue((set p | p in defs[i].permissions), defs[i].inherits)
  {
    FreshBuildExact(defs);
    DeclaredDescribes(defs);
    forall n ensures Named(defs, n) <==> exists i :: 0 <= i < |defs| && defs[i].name == n {}
  }

  /** Some definition gives `x` the parent `y`. */
  ghost predicate DeclaresParent(defs: seq<Definition>, x: string, y: string) {
    exists i :: 0 <= i < |defs| && defs[i].name == x && y in defs[i].inherits
  }

  /** Some definition of a role that `name` reaches lists the permission. */
  ghost predicate Entitled(g: Graph, defs: seq<Definition>, name: string, permission: string) {
    exists i :: 0 <= i < |defs| && Reach(g, name, defs[i].name) && permission in defs[i].permissions
  }

  /** After such a build a role resolves to exactly the permissions listed for the roles it reaches as declared. */
  lemma BuiltRoleResolves(defs: seq<Definition>, name: string, permission: string)
    requires DistinctNames(defs) && Wired(Created(map[], defs), defs, |defs|).1
    ensures
      var g := Wired(Created(map[], defs), defs, |defs|).0;
      && (forall x, y :: Edge(g, x, y) <==> DeclaresParent(defs, x, y))
      && ((exists x :: Reach(g, name, x) && x in g && permission in g[x].permissions)
            <==> Entitled(g, defs, name, permission))
  {
    var g := Wired(Created(map[], defs), defs, |defs|).0;
    FreshBuildDelivers(defs);
    forall x, y ensures Edge(g, x, y) <==> DeclaresParent(defs, x, y) {
      if Edge(g, x, y) { var i :| 0 <= i < |defs| && defs[i].name == x; }
    }
    if x :| Reach(g, name, x) && x in g && permission in g[x].permissions {
      var i :| 0 <= i < |defs| && defs[i].name == x;
      assert Reach(g, name, defs[i].name) && permission in defs[i].permissions;
    }
    if i :| 0 <= i < |defs| && Reach(g, name, defs[i].name) && permission in defs[i].permissions {
      assert permission in g[defs[i].name].permissions;
    }
  }

  /** With repeated names the last definition of a role wins, yet an earlier one can already be refused. */
  lemma RepeatedNamesCanBeRefused()
    ensures
      var defs := [Definition("a", [], ["b"]), Definition("b", [], ["a"]), Definition("b", [], ["c"])];
      Acyclic(Declared(defs)) && !Wired(Created(map[], defs), defs, |defs|).1
  {
    var a, b, b' := Definition("a", [], ["b"]), Definition("b", [], ["a"]), Definition("b", [], ["c"]);
    var defs := [a, b, b'];
    assert defs[..2] == [a, b] && defs[..2][..1] == [a] && defs[..2][..1][..0] == [];
    var g := Created(map[], defs);
    assert Created(map[], defs[..2][..1]) == map["a" := Bare(a)];
    assert Created(map[], defs[..2]) == map["a" := Bare(a), "b" := Bare(b)];
    assert g == map["a" := Bare(a), "b" := Bare(b)];
    assert Wired(g, defs, 0) == (g, true);
    assert !AnyReaches(g, ["b"], "a") by { OnlyReachesItself(g, "b"); }
    var g1 := Wired(g, defs, 1).0;
    assert Edge(g1, "a", "b");
    ReachSelf(g1, "b");
    ReachStep(g1, "a", "b", "b");
    assert Reach(g1, b.inherits[0], "b");
    assert AnyReaches(g1, b.inherits, b.name);
    assert !Wired(g, defs, 2).1;
    assert Declared(defs[..2][..1]) == map["a" := Bare(a).(inherits := ["b"])];
    assert Declared(defs) == Declared(defs[..2])["b" := Bare(b').(inherits := ["c"])];
    FinallyAcyclic(Declared(defs));
  }

  lemma FinallyAcyclic(d: Graph)
    requires forall x, y :: Edge(d, x, y) ==> (x == "a" && y == "b") || (x == "b" && y == "c")
    ensures Acyclic(d)
  {
    forall x ensures !Above(d, x, x) {
      if Above(d, x, x) {
        var m :| Edge(d, x, m) && Reach(d, m, x);
        ClosedContainsReachable(d, if x == "a" then {"b", "c"} else {"c"}, m, x);
      }
    }
  }

  lemma OnlyReachesItself(g: Graph, a: string)
    requires forall y :: !Edge(g, a, y)
    ensures forall x :: Reach(g, a, x) ==> x == a
  {
    forall x | Reach(g, a, x) ensures x == a { ClosedContainsReachable(g, {a}, a, x); }
  }

  class RoleHierarchyBuilder {
    const roleManager: M.Manager
    var pending: seq<Definition>

    constructor (roleManager: M.Manager)
      ensures this.roleManager == roleManager && pending == []
    {
      this.roleManager, pending := roleManager, [];
    }

    method Define(name: string, permissions: seq<string>, inherits: seq<string>)
      modifies this
      ensures pending == old(pending) + [Definition(name, permissions, inherits)]
    {
      pending := pending + [Definition(name, permissions, inherits)];
    }

    method Build() returns (ok: bool)
      requires roleManager.Valid()
      modifies roleManager, roleManager.roles.Values
      ensures roleManager.Valid() && pending == old(pending)
      ensures (roleManager.View(), ok) == Wired(Created(old(roleManager.View()), pending), pending, |pending|)
      ensures GrantsAsDefined(old(roleManager.View()), roleManager.View(), pending)
    {
      BuildGrantsAsDefined(roleManager.View(), pending);
      CreateAll();
      ok := WireAll();
    }

    method CreateAll()
      requires roleManager.Valid()
      modifies roleManager
      ensures roleManager.Valid() && fresh(roleManager.roles.Values - old(roleManager.roles.Values))
      ensures roleManager.View() == Created(old(roleManager.View()), pending)
      ensures GrantsAsDefined(old(roleManager.View()), roleManager.View(), pending)
    {
      CreatedGrants(roleManager.View(), pending);
      for i := 0 to |pending|
        invariant roleManager.Valid() && fresh(roleManager.roles.Values - old(roleManager.roles.Values))
        invariant roleManager.View() == Created(old(roleManager.View()), pending[..i])
      {
        assert pending[..i + 1][..i] == pending[..i];
        if pending[i].name !in roleManager.roles {
          var _ := roleManager.CreateRole(pending[i].name, pending[i].permissions, []);
        }
      }
      assert pending[..|pending|] == pending;
    }

    method WireAll() returns (ok: bool)
      requires roleManager.Valid()
      modifies roleManager.roles.Values
      ensures roleManager.roles == old(roleManager.roles)
      ensures (roleManager.View(), ok) == Wired(old(roleManager.View()), pending, |pending|)
    {
      for i := 0 to |pending|
        invariant roleManager.roles == old(roleManager.roles)
        invariant (roleManager.View(), true) == Wired(old(roleManager.View()), pending, i)
      {
        if |pending[i].inherits| > 0 {
          var r := roleManager.SetInheritance(pending[i].name, pending[i].inherits);
          if r.Err? {
            RefusalIsFinal(old(roleManager.View()), pending, i + 1);
            return false;
          }
        }
      }
      ok := true;
    }
  }

  lemma {:induction false} RefusalIsFinal(g: Graph, defs: seq<Definition>, k: nat)
    requires k <= |defs| && !Wired(g, defs, k).1
    ensures Wired(g, defs, |defs|) == Wired(g, defs, k)
    decreases |defs| - k
  {
    if k < |defs| { RefusalIsFinal(g, defs, k + 1); }
  }

  // ---- The ancestor chain -----------------------------------------------------

  function ParentsOf(g: Graph, name: string): seq<string> {
    if name in g then g[name].inherits else []
  }

  /** The known roles a chain does not list yet. */
  ghost function Unlisted(g: Graph, chain: seq<string>): set<string> {
    set n | n in g && n !in chain
  }

  /** Depth first: each parent not listed yet, followed by what it leads to, then the remaining parents. */
  ghost function Explore(g: Graph, parents: seq<string>, chain: seq<string>): (r: seq<string>)
    ensures chain <= r
    decreases Unlisted(g, chain), |parents|
  {
    if parents == [] then chain
    else
      var p := parents[0];
      ListingShrinks(g, chain, p);
      var next := if p in chain then chain else Explore(g, ParentsOf(g, p), chain + [p]);
      LongerListsMore(g, chain, next);
      Explore(g, parents[1..], next)
  }

  lemma PrefixMembers(a: seq<string>, b: seq<string>)
    requires a <= b
    ensures forall x :: x in a ==> x in b
  {
    assert b == a + b[|a|..];
  }

  lemma LongerListsMore(g: Graph, chain: seq<string>, longer: seq<string>)
    requires chain <= longer
    ensures Unlisted(g, longer) <= Unlisted(g, chain)
  {
    PrefixMembers(chain, longer);
  }

  lemma ListingShrinks(g: Graph, chain: seq<string>, p: string)
    ensures p !in chain && p in g ==> Unlisted(g, chain + [p]) < Unlisted(g, chain)
    ensures p !in g ==> Unlisted(g, chain + [p]) == Unlisted(g, chain)
  {
    LongerListsMore(g, chain, chain + [p]);
    assert p !in chain && p in g ==> p in Unlisted(g, chain) && p !in Unlisted(g, chain + [p]);
  }

  /** Nothing is listed twice; what is new comes from `parents`, and leads only to listed roles. */
  ghost predicate Listed(g: Graph, parents: seq<string>, before: seq<string>, after: seq<string>) {
    && before <= after && NoDuplicates(after)
    && (forall i :: 0 <= i < |parents| ==> parents[i] in after)
    && NewFrom(g, parents, before, after)
    && NewClosed(g, before, after)
  }

  ghost predicate NewFrom(g: Graph, parents: seq<string>, before: seq<string>, after: seq<string>) {
    forall x :: x in after && x !in before ==> AnyReaches(g, parents, x)
  }

  ghost predicate NewClosed(g: Graph, before: seq<string>, after: seq<string>) {
    forall x, y :: x in after && x !in before && Edge(g, x, y) ==> y in after
  }

  lemma ReachedThrough(g: Graph, parents: seq<string>, i: nat, x: string)
    requires i < |parents|
    requires x == parents[i] || AnyReaches(g, ParentsOf(g, parents[i]), x)
    ensures AnyReaches(g, parents, x)
  {
    var p := parents[i];
    if x == p {
      ReachSelf(g, p);
    } else {
      var j :| 0 <= j < |ParentsOf(g, p)| && Reach(g, ParentsOf(g, p)[j], x);
      ReachStep(g, p, ParentsOf(g, p)[j], x);
    }
  }

  lemma ReachedBySome(g: Graph, some: seq<string>, all: seq<string>, offset: nat, x: string)
    requires AnyReaches(g, some, x) && offset + |some| <= |all| && all[offset..offset + |some|] == some
    ensures AnyReaches(g, all, x)
  {
    var i :| 0 <= i < |some| && Reach(g, some[i], x);
    assert all[offset..offset + |some|][i] == all[offset + i];
  }

  lemma ListedFirst(g: Graph, parents: seq<string>, before: seq<string>, mid: seq<string>)
    requires parents != [] && parents[0] !in before
    requires Listed(g, ParentsOf(g, parents[0]), before + [parents[0]], mid)
    ensures Listed(g, parents[..1], before, mid)
  {
    PrefixMembers(before + [parents[0]], mid);
    FirstFrom(g, parents, before, mid);
    FirstClosed(g, parents[0], before, mid);
  }

  lemma FirstFrom(g: Graph, parents: seq<string>, before: seq<string>, mid: seq<string>)
    requires parents != [] && NewFrom(g, ParentsOf(g, parents[0]), before + [parents[0]], mid)
    ensures NewFrom(g, parents[..1], before, mid)
  {
    forall x | x in mid && x !in before ensures AnyReaches(g, parents[..1], x) {
      ReachedThrough(g, parents[..1], 0, x);
    }
  }

  lemma FirstClosed(g: Graph, p: string, before: seq<string>, mid: seq<string>)
    requires NewClosed(g, before + [p], mid)
    requires forall i :: 0 <= i < |ParentsOf(g, p)| ==> ParentsOf(g, p)[i] in mid
    ensures NewClosed(g, before, mid)
  {
    forall x, y | x in mid && x !in before && Edge(g, x, y) ensures y in mid {
      if x == p { assert y in ParentsOf(g, p); }
    }
  }

  lemma ListedTogether(g: Graph, parents: seq<string>, before: seq<string>, mid: seq<string>, after: seq<string>)
    requires parents != [] && Listed(g, parents[..1], before, mid) && Listed(g, parents[1..], mid, after)
    ensures Listed(g, parents, before, after)
  {
    PrefixMembers(before, mid);
    PrefixMembers(mid, after);
    forall x | x in after && x !in before ensures AnyReaches(g, parents, x) {
      if x in mid {
        ReachedBySome(g, parents[..1], parents, 0, x);
      } else {
        ReachedBySome(g, parents[1..], parents, 1, x);
      }
    }
    forall i | 0 <= i < |parents| ensures parents[i] in after {
      if i == 0 { assert parents[..1][0] in mid; } else { assert parents[1..][i - 1] in after; }
    }
  }

  lemma {:induction false} ExploreLists(g: Graph, parents: seq<string>, chain: seq<string>)
    requires NoDuplicates(chain)
    ensures Listed(g, parents, chain, Explore(g, parents, chain))
    decreases Unlisted(g, chain), |parents|
  {
    if parents != [] {
      var p := parents[0];
      ListingShrinks(g, chain, p);
      var next := if p in chain then chain else Explore(g, ParentsOf(g, p), chain + [p]);
      LongerListsMore(g, chain, next);
      if p !in chain {
        ExploreLists(g, ParentsOf(g, p), chain + [p]);
        ListedFirst(g, parents, chain, next);
      }
      ExploreLists(g, parents[1..], next);
      ListedTogether(g, parents, chain, next, Explore(g, parents[1..], next));
    }
  }

  lemma ParentsReachTheAbove(g: Graph, name: string, x: string)
    ensures AnyReaches(g, ParentsOf(g, name), x) <==> Above(g, name, x)
  {
    if Above(g, name, x) {
      var m :| Edge(g, name, m) && Reach(g, m, x);
      var i :| 0 <= i < |ParentsOf(g, name)| && ParentsOf(g, name)[i] == m;
    }
    if AnyReaches(g, ParentsOf(g, name), x) {
      var i :| 0 <= i < |ParentsOf(g, name)| && Reach(g, ParentsOf(g, name)[i], x);
      assert Edge(g, name, ParentsOf(g, name)[i]);
    }
  }

  /** A finished search from nothing has listed all that the parents reach. */
  lemma ListedHoldsReached(g: Graph, parents: seq<string>, chain: seq<string>, x: string)
    requires Listed(g, parents, [], chain) && AnyReaches(g, parents, x)
    ensures x in chain
  {
    var i :| 0 <= i < |parents| && Reach(g, parents[i], x);
    ClosedContainsReachable(g, (set y | y in chain), parents[i], x);
  }

  /** The ancestor chain lists exactly the proper ancestors, each once, on any graph. */
  lemma ChainIsAncestors(g: Graph, name: string)
    ensures
      var chain := Explore(g, ParentsOf(g, name), []);
      NoDuplicates(chain) && forall x :: x in chain <==> Above(g, name, x)
  {
    var parents, chain := ParentsOf(g, name), Explore(g, ParentsOf(g, name), []);
    ExploreLists(g, parents, []);
    forall x ensures x in chain <==> Above(g, name, x) {
      ParentsReachTheAbove(g, name, x);
      if AnyReaches(g, parents, x) { ListedHoldsReached(g, parents, chain, x); }
    }
  }

  /** The chain is in order of discovery: each role listed is a parent of `name` or of a role listed before it. */
  ghost predicate Discovered(g: Graph, parents: seq<string>, chain: seq<string>, from: nat) {
    forall i :: from <= i < |chain| ==> chain[i] in parents || LedTo(g, chain, from, i)
  }

  ghost predicate LedTo(g: Graph, chain: seq<string>, from: nat, i: nat)
    requires i < |chain|
  {
    exists j :: from <= j < i && Edge(g, chain[j], chain[i])
  }

  lemma {:induction false} ExploreDiscovers(g: Graph, parents: seq<string>, chain: seq<string>)
    ensures Discovered(g, parents, Explore(g, parents, chain), |chain|)
    decreases Unlisted(g, chain), |parents|
  {
    if parents != [] {
      var p, after := parents[0], Explore(g, parents, chain);
      ListingShrinks(g, chain, p);
      var next := if p in chain then chain else Explore(g, ParentsOf(g, p), chain + [p]);
      LongerListsMore(g, chain, next);
      ExploreDiscovers(g, parents[1..], next);
      assert forall i :: 0 <= i < |next| ==> after[i] == next[i];
      forall i | |chain| <= i < |after| ensures after[i] in parents || LedTo(g, after, |chain|, i) {
        if i >= |next| {
          if after[i] !in parents[1..] {
            assert LedTo(g, after, |next|, i);
            var j :| |next| <= j < i && Edge(g, after[j], after[i]);
            assert Edge(g, after[j], after[i]);
          }
        } else {
          ExploreDiscovers(g, ParentsOf(g, p), chain + [p]);
          DiscoveredUnder(g, p, chain, next, after, i);
        }
      }
    }
  }

  lemma DiscoveredUnder(g: Graph, p: string, chain: seq<string>, next: seq<string>, after: seq<string>, i: nat)
    requires chain + [p] <= next <= after && |chain| <= i < |next|
    requires Discovered(g, ParentsOf(g, p), next, |chain| + 1)
    ensures after[i] == p || LedTo(g, after, |chain|, i)
  {
    assert next[|chain|] == (chain + [p])[|chain|] == p;
    if i > |chain| {
      if next[i] in ParentsOf(g, p) {
        assert Edge(g, after[|chain|], after[i]);
      } else {
        assert LedTo(g, next, |chain| + 1, i);
        var j :| |chain| + 1 <= j < i && Edge(g, next[j], next[i]);
        assert Edge(g, after[j], after[i]);
      }
    }
  }

  /** The chain once one parent has been dealt with. */
  ghost function Entered(g: Graph, p: string, chain: seq<string>): seq<string> {
    if p in chain then chain else Explore(g, ParentsOf(g, p), chain + [p])
  }

  lemma ExploreFirst(g: Graph, parents: seq<string>, chain: seq<string>)
    requires parents != []
    ensures Explore(g, parents, chain) == Explore(g, parents[1..], Entered(g, parents[0], chain))
  {
  }

  /** The parents are searched one after another. */
  lemma {:induction false} ExploreInTurn(g: Graph, some: seq<string>, more: seq<string>, chain: seq<string>)
    ensures Explore(g, some + more, chain) == Explore(g, more, Explore(g, some, chain))
    decreases |some|
  {
    if some == [] {
      assert some + more == more;
    } else {
      var all, next := some + more, Entered(g, some[0], chain);
      assert all[0] == some[0] && all[1..] == some[1..] + more;
      assert Explore(g, all, chain) == Explore(g, all[1..], next) by { ExploreFirst(g, all, chain); }
      assert Explore(g, some, chain) == Explore(g, some[1..], next) by { ExploreFirst(g, some, chain); }
      ExploreInTurn(g, some[1..], more, next);
    }
  }

  /** A parent not yet listed is listed next. */
  lemma UnlistedComesNext(g: Graph, parents: seq<string>, chain: seq<string>)
    requires parents != [] && parents[0] !in chain
    ensures chain + [parents[0]] <= Explore(g, parents, chain)
  {
    ExploreFirst(g, parents, chain);
  }

  lemma HeadOfChain(g: Graph, parents: seq<string>, i: nat)
    requires i < |parents|
    ensures
      var head, chain := Explore(g, parents[..i], []), Explore(g, parents, []);
      head <= chain && (parents[i] in head || head + [parents[i]] <= chain)
  {
    var head, rest := Explore(g, parents[..i], []), parents[i..];
    assert parents[..i] + rest == parents && rest[0] == parents[i];
    ExploreInTurn(g, parents[..i], rest, []);
    if parents[i] !in head { UnlistedComesNext(g, rest, head); }
  }

  /** What stands before `p` stands in a head of the chain that `p` is in, or comes right after. */
  lemma BeforeIt(head: seq<string>, chain: seq<string>, p: string, a: nat, b: nat)
    requires NoDuplicates(chain) && a < b < |chain| && chain[b] == p
    requires head <= chain && (p in head || head + [p] <= chain)
    ensures chain[a] in head
  {
    if k :| 0 <= k < |head| && head[k] == p {
      assert chain[k] == p && k == b;
    } else {
      assert chain[|head|] == (head + [p])[|head|] && b == |head|;
    }
    assert head[a] == chain[a];
  }

  /**
   * Direct parents are listed in the order declared: one declared later stands before one declared earlier only if
   * a parent declared before both leads to it.
   */
  lemma ParentsInDeclaredOrder(g: Graph, parents: seq<string>, i: nat, later: string, a: nat, b: nat)
    requires i < |parents| && a < b < |Explore(g, parents, [])|
    requires Explore(g, parents, [])[a] == later && Explore(g, parents, [])[b] == parents[i]
    ensures AnyReaches(g, parents[..i], later)
  {
    var mid, chain := Explore(g, parents[..i], []), Explore(g, parents, []);
    HeadOfChain(g, parents, i);
    assert NoDuplicates(chain) by { ExploreLists(g, parents, []); }
    BeforeIt(mid, chain, parents[i], a, b);
    assert NewFrom(g, parents[..i], [], mid) by { ExploreLists(g, parents[..i], []); }
  }

  // ---- When parents come first ------------------------------------------------

  /** No role that is not a direct parent is listed before one that is. */
  ghost predicate ParentsFirst(chain: seq<string>, parents: seq<string>) {
    forall i, j :: 0 <= i < j < |chain| && chain[j] in parents ==> chain[i] in parents
  }

  datatype Scouted = Scouted(listed: seq<string>, stopped: bool)

  /**
   * The same search, given up at the first role that is neither listed nor one of `within`. With `within` the direct
   * parents it looks at nothing but their own declarations.
   */
  function Scout(g: Graph, within: seq<string>, parents: seq<string>, chain: seq<string>): (r: Scouted)
    ensures chain <= r.listed
    decreases Unlisted(g, chain), |parents|
  {
    if parents == [] then Scouted(chain, false)
    else
      var p := parents[0];
      ListingShrinks(g, chain, p);
      if p in chain then Scout(g, within, parents[1..], chain)
      else if p !in within then Scouted(chain, true)
      else
        var first := Scout(g, within, ParentsOf(g, p), chain + [p]);
        LongerListsMore(g, chain, first.listed);
        if first.stopped then first else Scout(g, within, parents[1..], first.listed)
  }

  /** Until it gives up the short search lists what the full one lists; what the full one lists next is outside. */
  ghost predicate Heads(within: seq<string>, chain: seq<string>, short: Scouted, full: seq<string>) {
    && chain <= short.listed <= full
    && (forall i :: |chain| <= i < |short.listed| ==> short.listed[i] in within)
    && (if short.stopped then |short.listed| < |full| && full[|short.listed|] !in within else short.listed == full)
  }

  lemma {:induction false} ScoutHeadsExplore(g: Graph, within: seq<string>, parents: seq<string>, chain: seq<string>)
    ensures Heads(within, chain, Scout(g, within, parents, chain), Explore(g, parents, chain))
    decreases Unlisted(g, chain), |parents|
  {
    if parents != [] {
      var p, rest := parents[0], parents[1..];
      ListingShrinks(g, chain, p);
      if p in chain {
        ScoutHeadsExplore(g, within, rest, chain);
      } else {
        var next := Explore(g, ParentsOf(g, p), chain + [p]);
        if p !in within {
          assert next[|chain|] == (chain + [p])[|chain|] && next <= Explore(g, rest, next);
        } else {
          var first := Scout(g, within, ParentsOf(g, p), chain + [p]);
          LongerListsMore(g, chain, next);
          LongerListsMore(g, chain, first.listed);
          ScoutHeadsExplore(g, within, ParentsOf(g, p), chain + [p]);
          if !first.stopped { ScoutHeadsExplore(g, within, rest, next); }
          HeadsTogether(within, chain, p, first, next, Scout(g, within, rest, next), Explore(g, rest, next));
        }
      }
    }
  }

  lemma HeadsTogether(within: seq<string>, chain: seq<string>, p: string, first: Scouted, next: seq<string>,
                      second: Scouted, full: seq<string>)
    requires p in within && next <= full && Heads(within, chain + [p], first, next)
    requires !first.stopped ==> Heads(within, next, second, full)
    ensures Heads(within, chain, if first.stopped then first else second, full)
  {
    assert first.listed[|chain|] == (chain + [p])[|chain|] == p;
    if !first.stopped {
      assert forall i :: |next| <= i < |second.listed| ==> second.listed[i] in within;
      assert forall i :: 0 <= i < |next| ==> second.listed[i] == next[i];
    }
  }

  /**
   * The chain lists the direct parents first exactly when the search that gives up at the first step out of them
   * has by then listed them all.
   */
  lemma ParentsFirstExactly(g: Graph, name: string)
    ensures
      var parents := ParentsOf(g, name);
      ParentsFirst(Explore(g, parents, []), parents)
      <==> forall i :: 0 <= i < |parents| ==> parents[i] in Scout(g, parents, parents, []).listed
  {
    var parents := ParentsOf(g, name);
    ScoutHeadsExplore(g, parents, parents, []);
    ExploreLists(g, parents, []);
    HeadDecides(parents, Scout(g, parents, parents, []), Explore(g, parents, []));
  }

  lemma HeadDecides(parents: seq<string>, short: Scouted, full: seq<string>)
    requires Heads(parents, [], short, full) && NoDuplicates(full)
    requires forall i :: 0 <= i < |parents| ==> parents[i] in full
    ensures ParentsFirst(full, parents) <==> forall i :: 0 <= i < |parents| ==> parents[i] in short.listed
  {
    var n := |short.listed|;
    if ParentsFirst(full, parents) {
      forall i | 0 <= i < |parents| ensures parents[i] in short.listed {
        var j :| 0 <= j < |full| && full[j] == parents[i];
        if j < n { assert short.listed[j] == full[j]; }
      }
    }
    if forall i :: 0 <= i < |parents| ==> parents[i] in short.listed {
      forall i, j | 0 <= i < j < |full| && full[j] in parents ensures full[i] in parents {
        var k :| 0 <= k < n && short.listed[k] == full[j];
        assert full[k] == full[j] && k == j;
        assert short.listed[i] == full[i];
      }
    }
  }

  /** Nothing but the declarations of the roles in `within` matters to the short search. */
  lemma {:induction false} ScoutReadsOnlyWithin(g: Graph, h: Graph, within: seq<string>, parents: seq<string>,
                                                chain: seq<string>)
    requires forall i :: 0 <= i < |within| ==> ParentsOf(g, within[i]) == ParentsOf(h, within[i])
    ensures Scout(g, within, parents, chain) == Scout(h, within, parents, chain)
    decreases Unlisted(g, chain), |parents|
  {
    if parents != [] {
      var p := parents[0];
      ListingShrinks(g, chain, p);
      if p in chain {
        ScoutReadsOnlyWithin(g, h, within, parents[1..], chain);
      } else if p in within {
        ScoutReadsOnlyWithin(g, h, within, ParentsOf(g, p), chain + [p]);
        var first := Scout(g, within, ParentsOf(g, p), chain + [p]);
        LongerListsMore(g, chain, first.listed);
        if !first.stopped { ScoutReadsOnlyWithin(g, h, within, parents[1..], first.listed); }
      }
    }
  }

  /** A hierarchy whose chain does not: the first parent's own parent is listed before the second parent. */
  lemma GrandparentCanComeFirst()
    ensures
      var g := map["a" := RoleValue({}, ["b", "c"]), "b" := RoleValue({}, ["d"])];
      var chain := Explore(g, ParentsOf(g, "a"), []);
      chain == ["b", "d", "c"] && !ParentsFirst(chain, ParentsOf(g, "a"))
  {
    var g := map["a" := RoleValue({}, ["b", "c"]), "b" := RoleValue({}, ["d"])];
    assert ["b", "c"][1..] == ["c"] && ["c"][1..] == [] && ["d"][1..] == [];
    assert Explore(g, ["c"], ["b", "d"]) == ["b", "d", "c"] by {
      assert Explore(g, [], ["b", "d"] + ["c"]) == ["b", "d", "c"];
    }
    assert Explore(g, ["d"], ["b"]) == ["b", "d"] by { assert Explore(g, [], ["b"] + ["d"]) == ["b", "d"]; }
    assert [] + ["b"] == ["b"];
    var chain := ["b", "d", "c"];
    assert chain[2] in ["b", "c"] && chain[1] !in ["b", "c"];
  }

  method GetAncestorChain(manager: M.Manager, name: string) returns (chain: seq<string>)
    requires manager.Valid()
    ensures chain == Explore(manager.View(), ParentsOf(manager.View(), name), [])
    ensures NoDuplicates(chain) && forall x :: x in chain <==> Above(manager.View(), name, x)
  {
    chain := Visit(manager, name, []);
    ChainIsAncestors(manager.View(), name);
  }

  lemma ExploreNext(g: Graph, parents: seq<string>, i: nat, chain: seq<string>)
    requires i < |parents|
    ensures Explore(g, parents[i..], chain) == Explore(g, parents[i + 1..],
      if parents[i] in chain then chain else Explore(g, ParentsOf(g, parents[i]), chain + [parents[i]]))
  {
    assert parents[i..][0] == parents[i] && parents[i..][1..] == parents[i + 1..];
  }

  lemma ListingShrinksFrom(g: Graph, chain: seq<string>, longer: seq<string>, p: string)
    requires chain <= longer && p !in longer
    ensures
      var rest := Unlisted(g, longer + [p]);
      rest < Unlisted(g, chain) || (rest == Unlisted(g, chain) && p !in g)
  {
    ListingShrinks(g, longer, p);
    LongerListsMore(g, chain, longer);
  }

  /** A visit that has dealt with the first `done` parents. */
  ghost predicate Along(g: Graph, parents: seq<string>, before: seq<string>, done: nat, chain: seq<string>)
    requires done <= |parents|
  {
    before <= chain && Explore(g, parents, before) == Explore(g, parents[done..], chain)
  }

  lemma VisitStep(g: Graph, parents: seq<string>, before: seq<string>, i: nat, chain: seq<string>)
    requires i < |parents| && Along(g, parents, before, i, chain)
    ensures parents[i] in chain ==> Along(g, parents, before, i + 1, chain)
    ensures parents[i] !in chain ==>
      var deeper := chain + [parents[i]];
      && (Unlisted(g, deeper) < Unlisted(g, before) || (Unlisted(g, deeper) == Unlisted(g, before) && parents[i] !in g))
      && Along(g, parents, before, i + 1, Explore(g, ParentsOf(g, parents[i]), deeper))
  {
    ExploreNext(g, parents, i, chain);
    if parents[i] !in chain { ListingShrinksFrom(g, before, chain, parents[i]); }
  }

  method Visit(manager: M.Manager, name: string, chain: seq<string>) returns (chain': seq<string>)
    requires manager.Valid()
    ensures chain' == Explore(manager.View(), ParentsOf(manager.View(), name), chain)
    decreases Unlisted(manager.View(), chain), name in manager.roles
  {
    chain' := chain;
    if name in manager.roles {
      ghost var g := manager.View();
      var parents := manager.roles[name].inherits;
      for i := 0 to |parents|
        invariant Along(g, parents, chain, i, chain')
      {
        VisitStep(g, parents, chain, i, chain');
        if parents[i] !in chain' {
          chain' := Visit(manager, parents[i], chain' + [parents[i]]);
        }
      }
    }
  }

  /** The permissions found on the roles a role reaches are those of itself and of its chain. */
  lemma PermissionsComeFromTheChain(g: Graph, name: string, chain: seq<string>, permission: string)
    requires forall x :: x in chain <==> Above(g, name, x)
    ensures (exists x :: Reach(g, name, x) && x in g && permission in g[x].permissions)
       <==> (exists x :: (x == name || x in chain) && x in g && permission in g[x].permissions)
  {
    forall x ensures Reach(g, name, x) <==> x == name || x in chain { ReachSplits(g, name, x); }
  }
}

/**
 * The role registry: depth-first permission resolution and cycle detection over mutable
 * role objects, each search proved equal to reachability in the inheritance graph.
 */
module RoleManager {
  import opened Common
  import opened RoleGraph

  /** Everything the given roles grant directly. */
  function PermissionsOf(g: Graph, roles: set<string>): set<string> {
    set x, p | x in roles && x in g && p in g[x].permissions :: p
  }

  /** Some role reachable from `name` does not exist. */
  ghost predicate ReachesUnknown(g: Graph, name: string) {
    exists x :: Reach(g, name, x) && x !in g
  }

  // ---- What a search from one role leaves behind ------------------------------

  /** A finished search: the newly seen roles exist, descend from `root`, and lead only to seen roles. */
  ghost predicate Explored(g: Graph, root: string, before: set<string>, after: set<string>) {
    && before <= after && root in after
    && (forall x :: x in after - before ==> x in g && Reach(g, root, x))
    && (forall x, y :: x in after - before && Edge(g, x, y) ==> y in after)
  }

  /** A search that has entered `root` and finished its first `done` parents. */
  ghost predicate Exploring(g: Graph, root: string, before: set<string>, after: set<string>, done: nat) {
    && root in g && root !in before && before + {root} <= after && done <= |g[root].inherits|
    && (forall x :: x in after - before ==> x in g && Reach(g, root, x))
    && (forall x, y :: x in after - before && x != root && Edge(g, x, y) ==> y in after)
    && (forall i :: 0 <= i < done ==> g[root].inherits[i] in after)
  }

  lemma ExploreParent(g: Graph, root: string, before: set<string>, mid: set<string>, after: set<string>, done: nat)
    requires Exploring(g, root, before, mid, done) && done < |g[root].inherits|
    requires Explored(g, g[root].inherits[done], mid, after)
    ensures Exploring(g, root, before, after, done + 1)
    ensures PermissionsOf(g, after - before) == PermissionsOf(g, mid - before) + PermissionsOf(g, after - mid)
  {
    var parent := g[root].inherits[done];
    assert Edge(g, root, parent);
    forall x | x in after - before ensures x in g && Reach(g, root, x) {
      if x !in mid { ReachStep(g, root, parent, x); }
    }
    assert after - before == (mid - before) + (after - mid);
  }

  lemma ExploringDone(g: Graph, root: string, before: set<string>, after: set<string>)
    requires root in g && Exploring(g, root, before, after, |g[root].inherits|)
    ensures Explored(g, root, before, after)
  {
  }

  /** A search started with nothing seen has seen exactly the reachable roles, and they all exist. */
  lemma ExploredFromNothing(g: Graph, root: string, after: set<string>)
    requires Explored(g, root, {}, after)
    ensures forall x :: x in after <==> Reach(g, root, x)
    ensures !ReachesUnknown(g, root)
  {
    assert after - {} == after;
    forall x | Reach(g, root, x) ensures x in after {
      ClosedContainsReachable(g, after, root, x);
    }
  }

  // ---- What a cycle check leaves behind ---------------------------------------

  /** A check that raised nothing: the parents and everything above the newly visited roles avoid `role`. */
  ghost predicate Cleared(g: Graph, role: string, parents: seq<string>, before: set<string>, after: set<string>) {
    && before <= after && role !in after
    && (forall i :: 0 <= i < |parents| ==> parents[i] in after)
    && (forall x, y :: x in after - before && Edge(g, x, y) ==> y in after)
  }

  lemma ClearedFromNothing(g: Graph, role: string, parents: seq<string>, after: set<string>)
    requires Cleared(g, role, parents, {}, after)
    ensures !AnyReaches(g, parents, role)
  {
    assert after - {} == after;
    forall i | 0 <= i < |parents| ensures !Reach(g, parents[i], role) {
      if Reach(g, parents[i], role) {
        ClosedContainsReachable(g, after, parents[i], role);
      }
    }
  }

  lemma ClearParent(g: Graph, role: string, parents: seq<string>, i: nat,
                    before: set<string>, mid: set<string>, after: set<string>)
    requires i < |parents| && Cleared(g, role, parents[..i], before, mid)
    requires parents[i] !in mid && parents[i] != role
    requires Cleared(g, role, if parents[i] in g then g[parents[i]].inherits else [], mid + {parents[i]}, after)
    ensures Cleared(g, role, parents[..i + 1], before, after)
  {
    forall x, y | x in after - before && Edge(g, x, y) ensures y in after {
      if x in mid {
      } else if x == parents[i] {
        var k :| 0 <= k < |g[x].inherits| && g[x].inherits[k] == y;
      }
    }
  }

  // ---- Registry operations as graph changes -----------------------------------

  function SetParents(g: Graph, name: string, parents: seq<string>): Graph
    requires name in g
  {
    g[name := g[name].(inherits := parents)]
  }

  /** Wiring parents is refused exactly when it would close a cycle through the role. */
  lemma SetInheritanceExact(g: Graph, name: string, parents: seq<string>)
    requires name in g
    ensures Acyclic(SetParents(g, name, parents))
       <==> Acyclic(SetParents(g, name, [])) && !AnyReaches(g, parents, name)
  {
    RewiringExact(g, SetParents(g, name, []), SetParents(g, name, parents), name, parents);
  }

  /** So on an acyclic registry the check accepts exactly the wirings that keep it acyclic. */
  lemma SetInheritanceKeepsAcyclic(g: Graph, name: string, parents: seq<string>)
    requires name in g && Acyclic(g)
    ensures Acyclic(SetParents(g, name, parents)) <==> !AnyReaches(g, parents, name)
  {
    SubgraphOfAcyclic(SetParents(g, name, []), g);
    SetInheritanceExact(g, name, parents);
  }

  /** Creating a role makes no such check; it keeps the registry acyclic exactly when the check would have passed. */
  lemma CreateRoleKeepsAcyclicExactly(g: Graph, name: string, value: RoleValue)
    requires name !in g && Acyclic(g)
    ensures Acyclic(g[name := value]) <==> !AnyReaches(g, value.inherits, name)
  {
    RewiringExact(g, g, g[name := value], name, value.inherits);
  }

  /** And it can fail: a role may be created as its own parent. */
  lemma CreateRoleCanCloseACycle(name: string)
    ensures Acyclic(map[]) && !Acyclic(map[name := RoleValue({}, [name])])
  {
    var g: Graph := map[name := RoleValue({}, [name])];
    assert Edge(g, name, name);
    ReachSelf(g, name);
    assert Above(g, name, name);
  }

  datatype RoleError = UnknownRole | AlreadyExists | InheritanceCycle

  // ---- The registry object ----------------------------------------------------

  class Role {
    const name: string
    var permissions: set<string>
    var inherits: seq<string>

    constructor (name: string, permissions: set<string>, inherits: seq<string>)
      ensures this.name == name && this.permissions == permissions && this.inherits == inherits
    {
      this.name, this.permissions, this.inherits := name, permissions, inherits;
    }
  }

  class Manager {
    var roles: map<string, Role>

    ghost predicate Valid()
      reads this
    {
      forall n :: n in roles ==> roles[n].name == n
    }

    ghost function View(): Graph
      reads this, roles.Values
    {
      map n | n in roles :: RoleValue(roles[n].permissions, roles[n].inherits)
    }

    constructor ()
      ensures Valid() && View() == map[] && roles == map[]
    {
      roles := map[];
    }

    method CreateRole(name: string, permissions: seq<string>, inherits: seq<string>)
      returns (r: Result<Role, RoleError>)
      requires Valid()
      modifies this
      ensures Valid()
      ensures name in old(roles) ==> r == Err(AlreadyExists) && roles == old(roles)
      ensures name !in old(roles) ==> r.Ok? && fresh(r.value) && roles == old(roles)[name := r.value]
      ensures name !in old(roles) ==> View() == old(View())[name := RoleValue((set p | p in permissions), inherits)]
    {
      if name in roles { return Err(AlreadyExists); }
      var role := new Role(name, (set p | p in permissions), inherits);
      roles := roles[name := role];
      r := Ok(role);
    }

    method DeleteRole(name: string) returns (existed: bool)
      requires Valid()
      modifies this
      ensures Valid() && existed == (name in old(roles)) && roles == old(roles) - {name}
      ensures View() == old(View()) - {name}
    {
      existed := name in roles;
      roles := roles - {name};
    }

    method AddPermission(name: string, permission: string) returns (r: Result<(), RoleError>)
      requires Valid()
      modifies roles.Values
      ensures roles == old(roles)
      ensures r == if name in roles then Ok(()) else Err(UnknownRole)
      ensures View() ==
        if name !in roles then old(View())
        else old(View())[name := old(View()[name].(permissions := View()[name].permissions + {permission}))]
    {
      if name !in roles { return Err(UnknownRole); }
      roles[name].permissions := roles[name].permissions + {permission};
      r := Ok(());
    }

    method RemovePermission(name: string, permission: string) returns (r: Result<(), RoleError>)
      requires Valid()
      modifies roles.Values
      ensures roles == old(roles)
      ensures r == if name in roles then Ok(()) else Err(UnknownRole)
      ensures View() ==
        if name !in roles then old(View())
        else old(View())[name := old(View()[name].(permissions := View()[name].permissions - {permission}))]
    {
      if name !in roles { return Err(UnknownRole); }
      roles[name].permissions := roles[name].permissions - {permission};
      r := Ok(());
    }

    /** Fails for an unknown role or when a parent already reaches the role; otherwise replaces its parents. */
    method SetInheritance(name: string, parents: seq<string>) returns (r: Result<(), RoleError>)
      requires Valid()
      modifies roles.Values
      ensures roles == old(roles)
      ensures r == if name !in roles then Err(UnknownRole)
                   else if AnyReaches(old(View()), parents, name) then Err(InheritanceCycle) else Ok(())
      ensures View() == if r.Ok? then SetParents(old(View()), name, parents) else old(View())
      ensures forall n :: n in roles ==>
        && View()[n].permissions == old(View())[n].permissions
        && View()[n].inherits == if r.Ok? && n == name then parents else old(View())[n].inherits
    {
      if name !in roles { return Err(UnknownRole); }
      var ok, visited := AssertNoCycle(name, parents, {});
      if !ok { return Err(InheritanceCycle); }
      ClearedFromNothing(View(), name, parents, visited);
      roles[name].inherits := parents;
      r := Ok(());
    }

    /**
     * The permissions of a role, or the first unknown role met. `seen` is shared by the whole
     * search; a role already in it contributes nothing more.
     */
    method Resolve(name: string, seen: set<string>) returns (r: Result<set<string>, RoleError>, seen': set<string>)
      requires Valid()
      ensures r.Ok? ==> Explored(View(), name, seen, seen') && r.value == PermissionsOf(View(), seen' - seen)
      ensures r.Err? ==> r == Err(UnknownRole) && ReachesUnknown(View(), name)
      decreases roles.Keys - seen
    {
      ghost var g := View();
      if name in seen { return Ok({}), seen; }
      seen' := seen + {name};
      ReachSelf(g, name);
      if name !in roles { return Err(UnknownRole), seen'; }
      var role := roles[name];
      var result := role.permissions;
      assert seen' - seen == {name};
      for i := 0 to |role.inherits|
        invariant Exploring(g, name, seen, seen', i)
        invariant result == PermissionsOf(g, seen' - seen)
      {
        var sub, seen'' := Resolve(role.inherits[i], seen');
        if sub.Err? {
          assert Edge(g, name, role.inherits[i]);
          ghost var x :| Reach(g, role.inherits[i], x) && x !in g;
          ReachStep(g, name, role.inherits[i], x);
          return sub, seen'';
        }
        ExploreParent(g, name, seen, seen', seen'', i);
        result := result + sub.value;
        seen' := seen'';
      }
      ExploringDone(g, name, seen, seen');
      r := Ok(result);
    }

    /** Fails exactly when an unknown role is reachable; otherwise yields what all reachable roles grant. */
    method ResolvePermissions(name: string) returns (r: Result<set<string>, RoleError>)
      requires Valid()
      ensures r.Err? <==> ReachesUnknown(View(), name)
      ensures r.Ok? ==> forall p :: p in r.value <==>
        exists x :: Reach(View(), name, x) && x in View() && p in View()[x].permissions
    {
      var seen;
      r, seen := Resolve(name, {});
      if r.Ok? {
        ExploredFromNothing(View(), name, seen);
        assert seen - {} == seen;
      }
    }

    method HasPermission(name: string, permission: string) returns (r: Result<bool, RoleError>)
      requires Valid()
      ensures r.Err? <==> ReachesUnknown(View(), name)
      ensures r.Ok? ==>
        (r.value <==> exists x :: Reach(View(), name, x) && x in View() && permission in View()[x].permissions)
    {
      var all := ResolvePermissions(name);
      r := match all case Ok(s) => Ok(permission in s) case Err(e) => Err(e);
    }

    /** Walks upwards from `parents`; `ok` is false when `role` was met. */
    method AssertNoCycle(role: string, parents: seq<string>, visited: set<string>)
      returns (ok: bool, visited': set<string>)
      requires Valid() && role !in visited
      ensures ok ==> Cleared(View(), role, parents, visited, visited')
      ensures !ok ==> AnyReaches(View(), parents, role)
      decreases roles.Keys - visited, |parents|
    {
      ghost var g := View();
      visited' := visited;
      for i := 0 to |parents|
        invariant Cleared(g, role, parents[..i], visited, visited')
      {
        var parent := parents[i];
        if parent == role {
          ReachSelf(g, role);
          return false, visited';
        }
        if parent !in visited' {
          ghost var mid := visited';
          visited' := visited' + {parent};
          if parent in roles {
            ok, visited' := AssertNoCycle(role, roles[parent].inherits, visited');
            if !ok {
              ghost var k :| 0 <= k < |g[parent].inherits| && Reach(g, g[parent].inherits[k], role);
              assert Edge(g, parent, g[parent].inherits[k]);
              ReachStep(g, parent, g[parent].inherits[k], role);
              return;
            }
          }
          ClearParent(g, role, parents, i, visited, mid, visited');
        }
      }
      ok := true;
      assert parents[..|parents|] == parents;
    }
  }
}

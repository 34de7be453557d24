/** The RBAC service over its tables: roles, inheritance, permissions, grants and assignments. */
module Rbac {
  import opened Inheritance
  import opened Options
  import Ordering

  datatype Role = Role(code: string, name: string, description: string, isSystem: bool)

  datatype Permission = Permission(resource: string, action: string, scope: string)

  datatype Error =
    | CodeExists | RoleNotFound | SelfInheritance | InheritanceCycle | SystemHierarchy | SystemRole
    | DuplicateParent | PermissionExists | PermissionNotFound

  datatype Outcome = Pass | Fail(error: Error)

  datatype Decision = Decision(allowed: bool, effective: seq<RoleId>)

  predicate Matches(p: Permission, resource: string, action: string, scope: string) {
    p.resource in {resource, "*"} && p.action in {action, "*"} && p.scope in {scope, "*"}
  }

  /** Some role the user reaches carries a permission that matches. */
  ghost predicate Allowed(assignments: set<(int, RoleId)>, inheritance: Relation, grants: set<(RoleId, int)>,
                          permissions: map<int, Permission>, user: int, resource: string, action: string,
                          scope: string) {
    exists root, role, id :: (user, root) in assignments && Inherits(inheritance, root, role)
      && (role, id) in grants && id in permissions && Matches(permissions[id], resource, action, scope)
  }

  /** In the rows themselves: from a role of the user, inheritance rows lead in some number of steps to a role with a
      permission whose resource, action and scope are each the one asked for or the wildcard. */
  lemma AllowedMeaning(assignments: set<(int, RoleId)>, inheritance: Relation, grants: set<(RoleId, int)>,
                       permissions: map<int, Permission>, user: int, resource: string, action: string, scope: string)
    ensures Allowed(assignments, inheritance, grants, permissions, user, resource, action, scope) <==>
      exists p: seq<RoleId>, id ::
        && p != [] && (user, p[0]) in assignments
        && (forall i :: 0 <= i < |p| - 1 ==> (p[i], p[i + 1]) in inheritance)
        && (p[|p| - 1], id) in grants && id in permissions
        && (permissions[id].resource == resource || permissions[id].resource == "*")
        && (permissions[id].action == action || permissions[id].action == "*")
        && (permissions[id].scope == scope || permissions[id].scope == "*")
  {
    if Allowed(assignments, inheritance, grants, permissions, user, resource, action, scope) {
      var root, role, id :| (user, root) in assignments && Inherits(inheritance, root, role)
        && (role, id) in grants && id in permissions && Matches(permissions[id], resource, action, scope);
      var p :| Chain(inheritance, root, role, p);
      assert (p[|p| - 1], id) in grants;
    }
    if p: seq<RoleId>, id :|
      && p != [] && (user, p[0]) in assignments
      && (forall i :: 0 <= i < |p| - 1 ==> (p[i], p[i + 1]) in inheritance)
      && (p[|p| - 1], id) in grants && id in permissions
      && (permissions[id].resource == resource || permissions[id].resource == "*")
      && (permissions[id].action == action || permissions[id].action == "*")
      && (permissions[id].scope == scope || permissions[id].scope == "*") {
      assert Chain(inheritance, p[0], p[|p| - 1], p);
      assert Matches(permissions[id], resource, action, scope);
    }
  }

  /** Adding grants, assignments, inheritance rows or permissions never turns an allow into a deny. */
  lemma AllowedMonotone(assignments: set<(int, RoleId)>, inheritance: Relation, grants: set<(RoleId, int)>,
                        permissions: map<int, Permission>, assignments': set<(int, RoleId)>, inheritance': Relation,
                        grants': set<(RoleId, int)>, permissions': map<int, Permission>, user: int, resource: string,
                        action: string, scope: string)
    requires assignments <= assignments' && inheritance <= inheritance' && grants <= grants'
    requires forall id :: id in permissions ==> id in permissions' && permissions'[id] == permissions[id]
    requires Allowed(assignments, inheritance, grants, permissions, user, resource, action, scope)
    ensures Allowed(assignments', inheritance', grants', permissions', user, resource, action, scope)
  {
    var root, role, id :| (user, root) in assignments && Inherits(inheritance, root, role)
      && (role, id) in grants && id in permissions && Matches(permissions[id], resource, action, scope);
    InheritsMonotone(inheritance, inheritance', root, role);
  }

  predicate Unrepeated(parents: seq<RoleId>) {
    forall i, j :: 0 <= i < j < |parents| ==> parents[i] != parents[j]
  }

  function Members(parents: seq<RoleId>): set<RoleId> {
    set p | p in parents
  }

  /** The verdict of _validate_parents on the current rows, with the first error it meets. */
  ghost predicate Verdict(roles: map<RoleId, Role>, inheritance: Relation, role: RoleId, parents: seq<RoleId>,
                          r: Outcome) {
    && (r.Pass? <==> role !in parents && forall q :: q in parents ==> q in roles && !Inherits(inheritance, q, role))
    && (r == Fail(SelfInheritance) <==> role in parents)
    && (r.Fail? && role !in parents ==> exists i :: FirstRejected(roles, inheritance, role, parents, i, r.error))
  }

  ghost predicate FirstRejected(roles: map<RoleId, Role>, inheritance: Relation, role: RoleId, parents: seq<RoleId>,
                                i: int, error: Error) {
    && 0 <= i < |parents|
    && (forall j :: 0 <= j < i ==> parents[j] in roles && !Inherits(inheritance, parents[j], role))
    && error == (if parents[i] !in roles then RoleNotFound else InheritanceCycle)
    && (parents[i] in roles ==> Inherits(inheritance, parents[i], role))
  }

  /** The outcome of validating and then replacing: the first error of the verdict, or the key violation that a
      repeated parent meets after a clean verdict. */
  ghost predicate Replaced(roles: map<RoleId, Role>, inheritance: Relation, role: RoleId, parents: seq<RoleId>,
                           r: Outcome) {
    if r == Fail(DuplicateParent) then Verdict(roles, inheritance, role, parents, Pass) && !Unrepeated(parents)
    else Verdict(roles, inheritance, role, parents, r) && (r.Pass? ==> Unrepeated(parents))
  }

  /** Replacing a role's parents by these would be accepted: no repeats, all exist, no cycle results. */
  ghost predicate Acceptable(roles: map<RoleId, Role>, inheritance: Relation, role: RoleId, parents: seq<RoleId>) {
    Unrepeated(parents) && (forall q :: q in parents ==> q in roles)
      && Acyclic(Replace(inheritance, role, Members(parents)))
  }

  lemma NoRows(rel: Relation, q: RoleId, r: RoleId)
    requires q != r && forall e :: e in rel ==> e.1 != r
    ensures !Inherits(rel, q, r)
  {
    if Inherits(rel, q, r) {
      var x := InheritsLast(rel, q, r);
    }
  }

  lemma AcyclicSubset(small: Relation, large: Relation)
    requires small <= large && Acyclic(large)
    ensures Acyclic(small)
  {
    forall r ensures !OnCycle(small, r) {
      if q :| (r, q) in small && Inherits(small, q, r) {
        InheritsMonotone(small, large, q, r);
        CycleFrom(large, r, q);
      }
    }
  }

  class Service {
    var roles: map<RoleId, Role>
    var inheritance: Relation
    var permissions: map<int, Permission>
    var grants: set<(RoleId, int)>
    var assignments: set<(int, RoleId)>

    ghost predicate Valid()
      reads this
    {
      && Acyclic(inheritance)
      && (forall e :: e in inheritance ==> e.0 in roles && e.1 in roles)
      && (forall e :: e in grants ==> e.0 in roles && e.1 in permissions)
      && (forall e :: e in assignments ==> e.1 in roles)
      && (forall a, b :: a in roles && b in roles && roles[a].code == roles[b].code ==> a == b)
      && (forall a, b :: a in permissions && b in permissions && permissions[a] == permissions[b] ==> a == b)
    }

    constructor ()
      ensures Valid() && roles == map[] && inheritance == {} && permissions == map[] && grants == {}
      ensures assignments == {}
    {
      roles, inheritance, permissions, grants, assignments := map[], {}, map[], {}, {};
    }

    /** The rows' parents of one role, in no particular order. */
    method ParentIds(role: RoleId) returns (parents: seq<RoleId>)
      ensures forall q :: q in parents <==> (role, q) in inheritance
    {
      parents := [];
      var rest := set e | e in inheritance && e.0 == role;
      while rest != {}
        invariant forall e :: e in rest ==> e in inheritance && e.0 == role
        invariant forall q :: (role, q) in inheritance <==> q in parents || (role, q) in rest
      {
        var e :| e in rest;
        parents := parents + [e.1];
        rest := rest - {e};
      }
    }

    /** The worklist closure: the reflexive-transitive closure of the roots, on any finite relation. */
    method Effective(roots: seq<RoleId>) returns (result: set<RoleId>)
      ensures forall b :: b in result <==> Reached(inheritance, roots, b)
    {
      result := {};
      var pending := roots;
      ghost var universe := Members(roots) + (set e | e in inheritance :: e.1);
      WorklistStart(inheritance, roots);
      hide WorklistInv, Reached;
      while pending != []
        invariant result <= universe && forall x :: x in pending ==> x in universe
        invariant WorklistInv(inheritance, roots, result, pending)
        decreases universe - result, |pending|
      {
        var current := pending[|pending| - 1];
        var shorter := pending[..|pending| - 1];
        assert pending == shorter + [current];
        pending := shorter;
        var parents := ParentIds(current);
        WorklistNext(inheritance, roots, result, pending, current, parents);
        if current !in result {
          assert current in universe - result;
          result := result + {current};
          forall q | q in parents ensures q in universe {
            assert (current, q) in inheritance;
          }
          pending := pending + parents;
        }
      }
      forall b ensures b in result <==> Reached(inheritance, roots, b) {
        WorklistDone(inheritance, roots, result, b);
      }
    }

    method ValidateParents(role: RoleId, parents: seq<RoleId>) returns (r: Outcome)
      ensures Verdict(roles, inheritance, role, parents, r)
    {
      if role in parents { return Fail(SelfInheritance); }
      for i := 0 to |parents|
        invariant forall j :: 0 <= j < i ==> parents[j] in roles && !Inherits(inheritance, parents[j], role)
      {
        var parent := parents[i];
        assert parent in parents;
        if parent !in roles {
          assert FirstRejected(roles, inheritance, role, parents, i, RoleNotFound);
          return Fail(RoleNotFound);
        }
        var effective := Effective([parent]);
        assert parent in [parent];
        if role in effective {
          assert FirstRejected(roles, inheritance, role, parents, i, InheritanceCycle);
          return Fail(InheritanceCycle);
        }
      }
      return Pass;
    }

    /** Delete the role's rows, insert one a parent; a repeated parent breaks the primary key and rolls back. */
    method SetParents(role: RoleId, parents: seq<RoleId>) returns (r: Outcome)
      modifies this`inheritance
      ensures r == if Unrepeated(parents) then Pass else Fail(DuplicateParent)
      ensures inheritance == if r.Pass? then Replace(old(inheritance), role, Members(parents)) else old(inheritance)
      ensures r.Pass? <==> forall i, j :: 0 <= i < j < |parents| ==> parents[i] != parents[j]
      ensures r.Pass? ==> forall a, b :: (a, b) in inheritance <==>
        if a == role then b in parents else (a, b) in old(inheritance)
    {
      if !Unrepeated(parents) { return Fail(DuplicateParent); }
      inheritance := (set e | e in inheritance && e.0 != role) + (set q | q in parents :: (role, q));
      return Pass;
    }

    /** Validate, then replace: accepted exactly when the resulting hierarchy is acyclic. */
    method Reparent(role: RoleId, parents: seq<RoleId>) returns (r: Outcome)
      requires Valid() && role in roles
      modifies this`inheritance
      ensures Valid()
      ensures r.Pass? <==> Acceptable(roles, old(inheritance), role, parents)
      ensures Replaced(roles, old(inheritance), role, parents, r)
      ensures inheritance == if r.Pass? then Replace(old(inheritance), role, Members(parents)) else old(inheritance)
    {
      r := ValidateParents(role, parents);
      ReplaceAcyclic(inheritance, role, Members(parents));
      InheritsSelf(inheritance, role);
      if r.Fail? { return; }
      r := SetParents(role, parents);
    }

    /** The row is committed before its parents are validated: a rejected parent list leaves the role behind. */
    method CreateRole(code: string, name: string, description: string, parents: seq<RoleId>, id: RoleId)
      returns (r: Outcome)
      requires Valid() && id !in roles
      modifies this`roles, this`inheritance
      ensures Valid()
      ensures r == Fail(CodeExists) <==> exists a :: a in old(roles) && old(roles)[a].code == code
      ensures r == Fail(CodeExists) ==> roles == old(roles)
      ensures r != Fail(CodeExists) ==>
        && roles == old(roles)[id := Role(code, name, description, false)]
        && Replaced(roles, old(inheritance), id, parents, r)
      ensures r.Pass? ==> forall q :: q in parents ==> q in old(roles)
      ensures r != Fail(CodeExists) ==>
        (r.Pass? <==> Unrepeated(parents) && forall q :: q in parents ==> q in old(roles))
      ensures inheritance == old(inheritance) + (if r.Pass? then set q | q in parents :: (id, q) else {})
    {
      if exists a :: a in roles && roles[a].code == code { return Fail(CodeExists); }
      roles := roles[id := Role(code, name, description, false)];
      assert forall e :: e in inheritance ==> e.0 != id && e.1 != id;
      forall q | q != id ensures !Inherits(inheritance, q, id) {
        NoRows(inheritance, q, id);
      }
      r := ValidateParents(id, parents);
      ReplaceAcyclic(inheritance, id, Members(parents));
      if r.Fail? { return; }
      r := SetParents(id, parents);
    }

    /** Name and description are committed first, so they stay changed when the parents are rejected. */
    method UpdateRole(id: RoleId, name: Option<string>, description: Option<string>, parents: Option<seq<RoleId>>)
      returns (r: Outcome)
      requires Valid()
      modifies this`roles, this`inheritance
      ensures Valid()
      ensures r == Fail(SystemHierarchy) <==> id in old(roles) && old(roles)[id].isSystem && parents.Some?
      ensures id !in old(roles) || r == Fail(SystemHierarchy) ==>
        r.Fail? && roles == old(roles) && inheritance == old(inheritance)
      ensures id !in old(roles) ==> r == Fail(RoleNotFound)
      ensures id in old(roles) && r != Fail(SystemHierarchy) ==> roles == old(roles)[id := old(roles)[id].(
        name := if name.None? then old(roles)[id].name else name.value,
        description := if description.None? then old(roles)[id].description else description.value)]
      ensures id in old(roles) && parents.None? ==> r.Pass? && inheritance == old(inheritance)
      ensures id in old(roles) && r != Fail(SystemHierarchy) && parents.Some? ==>
        && Replaced(roles, old(inheritance), id, parents.value, r)
        && (r.Pass? <==> Acceptable(old(roles), old(inheritance), id, parents.value))
        && inheritance == if r.Pass? then Replace(old(inheritance), id, Members(parents.value)) else old(inheritance)
    {
      if id !in roles { return Fail(RoleNotFound); }
      var role := roles[id];
      if role.isSystem && parents.Some? { return Fail(SystemHierarchy); }
      if name.Some? { role := role.(name := name.value); }
      if description.Some? { role := role.(description := description.value); }
      roles := roles[id := role];
      r := Pass;
      if parents.Some? {
        r := Reparent(id, parents.value);
      }
    }

    /** Deleting a role cascades to every row that mentions it. */
    method DeleteRole(id: RoleId) returns (r: Outcome)
      requires Valid()
      modifies this
      ensures Valid() && permissions == old(permissions)
      ensures r ==
        if id !in old(roles) then Fail(RoleNotFound)
        else if old(roles)[id].isSystem then Fail(SystemRole) else Pass
      ensures r.Fail? ==>
        roles == old(roles) && inheritance == old(inheritance) && grants == old(grants)
          && assignments == old(assignments)
      ensures r.Pass? ==> roles == old(roles) - {id}
      ensures r.Pass? ==> inheritance == set e | e in old(inheritance) && e.0 != id && e.1 != id
      ensures r.Pass? ==> grants == set e | e in old(grants) && e.0 != id
      ensures r.Pass? ==> assignments == set e | e in old(assignments) && e.1 != id
    {
      if id !in roles { return Fail(RoleNotFound); }
      if roles[id].isSystem { return Fail(SystemRole); }
      roles := roles - {id};
      ghost var before := inheritance;
      inheritance := set e | e in inheritance && e.0 != id && e.1 != id;
      AcyclicSubset(inheritance, before);
      grants := set e | e in grants && e.0 != id;
      assignments := set e | e in assignments && e.1 != id;
      return Pass;
    }

    method CreatePermission(permission: Permission, id: int) returns (r: Outcome)
      requires Valid() && id !in permissions
      modifies this`permissions
      ensures Valid()
      ensures r == if permission in old(permissions).Values then Fail(PermissionExists) else Pass
      ensures permissions == if r.Pass? then old(permissions)[id := permission] else old(permissions)
    {
      if permission in permissions.Values { return Fail(PermissionExists); }
      permissions := permissions[id := permission];
      return Pass;
    }

    method DeletePermission(id: int) returns (r: Outcome)
      requires Valid()
      modifies this`permissions, this`grants
      ensures Valid()
      ensures r == if id in old(permissions) then Pass else Fail(PermissionNotFound)
      ensures permissions == old(permissions) - {id}
      ensures grants == set e | e in old(grants) && e.1 != id
    {
      if id !in permissions {
        assert grants == set e | e in grants && e.1 != id;
        return Fail(PermissionNotFound);
      }
      permissions := permissions - {id};
      grants := set e | e in grants && e.1 != id;
      return Pass;
    }

    /** A grant takes nothing away from anyone. */
    method Grant(role: RoleId, permission: int) returns (r: Outcome)
      requires Valid()
      modifies this`grants
      ensures Valid()
      ensures r ==
        if role !in roles then Fail(RoleNotFound)
        else if permission !in permissions then Fail(PermissionNotFound) else Pass
      ensures grants == if r.Pass? then old(grants) + {(role, permission)} else old(grants)
      ensures forall user, resource, action, scope ::
        old(Allowed(assignments, inheritance, grants, permissions, user, resource, action, scope)) ==>
        Allowed(assignments, inheritance, grants, permissions, user, resource, action, scope)
    {
      if role !in roles { return Fail(RoleNotFound); }
      if permission !in permissions { return Fail(PermissionNotFound); }
      ghost var before := grants;
      if (role, permission) !in grants { grants := grants + {(role, permission)}; }
      forall user, resource, action,
        scope | Allowed(assignments, inheritance, before, permissions, user, resource, action, scope)
        ensures Allowed(assignments, inheritance, grants, permissions, user, resource, action, scope)
      {
        AllowedMonotone(assignments, inheritance, before, permissions, assignments, inheritance, grants, permissions,
          user, resource, action, scope);
      }
      return Pass;
    }

    method Revoke(role: RoleId, permission: int) returns (r: Outcome)
      requires Valid()
      modifies this`grants
      ensures Valid()
      ensures r == if role in roles then Pass else Fail(RoleNotFound)
      ensures grants == if r.Pass? then old(grants) - {(role, permission)} else old(grants)
    {
      if role !in roles { return Fail(RoleNotFound); }
      grants := grants - {(role, permission)};
      return Pass;
    }

    /** An assignment takes nothing away from anyone. */
    method Assign(user: int, role: RoleId) returns (r: Outcome)
      requires Valid()
      modifies this`assignments
      ensures Valid()
      ensures r == if role in roles then Pass else Fail(RoleNotFound)
      ensures assignments == if r.Pass? then old(assignments) + {(user, role)} else old(assignments)
      ensures forall u, resource, action, scope ::
        old(Allowed(assignments, inheritance, grants, permissions, u, resource, action, scope)) ==>
        Allowed(assignments, inheritance, grants, permissions, u, resource, action, scope)
    {
      if role !in roles { return Fail(RoleNotFound); }
      ghost var before := assignments;
      if (user, role) !in assignments { assignments := assignments + {(user, role)}; }
      forall u, resource, action, scope | Allowed(before, inheritance, grants, permissions, u, resource, action, scope)
        ensures Allowed(assignments, inheritance, grants, permissions, u, resource, action, scope)
      {
        AllowedMonotone(before, inheritance, grants, permissions, assignments, inheritance, grants, permissions, u,
          resource, action, scope);
      }
      return Pass;
    }

    method Unassign(user: int, role: RoleId)
      requires Valid()
      modifies this`assignments
      ensures Valid() && assignments == old(assignments) - {(user, role)}
    {
      assignments := assignments - {(user, role)};
    }

    method UserRoleIds(user: int) returns (ids: seq<RoleId>)
      ensures forall r :: r in ids <==> (user, r) in assignments
    {
      ids := [];
      var rest := set e | e in assignments && e.0 == user;
      while rest != {}
        invariant forall e :: e in rest ==> e in assignments && e.0 == user
        invariant forall r :: (user, r) in assignments <==> r in ids || (user, r) in rest
      {
        var e :| e in rest;
        ids := ids + [e.1];
        rest := rest - {e};
      }
    }

    /** Allowed iff some reachable role has a matching or wildcard permission. */
    method IsAllowed(user: int, resource: string, action: string, scope: string) returns (allowed: bool)
      ensures allowed <==> Allowed(assignments, inheritance, grants, permissions, user, resource, action, scope)
    {
      var roots := UserRoleIds(user);
      var effective := Effective(roots);
      var rest := set e | e in grants && e.0 in effective;
      while rest != {}
        invariant forall e :: e in rest ==> e in grants && e.0 in effective
        invariant forall e :: e in grants && e.0 in effective && e !in rest ==>
          !(e.1 in permissions && Matches(permissions[e.1], resource, action, scope))
      {
        var e :| e in rest;
        if e.1 in permissions && Matches(permissions[e.1], resource, action, scope) {
          ghost var root :| root in roots && Inherits(inheritance, root, e.0);
          ghost var role, id := e.0, e.1;
          assert (user, root) in assignments && (role, id) in grants;
          assert Matches(permissions[id], resource, action, scope);
          return true;
        }
        rest := rest - {e};
      }
      forall root, role, id | (user, root) in assignments && Inherits(inheritance, root, role) && (role, id) in grants
        && id in permissions
        ensures !Matches(permissions[id], resource, action, scope)
      {
        assert role in effective;
        assert (role, id).0 in effective;
      }
      return false;
    }

    method Check(user: int, resource: string, action: string, scope: string) returns (d: Decision)
      ensures d.allowed <==> Allowed(assignments, inheritance, grants, permissions, user, resource, action, scope)
      ensures forall b :: b in d.effective <==> exists a :: (user, a) in assignments && Inherits(inheritance, a, b)
      ensures forall i, j :: 0 <= i < j < |d.effective| ==> d.effective[i] < d.effective[j]
    {
      var roots := UserRoleIds(user);
      var closure := Effective(roots);
      var effective := Ordering.Sorted(closure);
      var allowed := IsAllowed(user, resource, action, scope);
      d := Decision(allowed, effective);
    }
  }
}

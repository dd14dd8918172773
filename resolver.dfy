/** The permission resolver of the authentication service: the join that
    follows user -> group -> role -> permission -> module, the fold that
    groups its rows by module name, and the single-pair check. */
module Resolver {
  import opened Common
  import opened Schema

  /** A `(module name, action)` row of the resolver's query. */
  type Grant = (string, string)

  /** Reference definition: a chain of ids links user `u` to action `a` on
      the module named `m`, with every role and permission present. */
  ghost predicate Chain(s: Store, u: Id, m: string, a: string) {
    exists g: Id, r: Id, p: Id ::
      && (u, g) in s.userGroups
      && (g, r) in s.groupRoles
      && r in s.roles
      && (r, p) in s.rolePermissions
      && p in s.permissions
      && s.permissions[p].action == a
      && s.permissions[p].moduleId in s.modules
      && s.modules[s.permissions[p].moduleId].name == m
  }

  /** Roles reached through one of the user's groups, present in `roles`. */
  function UserRoles(s: Store, u: Id): (rs: set<Id>)
    ensures forall r :: r in rs <==> r in s.roles && exists g: Id :: (u, g) in s.userGroups && (g, r) in s.groupRoles
  {
    var rs := set e | e in s.groupRoles && (u, e.0) in s.userGroups && e.1 in s.roles :: e.1;
    assert forall r: Id, g: Id | r in s.roles && (u, g) in s.userGroups && (g, r) in s.groupRoles :: r in rs by {
      forall r: Id, g: Id | r in s.roles && (u, g) in s.userGroups && (g, r) in s.groupRoles ensures r in rs {
        assert (g, r).1 == r;
      }
    }
    rs
  }

  /** Permission rows granted to one of those roles. */
  function UserPermissionIds(s: Store, u: Id): (ps: set<Id>)
    ensures forall p :: p in ps <==> p in s.permissions && exists r :: r in UserRoles(s, u) && (r, p) in s.rolePermissions
  {
    var rs := UserRoles(s, u);
    var ps := set e | e in s.rolePermissions && e.0 in rs && e.1 in s.permissions :: e.1;
    assert forall p: Id, r: Id | p in s.permissions && r in rs && (r, p) in s.rolePermissions :: p in ps by {
      forall p: Id, r: Id | p in s.permissions && r in rs && (r, p) in s.rolePermissions ensures p in ps {
        assert (r, p).1 == p;
      }
    }
    ps
  }

  /** `SELECT DISTINCT m.name, p.action` over the five-way join of
      `getUserPermissions`, as a set of rows. */
  function Grants(s: Store, u: Id): (gs: set<Grant>)
    ensures forall m, a :: (m, a) in gs <==> Chain(s, u, m, a)
  {
    var gs := GrantRows(s, u);
    forall m, a ensures (m, a) in gs <==> Chain(s, u, m, a) {
      if Chain(s, u, m, a) {
        ChainIsGranted(s, u, m, a);
      }
      if (m, a) in gs {
        GrantedIsChain(s, u, m, a);
      }
    }
    gs
  }

  /** The module name and action of every permission reached. */
  function GrantRows(s: Store, u: Id): set<Grant> {
    set p | p in UserPermissionIds(s, u) && s.permissions[p].moduleId in s.modules
      :: (s.modules[s.permissions[p].moduleId].name, s.permissions[p].action)
  }

  /** Every chain ends in a permission row the join returns. */
  lemma ChainIsGranted(s: Store, u: Id, m: string, a: string)
    requires Chain(s, u, m, a)
    ensures (m, a) in GrantRows(s, u)
  {
    var g: Id, r: Id, p: Id :| (u, g) in s.userGroups && (g, r) in s.groupRoles && r in s.roles
      && (r, p) in s.rolePermissions && p in s.permissions && s.permissions[p].action == a
      && s.permissions[p].moduleId in s.modules && s.modules[s.permissions[p].moduleId].name == m;
    assert r in UserRoles(s, u);
    assert p in UserPermissionIds(s, u);
  }

  /** Every row the join returns comes from a chain. */
  lemma GrantedIsChain(s: Store, u: Id, m: string, a: string)
    requires (m, a) in GrantRows(s, u)
    ensures Chain(s, u, m, a)
  {
    var ps := UserPermissionIds(s, u);
    var p :| p in ps && s.permissions[p].moduleId in s.modules
      && (m, a) == (s.modules[s.permissions[p].moduleId].name, s.permissions[p].action);
    var r :| r in UserRoles(s, u) && (r, p) in s.rolePermissions;
    var g: Id :| (u, g) in s.userGroups && (g, r) in s.groupRoles;
  }

  /** `checkPermission(userId, module, action)`: some row of the join exists.
      This query does not join `roles`; under the schema's constraints it
      nevertheless agrees with the resolver. */
  function CheckPermission(s: Store, u: Id, m: string, a: string): (b: bool)
    ensures Consistent(s) ==> (b <==> (m, a) in Grants(s, u))
  {
    exists e1, e2, e3 | e1 in s.userGroups && e2 in s.groupRoles && e3 in s.rolePermissions ::
      && e1.0 == u && e1.1 == e2.0 && e2.1 == e3.0
      && e3.1 in s.permissions && s.permissions[e3.1].moduleId in s.modules
      && s.modules[s.permissions[e3.1].moduleId].name == m
      && s.permissions[e3.1].action == a
  }

  /** The rows arrive in an order of the engine's choosing, each once. */
  predicate Enumerates(rows: seq<Grant>, gs: set<Grant>) {
    Distinct(rows) && (forall x | x in rows :: x in gs) && (forall x | x in gs :: x in rows)
  }

  /** The `reduce` of `getUserPermissions`: each row's action is appended to
      the list of its module, creating the list on first sight. */
  function GroupByModule(rows: seq<Grant>): (r: map<string, seq<string>>)
    ensures forall m :: m in r <==> exists a :: (m, a) in rows
    ensures forall m, a | m in r :: a in r[m] <==> (m, a) in rows
    ensures forall m | m in r :: |r[m]| > 0
    decreases |rows|
  {
    if |rows| == 0 then map[]
    else
      var acc := GroupByModule(rows[..|rows| - 1]);
      var row := rows[|rows| - 1];
      assert rows == rows[..|rows| - 1] + [row];
      if row.0 in acc then acc[row.0 := acc[row.0] + [row.1]] else acc[row.0 := [row.1]]
  }

  /** The members every plain JavaScript object inherits from
      `Object.prototype`. */
  const InheritedNames: set<string> := {
    "constructor", "__proto__", "hasOwnProperty", "isPrototypeOf", "propertyIsEnumerable",
    "toLocaleString", "toString", "valueOf",
    "__defineGetter__", "__defineSetter__", "__lookupGetter__", "__lookupSetter__"}

  /** The `reduce` as written, over a `{}` accumulator: for a module whose
      name is an inherited member, `acc[name]` is already truthy (a function
      or an object), so no list is created and `acc[name].push` throws a
      TypeError. `None` stands for that throw. */
  function GroupByModuleAsWritten(rows: seq<Grant>): (r: Option<map<string, seq<string>>>)
    ensures r.None? <==> exists i | 0 <= i < |rows| :: rows[i].0 in InheritedNames
    decreases |rows|
  {
    if |rows| == 0 then Some(map[])
    else
      var init := rows[..|rows| - 1];
      var row := rows[|rows| - 1];
      var acc := GroupByModuleAsWritten(init);
      assert forall i | 0 <= i < |init| :: init[i] == rows[i];
      if acc.None? || row.0 in InheritedNames then None
      else if row.0 in acc.value then Some(acc.value[row.0 := acc.value[row.0] + [row.1]])
      else Some(acc.value[row.0 := [row.1]])
  }

  /** Whenever the fold as written does not throw, it builds the intended
      grouping. */
  lemma {:induction false} AsWrittenAgreesWhenNoThrow(rows: seq<Grant>)
    ensures GroupByModuleAsWritten(rows).Some? ==> GroupByModuleAsWritten(rows).value == GroupByModule(rows)
    decreases |rows|
  {
    if |rows| > 0 {
      AsWrittenAgreesWhenNoThrow(rows[..|rows| - 1]);
    }
  }

  /** A user granted any action on a module named `constructor`: the fold as
      written throws, the intended grouping lists the action. */
  lemma InheritedModuleNameThrows()
    ensures GroupByModuleAsWritten([("constructor", "read")]).None?
    ensures GroupByModule([("constructor", "read")]) == map["constructor" := ["read"]]
  {
    assert [("constructor", "read")][..0] == [];
  }

  /** Distinct rows give lists without repeated actions. */
  lemma {:induction false} GroupByModuleDistinct(rows: seq<Grant>)
    requires Distinct(rows)
    ensures forall m | m in GroupByModule(rows) :: Distinct(GroupByModule(rows)[m])
    decreases |rows|
  {
    if |rows| > 0 {
      var init := rows[..|rows| - 1];
      var row := rows[|rows| - 1];
      assert rows == init + [row];
      GroupByModuleDistinct(init);
      var acc := GroupByModule(init);
      if row.0 in acc {
        assert row !in init by {
          forall k | 0 <= k < |init| ensures init[k] != row {
            assert rows[k] == init[k];
          }
        }
        var l := acc[row.0] + [row.1];
        assert Distinct(l) by {
          forall i, j | 0 <= i < j < |l| ensures l[i] != l[j] {
            if j == |l| - 1 {
              assert l[i] in acc[row.0];
            }
          }
        }
      }
    }
  }

  /** `getUserPermissions(userId)`: `{}` when no row comes back, otherwise the
      rows grouped by module. */
  function UserPermissions(s: Store, u: Id, rows: seq<Grant>): (r: map<string, seq<string>>)
    requires Enumerates(rows, Grants(s, u))
    ensures forall m, a :: (m in r && a in r[m]) <==> Chain(s, u, m, a)
    ensures forall m | m in r :: |r[m]| > 0 && Distinct(r[m])
    ensures Grants(s, u) == {} ==> r == map[]
  {
    GroupByModuleDistinct(rows);
    if |rows| == 0 then map[] else GroupByModule(rows)
  }

  /** The two queries agree: the single-pair check holds exactly when the
      action is listed under the module in the resolver's map. */
  lemma CheckAgreesWithResolver(s: Store, u: Id, rows: seq<Grant>, m: string, a: string)
    requires Consistent(s)
    requires Enumerates(rows, Grants(s, u))
    ensures CheckPermission(s, u, m, a) <==> (m in UserPermissions(s, u, rows) && a in UserPermissions(s, u, rows)[m])
  {
  }

  /** Grants only come from edges: adding edges never withdraws a permission. */
  lemma {:induction false} CheckMonotone(s: Store, t: Store, u: Id, m: string, a: string)
    requires t.permissions == s.permissions && t.modules == s.modules
    requires s.userGroups <= t.userGroups && s.groupRoles <= t.groupRoles && s.rolePermissions <= t.rolePermissions
    ensures CheckPermission(s, u, m, a) ==> CheckPermission(t, u, m, a)
  {
    if CheckPermission(s, u, m, a) {
      var e1, e2, e3 :| e1 in s.userGroups && e2 in s.groupRoles && e3 in s.rolePermissions
        && e1.0 == u && e1.1 == e2.0 && e2.1 == e3.0
        && e3.1 in s.permissions && s.permissions[e3.1].moduleId in s.modules
        && s.modules[s.permissions[e3.1].moduleId].name == m
        && s.permissions[e3.1].action == a;
      assert e1 in t.userGroups && e2 in t.groupRoles && e3 in t.rolePermissions;
    }
  }

  /** A user in no group is granted nothing. */
  lemma NoGroupsNoPermissions(s: Store, u: Id, rows: seq<Grant>)
    requires forall e | e in s.userGroups :: e.0 != u
    requires Enumerates(rows, Grants(s, u))
    ensures UserPermissions(s, u, rows) == map[]
  {
    assert Grants(s, u) == {};
  }
}

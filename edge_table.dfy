/** The delete-all-then-insert replacement that `assignRoles`,
    `assignPermissions` and `assignGroup` perform on one owner's rows of an
    edge table, and the read-back query over the same table. */
module EdgeTable {
  import opened Common
  import opened Schema

  /** The targets linked from `owner`: `SELECT ... WHERE owner_id = ?`. */
  function Targets(edges: set<Edge>, owner: Id): (ts: set<Id>)
    ensures forall t :: t in ts <==> (owner, t) in edges
  {
    set e | e in edges && e.0 == owner :: e.1
  }

  /** The row ids among the values of a request list, as a set. */
  function IdSet(ids: seq<int>): (xs: set<Id>)
    ensures forall x: Id :: x in xs <==> x in ids
  {
    set x | x in ids && x >= 1 :: x as Id
  }

  /** The table after `DELETE ... WHERE owner_id = ?` followed by one
      insert per target. */
  function Replace(edges: set<Edge>, owner: Id, targets: set<Id>): (r: set<Edge>)
    ensures Targets(r, owner) == targets
    ensures forall o, t | o != owner :: (o, t) in r <==> (o, t) in edges
  {
    var r := (set e | e in edges && e.0 != owner) + (set t | t in targets :: (owner, t));
    assert forall t | t in targets :: (owner, t) in r;
    r
  }

  /** The first fault the inserts of `ids`, in list order, run into: a
      target missing from its table violates the foreign key, a repeated
      target the composite primary key. */
  function InsertFault<T>(ids: seq<int>, targets: map<Id, T>): (f: Option<EngineFault>)
    ensures f.None? <==> (forall i | 0 <= i < |ids| :: ids[i] in targets) && Distinct(ids)
    ensures f.Some? ==> f.value == ForeignKeyViolated || f.value == UniqueViolated
    decreases |ids|
  {
    if |ids| == 0 then None
    else
      var init := ids[..|ids| - 1];
      var x := ids[|ids| - 1];
      var earlier := InsertFault(init, targets);
      assert forall i | 0 <= i < |init| :: init[i] == ids[i];
      if earlier.Some? then earlier
      else if x !in targets then Some(ForeignKeyViolated)
      else if x in init then
        assert exists i | 0 <= i < |init| :: init[i] == x;
        Some(UniqueViolated)
      else
        assert Distinct(ids) by {
          forall i, j | 0 <= i < j < |ids| ensures ids[i] != ids[j] {
            if j == |ids| - 1 {
              assert ids[i] == init[i];
            }
          }
        }
        None
  }

  /** The table the `assign*` transactions commit as written: the insert
      callbacks run only after `if (error)` has been tested, so the check
      never sees a failure and the transaction always commits. The DELETE
      and every insert that succeeded stay: the owner ends up linked to the
      listed targets that exist, and no failure is reported. */
  function CommittedAsWritten<T>(edges: set<Edge>, owner: Id, ids: seq<int>, targets: map<Id, T>): (r: set<Edge>)
    ensures forall t :: (owner, t) in r <==> t in ids && t in targets
    ensures forall o, t | o != owner :: (o, t) in r <==> (o, t) in edges
    ensures InsertFault(ids, targets).None? ==> r == Replace(edges, owner, IdSet(ids))
  {
    Replace(edges, owner, set t | t in IdSet(ids) && t in targets)
  }

  /** Assigning only an unknown role: the intended transaction fails and
      keeps the group's role, the one as written commits the DELETE and
      leaves the group with no role while answering success. */
  lemma FailedInsertStillCommits()
    ensures var targets := map[2 := Named("Editors", None)];
      && InsertFault([99], targets) == Some(ForeignKeyViolated)
      && CommittedAsWritten({(1, 2)}, 1, [99], targets) == {}
  {
  }

  /** A replacement with targets that all exist keeps the edge table's
      foreign keys satisfied. */
  lemma ReplaceWithin<A, B>(edges: set<Edge>, owners: map<Id, A>, targets: map<Id, B>, owner: Id, ids: set<Id>)
    requires EdgesWithin(edges, owners, targets)
    requires owner in owners
    requires forall t | t in ids :: t in targets
    ensures EdgesWithin(Replace(edges, owner, ids), owners, targets)
  {
  }

  /** Replacing twice with the same list is the same as replacing once. */
  lemma ReplaceIdempotent(edges: set<Edge>, owner: Id, ids: set<Id>)
    ensures Replace(Replace(edges, owner, ids), owner, ids) == Replace(edges, owner, ids)
  {
    var once := Replace(edges, owner, ids);
    var twice := Replace(once, owner, ids);
    forall e | e in twice ensures e in once {
      if e.0 == owner {
        assert e.1 in Targets(twice, owner);
      }
    }
    forall e | e in once ensures e in twice {
      if e.0 == owner {
        assert e.1 in Targets(once, owner);
      }
    }
  }
}

/** The list operations the client reducers apply to lists of records
    keyed by `id`. */
module ListOps {
  import opened Common

  /** A reply body as a reducer receives it: its `id` (`None` when the body
      has none, so that reading it gives `undefined`), its other fields, and
      the nested list a detail view carries (a role's permissions, a group's
      roles), taken to be present on every selected record. The create and
      update replies `{ message, <entity> }` and the assign reply
      `{ message }` are bodies without an `id`. */
  datatype Record = Record(id: Option<int>, fields: map<string, string>, members: seq<Record>)

  /** `selected?.id`: `undefined` for a null selection. */
  function SelectedId(selected: Option<Record>): (id: Option<int>)
    ensures selected.None? ==> id.None?
    ensures selected.Some? ==> id == selected.value.id
  {
    if selected.None? then None else selected.value.id
  }

  /** `selected?.id === id`, where `undefined === undefined`: a null
      selection matches exactly an id-less payload. */
  predicate Selects(selected: Option<Record>, id: Option<int>) {
    SelectedId(selected) == id
  }

  /** Every record carries an id, as the list endpoints' rows do. */
  predicate AllHaveIds(xs: seq<Record>) {
    forall k | 0 <= k < |xs| :: xs[k].id.Some?
  }

  /** No two records share an id. */
  predicate DistinctIds(xs: seq<Record>) {
    forall i, j | 0 <= i < j < |xs| :: xs[i].id != xs[j].id
  }

  /** `findIndex(x => x.id === id)`: the first match, or -1. */
  function FindIndex(xs: seq<Record>, id: Option<int>): (i: int)
    ensures -1 <= i < |xs|
    ensures i == -1 <==> forall k | 0 <= k < |xs| :: xs[k].id != id
    ensures i >= 0 ==> xs[i].id == id && forall k | 0 <= k < i :: xs[k].id != id
  {
    if xs == [] then -1
    else if xs[0].id == id then 0
    else
      var j := FindIndex(xs[1..], id);
      if j == -1 then -1 else j + 1
  }

  /** `index = findIndex(...); if (index !== -1) list[index] = x`: the first
      record with `x`'s id becomes `x`; without one the list is unchanged. */
  function ReplaceFirst(xs: seq<Record>, x: Record): (ys: seq<Record>)
    ensures |ys| == |xs|
    ensures (forall k | 0 <= k < |xs| :: xs[k].id != x.id) ==> ys == xs
    ensures forall k | 0 <= k < |xs| && xs[k].id == x.id && (forall j | 0 <= j < k :: xs[j].id != x.id) :: ys == xs[k := x]
  {
    var i := FindIndex(xs, x.id);
    if i == -1 then xs else xs[i := x]
  }

  /** `map(p => p.id === x.id ? x : p)`: every record with `x`'s id becomes `x`. */
  function ReplaceAll(xs: seq<Record>, x: Record): (ys: seq<Record>)
    ensures |ys| == |xs|
    ensures forall k | 0 <= k < |xs| :: ys[k].id == xs[k].id
    ensures forall k | 0 <= k < |xs| :: ys[k] == (if xs[k].id == x.id then x else xs[k])
  {
    seq(|xs|, k requires 0 <= k < |xs| => if xs[k].id == x.id then x else xs[k])
  }

  /** `filter(x => x.id !== id)`. */
  function WithoutId(xs: seq<Record>, id: Option<int>): (ys: seq<Record>)
    ensures forall y {:trigger y in ys} :: y in ys <==> y in xs && y.id != id
    ensures |ys| <= |xs|
    ensures (forall k | 0 <= k < |xs| :: xs[k].id != id) ==> ys == xs
  {
    if xs == [] then []
    else
      var rest := WithoutId(xs[1..], id);
      assert forall y :: y in xs <==> y == xs[0] || y in xs[1..];
      (if xs[0].id == id then [] else [xs[0]]) + rest
  }

  /** Filtering keeps the survivors in their original order: it distributes
      over appending one record. */
  lemma {:induction false} WithoutIdAppend(xs: seq<Record>, x: Record, id: Option<int>)
    ensures WithoutId(xs + [x], id) == WithoutId(xs, id) + (if x.id == id then [] else [x])
    decreases |xs|
  {
    if xs == [] {
      assert [x][1..] == [];
    } else {
      assert (xs + [x])[0] == xs[0];
      assert (xs + [x])[1..] == xs[1..] + [x];
      WithoutIdAppend(xs[1..], x, id);
    }
  }

  /** Filtering twice by the same id is filtering once. */
  lemma WithoutIdIdempotent(xs: seq<Record>, id: Option<int>)
    ensures WithoutId(WithoutId(xs, id), id) == WithoutId(xs, id)
  {
    var ys := WithoutId(xs, id);
    assert forall k | 0 <= k < |ys| :: ys[k] in ys;
  }

  /** On a list without repeated ids, replacing the first match and
      replacing every match agree. */
  lemma ReplaceFirstIsReplaceAll(xs: seq<Record>, x: Record)
    requires DistinctIds(xs)
    ensures ReplaceFirst(xs, x) == ReplaceAll(xs, x)
  {
    var i := FindIndex(xs, x.id);
    if i != -1 {
      assert ReplaceFirst(xs, x) == xs[i := x];
    }
  }

  /** Deleting after an update removes the same records as deleting alone. */
  lemma {:induction false} DeleteAfterReplace(xs: seq<Record>, x: Record)
    ensures WithoutId(ReplaceAll(xs, x), x.id) == WithoutId(xs, x.id)
    decreases |xs|
  {
    if xs != [] {
      var ys := ReplaceAll(xs, x);
      assert ys[1..] == ReplaceAll(xs[1..], x);
      DeleteAfterReplace(xs[1..], x);
    }
  }

  /** A reply without an `id`, such as the server's `{ message, <entity> }`
      update reply, matches no record of a list whose records all carry
      ids, so updating by it changes nothing there; it matches a null
      selection, which it then replaces. */
  lemma IdlessReplyMatchesOnlyNull(xs: seq<Record>, x: Record, selected: Option<Record>)
    requires x.id.None?
    requires AllHaveIds(xs)
    ensures ReplaceFirst(xs, x) == xs
    ensures ReplaceAll(xs, x) == xs
    ensures Selects(selected, x.id) <==> selected.None? || selected.value.id.None?
  {
    assert forall k | 0 <= k < |xs| :: xs[k].id != x.id;
  }

  /** A record appended without an `id` is kept by every delete by id. */
  lemma IdlessEntrySurvivesDelete(xs: seq<Record>, x: Record, id: int)
    requires x.id.None?
    ensures x in WithoutId(xs + [x], Some(id))
  {
    WithoutIdAppend(xs, x, Some(id));
  }
}

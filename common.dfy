/** Values shared by every part of the model: optional values, outcomes,
    row ids, JavaScript truthiness and the string split/join pair that
    header parsing and GROUP_CONCAT parsing rely on. */
module Common {

  datatype Option<+T> = None | Some(value: T)

  datatype Result<+T, +E> = Ok(value: T) | Err(error: E)

  /** A request-body field that may be left out (`undefined`) or supplied. */
  datatype Input<+T> = Absent | Present(value: T)

  /** Row ids. SQLite's AUTOINCREMENT hands out 1, 2, 3, ..., so a stored id
      is never 0 and therefore always truthy in JavaScript. */
  type Id = i: int | 1 <= i witness 1

  /** The payload a JSON Web Token carries: `{ id, username }`. */
  datatype Claims = Claims(id: int, username: string)

  /** What the SQL engine or the hashing library raises. */
  datatype EngineFault =
    | NotNullViolated      // a NOT NULL column received NULL
    | ForeignKeyViolated   // a referenced row is missing, or a referencing row blocks a delete
    | UniqueViolated       // a UNIQUE or PRIMARY KEY constraint was hit
    | SyntaxError          // `UPDATE t SET , updated_at = ...` when no field was supplied
    | HashArgumentMissing  // bcrypt.hash called without a password

  /** Why a service call rejected: an `Error` thrown with one of the fixed
      messages of the services, or a fault raised beneath them. */
  datatype Failure = Thrown(message: string) | Engine(fault: EngineFault)

  /** No element occurs twice. */
  predicate Distinct<T(==)>(xs: seq<T>) {
    forall i, j | 0 <= i < j < |xs| :: xs[i] != xs[j]
  }

  /** JavaScript truthiness of an optional string: present and not empty. */
  predicate Truthy(s: Option<string>) {
    s.Some? && s.value != ""
  }

  /** `s || fallback` in JavaScript for an optional string. */
  function OrElse(s: Option<string>, fallback: string): (r: string)
    ensures Truthy(s) ==> r == s.value
    ensures !Truthy(s) ==> r == fallback
  {
    if Truthy(s) then s.value else fallback
  }

  /** `String.prototype.split` with a one-character separator. */
  function Split(s: string, sep: char): (parts: seq<string>)
    ensures |parts| >= 1
    decreases |s|
  {
    if s == [] then [""]
    else if s[0] == sep then [""] + Split(s[1..], sep)
    else
      var rest := Split(s[1..], sep);
      [[s[0]] + rest[0]] + rest[1..]
  }

  /** `Array.prototype.join` (and SQLite's GROUP_CONCAT) with a one-character separator. */
  function Join(parts: seq<string>, sep: char): string
    decreases |parts|
  {
    if |parts| == 0 then ""
    else if |parts| == 1 then parts[0]
    else parts[0] + [sep] + Join(parts[1..], sep)
  }

  /** Splitting and joining again gives back the string. */
  lemma {:induction false} JoinSplit(s: string, sep: char)
    ensures Join(Split(s, sep), sep) == s
    decreases |s|
  {
    if s == [] {
    } else if s[0] == sep {
      JoinSplit(s[1..], sep);
      var rest := Split(s[1..], sep);
      assert Split(s, sep) == [""] + rest;
      assert ([""] + rest)[1..] == rest;
      assert s == [sep] + s[1..];
    } else {
      JoinSplit(s[1..], sep);
      var rest := Split(s[1..], sep);
      assert Split(s, sep) == [[s[0]] + rest[0]] + rest[1..];
      if |rest| == 1 {
        assert s == [s[0]] + s[1..];
      } else {
        var parts := [[s[0]] + rest[0]] + rest[1..];
        assert parts[1..] == rest[1..];
        assert Join(rest, sep) == rest[0] + [sep] + Join(rest[1..], sep);
        assert s == [s[0]] + s[1..];
      }
    }
  }

  /** A string without the separator splits into itself alone. */
  lemma {:induction false} SplitWithoutSeparator(p: string, sep: char)
    requires sep !in p
    ensures Split(p, sep) == [p]
    decreases |p|
  {
    if p != [] {
      SplitWithoutSeparator(p[1..], sep);
      assert p == [p[0]] + p[1..];
    }
  }

  /** The first field ends at the first separator. */
  lemma {:induction false} SplitAtSeparator(p: string, sep: char, t: string)
    requires sep !in p
    ensures Split(p + [sep] + t, sep) == [p] + Split(t, sep)
    decreases |p|
  {
    var s := p + [sep] + t;
    if p == [] {
      assert s == [sep] + t;
      assert s[1..] == t;
    } else {
      assert s[0] == p[0];
      assert s[1..] == p[1..] + [sep] + t;
      SplitAtSeparator(p[1..], sep, t);
      assert p == [p[0]] + p[1..];
    }
  }

  /** Joining parts that do not contain the separator and splitting again
      gives back the parts: GROUP_CONCAT followed by `split(',')` is exact
      for non-empty lists of names without commas. */
  lemma {:induction false} SplitJoin(parts: seq<string>, sep: char)
    requires |parts| >= 1
    requires forall i | 0 <= i < |parts| :: sep !in parts[i]
    ensures Split(Join(parts, sep), sep) == parts
    decreases |parts|
  {
    if |parts| == 1 {
      SplitWithoutSeparator(parts[0], sep);
    } else {
      SplitJoin(parts[1..], sep);
      SplitAtSeparator(parts[0], sep, Join(parts[1..], sep));
      assert parts == [parts[0]] + parts[1..];
    }
  }

  /** SQLite's `GROUP_CONCAT(x)` over the rows of one group: NULL when there
      are none, otherwise the values joined by commas. */
  function GroupConcat(values: seq<string>): (v: Option<string>)
    ensures v.None? <==> values == []
    ensures v.Some? && (forall i | 0 <= i < |values| :: ',' !in values[i]) ==> Split(v.value, ',') == values
  {
    if values == [] then None
    else
      assert (forall i | 0 <= i < |values| :: ',' !in values[i]) ==> Split(Join(values, ','), ',') == values by {
        if forall i | 0 <= i < |values| :: ',' !in values[i] {
          SplitJoin(values, ',');
        }
      }
      Some(Join(values, ','))
  }

  /** `value ? value.split(',') : []`: a falsy column (NULL or "") becomes
      the empty list. */
  function ParseList(v: Option<string>): (parts: seq<string>)
    ensures !Truthy(v) ==> parts == []
    ensures Truthy(v) ==> Join(parts, ',') == v.value
  {
    if Truthy(v) then
      JoinSplit(v.value, ',');
      Split(v.value, ',')
    else []
  }

  /** Parsing a concatenated list gives the list back, for values without
      commas, except for a single empty value: its concatenation `""` is
      falsy and parses to `[]`. */
  lemma ParseConcatenated(values: seq<string>)
    requires forall i | 0 <= i < |values| :: ',' !in values[i]
    ensures ParseList(GroupConcat(values)) == (if values == [""] then [] else values)
  {
    if values != [] && values != [""] {
      assert Join(values, ',') != "" by {
        if |values| == 1 {
          assert Join(values, ',') == values[0];
        } else {
          assert Join(values, ',') == values[0] + [','] + Join(values[1..], ',');
        }
      }
    }
  }
}

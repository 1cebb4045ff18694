/**
 * The partial-update statements the repositories build: for each column whose new value
 * the caller supplied (the field is not the MISSING/UNSET sentinel), one `col = :col`
 * assignment in the SET clause and one named parameter, in the order the fields are
 * examined.
 */
module SqlUpdate {
  import opened Wrappers

  /** A field of a partial update: `Missing` is the MISSING / UNSET sentinel. */
  datatype Field<T> = Missing | Present(value: T)
  {
    function Map<U>(f: T -> U): Field<U> {
      match this
      case Missing => Missing
      case Present(v) => Present(f(v))
    }
  }

  /** A stored date-time; the mappers copy it from row to record and never inspect it. */
  type Timestamp = int

  /** The values bound to named parameters (SQLite stores booleans as 0 and 1). */
  datatype SqlValue = Null | Int(i: int) | Text(s: string) | Bool(b: bool)

  /** How SQLite stores a boolean. */
  function StoredBool(b: bool): SqlValue {
    Int(if b then 1 else 0)
  }

  /** A flag column read back with `row[col] == 1`. */
  function FlagOf(stored: SqlValue): (r: bool)
    ensures r <==> stored == Int(1)
  {
    stored.Int? && stored.i == 1
  }

  /** Storing a flag and reading it back gives the flag. */
  lemma FlagRoundTrip(b: bool)
    ensures FlagOf(StoredBool(b)) == b
  {
  }

  /** A nullable text value: `None` binds SQL NULL. */
  function NullableText(s: Option<string>): SqlValue {
    match s
    case None => Null
    case Some(t) => Text(t)
  }

  /** A column the update may set, with the value the caller supplied, if any. */
  datatype Column<V> = Column(name: string, field: Field<V>)

  /** The ValueError an update raises when the caller supplied no field. */
  datatype UpdateError = NothingToUpdate

  /** A SET clause under construction and the parameters bound so far. */
  datatype Update<V> = Update(sets: seq<string>, params: map<string, V>)

  /** A finished statement with its named parameters. */
  datatype Statement<V> = Statement(sql: string, params: map<string, V>)

  /** `f"{col} = :{col}"` */
  function Assignment(column: string): (r: string)
    ensures |r| == 2 * |column| + 4
    ensures r[..|column|] == column
  {
    column + " = :" + column
  }

  lemma AssignmentInjective(a: string, b: string)
    requires Assignment(a) == Assignment(b)
    ensures a == b
  {
    assert Assignment(a)[..|a|] == Assignment(b)[..|b|];
  }

  function Assignments(names: seq<string>): (r: seq<string>)
    ensures |r| == |names| && forall i :: 0 <= i < |names| ==> r[i] == Assignment(names[i])
  {
    seq(|names|, i requires 0 <= i < |names| => Assignment(names[i]))
  }

  /** `sep.join(parts)` */
  function Join(parts: seq<string>, sep: string): string {
    if |parts| == 0 then "" else if |parts| == 1 then parts[0] else parts[0] + sep + Join(parts[1..], sep)
  }

  /** Joining one more part appends the separator and the part: `s += sep + x`. */
  lemma {:induction false} JoinSnoc(parts: seq<string>, sep: string, x: string)
    requires |parts| > 0
    ensures Join(parts + [x], sep) == Join(parts, sep) + sep + x
  {
    if |parts| > 1 {
      assert (parts + [x])[1..] == parts[1..] + [x];
      JoinSnoc(parts[1..], sep, x);
    }
  }

  /** One `if data.col is not MISSING:` block: add the assignment and bind the value. */
  function SetIf<V>(u: Update<V>, c: Column<V>): Update<V> {
    match c.field
    case Missing => u
    case Present(v) => Update(u.sets + [Assignment(c.name)], u.params[c.name := v])
  }

  /** The blocks one after another, as the repository method runs them. */
  function SetAll<V>(u: Update<V>, cs: seq<Column<V>>): Update<V> {
    if |cs| == 0 then u else SetIf(SetAll(u, cs[..|cs| - 1]), cs[|cs| - 1])
  }

  /** The supplied columns, in declaration order. */
  function Selected<V>(cs: seq<Column<V>>): seq<string> {
    if |cs| == 0 then []
    else
      var c := cs[|cs| - 1];
      Selected(cs[..|cs| - 1]) + (if c.field.Present? then [c.name] else [])
  }

  /** The parameters the supplied columns bind; a later column with the same name wins. */
  function Bound<V>(cs: seq<Column<V>>): map<string, V> {
    if |cs| == 0 then map[]
    else
      var c := cs[|cs| - 1];
      var rest := Bound(cs[..|cs| - 1]);
      if c.field.Present? then rest[c.name := c.field.value] else rest
  }

  /** Some column named `n` is supplied. */
  predicate SuppliedName<V>(cs: seq<Column<V>>, n: string) {
    exists i :: 0 <= i < |cs| && cs[i].name == n && cs[i].field.Present?
  }

  /** Exactly the supplied columns are selected, and no more of them than there are columns. */
  lemma {:induction false} SelectedSpec<V>(cs: seq<Column<V>>)
    ensures |Selected(cs)| <= |cs|
    ensures forall i :: 0 <= i < |cs| && cs[i].field.Present? ==> cs[i].name in Selected(cs)
    ensures forall k :: 0 <= k < |Selected(cs)| ==> SuppliedName(cs, Selected(cs)[k])
  {
    if |cs| > 0 {
      var init := cs[..|cs| - 1];
      var c := cs[|cs| - 1];
      SelectedSpec(init);
      assert forall i :: 0 <= i < |init| ==> init[i] == cs[i];
      assert Selected(cs) == Selected(init) + (if c.field.Present? then [c.name] else []);
      forall k | 0 <= k < |Selected(cs)| ensures SuppliedName(cs, Selected(cs)[k]) {
        if k < |Selected(init)| {
          var i :| 0 <= i < |init| && init[i].name == Selected(init)[k] && init[i].field.Present?;
          assert cs[i] == init[i];
        } else {
          assert c.name == Selected(cs)[k] && c.field.Present?;
        }
      }
    }
  }

  /** Exactly the supplied columns are bound. */
  lemma {:induction false} BoundSpec<V>(cs: seq<Column<V>>)
    ensures forall i :: 0 <= i < |cs| && cs[i].field.Present? ==> cs[i].name in Bound(cs)
    ensures forall k :: k in Bound(cs) ==> exists i :: 0 <= i < |cs| && cs[i].name == k && cs[i].field.Present?
  {
    if |cs| > 0 {
      var init := cs[..|cs| - 1];
      BoundSpec(init);
      assert forall i :: 0 <= i < |init| ==> init[i] == cs[i];
    }
  }

  /** The bound parameters are exactly the selected columns. */
  lemma {:induction false} BoundKeys<V>(cs: seq<Column<V>>)
    ensures Bound(cs).Keys == set n | n in Selected(cs)
  {
    if |cs| > 0 {
      var init := cs[..|cs| - 1];
      var c := cs[|cs| - 1];
      BoundKeys(init);
      if c.field.Present? {
        assert Selected(cs) == Selected(init) + [c.name];
        assert (set n | n in Selected(cs)) == (set n | n in Selected(init)) + {c.name};
      } else {
        assert Selected(cs) == Selected(init);
      }
    }
  }

  predicate DistinctNames<V>(cs: seq<Column<V>>) {
    forall i, j :: 0 <= i < j < |cs| ==> cs[i].name != cs[j].name
  }

  /** With distinct column names each supplied column's parameter holds its value. */
  lemma {:induction false} BoundValues<V>(cs: seq<Column<V>>)
    requires DistinctNames(cs)
    ensures forall i :: 0 <= i < |cs| && cs[i].field.Present? ==>
              cs[i].name in Bound(cs) && Bound(cs)[cs[i].name] == cs[i].field.value
  {
    if |cs| > 0 {
      var init := cs[..|cs| - 1];
      BoundValues(init);
      assert forall i :: 0 <= i < |init| ==> init[i] == cs[i];
    }
  }

  /**
   * Running the blocks in order appends the assignments of exactly the supplied
   * columns, in declaration order.
   */
  lemma {:induction false} SetAllSets<V>(u: Update<V>, cs: seq<Column<V>>)
    ensures SetAll(u, cs).sets == u.sets + Assignments(Selected(cs))
  {
    if |cs| > 0 {
      var init := cs[..|cs| - 1];
      var c := cs[|cs| - 1];
      SetAllSets(u, init);
      assert SetAll(u, cs) == SetIf(SetAll(u, init), c);
      assert Selected(cs) == Selected(init) + (if c.field.Present? then [c.name] else []);
      if c.field.Present? {
        assert Assignments(Selected(cs)) == Assignments(Selected(init)) + [Assignment(c.name)];
      } else {
        assert Assignments(Selected(cs)) == Assignments(Selected(init));
      }
    }
  }

  /** Running the blocks in order binds exactly the supplied columns' parameters. */
  lemma {:induction false} SetAllParams<V>(u: Update<V>, cs: seq<Column<V>>)
    ensures SetAll(u, cs).params == u.params + Bound(cs)
  {
    if |cs| > 0 {
      var init := cs[..|cs| - 1];
      var c := cs[|cs| - 1];
      SetAllParams(u, init);
      assert SetAll(u, cs) == SetIf(SetAll(u, init), c);
      if c.field.Present? {
        assert Bound(cs) == Bound(init)[c.name := c.field.value];
        assert u.params + Bound(init)[c.name := c.field.value] == (u.params + Bound(init))[c.name := c.field.value];
      } else {
        assert Bound(cs) == Bound(init);
      }
    }
  }

  /** One `if col is not MISSING: query += ", col = :col"` block. */
  function AppendIf<V>(query: string, c: Column<V>): string {
    if c.field.Present? then query + ", " + Assignment(c.name) else query
  }

  /** The blocks one after another, growing the query text. */
  function AppendAll<V>(query: string, cs: seq<Column<V>>): string {
    if |cs| == 0 then query else AppendIf(AppendAll(query, cs[..|cs| - 1]), cs[|cs| - 1])
  }

  /**
   * Growing a query whose tail is a joined list by `, col = :col` blocks gives the
   * list of the supplied columns' assignments joined in declaration order.
   */
  lemma {:induction false} AppendAllJoin<V>(prefix: string, parts: seq<string>, cs: seq<Column<V>>)
    requires |parts| > 0
    ensures AppendAll(prefix + Join(parts, ", "), cs) == prefix + Join(parts + Assignments(Selected(cs)), ", ")
  {
    if |cs| == 0 {
      assert parts + Assignments(Selected(cs)) == parts;
    } else {
      var init := cs[..|cs| - 1];
      var c := cs[|cs| - 1];
      AppendAllJoin(prefix, parts, init);
      var before := parts + Assignments(Selected(init));
      if c.field.Present? {
        JoinSnoc(before, ", ", Assignment(c.name));
        assert parts + Assignments(Selected(cs)) == before + [Assignment(c.name)];
      } else {
        assert parts + Assignments(Selected(cs)) == before;
      }
    }
  }
}

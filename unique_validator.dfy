/**
 * The uniqueness validator of the form bundle: a form value is rejected when
 * some row of the constraint's table already holds it in the constraint's
 * column, optionally not counting the row of the record being edited.
 */
module UniqueValidation {
  import opened Wrappers
  import opened PhpValues

  /** A table row: column name to cell value. A column a row does not list reads as NULL. */
  type Row = map<string, Value>

  function Cell(row: Row, column: string): Value {
    Lookup(row, column)
  }

  /** The message of the exception thrown for a constraint of the wrong kind. */
  const INVALID_CONSTRAINT: string := "Invalid constraint for validator given."

  /**
   * The constraint handed to the validator: a `Unique` constraint with its
   * settings, or a constraint of another kind.
   */
  datatype Constraint =
    | Unique(table: string, column: string, ignoreField: Option<string>, ignoreColumn: string, message: string)
    | OtherConstraint(kind: string)

  datatype Exception =
    | RuntimeException(message: string)
    /** The database refused the query: the constraint names a table that does not exist. */
    | QueryFailed(table: string)

  /** A violation as the validation context records it. */
  datatype Violation = Violation(message: string, propertyPath: string, parameters: map<string, Value>)

  /** One condition of the WHERE clause the validator builds. */
  datatype Comparison =
    | Equal(column: string, parameter: Value)
    | NotEqual(column: string, parameter: Value)

  /** `SELECT 1 FROM table WHERE conditions[0] AND conditions[1] ...`. */
  datatype Query = Query(table: string, conditions: seq<Comparison>) {
    /**
     * `andWhere(...)->setParameter(...)`: the query now selects exactly the
     * rows it selected before that also meet `c`.
     */
    function AndWhere(c: Comparison): (q: Query)
      ensures q.table == table
      ensures forall r :: SatisfiesAll(r, q.conditions) <==> SatisfiesAll(r, conditions) && Holds(r, c)
    {
      SatisfiesAllAppend(conditions, c);
      Query(table, conditions + [c])
    }
  }

  /**
   * Whether a row meets one comparison. As in SQL, a comparison with NULL on
   * either side is never true, so it selects no row.
   */
  predicate Holds(row: Row, c: Comparison) {
    match c
    case Equal(column, p) => Cell(row, column) != Null && p != Null && Cell(row, column) == p
    case NotEqual(column, p) => Cell(row, column) != Null && p != Null && Cell(row, column) != p
  }

  predicate SatisfiesAll(row: Row, conditions: seq<Comparison>) {
    forall k :: 0 <= k < |conditions| ==> Holds(row, conditions[k])
  }

  /** Appending a condition conjoins it with the earlier ones. */
  lemma SatisfiesAllAppend(conditions: seq<Comparison>, c: Comparison)
    ensures forall r :: SatisfiesAll(r, conditions + [c]) <==> SatisfiesAll(r, conditions) && Holds(r, c)
  {
    forall r ensures SatisfiesAll(r, conditions + [c]) <==> SatisfiesAll(r, conditions) && Holds(r, c) {
      var all := conditions + [c];
      assert all[|conditions|] == c;
      assert forall k :: 0 <= k < |conditions| ==> all[k] == conditions[k];
    }
  }

  /** The rows a query returns: those of the table meeting every condition, in table order. */
  function Execute(rows: seq<Row>, conditions: seq<Comparison>): (result: seq<Row>)
    ensures |result| <= |rows|
    ensures forall r :: r in result ==> r in rows && SatisfiesAll(r, conditions)
    ensures forall i :: 0 <= i < |rows| && SatisfiesAll(rows[i], conditions) ==> rows[i] in result
    decreases |rows|
  {
    if rows == [] then []
    else
      var tail := Execute(rows[1..], conditions);
      assert forall i :: 1 <= i < |rows| ==> rows[i] == rows[1..][i - 1];
      if SatisfiesAll(rows[0], conditions) then [rows[0]] + tail else tail
  }

  /** `empty($constraint->ignoreField)` is false: the edited record's own row is to be skipped. */
  predicate IgnoresOwnRow(c: Constraint)
    requires c.Unique?
  {
    !IsEmptyName(c.ignoreField)
  }

  /** The id of the edited record: the root form data under the `ignoreField` key. */
  function OwnId(c: Constraint, rootData: map<string, Value>): Value
    requires c.Unique? && IgnoresOwnRow(c)
  {
    Lookup(rootData, c.ignoreField.value)
  }

  /**
   * A row that conflicts with `value`: it holds `value` (which is not NULL)
   * in the constraint's column and, when the own row is skipped, the edited
   * record's id is not NULL and the row holds a different, non-NULL id.
   */
  predicate Conflicts(row: Row, c: Constraint, value: Value, rootData: map<string, Value>)
    requires c.Unique?
  {
    && value != Null
    && Cell(row, c.column) == value
    && (IgnoresOwnRow(c) ==>
          && OwnId(c, rootData) != Null
          && Cell(row, c.ignoreColumn) != Null
          && Cell(row, c.ignoreColumn) != OwnId(c, rootData))
  }

  /** Some row of the table conflicts with `value`. */
  predicate HasConflict(rows: seq<Row>, c: Constraint, value: Value, rootData: map<string, Value>)
    requires c.Unique?
  {
    exists i :: 0 <= i < |rows| && Conflicts(rows[i], c, value, rootData)
  }

  /** The violation reported for a conflicting value, with its message parameters. */
  function UniqueViolation(c: Constraint, value: Value, propertyPath: string): Violation
    requires c.Unique?
  {
    Violation(c.message, propertyPath, map[":value" := value, ":table" := Str(c.table), ":column" := Str(c.column)])
  }

  /** The query the validator builds for a `Unique` constraint and a value. */
  function UniqueQuery(c: Constraint, value: Value, rootData: map<string, Value>): Query
    requires c.Unique?
  {
    var q := Query(c.table, [Equal(c.column, value)]);
    if IgnoresOwnRow(c) then q.AndWhere(NotEqual(c.ignoreColumn, OwnId(c, rootData))) else q
  }

  /** The state of one validation run: the root form data, the current property path and the violations so far. */
  class ExecutionContext {
    const rootData: map<string, Value>
    const propertyPath: string
    var violations: seq<Violation>

    constructor (rootData: map<string, Value>, propertyPath: string)
      ensures this.rootData == rootData && this.propertyPath == propertyPath
      ensures violations == []
    {
      this.rootData := rootData;
      this.propertyPath := propertyPath;
      violations := [];
    }

    /** `buildViolation(...)->...->addViolation()`: append one violation. */
    method AddViolation(v: Violation)
      modifies this
      ensures violations == old(violations) + [v]
    {
      violations := violations + [v];
    }
  }

  class UniqueValidator {
    /** The database behind the connection: table name to its rows. Validation only reads it. */
    const database: map<string, seq<Row>>
    /** The context the validator reports into (Symfony's `initialize`). */
    const context: ExecutionContext

    constructor (database: map<string, seq<Row>>, context: ExecutionContext)
      ensures this.database == database && this.context == context
    {
      this.database := database;
      this.context := context;
    }

    /**
     * `validate($value, $constraint)`: throws for a constraint of the wrong
     * kind, accepts empty values, and otherwise appends exactly one violation
     * when some row conflicts with the value, and none when no row does.
     */
    method Validate(value: Value, constraint: Constraint) returns (outcome: Outcome<Exception>)
      modifies context
      ensures old(context.violations) <= context.violations
      ensures |context.violations| <= |old(context.violations)| + 1
      ensures !constraint.Unique? ==>
        outcome == Fail(RuntimeException(INVALID_CONSTRAINT)) && context.violations == old(context.violations)
      ensures constraint.Unique? && IsEmpty(value) ==>
        outcome == Pass && context.violations == old(context.violations)
      ensures constraint.Unique? && !IsEmpty(value) && constraint.table !in database ==>
        outcome == Fail(QueryFailed(constraint.table)) && context.violations == old(context.violations)
      ensures constraint.Unique? && !IsEmpty(value) && constraint.table in database ==>
        && outcome == Pass
        && context.violations == old(context.violations) +
             (if HasConflict(database[constraint.table], constraint, value, context.rootData)
              then [UniqueViolation(constraint, value, context.propertyPath)]
              else [])
    {
      if !constraint.Unique? {
        return Fail(RuntimeException(INVALID_CONSTRAINT));
      }
      if IsEmpty(value) {
        return Pass;
      }
      var query := Query(constraint.table, [Equal(constraint.column, value)]);
      if !IsEmptyName(constraint.ignoreField) {
        var ignoreIdValue := Lookup(context.rootData, constraint.ignoreField.value);
        query := query.AndWhere(NotEqual(constraint.ignoreColumn, ignoreIdValue));
      }
      assert query == UniqueQuery(constraint, value, context.rootData);
      if query.table !in database {
        return Fail(QueryFailed(query.table));
      }
      var rows := database[query.table];
      HasConflictIffRowsReturned(rows, constraint, value, context.rootData);
      var result := Execute(rows, query.conditions);
      if |result| == 0 {
        return Pass;
      }
      context.AddViolation(UniqueViolation(constraint, value, context.propertyPath));
      return Pass;
    }
  }

  /** `rowCount() > 0` means exactly that some row of the table meets every condition. */
  lemma RowCountPositive(rows: seq<Row>, conditions: seq<Comparison>)
    ensures |Execute(rows, conditions)| > 0 <==> exists i :: 0 <= i < |rows| && SatisfiesAll(rows[i], conditions)
  {
  }

  /** The query selects exactly the conflicting rows. */
  lemma UniqueQuerySelectsConflicts(row: Row, c: Constraint, value: Value, rootData: map<string, Value>)
    requires c.Unique?
    ensures SatisfiesAll(row, UniqueQuery(c, value, rootData).conditions) <==> Conflicts(row, c, value, rootData)
  {
    var first := [Equal(c.column, value)];
    assert SatisfiesAll(row, first) <==> Holds(row, first[0]);
  }

  /**
   * The declarative rule and the query agree: some row conflicts with the
   * value exactly when the validator's query returns a row.
   */
  lemma HasConflictIffRowsReturned(rows: seq<Row>, c: Constraint, value: Value, rootData: map<string, Value>)
    requires c.Unique?
    ensures HasConflict(rows, c, value, rootData) <==> |Execute(rows, UniqueQuery(c, value, rootData).conditions)| > 0
  {
    var conditions := UniqueQuery(c, value, rootData).conditions;
    forall i | 0 <= i < |rows|
      ensures SatisfiesAll(rows[i], conditions) <==> Conflicts(rows[i], c, value, rootData)
    {
      UniqueQuerySelectsConflicts(rows[i], c, value, rootData);
    }
    RowCountPositive(rows, conditions);
  }

  /** When no row holds the value in the constraint's column, there is no conflict. */
  lemma NoMatchNoConflict(rows: seq<Row>, c: Constraint, value: Value, rootData: map<string, Value>)
    requires c.Unique?
    requires forall i :: 0 <= i < |rows| ==> Cell(rows[i], c.column) != value
    ensures !HasConflict(rows, c, value, rootData)
  {
  }

  /** Without an ignore field, any row holding the (non-empty) value in the column is a conflict. */
  lemma AnyMatchConflictsWithoutIgnore(rows: seq<Row>, c: Constraint, value: Value, rootData: map<string, Value>, i: nat)
    requires c.Unique? && !IgnoresOwnRow(c) && !IsEmpty(value)
    requires i < |rows| && Cell(rows[i], c.column) == value
    ensures HasConflict(rows, c, value, rootData)
  {
  }

  /** With an ignore field, the row whose ignore column holds the edited record's id is never counted. */
  lemma OwnRowNotCounted(row: Row, c: Constraint, value: Value, rootData: map<string, Value>)
    requires c.Unique? && IgnoresOwnRow(c)
    requires Cell(row, c.ignoreColumn) == OwnId(c, rootData)
    ensures !Conflicts(row, c, value, rootData)
  {
  }

  /**
   * A record never conflicts with itself: if every row holding the value is
   * the edited record's own row, the value is unique.
   */
  lemma RecordNeverConflictsWithItself(rows: seq<Row>, c: Constraint, value: Value, rootData: map<string, Value>)
    requires c.Unique? && IgnoresOwnRow(c)
    requires forall i :: 0 <= i < |rows| && Cell(rows[i], c.column) == value ==>
               Cell(rows[i], c.ignoreColumn) == OwnId(c, rootData)
    ensures !HasConflict(rows, c, value, rootData)
  {
  }

  /**
   * With an ignore field whose value in the root data is null or unset (a
   * record not yet saved), `ignoreColumn <> NULL` selects no row, so no value
   * is ever reported, whatever the table holds.
   */
  lemma NullOwnIdHidesEveryRow(rows: seq<Row>, c: Constraint, value: Value, rootData: map<string, Value>)
    requires c.Unique? && IgnoresOwnRow(c)
    requires c.ignoreField.value !in rootData || rootData[c.ignoreField.value] == Null
    ensures !HasConflict(rows, c, value, rootData)
  {
  }

  /** The recorded violation: the constraint's message, the given path, and exactly the three parameters. */
  lemma UniqueViolationParameters(c: Constraint, value: Value, path: string)
    requires c.Unique?
    ensures UniqueViolation(c, value, path).message == c.message
    ensures UniqueViolation(c, value, path).propertyPath == path
    ensures UniqueViolation(c, value, path).parameters.Keys == {":value", ":table", ":column"}
    ensures UniqueViolation(c, value, path).parameters[":value"] == value
    ensures UniqueViolation(c, value, path).parameters[":table"] == Str(c.table)
    ensures UniqueViolation(c, value, path).parameters[":column"] == Str(c.column)
  {
  }
}

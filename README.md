# Manufacturer condition and uniqueness validator

A Dafny model of two pieces of business logic from a PHP e-commerce platform.

**The manufacturer search condition.** `ManufacturerCondition` is a value object. It holds the ids of the manufacturers that a catalog search filters by. Its constructor first asserts that every id is *integerish*: a PHP int, or a string spelling an integer in decimal: digits, where leading zeros are allowed only without a sign, and a minus may stand only before a nonzero value written without leading zeros (so "007" and "-12" pass, "-0" and "-05" do not). The value must also fit a 64-bit PHP int (see "## Left out"). It then converts each id with `intval` and sorts the list numerically in place. Duplicates are kept.

- The model is a class whose `manufacturerIds` field is an `array<int>`, sorted in place by an insertion sort.
- The throwing PHP constructor becomes a factory, `Create`. It returns either the built condition or the assertion failure for the first refused id.
- The specification is the pure function `Normalize`: `intval` applied to every id, then the reference sort `SortSeq`.
- Proved:
  - The stored list is sorted.
  - It is a permutation of the converted input.
  - It does not depend on the order of the input.
  - Re-normalising the stored list changes nothing.
  - An id given as a decimal string yields the same stored id as the int itself.

**The uniqueness validator.** `UniqueValidator::validate` checks a form value against a database table:

1. It throws for a constraint that is not a `Unique` constraint.
2. It accepts PHP-empty values.
3. Otherwise it queries `SELECT 1 FROM table WHERE column = value`; as in SQL, a comparison with NULL selects no row. When the constraint names an `ignoreField`, it adds `AND ignoreColumn <> id`, where the id is the root form data's value under that field.
4. If any row comes back, it adds one violation to the validation context. The violation carries the value, the table and the column.

- The database is a map from table names to sequences of rows. A row is a map from column names to values.
- The query is a datatype, built step by step as the source builds it. Executing it filters the rows.
- The validation context is a class. It holds the root data, the property path and the list of violations so far.
- `Validate` is proved against a declarative specification, `HasConflict`, defined as "some row holds the value and is not the edited record's own row". As in SQL, when the own row is to be skipped, a NULL own id or a NULL in the row's ignore column means no conflict.

## Model

| member | source | states |
|---|---|---|
| `ManufacturerConditions.ManufacturerCondition.Create` | engine/Shopware/Bundle/SearchBundle/Condition/ManufacturerCondition.php:46-51 | fails exactly when some id is not integerish, reporting the first refused id and its position; otherwise it yields a fresh condition whose ids are sorted and equal `Normalize` of the input |
| `ManufacturerConditions.ManufacturerCondition.constructor` | engine/Shopware/Bundle/SearchBundle/Condition/ManufacturerCondition.php:49-50 | for accepted ids, the fresh array of stored ids is sorted and equals the `intval`s of the input in sorted order |
| `ManufacturerConditions.ManufacturerCondition.GetName` | engine/Shopware/Bundle/SearchBundle/Condition/ManufacturerCondition.php:56-59 | always returns "manufacturer" |
| `ManufacturerConditions.ManufacturerCondition.GetManufacturerIds` | engine/Shopware/Bundle/SearchBundle/Condition/ManufacturerCondition.php:64-67 | returns the stored list unchanged, in ascending order, and modifies nothing |
| `ManufacturerConditions.Normalize` | engine/Shopware/Bundle/SearchBundle/Condition/ManufacturerCondition.php:49-50 | the stored list has one entry per input id, is ascending, is the same multiset as the input's `intval`s (duplicates kept), and holds only PHP ints |
| `ManufacturerConditions.FirstRejected` | engine/Shopware/Bundle/SearchBundle/Condition/ManufacturerCondition.php:48 | the reported position holds an id that is not integerish, and every earlier id is integerish |
| `ManufacturerConditions.IntvalAllPermutation` | engine/Shopware/Bundle/SearchBundle/Condition/ManufacturerCondition.php:49 | a permutation of an accepted id list is accepted, and its `intval`s are the same multiset |
| `ManufacturerConditions.NormalizeIgnoresOrder` | engine/Shopware/Bundle/SearchBundle/Condition/ManufacturerCondition.php:49-50 | two id lists that are permutations of each other yield equal stored lists |
| `ManufacturerConditions.NormalizeIdempotent` | engine/Shopware/Bundle/SearchBundle/Condition/ManufacturerCondition.php:48-67 | building a condition from the ids another condition returns gives back the same list |
| `ManufacturerConditions.StringOrIntSameIds` | engine/Shopware/Bundle/SearchBundle/Condition/ManufacturerCondition.php:44-49 | replacing an int id by its decimal string (for example 5 by "5") keeps the list accepted and leaves the stored list the same |
| `ManufacturerConditions.NonNumericStringRefused` | engine/Shopware/Bundle/SearchBundle/Condition/ManufacturerCondition.php:48 | the list `[1, "abc"]` is refused at position 1 |
| `Integerish.IntvalAll` | engine/Shopware/Bundle/SearchBundle/Condition/ManufacturerCondition.php:49 | the converted list keeps the length and order of the input, and each entry is the `intval` of the id at that position |
| `Integerish.DecimalStringIsIntegerish` | engine/Shopware/Bundle/SearchBundle/Condition/ManufacturerCondition.php:44-49 | the canonical decimal string of every PHP int is integerish, and `intval` maps it back to that int |
| `Integerish.LeadingZeroIgnored` | engine/Shopware/Bundle/SearchBundle/Condition/ManufacturerCondition.php:48-49 | a leading zero on an unsigned numeral changes neither whether it is accepted nor its value |
| `Integerish.IntegerishStringSpellsItsValue` | engine/Shopware/Bundle/SearchBundle/Condition/ManufacturerCondition.php:48-49 | what the integerish check and `intval` mean for strings, in the assertion library's own terms: an accepted negative numeral is exactly the decimal spelling of its (negative) `intval`; an accepted unsigned numeral has a non-negative `intval` whose spelling is the numeral with its leading zeros trimmed, or is all zeros and converts to 0 |
| `Integerish.RejectedExamples` | engine/Shopware/Bundle/SearchBundle/Condition/ManufacturerCondition.php:48 | "", "abc", "-0", "+5" and "5.0" are not integerish |
| `NumericSort.SortInPlace` | engine/Shopware/Bundle/SearchBundle/Condition/ManufacturerCondition.php:50 | after the in-place sort the array is ascending, is a permutation of its old contents, and equals the reference sort of them |
| `NumericSort.SinkLast` | engine/Shopware/Bundle/SearchBundle/Condition/ManufacturerCondition.php:50 | one step of the in-place sort: moving the next element into the ascending prefix keeps the prefix ascending, the array a permutation of its old contents, and every later element where it was |
| `NumericSort.SortSeq` | engine/Shopware/Bundle/SearchBundle/Condition/ManufacturerCondition.php:50 | the reference numeric sort is ascending and a permutation of its input |
| `NumericSort.Insert` | engine/Shopware/Bundle/SearchBundle/Condition/ManufacturerCondition.php:50 | inserting into an ascending list keeps it ascending and adds exactly the one element |
| `NumericSort.SortedPermutationUnique` | engine/Shopware/Bundle/SearchBundle/Condition/ManufacturerCondition.php:50 | two ascending lists with the same multiset are equal, so the sorted result is unique |
| `NumericSort.SortSeqOfSorted` | engine/Shopware/Bundle/SearchBundle/Condition/ManufacturerCondition.php:50 | sorting an ascending list leaves it unchanged |
| `NumericSort.SortSeqIgnoresOrder` | engine/Shopware/Bundle/SearchBundle/Condition/ManufacturerCondition.php:50 | lists that are permutations of each other sort to the same list |
| `UniqueValidation.UniqueValidator.Validate` | engine/Shopware/Bundle/FormBundle/Constraints/UniqueValidator.php:47-79 | wrong kind of constraint: throws the RuntimeException and leaves the violations alone; empty value: no violation; unknown table: the query fails; otherwise exactly one violation (message, path, `:value`, `:table`, `:column`) is appended iff some row conflicts, and none otherwise; earlier violations are never changed; only the context is modified |
| `UniqueValidation.UniqueValidator.constructor` | engine/Shopware/Bundle/FormBundle/Constraints/UniqueValidator.php:36-39 | the validator holds the given database connection and validation context |
| `UniqueValidation.ExecutionContext.AddViolation` | engine/Shopware/Bundle/FormBundle/Constraints/UniqueValidator.php:73-78 | appends exactly the given violation after the existing ones |
| `UniqueValidation.Query.AndWhere` | engine/Shopware/Bundle/FormBundle/Constraints/UniqueValidator.php:62-67 | on the same table, the extended query selects exactly the rows the old one selected that also meet the new condition |
| `UniqueValidation.Execute` | engine/Shopware/Bundle/FormBundle/Constraints/UniqueValidator.php:57-69 | the query returns only rows of the table that meet every condition, and every such row |
| `UniqueValidation.RowCountPositive` | engine/Shopware/Bundle/FormBundle/Constraints/UniqueValidator.php:69-71 | the row count is positive iff some row of the table meets every condition |
| `UniqueValidation.UniqueQuerySelectsConflicts` | engine/Shopware/Bundle/FormBundle/Constraints/UniqueValidator.php:57-67 | a row meets the WHERE clause the validator builds iff it conflicts: it holds the value in the column and, with an ignore field set, holds a non-NULL id different from the edited record's non-NULL id |
| `UniqueValidation.HasConflictIffRowsReturned` | engine/Shopware/Bundle/FormBundle/Constraints/UniqueValidator.php:57-71 | some row of the table conflicts with the value iff the validator's query returns at least one row |
| `UniqueValidation.NoMatchNoConflict` | engine/Shopware/Bundle/FormBundle/Constraints/UniqueValidator.php:57-71 | if no row holds the value in the column, there is no conflict |
| `UniqueValidation.AnyMatchConflictsWithoutIgnore` | engine/Shopware/Bundle/FormBundle/Constraints/UniqueValidator.php:57-78 | with the ignore field empty, any row that holds the (non-empty) value in the column is a conflict |
| `UniqueValidation.OwnRowNotCounted` | engine/Shopware/Bundle/FormBundle/Constraints/UniqueValidator.php:62-67 | with the ignore field set, a row whose ignore column equals the edited record's id never conflicts |
| `UniqueValidation.RecordNeverConflictsWithItself` | engine/Shopware/Bundle/FormBundle/Constraints/UniqueValidator.php:62-71 | if every row holding the value is the edited record's own row, there is no conflict |
| `UniqueValidation.NullOwnIdHidesEveryRow` | engine/Shopware/Bundle/FormBundle/Constraints/UniqueValidator.php:62-71 | with an ignore field set whose value in the root data is null or unset, `ignoreColumn <> NULL` selects no row, so no value is ever reported |
| `UniqueValidation.UniqueViolationParameters` | engine/Shopware/Bundle/FormBundle/Constraints/UniqueValidator.php:73-78 | the violation carries the constraint's message, the given property path, and exactly the parameters `:value`, `:table` and `:column` with the value, table name and column name |
| `PhpValues.EmptyValues` | engine/Shopware/Bundle/FormBundle/Constraints/UniqueValidator.php:53 | `empty($value)` holds exactly for null, false, 0, '' and '0'; '00', ' ', '0.0', -1 and true are not empty |
| `PhpValues.IgnoreFieldNames` | engine/Shopware/Bundle/FormBundle/Constraints/UniqueValidator.php:62 | the ignore field counts as set exactly when it is a name other than '' and '0' |
| `PhpValues.Lookup` | engine/Shopware/Bundle/FormBundle/Constraints/UniqueValidator.php:63 | reading a key of the root form data yields its value, or null when the key is unset |

## Left out

- Floats, booleans, null, arrays and objects as manufacturer ids. The model takes only ints and strings, and the constructor's docblock allows only those.
- The integerish rule for strings follows the assertion library's check, which is not part of this model's sources. The model states that rule on strings as a predicate. It assumes a 64-bit PHP, so ids outside `PHP_INT_MIN..PHP_INT_MAX` are refused.
- The assertion library's exception reports only the refused value; the model also records its position. The exception's message text is not modelled.
- JSON serialisation of the condition comes from a trait that is not part of this model.
- SQL semantics:
  - Apart from NULL, the model compares values by plain structural equality. A comparison with NULL on either side selects no row, as in SQL; the rest of three-valued logic is not needed for the two conditions built here.
  - It does not model type coercion (such as `'5' = 5`), collations or case-insensitive matching.
  - It does not model a driver's `rowCount()` quirks.
  - A column a row does not list reads as NULL.
- Query failures other than an unknown table are left out, such as a bad column name or a lost connection. The unknown-table failure stands in for the database layer's exception.
- The Symfony violation builder is reduced to the violation it records: message, path and the three parameters. Two things are not modelled:
  - Symfony's `atPath` combines its argument with the context's current path. The model records the current property path as-is.
  - Translation and the violation's other fields: invalid value, constraint and code.
- PHP `empty()` is modelled on scalars only. Floats (`0.0`), empty arrays and objects are not modelled.
- An unset `ignoreField` key in the root data reads as null. PHP's notice about the undefined index is not modelled.
- Symfony's `initialize($context)` is folded into the validator's constructor.
- The functional tests of the backend controllers and the fixture-loading trait drive HTTP dispatch, the ORM and raw SQL. The controller helpers they call are not part of this model.

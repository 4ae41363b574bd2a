# Index key ranges, statement generation and the collator contract

A Dafny model of three parts of a SQL layer's query compiler:

- **Index key ranges** (`index_key_range.dfy`, module `KeyRange`). An
  `IndexKeyRange` describes one index scan: the index row type, optional `lo`
  and `hi` bounds with inclusive flags, the number of leading index fields the
  bounds constrain (`boundColumns`), and a `lexicographic` flag. The factories
  (`Unbounded`, `Bounded`, `StartingAt`, `EndingAt`) reject missing bounds. The
  two count helpers scan the declared fields in order. They count the run of
  selected fields that starts at field 0. They reject a selected field after a
  gap. With two bounds they first reject a field on which lo and hi disagree.
  Every field except `lexicographic` is a `const`. The setter's frame is
  `this`lexicographic`, so nothing else can change. A range renders as
  `(>=lo,<hi)`. The loops are proved against ghost specification functions
  (`SingleBoundResult`, `PairBoundResult`). Lemmas state what those functions
  mean: the exact count, when each error occurs, that a mismatch wins over a
  gap at the same field, and that swapping lo and hi changes nothing.
- **Statement generation of the Postgres operator compiler**
  (`operator_compiler.dfy`, module `PgCompiler`). This covers the rules for
  naming and typing a result column. It covers the DML check of `generate`,
  the positional parameter-type list (built in a loop, with an absent entry
  for an unresolved type), the parallel column name and type lists (another
  loop), and the choice between a modify statement and a query statement. The
  compiler proper and the type conversions are foreign functions, held in the
  `Foreign` record. The calls with effects (compiling, picking an encoder) are
  returned as `Effects`.
- **The collator contract** (`collation.dfy`, module `Collation`). The identity
  of an `AkCollator` (name, scheme, id) is a set of constants. The abstract
  methods are the function fields of a `Strategy`. `Lawful` holds the
  contracts the documentation gives those methods, together with the
  assumptions listed for it under "Left out"; the constructor requires it. Consequences are proved from it: the sort-key shape, the
  append/decode round trip, that a decode never succeeds without
  recoverability, that comparison is antisymmetric and transitive, and that sort keys are
  prefix-free.

`wrappers.dfy` holds `Option` (Java's null) and `Result` (a thrown exception).

The Java getters (`lo()`, `hi()`, `loInclusive()`, `boundColumns()`,
`lexicographic()`, `getName()`, `getScheme()`, `getCollationId()`,
`isCaseSensitive()`) are the
class fields themselves, read directly.

Two behaviours follow the code literally:

- `generate` returns null for a non-DML statement; it raises no error for
  an unsupported statement kind.
- A collator's `compare` may return any int. Only its sign is constrained, as
  Java's `Comparable` does; results are not required to be -1, 0 or 1.

## Model

| member | source | states |
|---|---|---|
| `KeyRange.BoundColumnsSingle` | src/main/java/com/akiban/qp/expression/IndexKeyRange.java:232-253 | the loop returns exactly the one-bound specification result: the leading count, the non-leading-fields error, or the assertion failure |
| `KeyRange.BoundColumnsPair` | src/main/java/com/akiban/qp/expression/IndexKeyRange.java:204-230 | the loop returns exactly the two-bound specification result: the different-fields error when a mismatch is the first failing field, and otherwise the one-bound result for lo |
| `KeyRange.LeadingCountIsRun` | src/main/java/com/akiban/qp/expression/IndexKeyRange.java:237-243 | the counter is the length of a run of selected fields from field 0 that ends at an unselected field or at N |
| `KeyRange.SingleBoundCharacterized` | src/main/java/com/akiban/qp/expression/IndexKeyRange.java:232-253 | success with k means 0 < k <= N, fields [0,k) selected and [k,N) not; non-leading error iff a selected field follows an unselected one; assertion failure iff neither, and N = 0 or field 0 unselected |
| `KeyRange.PrefixBoundCount` | src/main/java/com/akiban/qp/expression/IndexKeyRange.java:237-252 | for 1 <= k <= N a bound selecting exactly the first k fields yields boundColumns = k |
| `KeyRange.FieldZeroRequired` | src/main/java/com/akiban/qp/expression/IndexKeyRange.java:238-251 | a bound that does not select field 0 never yields a count |
| `KeyRange.MismatchRejected` | src/main/java/com/akiban/qp/expression/IndexKeyRange.java:210-226 | a disagreement at field i, with no selected field after a gap before i, rejects the pair with DifferentFields, whatever comes after |
| `KeyRange.MismatchFails` | src/main/java/com/akiban/qp/expression/IndexKeyRange.java:210-226 | lo and hi must select the same columns: a disagreement at any field in [0,N) rejects the pair with DifferentFields or NonLeadingFields, never with NoBoundColumns |
| `KeyRange.PairSuccessShape` | src/main/java/com/akiban/qp/expression/IndexKeyRange.java:204-230 | a successful pair count k has 0 < k <= N, and lo and hi both select exactly fields [0,k) of [0,N) |
| `KeyRange.PairAgreeing` | src/main/java/com/akiban/qp/expression/IndexKeyRange.java:204-230 | when lo and hi select the same fields, the pair count equals the one-bound count of lo and of hi |
| `KeyRange.PairBoundSymmetric` | src/main/java/com/akiban/qp/expression/IndexKeyRange.java:204-230 | exchanging lo and hi never changes the pair count's outcome, error kind included |
| `KeyRange.IndexKeyRange.FullScan` | src/main/java/com/akiban/qp/expression/IndexKeyRange.java:175-183 | a full scan has boundColumns 0, no bounds, both inclusive flags false and lexicographic false |
| `KeyRange.IndexKeyRange.Init` | src/main/java/com/akiban/qp/expression/IndexKeyRange.java:197-201 | stores the row type, the bounds and their flags as given, with the computed count, and lexicographic false |
| `KeyRange.IndexKeyRange.Create` | src/main/java/com/akiban/qp/expression/IndexKeyRange.java:185-202 | picks the helper by which bound is absent and fails exactly when that helper fails, with its error; on success all fields are as given and the range is valid |
| `KeyRange.IndexKeyRange.Unbounded` | src/main/java/com/akiban/qp/expression/IndexKeyRange.java:91-94 | the full-scan factory yields an unbounded range with boundColumns 0 and both flags false |
| `KeyRange.IndexKeyRange.Bounded` | src/main/java/com/akiban/qp/expression/IndexKeyRange.java:110-120 | a missing lo or hi fails with the null-bounds error; otherwise the result fails exactly as the pair count does, and a success keeps both bounds and flags and has boundColumns > 0 |
| `KeyRange.IndexKeyRange.StartingAt` | src/main/java/com/akiban/qp/expression/IndexKeyRange.java:130-138 | a missing lo fails with the null-bound error; otherwise the result fails as the one-bound count of lo does, and a success keeps lo and its flag with hi absent and hiInclusive false |
| `KeyRange.IndexKeyRange.EndingAt` | src/main/java/com/akiban/qp/expression/IndexKeyRange.java:148-156 | a missing hi fails with the null-bound error; otherwise the result fails as the one-bound count of hi does, and a success keeps hi and its flag with lo absent and loInclusive false |
| `KeyRange.IndexKeyRange.IsUnbounded` | src/main/java/com/akiban/qp/expression/IndexKeyRange.java:76-79 | holds exactly when both bounds are absent, which for a valid range is exactly when boundColumns is 0 |
| `KeyRange.IndexKeyRange.SetLexicographic` | src/main/java/com/akiban/qp/expression/IndexKeyRange.java:164-167 | sets the flag; its frame is that one field and every other field is a constant |
| `KeyRange.IndexKeyRange.ToString` | src/main/java/com/akiban/qp/expression/IndexKeyRange.java:34-49 | the step-by-step rendering equals "(" + optional ">="/">" and lo + "," + optional "<="/"<" and hi + ")" |
| `KeyRange.RenderingRecoversLowerSide` | src/main/java/com/akiban/qp/expression/IndexKeyRange.java:34-49 | the rendering is framed by parentheses; its second character shows whether lo is present and, when lo's text does not begin with '=', its third shows whether lo is inclusive |
| `PgCompiler.GetResultColumn` | src/main/java/com/akiban/sql/pg/PostgresOperatorCompiler.java:92-109 | a defaulted name of a column reference becomes the catalog column's name, any other name is kept; the type comes from the catalog column for a column reference and from the SQL type otherwise |
| `PgCompiler.ResultColumnNaming` | src/main/java/com/akiban/sql/pg/PostgresOperatorCompiler.java:95-102 | with an alias the result column is named by the alias; without one it takes the catalog column's declared name |
| `PgCompiler.ParameterType` | src/main/java/com/akiban/sql/pg/PostgresOperatorCompiler.java:126-132 | a parameter node without an SQL type gets an absent entry; otherwise the entry is whatever the conversion yields, absent included |
| `PgCompiler.ParameterTypeList` | src/main/java/com/akiban/sql/pg/PostgresOperatorCompiler.java:120-136 | the list is absent iff the parameter list is null or empty; otherwise one entry per parameter in order, absent when the node has no type or the conversion yields none; encoders are picked on exactly the present entries, in order |
| `PgCompiler.PresentExactly` | src/main/java/com/akiban/sql/pg/PostgresOperatorCompiler.java:128-133 | pickEncoder is invoked only on converted types that are present, on each of them, and once per present entry |
| `PgCompiler.ParameterTypesUnique` | src/main/java/com/akiban/sql/pg/PostgresOperatorCompiler.java:120-135 | the parameter-type rules determine the list completely |
| `PgCompiler.ColumnLists` | src/main/java/com/akiban/sql/pg/PostgresOperatorCompiler.java:145-152 | the name and type lists have one entry per result column, entry i taken from column i |
| `PgCompiler.Generate` | src/main/java/com/akiban/sql/pg/PostgresOperatorCompiler.java:111-159 | a non-DML statement yields no statement and nothing is compiled; a compile failure propagates; a modify plan yields a modify statement with the statement text, the plan and the parameter types; a query plan yields its operator, the column lists, the parameter types, offset and limit |
| `Collation.AkCollator.constructor` | src/main/java/com/akiban/server/collation/AkCollator.java:33-43 | the name, scheme and id are the constructor arguments, held in constants for the collator's lifetime |
| `Collation.AkCollator.Append` | src/main/java/com/akiban/server/collation/AkCollator.java:51-57 | appends the string's encoding as the key's next segment |
| `Collation.AkCollator.Decode` | src/main/java/com/akiban/server/collation/AkCollator.java:59-65 | decodes the key's current segment and moves past it |
| `Collation.AkCollator.AppendThenDecode` | src/main/java/com/akiban/server/collation/AkCollator.java:45-65 | for a recoverable collator, decoding a fresh key after appending a string gives back that string |
| `Collation.AkCollator.EncodeSortKeyBytes` | src/main/java/com/akiban/server/collation/AkCollator.java:67-74 | the sort key is non-empty, its last byte is zero and no other byte is |
| `Collation.AkCollator.DecodeSortKeyBytes` | src/main/java/com/akiban/server/collation/AkCollator.java:76-89 | a collator that is not recoverable reports the operation unsupported; a decoded string comes only from a recoverable one; bytes that are the sort key of a string decode to that string or are reported unsupported |
| `Collation.SortKeyRoundTrip` | src/main/java/com/akiban/server/collation/AkCollator.java:67-89 | decoding the whole sort key of a string yields that string, or the unsupported-operation failure |
| `Collation.SharedSortKeyUndecodable` | src/main/java/com/akiban/server/collation/AkCollator.java:67-89 | when two different strings share a sort key, decoding that key is reported unsupported |
| `Collation.CompareAntisymmetric` | src/main/java/com/akiban/server/collation/AkCollator.java:91-99 | for both compare overloads, sign(compare(a, b)) = -sign(compare(b, a)) |
| `Collation.LexCompareTransitive` | src/main/java/com/akiban/server/collation/AkCollator.java:67-74 | the byte order of sort keys is transitive: a < b and b < c give a < c |
| `Collation.CompareTransitive` | src/main/java/com/akiban/server/collation/AkCollator.java:96-99 | string comparison is transitive: compare(a, b) < 0 and compare(b, c) < 0 give compare(a, c) < 0 |
| `Collation.CompareValuesTransitive` | src/main/java/com/akiban/server/collation/AkCollator.java:91-94 | value-source comparison is transitive in the same way |
| `Collation.CompareZeroIffSameSortKey` | src/main/java/com/akiban/server/collation/AkCollator.java:67-99 | two strings compare equal exactly when their sort keys are the same bytes |
| `Collation.SortKeysPrefixFree` | src/main/java/com/akiban/server/collation/AkCollator.java:67-74 | thanks to the lone zero terminator, a sort key that is a prefix of another is equal to it |
| `Collation.AkCollator.IsRecoverable` | src/main/java/com/akiban/server/collation/AkCollator.java:45-49 | when it holds, decoding a segment recovers the string appended into it; when it does not, sort-key decoding is always unsupported |
| `Collation.AkCollator.CompareValues` | src/main/java/com/akiban/server/collation/AkCollator.java:91-94 | the value-source comparison has the same sign as comparing the strings the values hold |
| `Collation.AkCollator.CompareStrings` | src/main/java/com/akiban/server/collation/AkCollator.java:96-99 | the string comparison has the sign of the byte-order comparison of the two sort keys |
| `Collation.AkCollator.ToString` | src/main/java/com/akiban/server/collation/AkCollator.java:106-109 | the rendering is the name, then '(', then the scheme, then ')' |
| `Collation.ToStringDeterminesIdentity` | src/main/java/com/akiban/server/collation/AkCollator.java:106-109 | the rendering name + "(" + scheme + ")" determines the name and the scheme when the name contains no '(' |

## Left out

- BoundColumnsSingle: the helper's `assert boundColumns > 0` is modelled as enabled (the `NoBoundColumns` error). With JVM assertions disabled the source would build a range with boundColumns 0 instead.
- BoundColumnsPair: the same holds for its `assert boundColumns > 0`, modelled the same way as `NoBoundColumns`.
- Exception texts: errors are kinds (`RangeError`), without the message strings or the index name formatted into them.
- Null index row types, null column selectors and null select-column types: the model's types exclude all three. A select column's type goes to the type conversion without a null check, unlike a parameter's type.
- The lexicographic scan semantics: the execution engine interprets the flag. No code here checks bound values, so a bound pair such as (1,10,800)-(1,20,888) is not rejected.
- Concrete collation algorithms and the key byte layout. A key is a sequence of abstract segments plus a decode position.
- Abstract-class form: the collator's abstract methods are functions carried by a `Strategy` value, and the subclass obligations are the `Lawful` predicate. The model has no dynamic dispatch.
- Collation.Lawful: sort keys are assumed to order strings as `compare` does, and the two `compare` overloads are assumed to agree. Sort keys are compared as unsigned bytes (0 to 255); the source's `byte[]` holds signed Java bytes and no source line names the byte order. The doc comments only say each overload is a comparator.
- Collation.Lawful: a collator that is not recoverable is assumed to report sort-key decoding unsupported for every input. The doc comments tie `isRecoverable` only to key segments, and say `decodeSortKeyBytes` throws when it cannot decode sort keys; the model links the two.
- Collation.SortKeyShape: "last byte only must be zero" is read as "the last byte is zero and no other byte is". A weaker reading (only the last byte is required to be zero) would not make sort keys prefix-free.
- Collation.AkCollator.DecodeSortKeyBytes: the source's array bounds (index + length within the array) are a precondition.
- Collation.AkCollator.Decode: decoding past the last segment is excluded by a precondition. Its behaviour comes from the key library, which is not part of this model.
- `generate`'s `paramTypes` argument is never read by the source, so the model has no such parameter.
- The casts of the compiled result (to an update plan, a physical operator and the Postgres result column) are assumed to succeed. `CompileOutput` carries the right kinds directly.
- How the base compiler calls `getResultColumn` to build a query's result columns: that compiler is not part of this model, so `GetResultColumn` and `Generate` are not connected.
- Compiler glue: the constructor's session attribute writes, `parse` (re-parsing), `sessionChanged` (binder update), debug logging and `getSchema`. They are session state, I/O or delegation to unseen code.
- `PostgresDDLStatement` (DDL execution and messaging) and `HapiGetRequest` (an interface of getters): not part of this model.

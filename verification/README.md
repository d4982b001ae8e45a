# Verified models of the framework's engines

A Dafny 4.11 project that models the engines of this Go web framework which can be stated without
input and output, and proves what they are for: the GraphQL pipeline, the SQL builder with the
scopes and loaders that sit on it, the concurrent protocols (circuit breaker, job queue and
workers, single-flight cache, realtime hub), and the ordering and arithmetic engines (seeders,
migrations, rate limiter, quoted-printable). `dafny verify dfyconfig.toml` checks everything.

## How the models are built

One module stands for one source file or one half of it. Code that works step by step is a class
or a method with loops, whose `ensures` tie the new state to a specification function; the
properties are then lemmas about that function. Code made of expressions is functions and lemmas.

* **GraphQL.** `GraphqlAst` holds documents, the graph of fragment spreads and the two measures
  (height, weight) by which walks over them end; `Digraph` and `DepthFirst` hold the graph theory
  that the fragment check and the seeder sort share. `FragmentCycles` and `CostLimits` are the two
  checks before execution, and `ExpansionWork` is about how much the second can visit. `GraphqlSyntax` has the concrete syntax trees, their canonical
  rendering as tokens, and what each tree means as a document; `ParserSpec` is the grammar as
  recursive functions, `ParserCompleteness` proves that it parses exactly the renderings, `Parser`
  is the source's parser with its look-ahead token and counter, `DocumentRoundTrip` writes
  documents back, and `StandardSyntax` says which accepted sources the specification's grammar has.
  `Coercion` covers literals, runtime values, arguments and variables, and
  `Recoercion` when a value survives being coerced twice. `ExecutionSpec` defines execution without
  a mutable flag, under the code's rule for lists and under that of section 6.4.4 of the
  specification; `Executor` is the source's walk with its saved and restored flag, proved to follow
  the code's rule; `ExecutionProperties` says what the result is worth under either, and
  `NullPropagation` where the two part. `Requests` runs the whole pipeline of ExecuteWithLimits.
* **SQL.** `SqlConditions` has condition trees, their three-valued meaning and their text as
  tokens, with a reader that gives AND precedence over OR; `SqlReading` proves that reading the
  text gives back the meaning. `SqlScopes` is about filters that conditions are appended to,
  `SqlStatements` about whole statements and the numbers of their placeholders, and `SqlBuilder`
  is the mutable builder and the model's query on top of it. `Chunking` is the keyset walk and
  `EagerLoading` the batched relation loading.
* **Protocols.** A step is what happens between two acquisitions of a mutex. `CircuitBreaker`
  includes the unlock inside setState: a call that changes the state while a callback is
  configured is left in a gap, in which any other call may act, before it goes on. `JobQueue` has
  the in-process queue with the two critical sections of Nack, `Worker` any number of workers over
  it, `Cache` lazy expiry read sequentially, `SingleFlight` the fill protocol, and `Hub` the
  membership tables with a log of presence events, as runs of operations. Two facts follow from
  these invariants at once and have lemmas beside them: a failed run is the last one allowed exactly
  when the worker gives the job up (`Worker.LastTryIsDropped`, `Worker.ReportedExactlyAtTheLastTry`),
  and dropping expired entries is unseen (`Cache.DroppingExpiredIsUnseen`).
* **Ordering and arithmetic.** `Ordering` (Go's string order, sorting), `Seeder`, `Migrator`,
  `RateLimiter` over reals and nanoseconds, `QuotedPrintable` over bytes.

User code and the environment are parameters: resolvers are a function of the position of the call
in the run and its arguments, clock readings and the outcome of functions, handlers, producers,
migrations and callbacks are inputs, SQL's comparison operators are an arbitrary three-valued
function, and the order in which Go walks a map is left open.

## Where the code does something its documentation does not say

The models follow the code. Each of these is stated by a lemma or by a method's contract.

* An element of a list that cannot be completed nulls the whole list even when the list's elements
  are nullable; the comment in the code speaks of non-null elements only, and section 6.4.4 of the
  GraphQL specification keeps the null at the element (`NullPropagation.ElementNullsList`; exactly
  when the two agree: `NullPropagation.RulesAgreeIffContained`).
* Arguments that do not coerce and unknown fields give a plain null with an error, even where the
  field is non-null (`NullPropagation.RefusedArgumentsLeaveNull`,
  `NullPropagation.UnknownFieldLeavesNull`; exactly when: `NullPropagation.NullEntryIffRefused`).
  Of two selections with one response key the last wins; they are not merged.
* A literal `null` is accepted at an enum, a runtime null is not. A variable declared with the
  default `[null]` for a list of enums is therefore accepted where it is declared and refused where
  it is used (`Coercion.NullEnumDefaultIsRefusedAtUse`; exactly when:
  `Recoercion.LiteralSurvivesIffSafe`).
* Re-coercing a variable at its use site changes it when an enum member carries a Go value that is
  not a member standing for itself, or when a field's default does not come through (exactly when:
  `Recoercion.IdempotentIffStable` for one type, `Recoercion.AlwaysIdempotentIff` for a schema).
* The expansion walk is said to bound its own work, but only fields count: fragments without any
  field can double for ever within the limits (`ExpansionWork.FieldlessFragmentsDouble`). If every
  selection of the expansion holds a field, the node limit does bound the work
  (`CostLimits.WalkOperations`).
* After `... on T` the token that should open the selection set is taken whatever it is, empty
  documents, selection sets, argument lists and variable lists are accepted, and so are variables in
  default values (`StandardSyntax.BracketOpensFragment`, `StandardSyntax.EmptyListsAreAccepted`;
  exactly when: `StandardSyntax.AcceptedInGrammarIffStandard`).
* Chunk keeps an OrderBy of the caller's own in front of the key although its cursor is the key:
  it can then skip or repeat rows (`Chunking.CallerOrderSkipsRows`,
  `Chunking.CallerOrderRepeatsRows`; exactly when not:
  `Chunking.EveryRowOnceIffPagesRise`).
* The encoder escapes a space before a newline but not one before CRLF, which section 6.7 of
  RFC 2045 asks for: a decoder that deletes spaces at line ends loses it
  (`QuotedPrintable.SpaceBeforeCrlfDangles`; exactly when:
  `QuotedPrintable.StrictRoundTripUnlessDangling`).
* compileWheres ignores the glue of the first condition while WrapWheres looks at it, so a lone
  OrWhere is wrapped; both readings mean the same (`SqlScopes.WrapKeepsMeaning`). An empty raw
  fragment has no compilation: the source indexes an empty slice there.

## Model

| member | source | states |
|---|---|---|
| Parser.ParseDocumentLimited | graphql/parser.go:123-146 | A source parses if and only if it lexes to the end, stays within the token cap and is the rendering of a proper syntax tree; it then gives the one document that tree stands for. The cap and the lexer are blamed only when they are to blame. |
| Parser.CappedInputParses | graphql/parser.go:131-146 | Cutting the token stream at the cap changes no successful parse, and a failure for any other reason means no syntax tree renders to the source. |
| ParserCompleteness.ParsesExactlyRenderings | graphql/parser.go:173-622 | A token sequence parses to a tree exactly when the tree is proper and renders to that sequence, whole. |
| ParserCompleteness.RenderIsInjective | graphql/parser.go:173-622 | No two syntax trees look the same. |
| DocumentRoundTrip.EveryDocumentIsParsed | graphql/parser.go:173-622 | Every document of the data model is the result of parsing some token sequence: operations, variable definitions, wrapped types, both fragment forms, list and object values. |
| StandardSyntax.AcceptedInGrammarIffStandard | graphql/parser.go:173-622 | Every source of the specification's grammar (section 2, without directives and subscriptions) is accepted; an accepted source is in that grammar if and only if it has a token and a scan of its tokens finds no empty parentheses, no empty braces outside of parentheses, no type condition without a brace after it and no dollar sign behind a default except before the next variable definition. |
| StandardSyntax.RenderClean | graphql/parser.go:251-506 | The scan finds nothing exactly in the renderings of trees whose selection sets, argument lists and variable lists are not empty, whose inline fragments are opened by a brace and whose defaults hold no variable. |
| StandardSyntax.BracketOpensFragment | graphql/parser.go:408-420 | The source "{ ... on T ] a } }" is accepted. |
| StandardSyntax.EmptyListsAreAccepted | graphql/parser.go:369-396 | So is "{ a() {} }". |
| Parser.Parser.LexNext | graphql/parser.go:133-146 | One token more is counted and the cap enforced on every path. |
| Parser.Parser.ParseDoc | graphql/parser.go:173-209 | The definition loop agrees with the recursive grammar, success and error alike, and a later fragment of the same name replaces the earlier one. |
| Parser.Parser.ParseDefinition | graphql/parser.go:175-207 | One round of the definition loop: the definition the next token announces is added to the document, subscriptions and stray tokens are refused. |
| Parser.Parser.ParseNamedOperation | graphql/parser.go:221-248 | Operation kind, optional name, optional variables, required selection set. |
| Parser.Parser.ParseVariableDefs | graphql/parser.go:251-294 | Variable definitions in order, with types and defaults. |
| Parser.Parser.ParseTypeRef | graphql/parser.go:297-327 | A type reference with its list and non-null layers. |
| Parser.Parser.ParseFragmentDef | graphql/parser.go:330-365 | A fragment definition; a fragment cannot be named "on". |
| Parser.Parser.ParseSelectionSet | graphql/parser.go:369-396 | The selections up to the closing brace, possibly none; the opening token is taken without a look at it. |
| Parser.Parser.ParseFragment | graphql/parser.go:400-437 | Named spread, typed inline fragment or bare inline fragment. |
| Parser.Parser.ParseField | graphql/parser.go:440-477 | Alias, name, arguments and optional selection set. |
| Parser.Parser.ParseArguments | graphql/parser.go:480-506 | Arguments; the last of two with one name wins. |
| Parser.Parser.ParseValue | graphql/parser.go:510-571 | Any input value. |
| Parser.Parser.ParseListValue | graphql/parser.go:574-593 | A list value, in order. |
| Parser.Parser.ParseObjectValue | graphql/parser.go:596-622 | An object value; the last of two entries with one name wins. |
| FragmentCycles.DetectFragmentCycles | graphql/execute.go:138-172 | Accepts a document if and only if no chain of spreads, at any nesting, leads from a fragment back to itself; a blamed fragment does reach itself. |
| FragmentCycles.CycleDetector.Visit | graphql/execute.go:145-166 | The three-colour visit: an error names a fragment on a cycle, a clean return leaves the fragment and all it spreads done and the stack as it was. |
| FragmentCycles.CycleDetector.VisitSpreads | graphql/execute.go:176-194 | The walk over a selection set visits every spread inside fields and inline fragments. |
| FragmentCycles.AcceptedDocumentsExpandFinitely | graphql/execute.go:138-172 | Acceptance is exactly the existence of a rank that drops at every spread. |
| Digraph.AcyclicIffMeasured | graphql/execute.go:138-172 | A finite graph has no cycle if and only if its nodes carry a measure that drops along every edge. |
| GraphqlAst.WalkLowersHeight | graphql/limits.go:178-220 | On an acyclic document each way a walk goes on lowers the height it terminates by; a spread lowers it strictly. |
| GraphqlAst.FlattenLowersWeight | graphql/execute.go:226-248 | Expanding fragments in place never makes a selection set heavier, which is what execution terminates by. |
| CostLimits.CostWalker.Walk | graphql/limits.go:178-220 | Succeeds exactly when the field count of the whole expansion and its nesting are within the limits, having counted every field and visited every selection of it; on failure it has passed the node limit by at most one. However it ends, if all selections of the expansion hold fields, the visits are at most the fields counted times the levels of the expansion. The set of fragments being expanded is left as it was. |
| CostLimits.CostWalker.WalkOne | graphql/limits.go:182-217 | The same for one selection. |
| CostLimits.CostWalker.WalkSpread | graphql/limits.go:201-216 | The guard against a fragment that is already being expanded never fires. |
| CostLimits.WalkOperations | graphql/limits.go:96-107 | The node budget is shared by all operations, the depth limit is each operation's own. If all selections hold fields, the node limit bounds the selections visited, whatever the outcome: at most one more than the limit, times the levels of the expansion. |
| ExpansionWork.MostLevelsAreWritten | graphql/limits.go:178-220 | The levels of the expansion are at most those written in one place times the number of fragments and one. |
| ExpansionWork.FieldlessFragmentsDouble | graphql/limits.go:173-220 | Without fields the walk does not bound its work: a chain of n fragments that each spread the one before twice, the first of them empty, is within every depth and node limit and takes 2^(n+1) - 1 visits. |
| CostLimits.AliasScan.Scan | graphql/limits.go:115-142 | Counts the aliases of a selection set, bounded by the limit, and finds introspection fields at any nesting. |
| CostLimits.CheckAliasesAndIntrospection | graphql/limits.go:114-154 | Passes exactly when aliases over all operations and fragments are within the limit and, if asked for, nothing introspects. |
| CostLimits.Validate | graphql/limits.go:87-108 | Passes exactly the documents within every limit; a limit of zero or less is none. |
| Coercion.RuntimeResultInhabits | graphql/execute.go:856-936 | Whatever a runtime value coerces to inhabits the type: no null under non-null at any list or object depth, every required key, no undeclared key. |
| Coercion.LiteralResultInhabits | graphql/execute.go:552-660 | The same for literals, with variables anywhere inside. |
| Coercion.CoercedArgumentsInhabit | graphql/execute.go:520-547 | Coerced arguments hold every required argument, nothing undeclared and only values of the declared types. |
| Coercion.FixedIffCanonical | graphql/execute.go:856-936 | Coercion leaves a value alone exactly when the value is canonical for the type. |
| Coercion.RuntimeResultIsCanonical | graphql/execute.go:856-936 | With enum members that stand for themselves, results are canonical. |
| Coercion.CoerceRuntimeIsIdempotent | graphql/execute.go:856-936 | Re-coercing a variable at its use site then changes nothing. |
| Coercion.EnumIdempotentIffStable | graphql/execute.go:886-895 | Coercion at an enum is idempotent if and only if every member's value is again a member standing for itself. |
| Coercion.CanonicalIffNoNullEnum | graphql/execute.go:856-936 | A value that inhabits its type is re-coerced to itself exactly when no null sits at an enum. |
| Coercion.LiteralReCoercedIffNoNullEnum | graphql/execute.go:552-629 | A step to the next row: a coerced literal comes through its use site unchanged exactly when no null sits at an enum of it. |
| Recoercion.LiteralSurvivesIffSafe | graphql/execute.go:552-660 | A literal accepted where it is declared comes through its use site unchanged if and only if it has no null at an enum, no variable in it brings one, and no field default that gets filled in has one. |
| Recoercion.RuntimeSafety | graphql/execute.go:856-936 | The same condition for the value of a variable. |
| Recoercion.NonNullIdempotentIff | graphql/execute.go:858-862 | Coercion at a non-null type is idempotent exactly when it is at the type inside. |
| Recoercion.ListIdempotentIff | graphql/execute.go:863-884 | Coercion at a list type is idempotent exactly when it is at the element type. |
| Recoercion.ObjectIdempotentIff | graphql/execute.go:896-936 | A step to the next rows: coercion at an input object that anything coerces at is idempotent exactly when it is at every field type and every default that can be filled in comes through unchanged. |
| Recoercion.IdempotentIffStable | graphql/execute.go:856-936 | Coercion at a type, recursive input objects included, is idempotent if and only if the values of every enum that can be reached from the type are members standing for themselves and every default that can be filled in on the way comes through unchanged. |
| Recoercion.AlwaysIdempotentIff | graphql/execute.go:856-936 | It is at every type if and only if that holds of all enums and defaults of the schema. |
| Coercion.NullEnumDefaultIsRefusedAtUse | graphql/execute.go:552-629 | A default of [null] for a list of enums is accepted where it is declared and refused where it is used. |
| Coercion.CoerceVariables | graphql/execute.go:950-979 | Succeeds exactly when no declared variable is refused. |
| Coercion.CoercedVariablesInhabit | graphql/execute.go:950-979 | Every stored variable inhabits its declared type, one of a non-null type is always stored, and one without value or default is left out. |
| Executor.Walk.ExecuteSelectionSet | graphql/execute.go:209-222 | Same data, errors, bubble and number of resolver calls as the flag-free definition, and the caller's flag is left as it was. |
| Executor.Walk.CollectFields | graphql/execute.go:226-248 | Collecting in place agrees with executing the flattened selection set item by item. |
| Executor.Walk.ResolveField | graphql/execute.go:258-311 | Writes one response key, appends the field's errors and raises the flag exactly when the field bubbles. |
| Executor.Walk.CompleteValue | graphql/execute.go:329-381 | Null propagation through every layer of a type agrees with the definition and does not touch the flag. |
| Executor.Walk.CompleteList | graphql/execute.go:341-361 | A list stops at the first element that bubbles. |
| ExecutionProperties.CompleteIsHonest | graphql/execute.go:329-381 | A value that bubbles has added an error whose path extends its own. |
| ExecutionProperties.ExecuteFieldIsHonest | graphql/execute.go:258-311 | A field bubbles only if its own type is non-null. |
| ExecutionProperties.ExecuteSetIsHonest | graphql/execute.go:209-222 | A selection set that bubbles has added an error at or below its path. |
| ExecutionProperties.BubbleIsReported | graphql/execute.go:329-381 | A null that travels upward was reported at a place from which every position up to here is of a non-null type, save the list elements that the code lets through. |
| ExecutionProperties.SetBubbleIsReported | graphql/execute.go:209-248 | A selection set that bubbles does so for a field of non-null type that failed or let a null through. |
| ExecutionProperties.CompleteIsExplained | graphql/execute.go:329-381 | A value completed without bubbling is what the resolved value comes to at its type: no null under a non-null layer at any depth, and below it a null stands only for a nil value, a value that is no list, a refused field, a failed resolver, or an error whose null could travel no further up. |
| ExecutionProperties.ExecuteSetIsExplained | graphql/execute.go:209-248 | The data of a selection set has exactly the response keys of its expansion; each entry is a plain null with an error exactly where the selection was refused, and otherwise what the outcome of one of the resolver calls of this run comes to, with every null pinned to the nearest position up from its error where it may stand. |
| NullPropagation.NullEntryIffRefused | graphql/execute.go:270-283 | In an object that is not nulled itself, the entry of an unknown field or of a field of non-null type is null if and only if the field is unknown or its arguments do not coerce. |
| NullPropagation.RefusedArgumentsLeaveNull | graphql/execute.go:278-283 | "{ a }" without a required argument: null at a non-null type, the object stays, no resolver is called. |
| NullPropagation.UnknownFieldLeavesNull | graphql/execute.go:270-275 | The same for an unknown field. |
| NullPropagation.ElementNullsList | graphql/execute.go:350-358 | At "{ xs { a } }" with xs: [T] and a: String!, an element without its a nulls the whole list in the code, only the element by section 6.4.4. |
| NullPropagation.RulesAgreeIffContained | graphql/execute.go:341-361 | The code gives every request the data, errors and resolver calls of the rule of section 6.4.4 if and only if no list type of a field that can be called has nullable elements that a null can travel out of. |
| NullPropagation.SetAgrees | graphql/execute.go:341-361 | For a schema without such a list, on every document and with every resolver. |
| NullPropagation.AnswersPart | graphql/execute.go:341-361 | For every schema with one, a document and resolvers on which the two differ. |
| NullPropagation.NothingBubbles | graphql/execute.go:329-381 | No null travels upward out of a nullable position whose type ends in a leaf or in an object type without a callable field of non-null type, and has no non-null layer inside, whatever the values. |
| ExecutionProperties.FlattenLowersFieldCount | graphql/execute.go:226-248 | What one object type selects is never more than the whole expansion. |
| ExecutionProperties.ExecuteSetCost | graphql/execute.go:209-311 | Unless a resolver returns a list, execution makes at most as many resolver calls as the expansion has fields. |
| Requests.SelectOperation | graphql/execute.go:120-136 | The one operation a request's name selects, or none. |
| Requests.ExecuteWithLimits | graphql/execute.go:56-102 | A request runs exactly when its text parses, is acyclic and within the limits, selects an operation and its variables coerce; it is then answered as the definition says, and a refused request has called no resolver. |
| Requests.NodeLimitBoundsCalls | graphql/execute.go:56-102 | The node limit bounds the resolver calls of every request that runs without lists. |
| Requests.DataIsExplained | graphql/execute.go:56-102 | A response without data has an error; a response with data explains every null its types forbid by the resolver calls the request made. |
| SqlReading.TextMeansConditions | query/builder.go:577-645 | Reading the compiled text of any well-grouped condition tree with SQL precedence, anywhere in a statement, gives back the three-valued meaning of the tree under its own arguments. |
| SqlReading.ListReads | query/builder.go:577-645 | The text is read whole, to the expression of AND-runs under OR, with placeholders numbered by position. |
| SqlReading.EmptyGroupIsUnreadable | query/builder.go:115-126 | An empty group would not be SQL. |
| SqlScopes.FilterHoldsByRuns | query/builder.go:577-645 | A row passes exactly when all conditions of one AND-run hold; the glue of the first condition is ignored. |
| SqlScopes.FilterSplitsAtOr | query/builder.go:577-645 | An OR after the first condition splits the filter. |
| SqlScopes.WrapKeepsMeaning | query/builder.go:169-188 | Wrapping leaves the meaning of the filter alone and leaves no OR at the top. |
| SqlScopes.WrappedFilterTakesAnd | query/builder.go:169-188 | A wrapped filter with a condition appended means the old filter AND the condition. |
| SqlScopes.UnwrappedFilterLeaks | query/builder.go:169-188 | Why wrapping is needed: without it a row an earlier run accepts passes although the appended condition rejects it. |
| SqlScopes.NullAwareMeans | query/builder.go:141-155 | Equality with null finds nulls, inequality finds the others, any other comparison with null holds of no row. |
| SqlBuilder.Builder.AddWhere | query/builder.go:115-139 | Appends the null-aware condition, or panics on an unknown operator and changes nothing. |
| SqlBuilder.Builder.AddGroup | query/builder.go:117-126 | Appends the nested builder's conditions as a group, and nothing if it has none: no group is ever empty. |
| SqlBuilder.Builder.Having | query/builder.go:250-253 | A HAVING comparison with null is not rewritten. |
| SqlBuilder.Builder.WrapWheres | query/builder.go:169-188 | The new filter is the wrapped old one; no clause other than the filter changes. |
| SqlBuilder.Builder.Clone | query/builder.go:374-383 | A fresh builder with the same clauses. |
| SqlBuilder.Builder.CompileWheres | query/builder.go:577-645 | Text and arguments of a condition list from any counter on; the counter advances by the number of arguments. It fails only on an empty raw fragment. |
| SqlBuilder.Builder.CompileOne | query/builder.go:587-642 | The same for one condition. |
| SqlBuilder.Builder.ToSQL | query/builder.go:386-481 | The SELECT of the clauses; the counter ends at the number of arguments. |
| SqlBuilder.Builder.Update | query/builder.go:749-777 | UPDATE with the columns in sorted order, then the filter. |
| SqlBuilder.Builder.Delete | query/builder.go:780-795 | DELETE with the filter. |
| SqlBuilder.Builder.InsertBatch | query/builder.go:714-746 | The columns are the first row's, sorted; every row contributes one value per column. |
| SqlBuilder.SortStrings | query/builder.go:848-854 | The in-place insertion sort sorts. |
| SqlBuilder.SortedColumns | query/builder.go:754-758 | Whatever order the map is walked in, the columns come out sorted, each once. |
| SqlBuilder.ColumnsAreUnique | query/builder.go:754-758 | So a statement's text does not depend on that order. |
| SqlStatements.SelectIsNumbered | query/builder.go:386-481 | Placeholders of a SELECT are numbered 1, 2, 3 and so on, in the order of its arguments, across joins, nested groups, lists, ranges and HAVING. |
| SqlStatements.SelectFiltersByMeaning | query/builder.go:386-481 | Reading the WHERE clause out of the whole statement, with its whole argument list, gives the meaning of the condition tree. |
| SqlStatements.SelectKeepsGroupsByMeaning | query/builder.go:386-481 | Reading the HAVING clause out of the whole SELECT, with all its arguments, gives the meaning of its conditions. |
| SqlStatements.UpdateIsNumbered | query/builder.go:749-777 | The filter's placeholders go on after the assigned values. |
| SqlStatements.UpdateFiltersByMeaning | query/builder.go:749-777 | Reading the WHERE clause out of an UPDATE, behind the assigned values, gives the meaning of the condition tree. |
| SqlStatements.UpdateAssigns | query/builder.go:749-777 | Each column of an UPDATE is given the placeholder whose argument is the row's value for it. |
| SqlStatements.DeleteIsNumbered | query/builder.go:780-795 | The filter's placeholders start at 1. |
| SqlStatements.DeleteFiltersByMeaning | query/builder.go:780-795 | Reading the WHERE clause out of a DELETE gives the meaning of the condition tree. |
| SqlStatements.InsertIsNumbered | query/builder.go:714-746 | A batch numbers its placeholders row by row. |
| SqlStatements.BatchArgAt | query/builder.go:730-739 | The placeholder at row r and column c carries that row's value for that column, null if it has none. |
| SqlBuilder.Model.ScopedQB | orm/query.go:120-139 | The scope is appended to a wrapped copy; the model's own builder keeps its clauses. |
| SqlBuilder.ScopedFilterMeans | orm/query.go:113-139 | A scoped query accepts exactly the rows that the filter accepts and the soft-delete scope lets through. |
| SqlBuilder.Model.FindQuery | orm/query.go:186-207 | The statement of Find. |
| SqlBuilder.FindMeans | orm/query.go:178-207 | Find accepts a row exactly when filter and scope do and the key is the one asked for. |
| SqlBuilder.CursorMeans | orm/builder_ext.go:84-89 | A page's filter is the caller's filter, the scope and the cursor, all three. |
| Chunking.Chunk | orm/builder_ext.go:68-114 | Visits the pages that the keyset walk consists of and stops at the first page whose callback fails. |
| Chunking.EveryRowOnceIffPagesRise | orm/builder_ext.go:68-114 | The walk visits every row exactly once if and only if each full page, in the order of the query, ends with a key above all before it and below all after it. |
| Chunking.KeyOrderVisitsAll | orm/builder_ext.go:68-114 | In key order it visits every row once, in order. |
| Chunking.CallerOrderSkipsRows | orm/builder_ext.go:84-89 | With an OrderBy of the caller's own in front of the key it can skip rows. |
| Chunking.CallerOrderRepeatsRows | orm/builder_ext.go:84-89 | Or visit a row twice. |
| EagerLoading.CollectParentKeys | relations/relations.go:420-443 | The queried keys are the non-nil keys of the parents, each once, and every parent with a key is listed under it exactly once, in order. |
| EagerLoading.LoadHasOrMorph | relations/relations.go:112-175 | The batch gives every parent with a non-nil key exactly the rows a query for its key alone would, in row order and exactly once, even when parents share a key. |
| EagerLoading.Buckets | relations/relations.go:141-160 | The buckets group the fetched rows by key, in row order. |
| EagerLoading.LoadBelongsTo | relations/relations.go:177-225 | Every parent whose key some row carries is given the last such row, exactly once; the others are left alone. |
| EagerLoading.Results | relations/relations.go:205-213 | The row kept for a key is the last one fetched with it. |
| EagerLoading.UniqueOwner | relations/relations.go:177-225 | With a unique owner key that row is the one there is. |
| EagerLoading.WhereInIsFaithful | relations/relations.go:124-133 | An IN query that compares keys as they are normalised returns all rows of every key asked for, in table order. |
| EagerLoading.StringMeetsInteger | relations/relations.go:377-382 | A string is the same key as an integer exactly when it is its decimal form. |
| EagerLoading.StringsStayApart | relations/relations.go:377-382 | Different strings are different keys. |
| EagerLoading.IntegersMeet | relations/relations.go:343-375 | Signed and unsigned keys meet exactly on equal values. |
| CircuitBreaker.Breaker.constructor | resilience/breaker.go:118-148 | Starts closed in generation 1, with usable defaults. |
| CircuitBreaker.Breaker.BeforeRequest | resilience/breaker.go:197-211 | Up to its first unlock it is the entry step of the system. |
| CircuitBreaker.Breaker.AdmitCall | resilience/breaker.go:197-211 | The rest of it, with whatever other calls did while the state callback ran. |
| CircuitBreaker.Breaker.AfterRequest | resilience/breaker.go:213-227 | Up to its first unlock it is the finish step of the system. |
| CircuitBreaker.Breaker.SettleCall | resilience/breaker.go:213-227 | The rest of it, with the clock reading from before the callback. |
| CircuitBreaker.Breaker.SetState | resilience/breaker.go:270-286 | A change of state begins a generation and unlocks exactly when there is a callback to run. |
| CircuitBreaker.StepKeepsInv | resilience/breaker.go:197-297 | In every interleaving: requests are accounted for, open counts nothing, half-open has let in at most maxRequests probes and seen none fail. |
| CircuitBreaker.EveryStateHasInv | resilience/breaker.go:197-297 | So in every state of every run. |
| CircuitBreaker.RunsAccountForProbes | resilience/breaker.go:197-247 | In half-open, requests are the probes in flight plus the successes, never above maxRequests; in open, all counts are zero and nothing is in flight. |
| CircuitBreaker.SameGenerationSameState | resilience/breaker.go:262-297 | A step that keeps the generation keeps the state; generations only grow. |
| CircuitBreaker.GenerationDeterminesState | resilience/breaker.go:262-297 | Over any run a generation determines its state. |
| CircuitBreaker.StaleOutcomeChangesNothing | resilience/breaker.go:213-227 | An outcome of an earlier generation changes no count. |
| CircuitBreaker.OpenIsLeftOnTime | resilience/breaker.go:262-267 | Open is left only for half-open and only on a clock reading at or past the expiry. |
| CircuitBreaker.OpenHoldsUntilExpiry | resilience/breaker.go:197-267 | Over any run an open circuit admits no call before some reading has reached its expiry. |
| CircuitBreaker.HalfOpenIsDecided | resilience/breaker.go:229-247 | It closes only on the last of exactly maxRequests successes, none failed and none still running; it opens again only on a failure. |
| CircuitBreaker.ClosedTrips | resilience/breaker.go:236-258 | Closed is left only on a failure that meets a threshold. |
| CircuitBreaker.NextProbeIsAdmitted | resilience/breaker.go:197-211 | With nothing in flight the half-open circuit admits the next call, so it cannot wedge. |
| RateLimiter.RateLimiter.constructor | resilience/ratelimit.go:43-63 | A full bucket with usable rate and burst. |
| RateLimiter.RateLimiter.DoRefill | resilience/ratelimit.go:66-76 | Credits the time passed, up to the burst; a reading that goes back changes nothing. |
| RateLimiter.RateLimiter.Allow | resilience/ratelimit.go:80-89 | Takes a token exactly when there is one; the bucket stays within 0 and the burst. |
| RateLimiter.RateLimiter.Reserve | resilience/ratelimit.go:93-108 | A refusal names a positive wait, one nanosecond beyond which a token is there. |
| RateLimiter.RunIsPaidFor | resilience/ratelimit.go:66-108 | Over any run, grants and what is left never exceed what was there and the credit for the time passed, even if readings go back. |
| RateLimiter.GrantsAreLimited | resilience/ratelimit.go:66-108 | Over any run the number of grants is at most the burst plus the rate times the time from the run's own first reading to its latest, even if readings go back and however long the bucket was idle before. |
| RateLimiter.EveryStretchIsLimited | resilience/ratelimit.go:66-108 | The same of every stretch of calls within a run. |
| RateLimiter.RunIsSound | resilience/ratelimit.go:66-108 | The bucket stays within 0 and the burst over any run. |
| RateLimiter.WaitingSuffices | resilience/ratelimit.go:101-107 | The deficit over the rate is long enough to wait. |
| JobQueue.MemoryQueue.Push | queue/queue.go:335-345 | A due job goes to the end of the ready list, any other to the delayed list. |
| JobQueue.MemoryQueue.PromoteDelayed | queue/queue.go:415-428 | The in-place compaction moves exactly the due jobs, in order, and keeps the others, in order. |
| JobQueue.MemoryQueue.PopReady | queue/queue.go:351-359 | Hands out the oldest ready job and records it as in flight. |
| JobQueue.MemoryQueue.Ack | queue/queue.go:379-384 | Forgets the job. |
| JobQueue.MemoryQueue.NackTake | queue/queue.go:386-393 | The first critical section of Nack takes the job out. |
| JobQueue.MemoryQueue.NackPut | queue/queue.go:394-407 | The second puts it back, with one attempt more, for now or for later. |
| JobQueue.PromotionTakesTheDue | queue/queue.go:415-428 | A promotion takes exactly the jobs that are due. |
| JobQueue.StepKeepsPlaces | queue/queue.go:335-428 | No step but a push changes in how many places a job is. |
| JobQueue.StepKeepsInv | queue/queue.go:335-428 | In every interleaving each pushed job is in exactly one of ready, delayed, in flight, between the two parts of Nack, or acknowledged. |
| JobQueue.EveryStateHasInv | queue/queue.go:335-428 | So in every state of every run. |
| JobQueue.NothingIsPoppedEarly | queue/queue.go:347-377 | A popped job is available by the clock and was not out already. |
| Worker.BackoffDoubles | queue/queue.go:302-313 | The multiplier starts at 1, doubles with each attempt and stays at 65536 from the sixteenth on. |
| Worker.Worker.Handle | queue/queue.go:259-284 | Drops, acknowledges or retries the job; reports exactly the jobs it gives up. |
| Worker.WorkerStepKeepsInv | queue/queue.go:259-284 | With any number of workers the attempts a job carries count the runs of its handler. |
| Worker.EveryStateHasInv | queue/queue.go:259-284 | So in every state of every run. |
| Worker.HandlersRunAtMostMaxRetryTimes | queue/queue.go:259-284 | Over any run a job's handler is invoked at most max(1, maxRetry) times, and the job is reported as failed at most once, after exactly that many runs. |
| Cache.Memory.Get | cache/cache.go:115-132 | What is live is returned; dropping an expired entry is seen by no one. |
| Cache.Memory.Put | cache/cache.go:134-153 | The entry is live until its time to live has passed, for good with zero, never with a negative one. |
| Cache.Memory.Pull | cache/cache.go:177-191 | Reads and removes. |
| Cache.Memory.PurgeExpired | cache/cache.go:210-218 | Leaves no expired entry and is seen by no one. |
| SingleFlight.Memory.Enter | cache/cache.go:277-303 | Joins the flight of the key, returns what is stored, or starts a flight. |
| SingleFlight.Memory.StoreOutcome | cache/cache.go:305-309 | Only a success is stored. |
| SingleFlight.Memory.LeaveTable | cache/cache.go:311-313 | The flight leaves the table. |
| SingleFlight.Memory.CloseFlight | cache/cache.go:314-321 | Its waiters are released. |
| SingleFlight.StepKeepsInv | cache/cache.go:276-322 | The protocol's invariant survives every interleaving. |
| SingleFlight.EveryStateHasInv | cache/cache.go:276-322 | So it holds in every state of every run. |
| SingleFlight.OneProducerPerKey | cache/cache.go:276-322 | Two producers for one key are the same call. |
| SingleFlight.ProducersSucceedOnce | cache/cache.go:263-322 | Over any run a key's producer succeeds at most once more than the key was removed. |
| SingleFlight.ResultsStay | cache/cache.go:305-314 | The outcome of a flight never changes. |
| SingleFlight.WaitersGetTheirFlight | cache/cache.go:278-293 | A waiter returns exactly the value or error of the flight it joined. |
| SingleFlight.WaitersAreServed | cache/cache.go:276-322 | A waiter's flight is closed or has a call under way that will close it. |
| Hub.Hub.Add | realtime/hub.go:107-127 | A new client has an identity that no client and no channel set has; a closed hub takes none. |
| Hub.Hub.Subscribe | realtime/hub.go:140-217 | Joins one channel: refused exactly when authorisation is missing or the hub closed; a presence is announced on the first join only. |
| Hub.Hub.Unsubscribe | realtime/hub.go:221-264 | Leaves one channel, announced exactly if the client was present. |
| Hub.Hub.Remove | realtime/hub.go:358-405 | A disconnecting client leaves every channel and every roster, with one leave event for each channel it was present in, in the order in which its set is walked. |
| Hub.Hub.Broadcast | realtime/hub.go:284-307 | Reaches exactly the clients that have the channel in their own set, save the excepted one. |
| Hub.Hub.PresenceOf | realtime/hub.go:324-336 | The roster is the members' and equals the recorded joins minus the recorded leaves. |
| Hub.Hub.Close | realtime/hub.go:408-422 | Empties the tables once. |
| Hub.Hub.constructor | realtime/hub.go:79-91 | An open hub with empty tables. |
| Hub.StepKeepsInv | realtime/hub.go:107-422 | Every critical section keeps the tables in agreement with each other and with the log. |
| Hub.EveryStateHasInv | realtime/hub.go:107-422 | So they agree in every state of every run. |
| Hub.TablesAgreeInEveryRun | realtime/hub.go:107-422 | Over any run: while the hub is open a client is among a channel's members exactly when the channel is in the client's set, rosters name exactly the members of presence channels and are the recorded joins minus the recorded leaves, and no stored channel is empty; once closed it holds nobody. |
| Hub.IdentitiesAreFresh | realtime/hub.go:107-127 | Over any run no identity is handed out twice, and after Close none is. |
| Hub.RemovedIsGone | realtime/hub.go:358-405 | After a disconnect the client is in no channel and on no roster. |
| Hub.LeaveAllKeeps | realtime/hub.go:379-395 | Leaving channels one after the other keeps rosters and log in agreement and touches no other channel. |
| Hub.LeaveKeeps | realtime/hub.go:228-263 | So does a leave, which drops an emptied channel. |
| Hub.MutualJoin | realtime/hub.go:160-216 | A client is among a channel's members exactly when the channel is in the client's set, after a join. |
| Hub.MutualLeave | realtime/hub.go:358-405 | And after leaving any number of channels. |
| QuotedPrintable.Encode | mail/mail.go:411-444 | The encoding loop computes the recursive encoding that the lemmas below are about. |
| QuotedPrintable.RoundTrip | mail/mail.go:411-444 | Decoding gives back the text with carriage returns dropped and each newline made CRLF. |
| QuotedPrintable.EveryLineFits | mail/mail.go:409-444 | No output line is longer than 76 characters. |
| QuotedPrintable.StrictDecoding | mail/mail.go:411-444 | A decoder that deletes spaces at line ends, as section 6.7 of RFC 2045 asks, recovers exactly the surviving text. |
| QuotedPrintable.StrictRoundTripUnlessDangling | mail/mail.go:411-444 | It recovers the whole text if and only if no space is followed by carriage returns up to a line end. |
| QuotedPrintable.NoBareSpaceAtLineEnds | mail/mail.go:432 | Without such a space no output line ends in a bare space. |
| QuotedPrintable.NothingDanglesWithoutReturns | mail/mail.go:427-432 | A text without carriage returns has no such space. |
| QuotedPrintable.SpaceBeforeCrlfDangles | mail/mail.go:427-432 | A space before CRLF is one: it is left bare. |
| Seeder.Registry.Register | seeder/seeder.go:42-54 | Adds a seeder unless it is nameless or a duplicate. |
| Seeder.Registry.Sorted | seeder/seeder.go:73-123 | Succeeds exactly when every dependency is registered and none is circular; the result is a permutation of the registered seeders, each after its dependencies, and leaves an order that is already good alone. An error names a real fault. |
| Seeder.Sorter.Visit | seeder/seeder.go:92-115 | The three-colour visit of one seeder. |
| Seeder.Sorter.VisitAll | seeder/seeder.go:104-111 | The loop over its dependencies. |
| Migrator.Registry.Register | migrations/registry.go:23-35 | Adds a migration unless it is nameless or a duplicate. |
| Migrator.Registry.All | migrations/registry.go:37-49 | Every registered migration once, in strictly increasing name order. |
| Migrator.TableOrderIsChronological | migrations/migrator.go:186-192 | Reading the log by (batch, name) gives the order of application, and descending its reverse. |
| Migrator.BatchExtends | migrations/migrator.go:120-134 | A new batch goes after everything recorded. |
| Migrator.NamesStayIncreasing | migrations/migrator.go:100-113 | Without out-of-order runs names increase along the log. |
| Migrator.Migrator.FindPending | migrations/migrator.go:100-115 | The pending migrations in name order, cut at the limit, or the first that comes too late. |
| Migrator.Migrator.RunUp | migrations/migrator.go:80-135 | Appends one batch of what was applied; stops at the first failure; the log stays chronological. |
| Migrator.Migrator.Rollback | migrations/migrator.go:168-223 | Removes a suffix of the log in exact reverse order, even when it stops on an error, and blames the record it stopped at. |
| Migrator.Migrator.Reset | migrations/migrator.go:246-261 | A successful Reset empties the log. |
| Migrator.Migrator.UpThenRollback | migrations/migrator.go:166-223 | A successful Up that applied something, followed by a rollback of one batch, restores the log. |
| Migrator.LastBatchIsWhatUpAdded | migrations/migrator.go:193-208 | The batch Rollback aims at is what the last Up added. |
| Migrator.UpUndone | migrations/migrator.go:168-223 | Only a failing Down can stop that rollback half-way. |
| Migrator.HighestNameBounds | migrations/migrator.go:372-382 | The highest name applied. |

## Left out

- Lexing: a source is the tokens the lexer would produce and whether it then fails. Positions and
  the texts of error messages are not modelled, only their kinds.
- Float formatting, float keys and the scalar conversions that parse numbers from text, NaN and the
  rounding of floats: numbers are integers and reals.
- Leaf serialisation beyond nil: a resolved leaf is kept as it is under the name of its scalar.
- Panicking resolvers, producers and callbacks. A handler's or a guarded call's panic counts as its
  failure, as in the source.
- uint32 and int overflow of breaker counters, generations and client numbers: they are unbounded.
- SQL text below tokens: spacing, quoting, trimming and case of operators. Raw fragments are atomic.
- Shared nested builders: a group is the list of conditions its builder had when it was added.
- Aggregates, Count, Paginate, FirstOrCreate, hydration and the other terminal calls of the ORM.
- A caller's own Offset under Chunk, changes of the table during the walk, and a model without a
  primary key.
- Database errors, transactions and locks: a migration is applied and recorded as one step or not
  at all. Checksums, Fresh and the printed plan of a pretended run.
- BelongsToMany: its loop is the one of the other many-relations, over rows joined with the pivot.
- An Apply hook on a relation that does more than filter rows.
- Pop's waiting loop: its locked part and the promotion are separate steps, waiting is doing neither.
- Worker.Run and Stop: workers are hands that take, run and settle jobs, in any interleaving. A
  worker that dies with a job in hand is a hand that takes no further step.
- Cache expiry under interleaving: lazy expiry is sequential and single-flight is without expiry,
  since Get rechecks outside its first lock.
- A client that subscribes after it was removed joins the tables again, as in the source; what is
  delivered to a client's outbox and the slow-consumer policy are not modelled.
- The hub after Close: the source leaves the clients' own channel sets alone, and membership is
  claimed for an open hub only.
- Container resolution, the telescope recorder, and all code around operating system, network and
  templates.
- HTTP handlers, middleware, command line and dashboards: plumbing.

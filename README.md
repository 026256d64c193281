# php-api-support, modelled in Dafny

This project models the core of the `php-api-support` package, a Laravel support library for versioned JSON APIs.

- **Versions and the middleware.** `ApiVersion` is a strict `dd-mm-yyyy` calendar date. The middleware `CheckApiVersion` forwards a request only when its `X-API-VERSION` header holds such a date.
- **Transformers.** A transformer turns a model into data. It runs version-gated transformation steps in declaration order.
- **Errors.** `ErrorFactory` and `ErrorResponse` build the fixed error envelope `{error, description}` with its HTTP status. `PaginationException` renders pagination errors in that envelope.
- **Rules.** `AbstractRuleWithError` is the base of validation rules that carry their own failure message.
- **Cursor pagination.**
  - `PaginatedRequest` reads a limit and a cursor from the HTTP input and validates them.
  - `CursorPaginator` takes an ordered query builder and pages through it with a cursor ("seek" pagination).
  - It fetches one extra row. That row's uuid becomes the next cursor.
  - After the cursor row is looked up, the rows kept are those meeting its seek conditions: one inclusive `having` condition per order-by clause, `>=` the cursor row's value for an ascending column and `<=` for a descending one.

One module per source file, plus these helper modules:
- `Wrappers`: `Option` and `Result`.
- `Json`: JSON values.
- `QueryBuilder`: the part of Laravel's query builder that the paginator calls. It is modelled as a `Builder` class whose clauses change in place, over a pure `Query` value.

Pure PHP code is modelled as functions. Code that changes state is modelled as methods:
- `Transform` and `TransformCollection` use loops.
- The builder's `Where`, `Having`, `Limit` and `First` change the builder in place.
- The rule's `Fail` and `FromPaginatedRequest` are methods too.

Each method is proved against a specification function. The properties the package promises are proved as lemmas about those functions:
- the strict round trip of versions;
- the gating order of transformation steps;
- the error catalogue;
- the exact set of accepted limits;
- the page bounds and the cursor semantics;
- a walk over a single strictly ordered key returns every row exactly once.

The seek conditions are inclusive and applied per column. Concrete lemmas show the two cases where this breaks:
- a tie on the order column repeats a page forever;
- with two order-by columns a row is skipped.

Three behaviours of the code worth noting:
- **Step gating.** A transformation step runs when the *target* version is earlier than or equal to the *step's* version (`earlierThanOrEqualTo` at `src/Http/Transformers/AbstractTransformer.php:97-102`), not the other way round. Only the first sentence of the step interface's example (`src/Http/Transformers/TransformationStep.php:16-17`) matches the code. Its second sentence says a 03-01-2020 request runs a 02-01-2020 step, which the code does not do.
- **Missing order-by.** A query without an order-by clause fails with a plain exception carrying "An order-by clause must be set to use pagination.", not with a `PaginationException`. The model returns `Failure` with that message.
- **`transformCollection`.** It calls the private `transform` on every element, not `transformModel`. A null element is therefore not short-circuited.

## Model

| member | source | states |
|---|---|---|
| ApiVersion.DaysInMonth | src/Versioning/ApiVersion.php:94-106 | month lengths lie in 28..31; a month has 29 days exactly when it is February of a Gregorian leap year |
| ApiVersion.Format | src/Versioning/ApiVersion.php:82-85 | toString writes ten characters, with dashes at positions 2 and 5 (d-m-Y with two-digit day and month) |
| ApiVersion.ValueOfPadded | src/Versioning/ApiVersion.php:82-85 | reading back a zero-padded field gives the number written |
| ApiVersion.PaddedOfValue | src/Versioning/ApiVersion.php:94-106 | a digit field is the zero-padded writing of its value, so a field without its leading zero cannot write back |
| ApiVersion.ParseOfFormat | src/Versioning/ApiVersion.php:94-106 | every version's string is accepted and reads back as that version |
| ApiVersion.Parse | src/Versioning/ApiVersion.php:94-106 | the constructor's reading of d-m-Y with its write-back check: an accepted string is exactly the rendering of the version it reads as (no guessed dates) |
| ApiVersion.ParseIsStrict | src/Versioning/ApiVersion.php:94-106 | the constructor accepts s as v if and only if v's toString is s |
| ApiVersion.RejectedSamples | tests/HasSampleDatesTrait.php:16-18 | 40-10-2019, 10-13-2019 and 00-10-0000 are rejected |
| ApiVersion.RejectedLeapDayOfCommonYear | tests/HasSampleDatesTrait.php:19 | 29-02-2019 is rejected (2019 is not a leap year) |
| ApiVersion.RejectedNonDates | tests/HasSampleDatesTrait.php:20-21 | foo and aa-bb-cccc are rejected |
| ApiVersion.AcceptedSample | tests/HasSampleDatesTrait.php:33 | 01-01-2019 is accepted and writes back unchanged |
| ApiVersion.AcceptedLeapDay | tests/HasSampleDatesTrait.php:34 | 29-02-2020 is accepted and writes back unchanged |
| ApiVersion.EarlierThan | src/Versioning/ApiVersion.php:31-34 | earlierThan: the version's day comes strictly before the other's; EarlierThanIsLexicographic proves this is (year, month, day) order |
| ApiVersion.EarlierThanOrEqualTo | src/Versioning/ApiVersion.php:42-45 | earlierThanOrEqualTo on day numbers; EarlierThanOrEqualToMeansEarlierOrSame and EarlierThanOrEqualToIsTransitive state its properties |
| ApiVersion.NewerThan | src/Versioning/ApiVersion.php:53-56 | newerThan on day numbers; NewerIsConverseOfEarlier proves it is the converse of earlierThan |
| ApiVersion.NewerThanOrEqualTo | src/Versioning/ApiVersion.php:64-67 | newerThanOrEqualTo on day numbers; NewerIsConverseOfEarlier proves it is the converse of earlierThanOrEqualTo |
| ApiVersion.DaysBeforeMonth | src/Versioning/ApiVersion.php:31-34 | the days before a month plus that month's length never exceed the year's length |
| ApiVersion.MonthTableMatchesMonthLengths | src/Versioning/ApiVersion.php:31-34 | the cumulative month table is the running sum of the month lengths |
| ApiVersion.EarlierThanIsLexicographic | src/Versioning/ApiVersion.php:31-34 | earlierThan on instants holds if and only if (year, month, day) is lexicographically smaller |
| ApiVersion.SameDayIsSameVersion | src/Versioning/ApiVersion.php:42-45 | two versions denote the same instant if and only if they are the same date |
| ApiVersion.EarlierThanOrEqualToIsReflexive | src/Versioning/ApiVersion.php:42-67 | every version is earlierThanOrEqualTo and newerThanOrEqualTo itself, not earlierThan or newerThan itself |
| ApiVersion.NewerIsConverseOfEarlier | src/Versioning/ApiVersion.php:53-67 | newerThan and newerThanOrEqualTo are the converses of earlierThan and earlierThanOrEqualTo |
| ApiVersion.EarlierThanOrEqualToMeansEarlierOrSame | src/Versioning/ApiVersion.php:42-45 | earlierThanOrEqualTo holds if and only if earlierThan holds or the versions are equal |
| ApiVersion.Trichotomy | src/Versioning/ApiVersion.php:31-56 | exactly one of earlier, equal, newer holds for any two versions |
| ApiVersion.EarlierThanOrEqualToIsTransitive | src/Versioning/ApiVersion.php:42-45 | earlierThanOrEqualTo is transitive |
| ApiVersion.ComparisonSamples | tests/Versioning/ApiVersionTest.php:38-70 | the comparison results of the test suite around 02-01-2020 |
| Transformers.ShouldRunStep | src/Http/Transformers/AbstractTransformer.php:97-102 | shouldRunStep: the target is earlier than or equal to the step's version; OlderTargetsRunMoreSteps and GatingBoundary state its properties |
| Transformers.RunSteps | src/Http/Transformers/AbstractTransformer.php:81-85 | the gated fold over the steps in declaration order; RunStepsAppliesIncludedSteps and FirstStepFeedsTheRest state what it computes |
| Transformers.Transformed | src/Http/Transformers/AbstractTransformer.php:72-88 | the private transform as a value: base data, then the gated fold; the Transform method is proved to compute it |
| Transformers.IncludedSteps | src/Http/Transformers/AbstractTransformer.php:81-85 | the steps that run: at most the declared steps, each one a declared step passing the version gate, and every declared step passing the gate is among them |
| Transformers.IncludedStepsOfConcat | src/Http/Transformers/AbstractTransformer.php:81-85 | the steps that run keep declaration order: the steps of a concatenation are the steps of its parts, in turn |
| Transformers.RunStepsAppliesIncludedSteps | src/Http/Transformers/AbstractTransformer.php:81-85 | the gated fold equals applying exactly the included steps, in order, unconditionally |
| Transformers.FirstStepFeedsTheRest | src/Http/Transformers/AbstractTransformer.php:81-85 | the first step sees the base data and the later steps see its output (or the base data if it is skipped) |
| Transformers.SkippedStepLeavesDataUnchanged | src/Http/Transformers/AbstractTransformer.php:82-84 | a step whose gate is closed leaves the data unchanged |
| Transformers.NoStepsGivesBaseData | src/Http/Transformers/AbstractTransformer.php:62-65 | with the default empty step list the result is the base data |
| Transformers.OlderTargetsRunMoreSteps | src/Http/Transformers/AbstractTransformer.php:97-102 | every step that runs for a target also runs for any earlier target |
| Transformers.GatingBoundary | src/Http/Transformers/TransformationStep.php:11-18 | a step for 02-01-2020 does not run for a request of 03-01-2020; a step always runs for its own version |
| Transformers.Transform | src/Http/Transformers/AbstractTransformer.php:72-88 | the loop computes the base data folded through the steps whose gate opens, in declaration order |
| Transformers.TransformModel | src/Http/Transformers/AbstractTransformer.php:25-35 | null in if and only if null out; otherwise the transformed model |
| Transformers.TransformedAll | src/Http/Transformers/AbstractTransformer.php:42-55 | one result per model |
| Transformers.TransformCollection | src/Http/Transformers/AbstractTransformer.php:42-55 | same count and order as the input, entry i the transform of model i (empty in, empty out) |
| Transformers.StepsRunWhenExpected | tests/Http/Transformers/AbstractTransformerTest.php:74-111 | target 02-01-2020 runs StepA only; target 01-01-2020 runs both, StepB seeing StepA's output |
| ErrorFactory.Create | src/Http/ErrorFactory.php:19-25 | the status given, and a payload of exactly the keys error and description with the values given |
| ErrorFactory.Code | src/Http/ErrorFactory.php:33-205 | the error code of each named factory; CodesAreDistinct proves no two share one |
| ErrorFactory.Status | src/Http/ErrorFactory.php:33-205 | every status is a 4xx or 5xx, and only serverError is a 5xx |
| ErrorFactory.DefaultDescription | src/Http/ErrorFactory.php:33-205 | every factory has a non-empty default description |
| ErrorFactory.Named | src/Http/ErrorFactory.php:33-205 | each named factory gives its code and status; the description is the one given, or the default text for null |
| ErrorFactory.CodesAreDistinct | src/Http/ErrorFactory.php:33-205 | two factories give the same code if and only if they are the same factory |
| ErrorFactory.ForbiddenAndInsufficientScopes | src/Http/ErrorFactory.php:93-120 | forbidden and insufficientScopes share status 403 and default text but differ in code |
| ErrorResponse.New | src/Http/ErrorResponse.php:12-24 | the keys are error, description and the context's keys; the context values override; otherwise the given error and description; the given status |
| ErrorResponse.EmptyContextGivesTwoKeys | src/Http/ErrorResponse.php:19-21 | with an empty context the response is the plain two-key envelope |
| ErrorResponse.Entry | src/Http/ErrorResponse.php:26-144 | every named constructor has a non-empty code and a 4xx/5xx status |
| ErrorResponse.Named | src/Http/ErrorResponse.php:26-144 | a named constructor gives its own status, code and description, merged with (and overridden by) the context |
| ErrorResponse.AgreesWithErrorFactory | src/Http/ErrorResponse.php:26-144 | without context each named constructor equals the factory's response for the same condition with its default text |
| ErrorResponse.SameCatalogue | src/Http/ErrorResponse.php:26-144 | the codes and statuses of the named constructors are those of the factory |
| PaginationException.Render | src/Database/Pagination/Exceptions/PaginationException.php:16-23 | status 400, exactly the keys error and description, the code pagination_error, the exception's message as description |
| PaginationException.RenderIsInjective | src/Database/Pagination/Exceptions/PaginationException.php:16-23 | two exceptions render alike if and only if they carry the same message |
| CheckApiVersion.Unsupported | src/Http/Middleware/CheckApiVersion.php:23 | the unsupported-API-version response of the factory; RejectionIsBadRequest states its status and code |
| CheckApiVersion.Handle | src/Http/Middleware/CheckApiVersion.php:20-33 | forwarded if and only if the header is present and a valid version; the result is then next(request); otherwise the unsupported-API-version response |
| CheckApiVersion.ForwardsExactlyVersions | src/Http/Middleware/CheckApiVersion.php:26-32 | a header is forwarded if and only if it is the toString of some version |
| CheckApiVersion.RejectionIsBadRequest | src/Http/Middleware/CheckApiVersion.php:22-30 | the rejection has status 400 and code client.unsupported_api_version |
| Rules.RuleWithError.constructor | src/Rules/AbstractRuleWithError.php:16 | a new rule has no message set |
| Rules.RuleWithError.Fail | src/Rules/AbstractRuleWithError.php:24-29 | fail records the message given (possibly null) and reports that the rule did not pass |
| Rules.RuleWithError.Message | src/Rules/AbstractRuleWithError.php:36-39 | message is the recorded message, or the default message when none is recorded |
| Rules.FailThenMessage | tests/Rules/AbstractRuleWithErrorTest.php:14-50 | after failing with a message the rule reports it; after failing without one, or never failing, it reports the default |
| PaginatedRequest.Filled | src/Database/Pagination/PaginatedRequest.php:70 | filled(): the input is present and, for a string, not only whitespace; DefaultsWhenAbsent shows what an input that is not filled gives |
| PaginatedRequest.IsUuid | src/Database/Pagination/PaginatedRequest.php:87 | a cursor in the 8-4-4-4-12 hexadecimal form; FromIlluminate accepts a filled cursor exactly when it holds |
| PaginatedRequest.FilterInt | src/Database/Pagination/PaginatedRequest.php:71 | FILTER_VALIDATE_INT on a string; FilterIntCharacterised states exactly which strings it accepts, and as what |
| PaginatedRequest.TrimLeft | src/Database/Pagination/PaginatedRequest.php:71 | the filter strips leading whitespace only: the result is a suffix, everything removed is whitespace, and the result does not start with whitespace |
| PaginatedRequest.TrimRight | src/Database/Pagination/PaginatedRequest.php:71 | the same for trailing whitespace |
| PaginatedRequest.ReadInt | src/Database/Pagination/PaginatedRequest.php:71 | an accepted integer lies in PHP's 64-bit range |
| PaginatedRequest.Decimal | src/Database/Pagination/PaginatedRequest.php:71 | the decimal writing of n is canonical (no leading zero) and denotes n |
| PaginatedRequest.DecimalOfValue | src/Database/Pagination/PaginatedRequest.php:71 | a canonical digit string is the decimal writing of its value, so each integer has one canonical spelling |
| PaginatedRequest.ReadIntSound | src/Database/Pagination/PaginatedRequest.php:71 | whatever the filter reads as v is a spelling of v (optional sign, no leading zero) |
| PaginatedRequest.ReadIntComplete | src/Database/Pagination/PaginatedRequest.php:71 | every spelling of an in-range v is read as v |
| PaginatedRequest.FilterIntCharacterised | src/Database/Pagination/PaginatedRequest.php:71 | FILTER_VALIDATE_INT gives v if and only if v is in range and the trimmed input is a spelling of v |
| PaginatedRequest.FromIlluminate | src/Database/Pagination/PaginatedRequest.php:64-92 | success if and only if a filled limit is an integer in 1..20 and a filled cursor is a UUID; the default limit 10 when none is given; the cursor is kept as given; the limit error comes before the cursor error, each with its message |
| PaginatedRequest.IntegerLimit | src/Database/Pagination/PaginatedRequest.php:70-84 | an integer limit is accepted if and only if it is in 1..20, and then becomes the request's limit |
| PaginatedRequest.AcceptedStringLimit | src/Database/Pagination/PaginatedRequest.php:70-84 | a string limit that filters to n in 1..20 gives a request for n records |
| PaginatedRequest.DecimalLimit | src/Database/Pagination/PaginatedRequest.php:70-84 | n in 1..20 written in decimal, or with a leading +, is accepted as n |
| PaginatedRequest.LeadingZeroRejected | src/Database/Pagination/PaginatedRequest.php:71-73 | a limit written with a superfluous leading zero is refused with the limit message |
| PaginatedRequest.DefaultsWhenAbsent | tests/Database/Pagination/PaginatedRequestTest.php:31-37 | an absent or blank limit gives the default limit and no cursor |
| PaginatedRequest.StringLimitSample | tests/Database/Pagination/PaginatedRequestTest.php:39-46 | the string limit "10" gives the limit 10 |
| PaginatedRequest.NonNumericLimitRejected | tests/Database/Pagination/PaginatedRequestTest.php:83-92 | the limit "foo" is refused with the limit message |
| PaginatedRequest.InvalidCursorRejected | tests/Database/Pagination/PaginatedRequestTest.php:94-104 | the cursor "foo" is refused with the cursor message |
| PaginatedRequest.AcceptsValidInput | tests/Database/Pagination/PaginatedRequestTest.php:106-118 | any limit in 1..20 with a UUID cursor is accepted unchanged |
| QueryBuilder.Column | src/Database/Pagination/CursorPaginator.php:127 | a row's column reads as its value, or as NULL exactly when the row lacks the column |
| QueryBuilder.SelectMembers | src/Database/Pagination/CursorPaginator.php:136 | a row is returned by the conditions if and only if it is a source row satisfying all of them |
| QueryBuilder.SelectConcat | src/Database/Pagination/CursorPaginator.php:123-129 | adding conditions filters the earlier result further |
| QueryBuilder.Take | src/Database/Pagination/CursorPaginator.php:133 | a limit keeps the first min(limit, count) rows; no limit keeps all |
| QueryBuilder.Rows | src/Database/Pagination/CursorPaginator.php:136 | get returns a prefix of the rows that satisfy the conditions |
| QueryBuilder.WithLimit | src/Database/Pagination/CursorPaginator.php:133 | limit(n) sets the limit for n >= 0 and leaves the query unchanged for negative n |
| QueryBuilder.FirstOf | src/Database/Pagination/CursorPaginator.php:114-116 | first gives the first row satisfying the conditions, and null exactly when there is none |
| QueryBuilder.Builder.Where | src/Database/Pagination/CursorPaginator.php:115 | where appends one condition and changes nothing else |
| QueryBuilder.Builder.Having | src/Database/Pagination/CursorPaginator.php:124-128 | having appends one condition and changes nothing else |
| QueryBuilder.Builder.Limit | src/Database/Pagination/CursorPaginator.php:133 | the builder's new state is its old state with the limit applied |
| QueryBuilder.Builder.Get | src/Database/Pagination/CursorPaginator.php:136 | get returns the query's rows and changes nothing |
| QueryBuilder.Builder.Clone | src/Database/Pagination/CursorPaginator.php:114 | a fresh builder with the same clauses |
| QueryBuilder.Builder.First | src/Database/Pagination/CursorPaginator.php:116 | first returns the first matching row of the old state and leaves the builder limited to one row |
| CursorPaginator.TableAliasIsLastWord | src/Database/Pagination/CursorPaginator.php:112 | the alias is the suffix of the from clause after its last space and contains no space |
| CursorPaginator.AliasOfLastWord | src/Database/Pagination/CursorPaginator.php:112 | for a from clause ending with a space and then a word, the alias is that word |
| CursorPaginator.TableAlias | src/Database/Pagination/CursorPaginator.php:112 | last(explode(' ', from)); TableAliasIsLastWord states what it returns |
| CursorPaginator.AliasSample | tests/Database/Pagination/PaginatorTest.php:136-147 | the alias of "tests as table_alias" is table_alias |
| CursorPaginator.ResolveCursor | src/Database/Pagination/CursorPaginator.php:114-116 | a resolved cursor row is a row of the query with the cursor's uuid; ResolveCursorFindsFirstMatch states the rest |
| CursorPaginator.FirstWithUuid | src/Database/Pagination/CursorPaginator.php:114-116 | looking a uuid up in a row sequence finds nothing exactly when no row has it, and otherwise the earliest row that has it |
| CursorPaginator.ResolveCursorFindsFirstMatch | src/Database/Pagination/CursorPaginator.php:114-120 | no cursor row exactly when no row of the query meeting its conditions has the cursor's uuid; otherwise the cursor row meets the conditions and is the first such row in the query's order |
| CursorPaginator.PageQuery | src/Database/Pagination/CursorPaginator.php:103-133 | no page is read exactly when there is no order-by clause or the cursor resolves to no row; otherwise the page query reads the same source in the same order, with the limit raised by one |
| CursorPaginator.SeekConditions | src/Database/Pagination/CursorPaginator.php:123-129 | one seek condition per order-by clause |
| CursorPaginator.Trim | src/Database/Pagination/CursorPaginator.php:138-143 | at most limit rows come back as they are, with no next cursor; otherwise the last row is removed and its uuid becomes the next cursor |
| CursorPaginator.UnknownCursorGivesEmptyPage | src/Database/Pagination/CursorPaginator.php:110-121 | a cursor that no row of the query carries gives an empty page without a next cursor |
| CursorPaginator.Paginate | src/Database/Pagination/CursorPaginator.php:97-144 | fails if and only if there is no order-by clause, with that message; a cursor that matches no row gives an empty page without a next cursor |
| CursorPaginator.LookUpCursor | src/Database/Pagination/CursorPaginator.php:112-116 | the lookup on a clone finds the cursor row the specification resolves |
| CursorPaginator.AddSeekConditions | src/Database/Pagination/CursorPaginator.php:123-129 | the loop adds exactly the seek conditions of every order-by clause, in order |
| CursorPaginator.FromPaginatedRequest | src/Database/Pagination/CursorPaginator.php:97-144 | the result is the specification's page, and the builder is left holding the page query (seek conditions, limit + 1) |
| CursorPaginator.TrimTakeIsPage | src/Database/Pagination/CursorPaginator.php:132-143 | fetching limit + 1 rows and popping the extra one gives exactly the first limit rows and the uuid of the next row |
| CursorPaginator.FirstPage | src/Database/Pagination/CursorPaginator.php:132-143 | without a cursor the page is the first limit rows of the query |
| CursorPaginator.PageNeverExceedsLimit | src/Database/Pagination/CursorPaginator.php:132-143 | a page never holds more than limit rows, and a page with a next cursor is full |
| CursorPaginator.PageRowsComeFromTheQuery | src/Database/Pagination/CursorPaginator.php:123-136 | every row of a page is a source row that satisfies the caller's conditions |
| CursorPaginator.PageAfterCursorRow | src/Database/Pagination/CursorPaginator.php:110-143 | with a resolved cursor, the page is the first limit rows of those meeting the cursor row's inclusive per-column seek conditions |
| CursorPaginator.CursorResolvesToRow | src/Database/Pagination/CursorPaginator.php:114-116 | with distinct uuids, the uuid of the k-th row resolves to that row |
| CursorPaginator.SeekSelectsSuffix | src/Database/Pagination/CursorPaginator.php:123-129 | on one strictly ordered column, the seek conditions of row k keep exactly rows k onwards |
| CursorPaginator.PageFromCursor | src/Database/Pagination/CursorPaginator.php:110-143 | on one strictly ordered column with distinct uuids, the cursor of row k gives the page starting at row k |
| CursorPaginator.WalkWithFrom | tests/Database/Pagination/PaginatorTest.php:149-171 | a client following next cursors from row k of a page source collects rows k onwards |
| CursorPaginator.WalkWithAll | tests/Database/Pagination/PaginatorTest.php:149-171 | starting without a cursor, the client collects the whole sequence |
| CursorPaginator.WalkReturnsEveryRowOnce | tests/Database/Pagination/PaginatorTest.php:149-171 | following next cursors from the first page returns every row of the query exactly once, in order, then stops |
| CursorPaginator.TieFirstPage | src/Database/Pagination/CursorPaginator.php:132-143 | two rows tied on the order column: the first page is row a, with b as the next cursor |
| CursorPaginator.TieSeek | src/Database/Pagination/CursorPaginator.php:123-129 | the inclusive seek of the tied row b keeps both rows |
| CursorPaginator.TiesRepeatTheFirstPage | src/Database/Pagination/CursorPaginator.php:123-129 | the page for cursor b is row a again, with b as the next cursor |
| CursorPaginator.WalkWithStuck | src/Database/Pagination/CursorPaginator.php:138-143 | a page whose next cursor is its own cursor makes a walk run out of fuel |
| CursorPaginator.TiesNeverFinish | src/Database/Pagination/CursorPaginator.php:123-129 | with the tie the walk from b never finishes, whatever the fuel |
| CursorPaginator.TwoColumnResolve | src/Database/Pagination/CursorPaginator.php:114-116 | in the two-column sample the cursor r2 resolves to the row (1, 5) |
| CursorPaginator.TwoColumnSeek | src/Database/Pagination/CursorPaginator.php:123-129 | its seek conditions are a >= 1 and b >= 5 |
| CursorPaginator.TwoColumnSelect | src/Database/Pagination/CursorPaginator.php:123-129 | only r2 itself meets both conditions, although r3 (2, 1) comes after it |
| CursorPaginator.TwoColumnsSkipARow | src/Database/Pagination/CursorPaginator.php:123-129 | the page after r2 ends the walk, so r3 is never returned |
| CursorPaginator.DataArray | src/Database/Pagination/CursorPaginator.php:62-67 | one JSON object per transformed record, in order |
| CursorPaginator.ToJsonResponse | src/Database/Pagination/CursorPaginator.php:60-68 | exactly data and meta; data holds the transformed rows in order; meta.next_cursor is the next cursor or null |
| CursorPaginator.CurrentCursor | src/Database/Pagination/CursorPaginator.php:84 | the uuid of the first row, and null exactly for an empty page |
| CursorPaginator.ToLegacyJsonResponse | src/Database/Pagination/CursorPaginator.php:77-89 | like toJsonResponse, with meta.cursor holding previous null, current the first row's uuid or null, and next the next cursor |

## Left out

- Database access, SQL generation and Eloquent are not modelled. This covers `toBase()`, the SQL text of `where`/`having`, grouping, and raw select or order clauses. A query is a sequence of rows and a list of conditions.
- Ordering by the database is not modelled. A query's `table` stands for its rows in the order the order-by clauses produce, and the builder never reorders it.
- Cursor lookup by alias is simplified. The lookup condition `<alias>.uuid = cursor` is taken to match the rows whose uuid equals the cursor; how the database resolves aliases is not modelled.
- A row's `uuid` is a string that is never NULL. Its other columns are integers or absent (NULL); columns of other types are not modelled. A comparison with NULL is false.
- JSON encoding and the HTTP objects (`JsonResponse`, `Request`) are reduced to values. The request's input becomes the `Option` arguments of `FromIlluminate`, and the header becomes the `Option<string>` of `Handle`.
- The container that resolves step class names (`Container::make`) is not modelled. A transformer holds its steps as values.
- `Uuid::isValid` is simplified to the 8-4-4-4-12 hexadecimal form. The `urn:uuid:` prefix and braces are not stripped, and the version and variant digits are not checked.
- `filter_var` with `FILTER_VALIDATE_INT` is modelled for integer and string inputs only. Booleans, floats, arrays and null inputs are not modelled, and neither are the filter's octal and hexadecimal flags, which are not used here.
- PHP's loose comparison of a numeric string with an integer, and the `(int)` cast, are taken to give the filtered integer. This holds for every string the filter accepts.
- Numeric keys of the error context are not modelled. PHP's `array_merge` renumbers them. The model's context maps string keys to string values.
- Other collection inputs to `transformCollection` are not modelled. An `iterable` other than an array becomes a sequence, and models that are null inside a collection are not distinguished.
- `CheckApiVersion.Handle` cannot show that `next` is never invoked on rejection, because a pure function cannot observe that. The model states only that the result is the rejection response.
- Years outside 0..9999 are not modelled. `d-m-Y` can write them, but not with four digits.
- `DateUtils`, the service provider and `DatabaseRepository` are not part of this model.
- `CursorPaginator.WalkReturnsEveryRowOnce` is proved only for a single, strictly ordered order-by column whose rows have distinct uuids. The tie and two-column lemmas show what happens otherwise.
- `CursorPaginator.Walk` carries a `fuel` bound so that the client loop is a terminating function. A walk that needs more pages than the fuel reports `None`.
- `CursorPaginator.Paginate` returns the missing-order-by failure as a `Failure` value; PHP's exception propagation is not modelled.

# BridgeCore: proofs about the control plane's hard parts

BridgeCore is a multi-tenant control plane: a GraphQL gateway that rejects expensive documents
before it runs them, a queue of usage-export jobs claimed by any number of workers, S3 uploads and
presigned downloads signed with AWS Signature Version 4, tenant-scoped administration, refresh-token
rotation, a rate limiter and a migration loop. This project models those parts in Dafny and proves
what they are for. Code that updates variables or fields is modelled as methods and classes, proved
equal to functions of their inputs or of the old state; the theorems are about those functions, over
all inputs and all runs. What a function computes is also said without it: GraphQL's names, gaps and
keywords by a grammar of their own, encodings by the characters of RFC 3986, rows by their columns.

| file | models |
|---|---|
| `Text.dfy` | small facts about collections, substring search, decimal numerals, Go's 64-bit wrap-around |
| `Scanner.dfy`, `Analyzer.dfy` | the cost scanner of `graph/complexity.go`: as functions of the text and an index, and as it runs |
| `Syntax.dfy` | GraphQL documents as concrete syntax, and what a document means (height, fields, documented cost, charge) |
| `Lexing.dfy`, `Refinement.dfy`, `Costs.dfy`, `Panics.dfy`, `Outside.dfy`, `Overflow.dfy`, `Guards.dfy` | scanning a printed tree computes the tree's measures; charge against documented cost; arbitrary text; panics; GraphQL outside the trees; wrap-around, and a guard against it |
| `Paging.dfy`, `Letters.dfy`, `Execution.dfy` | the page argument execution receives and the page `pagination` serves, against the multiplier the analyzer reads; cost against field resolutions |
| `ExportQueue.dfy`, `ExportRuns.dfy`, `ExportExecution.dfy`, `ExportReports.dfy` | the statements of the export table, runs of workers, crashes and releases, the statements as steps of those runs, and what a job's row and its download show after a run |
| `Encoding.dfy`, `SignedPath.dfy`, `SignedQuery.dfy`, `ServiceOrder.dfy` | percent-encoding, the signed path, the canonical query and presigning, and the order the protocol wants |
| `Loader.dfy` | the batch loader and its interleavings |
| `Tenancy.dfy`, `Authority.dfy`, `Sessions.dfy` | user and tenant administration, and who may change what; sign-up, login, refresh and logout |
| `Pages.dfy`, `RateLimit.dfy`, `Migrations.dfy` | page arithmetic and decimal printing, the fixed-window limiter, the migration loop |
| `Failures.dfy` | inputs at which the code parts from its description |

## Where the code and its description part

Each of these is proved, with the exact condition under which the described behaviour holds.

- The comment at `graph/complexity.go:47-50` says that a field costs the product of the multipliers of
  its enclosing selection sets. The scanner charges more when a leaf carries a page size and a later
  sibling without arguments opens a selection set: the pending multiplier is cleared by braces only.
  For documents without keyword names and fragments, the charge is the documented cost exactly for
  *tidy* documents, and never below it (`Costs.AnalyzeMeasuresTree`). The three fields of
  `mutation{deactivateApiKey(id:"first:h") requestUsageExport{id}}` are charged 2 + h
  (`Failures.UntidyIsOvercharged`).
- A field named like a keyword is not counted or charged, while its selections are
  (`Outside.KeywordFieldsAreFree`); the type condition of an inline fragment is charged like a field
  (`Outside.InlineFragmentsAreCharged`); a comment does not end at a carriage return, so that what
  stands behind one goes uncounted (`Outside.CarriageReturnHides`).
- The analyzer looks for the letters `pageSize` in the text of an argument list, not for the argument.
  `Paging.CoversServedPagesExactly` says for every list when the multiplier covers the page that is
  served. With the key in place, it does when a page size is asked for; an absent, null or non-positive
  one is charged 1 and served as the default page. With the letters earlier in the text, or a comma or a
  comment around the colon, what the analyzer finds behind the first letters decides:
  `event:"pageSize:1",pageSize:100` is charged 1 and serves 100 (`Paging.StringDecidesThePage`).
- Lists that are not paged (`apiKeys`, `usageSummary`, `features`) multiply what is resolved but not the
  cost: `{apiKeys{id name}}` is charged 3 and resolves 1 + 2n fields (`Failures.KeyListOverruns`). A list
  stays within its cost exactly when it is no longer than its field's multiplier
  (`Execution.RowsStayWithinExactly`).
- The cost is summed in 64 bits. An accepted document's charge is within the limit exactly when it fits
  (`Costs.AcceptedChargeExactly`), and so are its executions (`Execution.AcceptedResolvesExactly`). A
  document of 175 characters and depth 10 costs more than 10^19 and passes the shipped limits
  (`Overflow.WrappedCostIsAccepted`); it pages at nine levels, while the schema takes arguments at the root
  alone. Up to seven multiplying levels the shipped limits are safe (`Guards.ShippedGuard`), so no document
  with arguments at its root alone wraps (`Guards.RootArguedWithinShippedLimit`).
- `Analyze` panics exactly on texts that end in a `(` outside every comment, string and argument list
  (`Panics.PanicsExactly`), such as `{a(` (`Failures.UnclosedListPanics`).
- A completed or failed export never changes again exactly when every worker reports or is dead before
  the visibility timeout (`ExportRuns.FinalExactly`), and no job has two live holders exactly when that
  holds or jobs have a single attempt (`ExportRuns.ExclusiveExactly`).
- A presigned URL reads back to what was signed exactly when its input carried no `X-Amz-Signature`
  (`SignedQuery.PresignedQueryReadsBack`); presigning twice breaks it (`Failures.PresignedTwiceMismatches`).
  In path style the signed path is the sent path exactly for bucket names that need no escaping
  (`SignedPath.SignedPathIsSentPath`), so not for `a b` (`Failures.SpacedBucketMismatches`).
- The loader's trips stay within the keys it knows, in every run, exactly when at most one call is under
  way at a time (`LoaderRuns.TripsBoundedExactly`).
- The canonical query is sorted before it is encoded, while AWS Signature Version 4 orders the encoded
  text. The two orders agree exactly when encoding flips no two names, and no two values under one name
  (`ServiceOrder.ServiceOrderExactly`); they do for every download URL, and not for names such as `aB` and
  `a[`.
- An unauthenticated request that forwards `tenant:` and a tenant's id as its address is counted under
  that tenant; nobody else shares a tenant's counter (`RateLimit.TenantsApart`).
- `itoa` prints the smallest 64-bit integer as a bare `-` (`Decimal.PrintedParsesExactly`).

## Model

| member | source | states |
|---|---|---|
| Text.IndexIsFirst | graph/complexity.go:177 | the substring search the hint relies on finds an occurrence whenever there is one, and the first |
| Text.SpaceExactly | graph/complexity.go:181-185 | the characters trimmed are the 25 code points Unicode calls white space |
| Text.TrimRemovesSpace | internal/service/tenant_service.go:223 | trimming removes white space alone, on both sides |
| Text.NumeralReadsBack | graph/complexity.go:191-198 | decimal numerals of every natural number read back as that number |
| Analyzer.SkipString | graph/complexity.go:210-235 | ends behind the closing quotes of a block string or, honouring escapes, of a regular one; at the end of the text when it is not closed; never reads out of range |
| Analyzer.MatchParen | graph/complexity.go:239-255 | the parenthesis that balances the opening one, ignoring those inside strings; the last index when there is none |
| Analyzer.SkipSpace | graph/complexity.go:257-267 | the first position behind blanks and commas |
| Analyzer.ReadPageMultiplier | graph/complexity.go:175-208 | the hint of the first of the five keys that has a readable value, always between 1 and the maximum |
| Analyzer.ReadKey | graph/complexity.go:177-205 | a key counts only when a colon follows its first occurrence past white space, and its value is a variable or a positive literal that fits in 64 bits |
| Analyzer.OpenBrace | graph/complexity.go:87-95 | the 64-bit machine state follows the unbounded one: depth, peak depth, and a pushed product of the enclosing and the pending multiplier |
| Analyzer.CloseBrace | graph/complexity.go:97-103 | the machine state follows the unbounded one, and the stack never becomes empty |
| Analyzer.ScanName | graph/complexity.go:105-131 | a name is counted and charged the top multiplier exactly when it is neither an alias nor a reserved word and stands inside a selection set |
| Analyzer.ScanToken | graph/complexity.go:68-136 | one turn of the loop for every kind of character; it panics exactly at a `(` that is the last character |
| Analyzer.Analyze | graph/complexity.go:51-139 | on every text and maximum, the loop terminates with the scan of the text, the cost wrapped to 64 bits, or panics when the scan is stuck |
| Analyzer.Verdict | graph/complexity.go:152-167 | each rejection names the first limit exceeded, in the order introspection, depth, cost, and there is none if and only if all are within the limits |
| Analyzer.Check | graph/complexity.go:144-168 | an oversized document is refused with an empty analysis before it is scanned; otherwise the analysis is returned with the first broken limit; accepted exactly within all limits |
| Lexing.PrintedFormsLexAlike | graph/complexity.go:66-136 | every printed form of a document, with any white space, commas and comments between tokens and any string contents in arguments, lexes to the tokens of its tree |
| Lexing.LexField | graph/complexity.go:105-131 | a printed field lexes to its name, its arguments and its selection set; aliases, gaps and comments leave no trace |
| Lexing.ClosingPieces | graph/complexity.go:239-255 | quoted text and balanced groups inside an argument list do not end it, at any nesting |
| Lexing.InsideIsBalanced | graph/complexity.go:239-255 | every argument list by the grammar, with strings, lists, objects and comments free of quotes and parentheses, is text that the scanner passes over to the right parenthesis |
| Refinement.RunFields | graph/complexity.go:51-139 | running the tokens of a selection adds its height, its field count and its charge to the state and restores depth and stack |
| Refinement.ScanRefinesTree | graph/complexity.go:51-139 | scanning any printed form of a document never panics and reports the height, the number of fields, the charge and the use of introspection of its tree |
| Costs.ChargeCoversCost | graph/complexity.go:47-50 | the charge is never below the documented cost, and above it as soon as the charged multiplier is |
| Costs.ChargeIsCostExactlyWhenTidy | graph/complexity.go:47-50 | a selection is charged its documented cost if and only if no leaf's hint is still pending where a field without arguments opens a non-empty selection |
| Costs.UnpagedLeavesAreTidy | graph/complexity.go:94-102 | a selection set whose leaves carry no pagination argument is tidy, and leaves no multiplier pending |
| Costs.AnalyzeIsDocumentedCost | graph/complexity.go:47-51 | for documents whose leaves and variable lists carry no pagination hint, Analyze reports the documented cost, in 64 bits |
| Costs.DocumentChargeExact | graph/complexity.go:47-50 | over a whole document the charge covers the cost and equals it exactly when the document is tidy |
| Costs.AnalyzeMeasuresTree | graph/complexity.go:51-139 | Analyze of any printed document is its height, field count and wrapped charge; the charge is at least the documented cost, with equality exactly when tidy |
| Costs.ChecksTree | graph/complexity.go:144-168 | a printed document is accepted if and only if its size, introspection, height and wrapped charge are within the limits |
| Costs.IntrospectionIsRefused | graph/complexity.go:123-125 | with introspection disabled, no printed document that selects a field whose name starts with two underscores is accepted, at any depth, under any alias, spacing or comment |
| Costs.AcceptedChargeExactly | graph/complexity.go:159-167 | an accepted document's charge is within MaxComplexity if and only if it fits in 64 bits |
| Costs.ArbitraryTextBounds | graph/complexity.go:66-136 | for every text, Fields <= Cost <= Fields * max^Height for the peak height of the multiplier stack, which is the reported depth when depth never goes negative; depth and Fields are those of the balance of braces alone; nothing wraps when that bound fits in 64 bits |
| Panics.PanicsExactly | graph/complexity.go:81-85 | Analyze panics if and only if the text ends in a `(` that, read character by character, stands outside every comment, string and argument list |
| Outside.KeywordFieldsAreFree | graph/complexity.go:119-121 | a field named by any of the eight reserved words is neither counted nor charged, and its selections are as if it were not there |
| Outside.InlineFragmentsAreCharged | graph/complexity.go:105-131 | an inline fragment is counted and charged as one more field, around any selections |
| Outside.CarriageReturnHides | graph/complexity.go:70-74 | behind a comment ended by a carriage return nothing is counted, whatever stands there |
| Overflow.WrappedCostIsAccepted | graph/complexity.go:159 | under the shipped limits, byte limit included, a document of depth 10 and 175 characters is accepted whose cost exceeds 10^19, and a trace that pages at each of its levels resolves that many fields |
| Overflow.DeepMeasures | graph/complexity.go:47-50 | height, charge and cost of nested pages around a row of leaves, for every depth, page size and row length |
| Overflow.ShortestForm | graph/complexity.go:145 | the size of a character is the shortest UTF-8 form that holds it |
| Overflow.SixtyFourBits | graph/complexity.go:130 | the arithmetic wraps at 2^64, with 2^63 - 1 as the largest value |
| Guards.ChargeBounded | graph/complexity.go:51-139 | a selection is charged at most its number of fields times the maximum page size raised to the number of multiplying selection sets on one path |
| Guards.GuardedChargeWithinLimit | graph/complexity.go:144-168 | without a hypothesis on the charge: when the byte limit times that power fits in 64 bits, an accepted document is charged at most MaxComplexity |
| Guards.GuardedResolvesWithinLimit | graph/complexity.go:144-168 | and its executions resolve at most MaxComplexity fields |
| Guards.ShippedGuard | internal/config/config.go:264-266 | the shipped limits guard every document with at most seven multiplying selection sets on one path |
| Guards.RootArguedWithinShippedLimit | graph/resolver.go:101-225 | under the shipped limits, an accepted document with arguments at its root alone, as the schema has them, resolves at most 500 fields |
| Paging.Pagination | graph/resolver.go:586-608 | the page is at least 1; the page size is the positive argument or the default, 20 where none is configured, clamped to between 1 and the maximum the analyzer uses, 100 where none is configured |
| Paging.MultiplierReadsArgument | graph/complexity.go:175-208 | a page size asked for in place is read as the maximum for a variable and min(n, max) for a positive literal, whatever else the list holds |
| Paging.UnaskedIsOne | graph/complexity.go:195-207 | for lists in which the first letters of the key are the page argument's own, or absent: where no page size is asked for, only another key's hint multiplies, and without such a key nothing does |
| Paging.PageSizeNumeralReadsBack | graph/complexity.go:191-205 | the resolver's argument `pageSize`, with a decimal value, is read as min(n, max) for every positive 64-bit value |
| Paging.FiveKeys | graph/complexity.go:176 | the five spellings are looked for in this order, and the first with a readable value decides |
| Paging.OtherKeysReadBack | graph/complexity.go:176-205 | each of the other four spellings, alone in a list, is read as min(n, max) too |
| Paging.CoversServedPagesExactly | graph/complexity.go:170-208 | for every argument list, the multiplier covers every page the resolver may serve for the list's own page argument if and only if that argument is in place and asks for a size, or the default page is within the other keys' hint; for a list whose first letters of the key are not its argument's, if and only if what is read behind those letters is as large as the page |
| Paging.OnceIsInPlace | graph/complexity.go:177 | a page argument whose key occurs once in the text of its list is the one the analyzer finds |
| Paging.StringDecidesThePage | graph/complexity.go:177-205 | for all m and n, a list with the string "pageSize:m" before its page size n is charged min(m, max), and covered if and only if n or the maximum is at most m |
| Paging.BypassIsNotCovered | graph/resolver.go:160-167 | the same at `event:"pageSize:1",pageSize:100`: charged 1, served 100 |
| Paging.EarlierOccurrenceHidesTheArgument | graph/complexity.go:177-184 | in a text without any of the other keys, a first occurrence of the key without a colon hides any page size written behind it |
| Letters.LettersStandInOnePart | graph/complexity.go:177 | the position the search finds is the one given by the tree: the first name, comment or value of the list that holds the letters; they never run from one part into the next |
| Letters.NameDecides | graph/complexity.go:177-205 | first letters in the middle of a name are not read; at the end of a name, the page argument's or a longer one, that argument's value is read as the page size |
| Letters.CoversByAnotherName | graph/complexity.go:177-205 | where the first letters end another argument's name and it asks for a size, the page is covered if and only if that size is as large |
| Execution.ResolutionsBounded | graph/complexity.go:45-50 | one resolution of a field, with everything below it, resolves no more fields than the documented cost below it allows for its row credit, when all it serves was charged for |
| Execution.CostDominatesExecution | graph/complexity.go:45-50 | one execution of any operation of a document, for all variable values, whose paged fields are covered and whose other lists are within their multiplier, resolves at most as many fields as the document's cost, hence its charge |
| Execution.PaginatedStaysWithinCost | graph/resolver.go:583-608 | a check on the document alone: when every paged field with selections asks for its page in place and no list that is not paged has selections, every execution by the schema stays within the cost |
| Execution.WorstCase | graph/complexity.go:45-50 | where every multiplier is a page size asked for in place, some execution resolves exactly as many fields as the selection costs |
| Execution.RowsStayWithinExactly | graph/resolver.go:125-153 | what a field serves, a page or a list that is not paged, stays within the field's cost in every execution if and only if its rows are at most the field's multiplier |
| Execution.UnpagedListExactly | graph/resolver.go:136-139 | a list field without arguments stays within its cost if and only if it returns at most one row |
| Execution.AcceptedResolvesWithinLimit | graph/complexity.go:144-168 | a document that Check accepts, whose charge fits in 64 bits, resolves at most MaxComplexity fields |
| Execution.AcceptedResolvesExactly | graph/complexity.go:144-168 | for accepted tidy documents of one operation with honest page sizes, every execution is within MaxComplexity if and only if the charge fits in 64 bits |
| ExportRepository.Repository.Create | internal/repository/export_repository.go:29-41 | a fresh queued row without attempts for a known tenant; not-found and no change for an unknown one |
| ExportRepository.Repository.SelectOldest | internal/repository/export_repository.go:111-118 | as many unlocked queued rows as the limit and the table allow, none newer than one left behind |
| ExportRepository.Repository.MarkProcessing | internal/repository/export_repository.go:119-144 | exactly the selected rows become processing with one more attempt, and exactly those are returned as updated |
| ExportRepository.Repository.ClaimQueued | internal/repository/export_repository.go:105-145 | selects oldest-first past locked rows, marks exactly those processing with one more attempt, returns exactly those as updated, and changes no other row |
| ExportRepository.Repository.MarkCompleted | internal/repository/export_repository.go:148-162 | the row becomes completed with its object, counts and finish time, whatever its status was; not-found exactly for unknown ids; no other row changes |
| ExportRepository.Repository.MarkFailed | internal/repository/export_repository.go:165-178 | the row becomes failed with the first 2000 bytes of the reason and a finish time; not-found exactly for unknown ids |
| ExportRepository.Repository.Requeue | internal/repository/export_repository.go:183-196 | the row is queued again with attempts kept and the start time removed; not-found exactly for unknown ids |
| ExportRepository.Repository.ReleaseStale | internal/repository/export_repository.go:204-219 | every row processing since before the cutoff is queued again, or failed when its attempts are used up; all others stay; the count is theirs |
| ExportRepository.ClaimDrainsQueue | internal/repository/export_repository.go:105-228 | a claim lowers the reported queue depth by exactly the jobs it hands out |
| ExportRuns.StepKeepsInv | internal/repository/export_repository.go:105-219 | every step of any worker, crash or release keeps records consistent, claims disjoint and leases current |
| ExportRuns.ExclusiveOwnership | internal/repository/export_repository.go:96-145 | over every run with punctual workers, no job has two live holders, overlapping claims take different jobs, and no locked job is held |
| ExportRuns.RecordsConsistent | internal/repository/export_repository.go:105-219 | every reachable job is processing only with a start time, terminal exactly with a finish time, completed exactly with an object key, and within its attempts |
| ExportRuns.StepUsesWork | internal/repository/export_repository.go:119-128 | every claim, report and release strictly lowers a job's measure, no other step touches its row, and none acts on a terminal row |
| ExportRuns.TerminalForever | internal/models/models.go:201-204 | over every run with punctual workers, a completed or failed row never changes again |
| ExportRuns.BoundedWork | internal/repository/export_repository.go:180-219 | over every run at most 2 * maxAttempts steps act on a job, and its attempts are exactly the claims that took it, at most maxAttempts |
| ExportRuns.ExclusiveExactly | internal/repository/export_repository.go:96-219 | no run ever gives a job two live holders if and only if workers are punctual or a job has a single attempt |
| ExportRuns.FinalExactly | internal/models/models.go:201-204 | no step of any run ever changes a completed or failed row if and only if workers are punctual |
| ExportExecution.Execute | internal/repository/export_repository.go:29-228 | the repository's statements, one request at a time, are steps of the run semantics: same rows, same locks, same leases |
| ExportDownload.CompletedJobsHaveObjects | internal/service/export_service.go:165-195 | over every run the complete-but-no-object answer is never given, and for exactly the tenant's own completed jobs the answer is a URL, or the store's failure to sign one |
| ExportReports.CompletionIsServed | internal/service/export_service.go:165-195 | over every run with punctual workers, once a job is reported complete the tenant named in its submission downloads exactly the reported object, row count and size, after any continuation; for every other tenant the export does not exist |
| ExportReports.CompletionIsRecorded | internal/repository/export_repository.go:148-162 | after any continuation the row of a completed job holds what was reported, the clock of the report and no error |
| ExportReports.FailureIsRecorded | internal/repository/export_repository.go:165-178 | after any continuation the row of a failed job holds the first 2000 bytes of the reason and the clock of the report |
| ExportReports.FailureIsServed | internal/service/export_service.go:171-178 | and its tenant is told that it failed, other tenants that it does not exist |
| ExportReports.OriginIsSubmission | internal/repository/export_repository.go:29-41 | a row keeps the tenant and the time of its submission in every run |
| ExportReports.EarlierJobsFirst | internal/repository/export_repository.go:111-118 | over every run, a claim that takes a job takes every job submitted earlier that is queued and unlocked |
| ExportReports.ClaimIsRecorded | internal/repository/export_repository.go:119-124 | a committed claim sets status, attempts and start time, and nothing else, and gives the worker its lease |
| ExportReports.RetryIsRecorded | internal/repository/export_repository.go:183-196 | a retried job is queued with the cut reason and no start time, and nothing else changes |
| ExportReports.ReleaseExactly | internal/repository/export_repository.go:204-219 | a release takes back exactly the jobs processing for longer than the timeout, queued while attempts remain and failed otherwise, with the message of the statement |
| Encoding.UriEncode | pkg/awssig/sigv4.go:330-347 | the loop encodes the whole byte string, byte by byte |
| Encoding.DecodeUndoesEncode | pkg/awssig/sigv4.go:325-347 | percent-decoding undoes the encoder on all byte strings, slash kept or not |
| Encoding.EncodeIsEncoded | pkg/awssig/sigv4.go:325-347 | the encoder's output is canonical: the unreserved characters of RFC 3986 as themselves, every other byte as uppercase hex |
| Encoding.EncodeUndoesDecode | pkg/awssig/sigv4.go:292-296 | on canonical text decoding succeeds and encoding gives the text back |
| Encoding.DecodesExactly | pkg/awssig/sigv4.go:292-295 | text decodes if and only if two hexadecimal digits follow every percent sign |
| Encoding.HexDigitsRead | pkg/awssig/sigv4.go:343 | the sixteen digits are printed in upper case and read in both cases |
| SignedPath.CanonicalURI | pkg/awssig/sigv4.go:285-303 | every segment decoded where possible and encoded again, undecodable ones encoded as they are, with a leading slash |
| SignedPath.CanonicalPathIsEncoding | pkg/awssig/sigv4.go:285-303 | for every path, what is signed is one encoding of the bytes its segments name, rooted; a segment with an incomplete escape names itself |
| SignedPath.CanonicalPathFixpoints | pkg/awssig/sigv4.go:283-303 | a path is signed as it stands if and only if it is rooted and canonical throughout |
| SignedPath.CanonicalPathIdempotent | pkg/awssig/sigv4.go:283-303 | canonicalising twice changes nothing, on any path |
| SignedPath.JoinUndoesSplit | internal/cloud/s3.go:66-72 | joining the segments of a path gives the path back, and no segment holds a separator |
| SignedPath.SplitUndoesJoin | pkg/awssig/sigv4.go:290-298 | splitting joined separator-free segments gives the segments back |
| SignedPath.EscapeKeySegment | internal/cloud/s3.go:74-88 | the segment escaper is the signer's encoder with the slash encoded |
| SignedPath.EscapeKeyPath | internal/cloud/s3.go:66-72 | every segment of the key, past one leading slash, escaped and joined again |
| SignedPath.EscapersAgree | internal/cloud/s3.go:74-88 | on slash-free text the adapter's escaper and the signer's encoder agree |
| SignedPath.EscapedKeyIsEncoding | internal/cloud/s3.go:62-72 | escaping segment by segment is encoding the whole key with its slashes kept |
| SignedPath.KeyReadsBack | internal/cloud/s3.go:62-72 | the escaped path decodes to the key without one leading slash, so different keys have different paths |
| SignedPath.SignedPathIsSentPath | internal/cloud/s3.go:54-60 | for every key the signed path is the sent path: always in virtual-hosted style, in path style if and only if the bucket name is canonical |
| SignedQuery.AppendValues | pkg/awssig/sigv4.go:318-320 | appends one encoded pair per value, in order |
| SignedQuery.CanonicalQuery | pkg/awssig/sigv4.go:307-323 | for any iteration order of the map, the pairs by sorted key and sorted value, joined |
| SignedQuery.CanonicalQueryParts | pkg/awssig/sigv4.go:307-323 | for every map and iteration order, the text splits at `&` and `=` into one name and one value per pair, each in canonical form and decoding to the pair, and holds no slash |
| Sorting.SortedUnique | pkg/awssig/sigv4.go:312-317 | bytewise order gives a multiset of strings one sorted enumeration |
| Sorting.SortSorts | pkg/awssig/sigv4.go:312-317 | the sort used for keys and values is sorted |
| SignedQuery.OrderIrrelevant | pkg/awssig/sigv4.go:305-323 | the canonical query depends neither on map iteration order nor on the order of values under a key |
| SignedQuery.QueryReadsBack | pkg/awssig/sigv4.go:305-323 | a rendered query parses back to its pairs |
| SignedQuery.PairsCount | pkg/awssig/sigv4.go:314-321 | the pairs of a canonical query are exactly the map's, with their multiplicities |
| SignedQuery.CanonicalQueryInjective | pkg/awssig/sigv4.go:305-323 | two value maps have equal canonical queries only if they hold every pair equally often |
| SignedQuery.ExpiresIn | pkg/awssig/sigv4.go:168-175 | the lifetime is the one closest to what was asked for, between one second and seven days |
| SignedQuery.SignedParameters | pkg/awssig/sigv4.go:182-190 | the five authentication parameters, and the security token where there is one, are set exactly once under their protocol names, whatever the URL said before, and all other parameters of the URL are kept |
| SignedQuery.PresignQuery | pkg/awssig/sigv4.go:182-215 | the query that is signed, and the query that is emitted with the signature of the first added |
| SignedQuery.StrippingTheSignature | pkg/awssig/sigv4.go:213-214 | taking the signature pair out of the emitted query leaves the signed query if and only if the signed parameters had none |
| SignedQuery.PresignedQueryReadsBack | pkg/awssig/sigv4.go:182-215 | the receiver recovers the signed query from the URL if and only if the input URL carried no signature |
| ServiceOrder.EncodedOrder | pkg/awssig/sigv4.go:325-347 | encoding keeps the bytewise order of two strings, except of those that differ first in a smaller kept and a larger encoded byte, whose order it reverses |
| ServiceOrder.ServiceOrderExactly | pkg/awssig/sigv4.go:305-323 | the pieces of the canonical query's text are in the protocol's order if and only if encoding flips no two of its names and no two values under one name |
| ServiceOrder.BracketsFlip | pkg/awssig/sigv4.go:312 | the names "aB" and "a[" are put in the wrong order |
| ServiceOrder.DownloadsInServiceOrder | pkg/awssig/sigv4.go:182-195 | the text signed for a download is in the protocol's order, whatever credentials, date and token hold |
| Loader.BatchLoader.PrimeStart | graph/dataloader.go:62-74 | the keys asked for that are neither cached nor known to be missing, each once |
| Loader.BatchLoader.PrimeFinish | graph/dataloader.go:85-97 | one trip is counted, loaded pending keys are cached with their values, the others recorded as missing, everything else kept |
| Loader.BatchLoader.Prime | graph/dataloader.go:61-98 | on success every key is known, with exactly one trip when one was not; on failure nothing changes; known keys cost no trip, and the cache still agrees with the source |
| Loader.BatchLoader.Load | graph/dataloader.go:101-125 | the cached value, the zero value for a known miss, the source's value or the fetch's error; only a successful fetch changes the cache and counts a trip |
| LoaderRuns.LoaderCoherent | graph/dataloader.go:61-125 | over a fixed source and any interleaving of any number of callers, cached values are the source's, recorded misses are absent, the two are disjoint, and no load answered otherwise |
| LoaderRuns.CoherentFromStart | graph/dataloader.go:46-125 | a loader that starts empty is coherent after every run |
| LoaderRuns.KnownStaysKnown | graph/dataloader.go:61-125 | a key once known stays known whatever other callers do |
| LoaderRuns.FinishedPrimeKnows | graph/dataloader.go:61-98 | a finished prime knows every key it was asked for, whatever happened between its two critical sections |
| LoaderRuns.SequentialTripsBounded | graph/dataloader.go:42-43 | in every run with at most one call under way the trip counter is at most the number of distinct known keys |
| LoaderRuns.TripsBoundedExactly | graph/dataloader.go:42-43 | over every run with at most n calls under way the counter stays within the known keys if and only if n is at most 1, for every source |
| LoaderRuns.Execute | graph/dataloader.go:61-125 | the critical sections of the loader object, one at a time in any order, take the steps of the run semantics and give its answers |
| LoaderRuns.LoadsOfKnownKeysAreFree | graph/dataloader.go:100-112 | any sequence of loads of known keys makes no trip and changes nothing |
| LoaderRuns.ConcurrentLoadsFetchTwice | graph/dataloader.go:114-123 | with two concurrent loads of one key the counter exceeds the number of known keys |
| Tenancy.Guard | internal/tenancy/tenancy.go:50-58 | passes exactly when the scope names a tenant and owns the resource; unauthenticated exactly when the scope names none |
| Tenancy.UserRepository.GetByIDInTenant | internal/repository/user_repository.go:119-124 | the live row with this id in this tenant, if there is one |
| Tenancy.UserRepository.ListByTenant | internal/repository/user_repository.go:48-75 | one page of the tenant's live users, newest first, and how many there are; an error for a negative limit or offset |
| Tenancy.UserRepository.UpdateInTenant | internal/repository/user_repository.go:128-169 | exactly the live rows with this id in this tenant change, and only in the role or the status; not-found exactly when there is none |
| Tenancy.UserRepository.CountAdminsInTenant | internal/repository/user_repository.go:146-153 | the number of the tenant's live, active admins |
| Tenancy.UserService.Get | internal/service/user_service.go:57-75 | a live user of the caller's own tenant; unauthenticated, bad-request and not-found in the order the code checks them |
| Tenancy.UserService.List | internal/service/user_service.go:78-88 | the requested page of the caller's own tenant |
| Tenancy.UserService.UpdateRole | internal/service/user_service.go:110-160 | refused with the first rule it breaks and without a write; otherwise exactly the target's role changes, and the answer names the previous role |
| Tenancy.UserService.SetActive | internal/service/user_service.go:165-198 | refused with the first rule it breaks and without a write; otherwise exactly the target's status changes |
| Tenancy.TenantService.GetForScope | internal/service/tenant_service.go:189-194 | the caller's own live tenant; not-found for every other id |
| Tenancy.TenantService.UpdateForScope | internal/service/tenant_service.go:209-237 | only an admin of that tenant changes its name, trimmed and validated; the plan never changes; a refusal writes nothing |
| TenantRuns.Execute | internal/service/user_service.go:57-198 | the services called one after another answer and change the store as the run semantics says |
| TenantRuns.OthersInvisible | internal/service/user_service.go:57-198 | no call of another tenant changes what a tenant sees |
| TenantRuns.OwnCallsLocal | internal/service/user_service.go:57-198 | a tenant's call answers and changes its view as a function of its view alone |
| TenantRuns.Noninterference | internal/service/user_service.go:57-198 | deleting all other tenants' calls from any sequential run leaves every answer and row a tenant sees unchanged |
| TenantRuns.AllowedUpdateKeepsAdmin | internal/service/user_service.go:126-147 | an update that is not refused leaves every tenant that had an active admin with one |
| TenantRuns.LastAdminSurvives | internal/service/user_service.go:98-198 | in every sequential run of calls by any callers, a tenant with a live, active admin always has one |
| Authority.UserChangesAreAuthorized | internal/service/user_service.go:110-198 | a call changes a user's row only for an admin of the row's tenant who is not that user, on a live row, and only to one of the three roles or in the status |
| Authority.TenantChangesAreAuthorized | internal/service/tenant_service.go:209-237 | a call changes a tenant's row only for an admin of that tenant, and only its name, to the trimmed one of 1 to 255 bytes |
| Authority.OthersAreRefused | internal/service/user_service.go:114-116 | every mutating call of a caller who is no admin is refused and writes nothing, in every state |
| Authority.OnlyAdminsChange | internal/service/user_service.go:57-198 | deleting the calls of everybody but admins from any run leaves the final database unchanged |
| Authority.RoleAnswers | internal/service/user_service.go:110-160 | by the rows alone: the first rule a role change breaks, in the source's order, the last-admin rule with at least two admins required, or the change |
| Authority.StatusAnswers | internal/service/user_service.go:165-198 | the same for a change of status |
| Authority.RenameAnswers | internal/service/tenant_service.go:209-237 | the first rule a renaming breaks, or the trimmed name; without a name nothing changes |
| Authority.GetAnswers | internal/service/user_service.go:57-75 | a live user is answered to callers of its tenant alone; otherwise the first rule broken |
| Authority.ListAnswers | internal/service/user_service.go:78-88 | a page of the caller's own tenant's users with their total; unauthenticated without a tenant, an internal error for a negative limit or offset |
| Authority.TenantAnswers | internal/service/tenant_service.go:172-194 | a live tenant is answered to its own callers alone; every other id does not exist |
| Authority.ListingAppends | internal/repository/user_repository.go:48-75 | users created later are listed before those created earlier; with `ListingOfOne`, live users of the tenant alone |
| Sessions.AuthService.Signup | internal/service/auth_service.go:93-140 | a taken slug, then a taken email address, then a deleted tenant's slug is refused without a write; otherwise a live tenant, an active user and a token |
| Sessions.AuthService.Login | internal/service/auth_service.go:143-166 | a token for the live, active account with this email address and password; no other outcome writes |
| Sessions.AuthService.ListActiveByUser | internal/repository/refresh_token_repository.go:31-52 | exactly the user's unrevoked, unexpired rows, newest first |
| Sessions.AuthService.Refresh | internal/service/auth_service.go:170-204 | the newest matching row is revoked and one row added, or a refusal that writes nothing |
| Sessions.AuthService.Logout | internal/service/auth_service.go:207-209 | exactly the user's unrevoked rows become revoked |
| Sessions.AuthService.IssueTokenPair | internal/service/auth_service.go:215-245 | one stored row with the hash and expiry of a token never issued before |
| SessionRuns.RefreshSucceedsExactly | internal/service/auth_service.go:170-204 | a refresh succeeds if and only if its token is signed, unexpired and unspent and its account live and active |
| SessionRuns.IssuedTokenIsAccepted | internal/service/auth_service.go:200-204 | the token any call issues is accepted by the next refresh |
| SessionRuns.SignupThenLogin | internal/service/auth_service.go:93-166 | who signed up can log in at once, as the same user |
| SessionRuns.LoginSucceedsExactly | internal/service/auth_service.go:143-166 | a login issues a token if and only if the live account of the address holds this password and is active, and then that account's token; which failure it is otherwise; no failure writes |
| SessionRuns.SignupSucceedsExactly | internal/service/auth_service.go:93-140 | a sign-up succeeds if and only if no tenant ever had the slug and no live account the address, and what it then creates; which failure it is otherwise; no failure writes |
| SessionRuns.RefreshAnswers | internal/service/auth_service.go:170-204 | which refreshes are invalid, which hit an inactive account, and for the others the whole new state: the token's own row revoked and one row added |
| SessionRuns.EmailsStayUnique | internal/service/auth_service.go:100-104 | in every run no two live accounts share an address |
| SessionRuns.SingleUse | internal/service/auth_service.go:168-204 | in every sequential run a token succeeds in at most one refresh |
| SessionRuns.LogoutEndsEverySession | internal/service/auth_service.go:206-209 | after a logout no token issued to the user before is accepted in any continuation |
| SessionRuns.LogoutLeavesOthers | internal/repository/refresh_token_repository.go:66-69 | a logout leaves every other user's tokens as they were |
| SessionRuns.RefreshPreservesActiveCount | internal/service/auth_service.go:200-204 | a successful refresh keeps every user's number of active tokens |
| SessionRuns.FromStart | internal/service/auth_service.go:93-209 | single use and one unrevoked token per chain hold in every run of a service that starts empty |
| SessionRuns.AtMostOneUnrevokedPerChain | internal/service/auth_service.go:168-204 | in every sequential run each login or sign-up chain has at most one unrevoked token |
| Pages.NewPageInfo | graph/model/models.go:271-286 | the total number of pages is the ceiling of the quotient, 0 for a non-positive size, and HasNext compares with it |
| Pages.TotalPages | graph/model/models.go:272-278 | all rows fit on that many pages and on no fewer |
| Pages.HasNextExactly | graph/model/models.go:284 | HasNext is true exactly when rows remain behind the page |
| Pages.PagesCover | graph/model/models.go:271-286 | pages 1 to TotalPages concatenate to every row once in order, and rows remain behind a page exactly when HasNext is true |
| Decimal.FillDigits | graph/handler.go:187-197 | the digits of any positive 64-bit value fill the back of the 20-byte buffer and leave room for a sign; for others the buffer is untouched |
| Decimal.Itoa | graph/handler.go:183-203 | for every 64-bit value the buffer is not underrun and the result is the signed numeral, a bare `-` for the smallest |
| Decimal.PrintedParsesExactly | graph/handler.go:183-203 | what is printed parses back to the value if and only if it is not the smallest one |
| Decimal.PrintedPageSizeReadsBack | graph/complexity.go:191-205 | a positive value printed as a page size is read by the analyzer as min(n, max) |
| RateLimit.Limiter.Admit | internal/middleware/ratelimit.go:21-56 | a reachable store counts the request under identity and window, with an expiry of 90 seconds on a new counter, touches no other counter, and admits it exactly within the limit, with the remainder never negative; an unreachable one admits it |
| RateLimit.KeyInjective | internal/middleware/ratelimit.go:26-27 | the formatted key determines identity and window, whatever characters the identity holds |
| RateLimit.ClientIPExactly | internal/middleware/observability.go:245-256 | the left-most forwarded entry counts, a chain that starts with a comma as a whole, then the proxy's header, then the connection |
| RateLimit.TenantsApart | internal/middleware/ratelimit.go:21-27 | a tenant's counter is shared in the same window by that tenant alone, and by an unauthenticated client if and only if its address reads like the tenant's identity |
| RateLimit.ForwardedIdentityShares | internal/middleware/observability.go:245-256 | a request without credentials that forwards `tenant:` and a tenant's id gets that address and that tenant's counter |
| RateLimit.CountersCount | internal/middleware/ratelimit.go:32-42 | after any trace the counter of every current or later window is its number of arrivals: the expiry outlives the window |
| RateLimit.AdmittedExactly | internal/middleware/ratelimit.go:51-56 | an arrival is admitted exactly when it is among the first R of its identity and window |
| RateLimit.WindowAdmissions | internal/middleware/ratelimit.go:26-56 | each identity gets exactly min(R, arrivals) admissions per window |
| RateLimit.AnyMinuteBound | internal/middleware/ratelimit.go:26-56 | at most 2R admissions in any 60 consecutive seconds |
| Migrations.FilesDistinct | internal/database/migrate.go:51-60 | different migration files record different versions |
| Migrations.NamesExactly | internal/database/migrate.go:51-56 | the migrations are the files, not directories, whose names end in `.up.sql` |
| Migrations.AllVersions | internal/database/migrate.go:60 | once every file is applied, the recorded versions are exactly their names without that suffix |
| Migrations.Database.Migrate | internal/database/migrate.go:46-99 | from any prefix a run extends the applied prefix by as many files as it commits, skips the applied ones, and succeeds exactly when it reaches the end |
| Migrations.Runs | internal/database/migrate.go:33-99 | any number of runs stopped at arbitrary points keep schema and records at one common prefix, the whole list once a run could finish |
| Migrations.InterruptedThenFinished | internal/database/migrate.go:33-99 | from an empty database, interrupted runs, one finishing run and any further runs leave exactly every file applied once, in lexical order |
| Failures.UntidyIsOvercharged | graph/complexity.go:94-102 | for every h up to the maximum, three fields of a mutation with the string "first:h" as a leaf's argument are charged 2 + h |
| Failures.KeyListOverruns | graph/resolver.go:136-140 | `{apiKeys{id name}}` is charged 3 and has an execution of 1 + 2n fields for every n |
| Failures.SpacedBucketMismatches | internal/cloud/s3.go:56-58 | for the bucket `a b` in path style the signed path differs from the sent path, for every key |
| Failures.PresignedTwiceMismatches | pkg/awssig/sigv4.go:182-214 | for a URL that already carried a signature, what the receiver recovers differs from what was signed |
| Failures.UnclosedListPanics | graph/complexity.go:81-85 | Analyze panics on `{a(` |

## Left out

- Costs.AnalyzeMeasuresTree: the tree fragment is operations, fields, aliases, arguments and selection sets; directives, fragments, fields named like a reserved word, comments between an alias and its colon, quotes or unbalanced parentheses in comments inside an argument list, escapes inside block strings and comments ended by a lone carriage return are not in it, because the scanner does not treat them as the grammar does; `Outside` says what it makes of keyword names, inline fragments and such comments.
- Overflow.WrappedCostIsAccepted: the trace that resolves so many fields belongs to the abstract execution model; the schema takes arguments at the root alone, so its validation refuses this document.
- Execution.CostDominatesExecution: execution in `graphql-go` is abstract, a trace of resolutions in which the rows a field serves multiply a row credit that evaluations of the selection set share; that the credit of a page is handed down to its `nodes` is part of that abstraction. Fields whose parentheses hold no list by the grammar are taken to ask for any page.
- Paging.CoversServedPagesExactly: validation is taken to reject a page size that is no 64-bit integer, no variable and not null, and two arguments of one name. For lists whose first letters of the key are not the argument's own the condition compares the page with what is read there; `Letters` says by the list's structure where that is, and what is read in names; inside comments and values it is the text behind the letters.
- Execution.AcceptedResolvesWithinLimit: one direction, since other documents may charge more than they can resolve; `Execution.AcceptedResolvesExactly` has both for those that cannot, and `Guards.GuardedResolvesWithinLimit` needs no hypothesis on the charge.
- ExportRuns.ExclusiveOwnership: the worker package `internal/exports` is not part of this model; its policy is a hypothesis on the steps (a holder reports or is dead before the timeout, requeues only while attempts remain, uploads under a non-empty key), as is one clock for workers and database. A report on a row that an unfinished claim has locked waits for the lock.
- ExportRepository.Repository.ClaimQueued: FOR UPDATE SKIP LOCKED is a parameter, the set of rows other transactions hold; the columns requested_by, endpoint, method, the time range and updated_at are not modelled.
- ExportRepository.Repository.MarkFailed: a database that refuses a reason cut inside a multi-byte character is not modelled.
- ExportRepository.Repository.CountQueued: a SQL count; what it reports is stated by `ExportRepository.ClaimDrainsQueue`.
- SignedPath.CanonicalURI: parsing of URLs by `net/url` (EscapedPath, Query) is outside; the escaped path and the parsed values are inputs.
- SignedQuery.PresignQuery: HMAC-SHA256, the canonical request around the query, credentials and the clock are one uninterpreted function of the signed query; the error returns for missing credentials, bad URLs and missing hosts, and header signing (`SignRequest`, `canonicalizeHeaders`), are left out.
- SignedQuery.PresignedQueryReadsBack: the receiver splits pairs at `&` and at the one `=`, and percent-decodes.
- Loader.BatchLoader.Load: the source is fixed while callers run, a batch query returns exactly its rows among the keys asked for, and a single fetch of an absent key fails; fetch errors carry no detail. `Queries` only reads the counter.
- Tenancy.UserService.UpdateRole: store errors other than not-found are left out; calls run one after another, since the code reads and writes without a transaction, and so do the run theorems. Columns other than id, tenant, role, status and deletion are not modelled; creation order is row order, and the offset is computed in unbounded integers.
- Tenancy.TenantService.UpdateForScope: store errors other than not-found are left out.
- Sessions.AuthService.Signup: input validation happens before it; a failing store or signer in the middle, which would leave a tenant without a user, is left out, as are the tenant's other columns.
- Sessions.AuthService.Refresh: signatures are unforgeable and token ids never reused, SHA-256 is injective, bcrypt is equality, store writes succeed, an account is restored only where its address is free (the unique index), and calls run one after another; access tokens and last-login times are not modelled.
- RateLimit.AnyMinuteBound: a monotone clock and a store that is always reachable; an identity that arrives while the store is down is admitted and not counted (`RateLimit.Limiter.Admit`).
- Migrations.InterruptedThenFinished: one migrator at a time, atomic transactions and a fixed file set; every error of a run is one stop before the next uncommitted file.
- Pages.NewPageInfo: totals and sizes are within 64 bits, so nothing wraps.
- HTTP handlers, routing, audit records, logging, health probes, configuration checks, entitlements, the S3, SQS, Secrets Manager, PostgreSQL and Redis clients, and seed data are left out: they hold no property over runs beyond what is modelled here.

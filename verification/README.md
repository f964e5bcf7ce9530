# Renart: verified models of the SQL language server and of its state protocols

This project models the algorithms at the heart of Renart and proves what they promise:

- the SQL language server: edit distance and name suggestions, UTF-16 positions, semantic tokens, source
  maps between templates and rendered SQL, the byte scanners for quotes, parentheses and comments, query
  scopes around a cursor, the recursive scope analysis of queries, message framing;
- schema inference: the inference order and the bounded fixpoint over a graph of assets;
- the query analysis cache: a map and a linked list that must agree with a recency list;
- the protocols that guard state: prepared notebook changes, notebook runs, the two-file execution lease
  and the recovery of claims at startup;
- the notebook selection that decides which cells a run may execute, and the DECLARE hoister.

Each module follows one component. Code that works by loops and updates is a method or a class here, proved
against a specification function; what the component promises is then proved about that function or about
every interleaving of the component's steps. A Go string is a byte string: in the modules on SQL text one
`char` is one byte, and `Utf8` and `Positions` use a `byte` type and decode as Go does. Regular
expressions, the Golyglot parser, the operating system's file locks, clocks and random identifiers are
parameters, with contracts where a proof needs them: matches are ordered, in bounds and do not overlap, locks
are released when their process dies, a random identifier is not drawn twice.

`dafny verify dfyconfig.toml` checks the whole project.

| module | component |
|---|---|
| `EditDistance` | Levenshtein distance and name suggestions |
| `Utf8`, `Positions` | byte offsets and UTF-16 positions |
| `SemanticTokens` | relative encoding of semantic tokens |
| `SourceMaps` | rendering templates, projecting rendered SQL, mapping offsets both ways |
| `Scanners`, `SelectScopes` | quotes, comments, parentheses; scopes and UNION branches at a cursor |
| `Identifiers`, `QueryText`, `QueryParts` | identifiers and qualified names, template calls and masking, subqueries and WITH definitions |
| `Parentheses`, `WithClauses`, `ColumnLists` | two ways of counting parentheses; WITH clauses and column lists as they are written, and when they are read as written |
| `QueryTypes`, `ScopeAnalysis`, `QueryAnalysis`, `RelationAliases`, `CodeScopes` | the recursive analysis of a query and of a document, which alias a relation gets, and which of what is recorded stands in code |
| `TopoOrder`, `SchemaInference`, `SchemaSnapshot` | the inference order, the inference rounds, and inference over a whole graph |
| `AnalysisCache` | the LRU cache and the analysis behind it |
| `ExecutionLease`, `ServerLock` | the lease protocol over all interleavings; the code of one process |
| `ChangeStore`, `RunStore`, `CellSelection` | prepared changes, runs, the cells a run may execute |
| `DeclareHoister` | statement splitting and DECLARE hoisting |
| `Framing` | message framing |
| `Wrappers` | result types and small functions shared by all |

## Findings

- `selectScopeRangesAt` gives scopes that nest around the cursor if and only if the parentheses of the queries
  around it close in order, none of them before the cursor, as a scan that reads comments as code counts them
  (`SelectScopes.ScopesNestIff`). On comment-free text they always do (`SelectScopes.ScopesNest`); comments can
  break the nesting (`SelectScopes.CommentsBreakNesting`) and need not (`SelectScopes.CommentsCanBeHarmless`).
- `currentTopLevelSelectSegment` slices from behind a separator to the cursor, which fails exactly when the
  cursor is inside a UNION [ALL|DISTINCT] separator (`SelectScopes.SegmentDefined`), as in `union` with the cursor
  at 3 (`SelectScopes.SliceFailsInsideUnion`).
- `extractCTEDefs` skips comments between the tokens of a WITH clause, but its search for a closing parenthesis reads
  comments as code. Where the lists and bodies are balanced in code and the lists close where they should, the
  definitions it finds are the written ones if and only if every body is closed by the first parenthesis the search
  takes (`WithClauses.CodeClauseIsReadIff`), which is to say that the body is balanced with its comments read as code
  (`WithClauses.WrittenDefinitionsAreFoundIff`); on bodies without comments it always is
  (`WithClauses.CommentFreeDefinitionsAreFound`). An apostrophe in a comment, as in `with a as(x--'` with `),b as(y)`
  on the next line, hides every later definition (`WithClauses.ApostropheHidesDefinition`).
- The column list of a definition is read only if white space alone stands between the name and the list; behind a
  comment it is lost (`ColumnLists.ColumnsReadIff`, `ColumnLists.CommentHidesColumns`). In a list, exactly the names
  with only white space before them are read (`ColumnLists.NamesReadIff`, `ColumnLists.CommentHidesName`).
- `extractSubqueries` looks for queries in strings and comments too, so the analysis records the table of
  `select '(select 1 from t)'` (`CodeScopes.StringsAreAnalyzed`, `CodeScopes.TableInString`). What is recorded by way of
  parentheses in code does stand in code (`CodeScopes.CandidatesInCode`).
- `extractSubqueries` looks inside bodies too, and each body is analyzed again: the relation of the innermost
  of d queries nested in a query, with no others beside them, is recorded 2^(d-1) times (`ScopeAnalysis.RecordedOften`).
- `topLevelSemicolons` reports a nested semicolon exactly when it is under CASEs only, outside parentheses,
  and before any block of the outermost CASE; a block directly under CASE does no harm
  (`DeclareHoister.ReportedIsTopLevel`, `DeclareHoister.NestedSemicolonReported`).
- `execute` overwrites `cancelling` with `running` when the run's goroutine begins, and nothing else does
  (`RunStore.OverwrittenIff`): after an accepted cancel the run is reported as running again if and only if its
  goroutine begins later (`RunStore.RunningAgainIff`, `RunStore.CancellingIsOverwritten`), never if it had begun
  (`RunStore.CancelAfterBeginStays`). Either way the run is recorded as cancelled, because its context stays
  cancelled (`RunStore.CancelledRunEndsCancelled`).
- A store that is full once expired changes are swept refuses a new one for certain if and only if all of its oldest
  entries are being applied (`ChangeStore.MustBeRefused`), and possibly if and only if one of them is
  (`ChangeStore.MayBeRefused`); with different creation times these are the same condition
  (`ChangeStore.RefusedIff`). Other entries do not matter: there is a run that ends with a refusal while 63 of 64
  entries are free (`ChangeStore.RefusedWithFreeEntries`).
- Recovery never marks the claim of a live execution dirty if and only if every recovering attempt shares a lock
  file with every executing one (`ExecutionLease.SafeIffShared`). Two processes that share neither file can hold
  their leases together, and the recovery then does (`ExecutionLease.WithoutASharedFileRecoveryIsUnsafe`).
- A file whose unlock the system refuses stays locked until its process dies (`ExecutionLease.KeptStaysLocked`), and
  whoever asks for it in a mode that does not fit waits as long (`ExecutionLease.KeptBlocks`). While no unlock is
  refused every schedule drains (`ExecutionLease.EveryScheduleDrains`).
- A round of schema inference records an output under the relation's name as it is and later reads it under the trimmed
  name: what is inferred is seen at once if and only if the name has no white space around it
  (`SchemaInference.SeenAtOnceIff`).

## Model

| member | source | states |
|---|---|---|
| `EditDistance.ShortestScript` | internal/sqllsp/analyzer.go:1856-1883 | some insert/delete/substitute script turns the one prefix into the other at the cost a cell of the table shows |
| `EditDistance.NoShorterScript` | internal/sqllsp/analyzer.go:1856-1883 | no script between two prefixes is cheaper than their cell |
| `EditDistance.DistanceIsEditDistance` | internal/sqllsp/analyzer.go:1856-1883 | the table's last cell is the length of a shortest edit script between the two strings |
| `EditDistance.Metric` | internal/sqllsp/analyzer.go:1856-1883 | edit distance is zero exactly between equal strings, symmetric, and satisfies the triangle inequality |
| `EditDistance.NextRow` | internal/sqllsp/analyzer.go:1870-1880 | the inner loop turns one row of the table into the next, in place |
| `EditDistance.Levenshtein` | internal/sqllsp/analyzer.go:1856-1883 | the two-row computation returns the length of a shortest edit script |
| `EditDistance.NearestName` | internal/sqllsp/analyzer.go:1825-1854 | the suggestion is a closest non-blank candidate, and it is offered exactly when its distance is within the limit |
| `Utf8.DecodeRune` | internal/sqllsp/position.go:5-54 | a code point of one to four bytes is decoded and never runs past the end; it is no surrogate, and takes four bytes exactly outside the basic plane |
| `Utf8.DecodeEncoded` | internal/sqllsp/position.go:5-54 | the UTF-8 encoding of any code point is decoded to it, whatever follows |
| `Utf8.DecodedIsEncoded` | internal/sqllsp/position.go:5-54 | what is decoded without an error is the encoding the bytes begin with |
| `Utf8.ErrorIff` | internal/sqllsp/position.go:5-54 | a byte counts as an error exactly when no encoding starts there |
| `Positions.PositionsIncrease` | internal/sqllsp/position.go:33-54 | positions of code-point boundaries strictly increase in document order |
| `Positions.LineIsNewlines` | internal/sqllsp/position.go:33-54 | the line of a boundary is the number of newline bytes before it |
| `Positions.UnitsAreUtf16` | internal/sqllsp/position.go:33-54 | a code point counts as two columns exactly if it takes four bytes |
| `Positions.PositionAt` | internal/sqllsp/position.go:33-54 | the loop returns the position of the first boundary at or past the offset |
| `Positions.ByteOffset` | internal/sqllsp/position.go:5-31 | the loop returns the offset where the scan for a position stops |
| `Positions.RoundTrip` | internal/sqllsp/position.go:5-54 | an offset turned into a position and back gives the least code-point boundary at or past it, so itself exactly when it splits no code point |
| `Positions.PositionAtMonotone` | internal/sqllsp/position.go:33-54 | later offsets have later positions, strictly from a boundary on |
| `Positions.ByteOffsetMeaning` | internal/sqllsp/position.go:5-31 | on a line that exists the answer is the least boundary at or past the UTF-16 column, clamped to the line's end; otherwise the end of the text |
| `SemanticTokens.SortTokens` | internal/sqllsp/analyzer.go:1886-1891 | the in-place sort orders the tokens by start and then by end, and loses none |
| `SemanticTokens.ExpectedMeaning` | internal/sqllsp/analyzer.go:1893-1921 | what is sent are exactly the tokens that are in bounds, not empty and on one line, in order: each at its line and UTF-16 column, as long as it is in UTF-16 units but not shorter than one, with its type |
| `SemanticTokens.PositionsFollow` | internal/sqllsp/analyzer.go:1893-1921 | in sorted order no token starts before the position of an earlier one |
| `SemanticTokens.DeltasNotNegative` | internal/sqllsp/analyzer.go:1904-1911 | the guard against negative deltas never fires |
| `SemanticTokens.EncodeSemanticTokens` | internal/sqllsp/analyzer.go:1885-1923 | a client that decodes the data by the relative rule of the Language Server Protocol 3.17 sees exactly the in-bounds, non-empty, single-line tokens, in sorted order |
| `SourceMaps.BoundaryAnswer` | internal/sqllsp/render.go:178-199 | a generated offset maps exactly when some segment holds it, at most one does, and the answer is inside that segment |
| `SourceMaps.MappedRangesInBounds` | internal/sqllsp/render.go:155-176 | every range that maps lands in the template with its start not after its end, without the clamp doing anything |
| `SourceMaps.ConfidenceIsTheLower` | internal/sqllsp/render.go:155-176 | a mapped range counts with the lower confidence of its two ends |
| `SourceMaps.LiteralRangesExact` | internal/sqllsp/render.go:155-199 | a range inside one literal segment maps to a template range with the very same bytes, at full confidence |
| `SourceMaps.TemplateBoundaryMonotone` | internal/sqllsp/render.go:178-199 | on a tiled map every generated offset maps, and later offsets map no earlier |
| `SourceMaps.GeneratedOffsetMonotone` | internal/sqllsp/render.go:287-301 | template offsets map to generated ones monotonically and in bounds |
| `SourceMaps.LiteralOffsetRoundTrip` | internal/sqllsp/render.go:178-301 | a template offset inside literal SQL survives the way to the rendered text and back, and the byte there is the same |
| `SourceMaps.RenderTemplateSQL` | internal/sqllsp/render.go:38-139 | the segments tile both the rendered SQL and the template without gap or overlap and literal ones are identical copies; every call has a segment with exactly its place in the template, whose text is, for a `ref`, the relation its first quoted argument resolves to or that argument, for a `source`, the same of its first two arguments with a dot between them, and `__template__` otherwise and where that text is empty; every other segment is literal; without calls the result is the template |
| `SourceMaps.Anchor` | internal/sqllsp/render.go:242-258 | a fragment that is found is mapped as a literal where it first occurs, and what was skipped goes to the pending template stretch |
| `SourceMaps.GreedyIsComplete` | internal/sqllsp/render.go:217-285 | taking first occurrences anchors every fragment whenever the rendered text keeps all of them in order |
| `SourceMaps.ProjectRenderedSQL` | internal/sqllsp/render.go:217-285 | for any template and any rendered text the map is ordered and disjoint in both coordinates with literal segments equal byte for byte; an expansion covers exactly the template between the fragments around it; and the map is complete when the text keeps the template's fragments |
| `Scanners.IdentBytes` | internal/sqllsp/analyzer.go:3910-3912 | the bytes of identifiers are the ASCII letters and digits, the underscore and the dollar sign |
| `Scanners.LettersFold` | internal/sqllsp/analyzer.go:3328-3331 | the 26 letters fold pairwise, and nothing else folds |
| `Scanners.WordStandsAlone` | internal/sqllsp/analyzer.go:3328-3336 | a word is found exactly where it stands apart from other bytes of identifiers |
| `Scanners.QuoteScansAgree` | internal/sqllsp/analyzer.go:3265-3290 | on comment-free text the scan that toggles at quotes agrees with the full lexical scan at every parenthesis |
| `Scanners.PrefixScanAgrees` | internal/sqllsp/analyzer.go:1089-1152 | a scan that stops at the cursor knows what the scan of the whole text knows there, except inside a two-byte token |
| `Scanners.MatchingParenIsFirst` | internal/sqllsp/analyzer.go:3265-3290 | the answer is the first byte that brings the depth of unquoted parentheses back to zero |
| `Scanners.FindMatchingParen` | internal/sqllsp/analyzer.go:3265-3290 | the loop finds that byte, or reports that there is none |
| `Scanners.SplitTopLevelRanges` | internal/sqllsp/analyzer.go:3151-3184 | the ranges lie between consecutive top-level separators and cover the text with them |
| `Scanners.RangesTileText` | internal/sqllsp/analyzer.go:3151-3184 | the ranges run from the start to the end of the text with one top-level separator between each two |
| `Scanners.CutsMeaning` | internal/sqllsp/analyzer.go:3151-3184 | the cuts are exactly the separators outside quotes and parentheses, in order |
| `Scanners.NestingMeaning` | internal/sqllsp/analyzer.go:3151-3184 | the nesting is how far the depth of parentheses has risen above the lowest it has been, so closing ones without an opening one do not count |
| `SelectScopes.QuoteContextAtOffset` | internal/sqllsp/analyzer.go:1089-1152 | the cursor is reported in a string, in a quoted identifier or in a comment exactly when the lexical scan of the text before it says so |
| `SelectScopes.OffsetInSQLCode` | internal/sqllsp/analyzer.go:2513-2561 | an offset counts as code exactly when the lexical scan has settled on code there |
| `SelectScopes.ScanOpenParens` | internal/sqllsp/analyzer.go:3546-3600 | the stack holds the parentheses opened in code and not closed before the cursor |
| `SelectScopes.SelectScopeRangesAt` | internal/sqllsp/analyzer.go:3546-3618 | the result is the whole text and the body of every open parenthesis that starts a query |
| `SelectScopes.OpensQueryIff` | internal/sqllsp/analyzer.go:3004-3009 | a parenthesis starts a query exactly when SELECT, WITH, VALUES or DESCRIBE stands behind it after white space only |
| `SelectScopes.ScopesNest` | internal/sqllsp/analyzer.go:3546-3618 | on comment-free text the scopes form a strictly nested chain and each contains the cursor, a case of the condition below |
| `SelectScopes.ScopesNestIff` | internal/sqllsp/analyzer.go:3546-3618 | on any text the scopes form such a chain if and only if the queries' parentheses close in order, none before the cursor |
| `SelectScopes.BodyReachesIff` | internal/sqllsp/analyzer.go:3265-3290 | a query body reaches the cursor exactly when no byte before the cursor closes its parenthesis |
| `SelectScopes.BodiesWithinIff` | internal/sqllsp/analyzer.go:3265-3290 | a later body lies within an earlier one exactly when its parenthesis closes first |
| `SelectScopes.CommentsBreakNesting` | internal/sqllsp/analyzer.go:3546-3618 | a concrete text with a comment where a scope does not contain the cursor |
| `SelectScopes.CommentsCanBeHarmless` | internal/sqllsp/analyzer.go:3546-3618 | a text with a comment whose scopes do nest |
| `SelectScopes.CurrentTopLevelSelectStart` | internal/sqllsp/analyzer.go:3721-3762 | the loop finds the start of the UNION branch the cursor is in |
| `SelectScopes.CurrentTopLevelSelectSegment` | internal/sqllsp/analyzer.go:3635-3676 | the text of the branch up to the cursor, when the slice is defined |
| `SelectScopes.SegmentDefined` | internal/sqllsp/analyzer.go:3675 | the slice is defined if and only if the cursor is not inside a UNION [ALL or DISTINCT] separator |
| `SelectScopes.SliceFailsInsideUnion` | internal/sqllsp/analyzer.go:3675 | a concrete text and cursor where the slice fails |
| `SelectScopes.StartPassesSeparators` | internal/sqllsp/analyzer.go:3721-3762 | every separator before the cursor lies before the start of the branch |
| `SelectScopes.UnionEndMeaning` | internal/sqllsp/analyzer.go:3750-3754 | a UNION separator ends behind the ALL or DISTINCT that follows it after white space only, and behind the UNION if neither does |
| `Identifiers.SkipSQLTrivia` | internal/sqllsp/analyzer.go:3302-3326 | the loop skips white space and comments to the place the recursion gives |
| `Identifiers.SkippedIsTrivia` | internal/sqllsp/analyzer.go:3302-3326 | what is skipped is white space and comments, whole ones but for a last one that runs to the end, and neither follows |
| `Identifiers.TriviaSkippedExactly` | internal/sqllsp/analyzer.go:3302-3326 | any white space and whole comments are skipped, and nothing behind them |
| `Identifiers.TriviaSkippedOnce` | internal/sqllsp/analyzer.go:3302-3326 | where skipping stops nothing is left to skip |
| `Identifiers.ReadIdentifier` | internal/sqllsp/analyzer.go:3338-3364 | the loops read the identifier and its end, with doubled quotes inside |
| `Identifiers.QuotedIdentifierRoundTrip` | internal/sqllsp/analyzer.go:3338-3364 | a name written in quotes is read back whatever characters it has, and reading ends behind its closing quote |
| `Identifiers.SplitQualifiedIdentifier` | internal/sqllsp/analyzer.go:2425-2461 | the loop cuts at exactly the dots outside quotes and trims each segment |
| `Identifiers.SegmentsInOrder` | internal/sqllsp/analyzer.go:2425-2461 | segments lie in the text, disjoint and in order |
| `Identifiers.NormalizeRelation` | internal/sqllsp/analyzer.go:3875-3890 | the loop joins the decoded segments |
| `Identifiers.NormalizeRoundTrip` | internal/sqllsp/analyzer.go:3875-3890 | however the segments of a qualified name are written (bare, in any quotes, with white space around), normalizing gives their names joined by dots |
| `Identifiers.BlankSegmentStays` | internal/sqllsp/analyzer.go:2429-2443 | a segment that is nothing but white space keeps it |
| `Identifiers.RelationSemanticTokens` | internal/sqllsp/analyzer.go:2394-2419 | tokens lie inside the relation's range, disjoint and in order, and cover all of it but dots and white space; exactly the last one is the table |
| `QueryText.PreparingMovesNothing` | internal/sqllsp/analyzer.go:2863-2882 | replacing template calls keeps the length, and leaves a text without calls as it is |
| `QueryText.OutsideCallsUnchanged` | internal/sqllsp/analyzer.go:2863-2882 | every byte outside the calls stays what it was |
| `QueryText.NextCallIff` | internal/sqllsp/analyzer.go:2863-2866 | a call runs from the first opening braces to the first closing ones behind them |
| `QueryText.CallsAreReplaced` | internal/sqllsp/analyzer.go:2867-2879 | every byte of a call is that of its replacement, or of the placeholder if that is empty, cut to the width of the call or followed by blanks |
| `QueryText.ReplaceCalls` | internal/sqllsp/analyzer.go:2863-2882 | the in-place copy replaces exactly the calls |
| `QueryText.QueryRangesApart` | internal/sqllsp/analyzer.go:3245-3263 | the ranges of nested queries are disjoint and in order |
| `QueryText.EveryQueryIsCovered` | internal/sqllsp/analyzer.go:3245-3263 | every parenthesis that starts a closed query opens a range or lies inside one |
| `QueryText.RangesAreQueries` | internal/sqllsp/analyzer.go:3245-3263 | each range is the body of a parenthesis that starts a query, up to the parenthesis that closes it |
| `QueryText.MaskedAt` | internal/sqllsp/analyzer.go:3228-3238 | exactly the bytes inside a range are blanked, except for line ends |
| `QueryText.MaskNestedQueries` | internal/sqllsp/analyzer.go:3228-3238 | the in-place blanking hides the bodies of nested queries, keeps line ends and moves nothing |
| `QueryParts.ReadColumnAliases` | internal/sqllsp/analyzer.go:3011-3032 | the loop reads the names of the items of an alias list, in order |
| `QueryParts.ColumnAliasesMeaning` | internal/sqllsp/analyzer.go:3011-3032 | exactly the items that begin with a name give an alias, which is that name at its place |
| `QueryParts.ColumnAliasesIn` | internal/sqllsp/analyzer.go:3011-3032 | each column alias is named and has a non-empty range in the text |
| `QueryParts.SubqueriesMeaning` | internal/sqllsp/analyzer.go:2966-3002 | the list holds exactly one entry for each parenthesis that starts a query and is closed, at any depth; its body is the text up to the closing one and its alias stands behind |
| `QueryParts.AliasPlaceMeaning` | internal/sqllsp/analyzer.go:2980-2990 | the alias is looked for at the first byte behind the parenthesis that is no white space, or behind the AS that stands there |
| `QueryParts.ExtractSubqueries` | internal/sqllsp/analyzer.go:2966-3002 | the loop over all places returns that list |
| `QueryParts.CtesMeaning` | internal/sqllsp/analyzer.go:2907-2964 | every definition found lies in the text with its name and body, bodies do not overlap, and definitions are in order |
| `QueryParts.CollectCtes` | internal/sqllsp/analyzer.go:2915-2962 | the loop collects the definitions, RECURSIVE applying to those behind it |
| `QueryParts.ExtractCTEDefs` | internal/sqllsp/analyzer.go:2907-2964 | the definitions of the WITH clause a text starts with, none otherwise |
| `WithClauses.ReadRightlyIff` | internal/sqllsp/analyzer.go:2907-2964 | of a WITH clause written from any definitions, with any white space and comments between tokens, names bare or quoted, column lists, hints and bodies, the definitions found are exactly the written ones, in order, if and only if the search gets to each body and finds its own closing parenthesis |
| `WithClauses.CodeClauseIsReadIff` | internal/sqllsp/analyzer.go:2907-2964 | when lists and bodies are balanced in code, with any comments inside them, and each list is closed by its own parenthesis: the definitions found are the written ones if and only if the first byte that closes each body is its own parenthesis |
| `WithClauses.WrittenDefinitionsAreFoundIff` | internal/sqllsp/analyzer.go:2907-2964 | the same for any bodies: they are the written ones if and only if every body is balanced with its comments read as code |
| `WithClauses.WrittenDefinitionsAreFound` | internal/sqllsp/analyzer.go:2907-2964 | so clauses whose lists and bodies are balanced that way are read as they are written |
| `WithClauses.CommentFreeDefinitionsAreFound` | internal/sqllsp/analyzer.go:2907-2964 | and so are clauses whose lists and bodies hold no comments and are balanced in code |
| `WithClauses.ApostropheHidesDefinition` | internal/sqllsp/analyzer.go:2949-2956 | a concrete clause, balanced in code, whose second definition is lost behind an apostrophe in a comment |
| `WithClauses.UnclosedTakesTheRest` | internal/sqllsp/analyzer.go:2949-2956 | a body whose closing parenthesis is not found is taken to the end of the text |
| `WithClauses.SmallClauseIsRead` | internal/sqllsp/analyzer.go:2907-2964 | a concrete clause that is written this way and its one definition |
| `Parentheses.ClosesItselfIff` | internal/sqllsp/analyzer.go:3265-3290 | the search from a parenthesis answers with the one the writer means exactly when that is the first to close it, and exactly when the text between them is balanced with its comments read as code |
| `Parentheses.CommentFreeBalanced` | internal/sqllsp/analyzer.go:3265-3290 | without comments, a text that is balanced in code is balanced for the search |
| `Parentheses.CodeCloseIsUnique` | internal/sqllsp/analyzer.go:3265-3290 | in code at most one parenthesis closes another, so the writer has no choice |
| `Parentheses.LexInside` | internal/sqllsp/analyzer.go:2513-2561 | behind a parenthesis in code a text is read as the scan of the whole text reads it |
| `ColumnLists.ColumnsReadIff` | internal/sqllsp/analyzer.go:2927-2930 | whatever white space and comments stand before a column list, it is read exactly when white space alone does and it is closed, and is lost behind a comment |
| `ColumnLists.CommentHidesColumns` | internal/sqllsp/analyzer.go:2927-2930 | a concrete list that a comment hides |
| `ColumnLists.NamesRead` | internal/sqllsp/analyzer.go:3011-3032 | of a list whose items begin with white space, comments and a name, exactly the names with only white space before them are read, in order |
| `ColumnLists.NamesReadIff` | internal/sqllsp/analyzer.go:3011-3032 | such a list gives its written names if and only if only white space stands before each of them |
| `ColumnLists.CommentHidesName` | internal/sqllsp/analyzer.go:3011-3032 | a concrete list whose name a comment hides |
| `ScopeAnalysis.RelationsFaithful` | internal/sqllsp/analyzer.go:2571-2726 | every relation recorded at any depth has a range inside its scope and the document, and the text there normalizes to the recorded name |
| `ScopeAnalysis.RelationsInside` | internal/sqllsp/analyzer.go:2571-2726 | whatever template replacement does, recorded ranges are inside the document |
| `ScopeAnalysis.NestedIsReported` | internal/sqllsp/analyzer.go:2661-2664 | what the analysis of a subquery records, the query around it records at the same place |
| `ScopeAnalysis.RelationsAre` | internal/sqllsp/analyzer.go:2616-2664 | a relation is recorded exactly when it is one of the scope's own candidates or is recorded for one of its subqueries, whether those stand in code or not |
| `ScopeAnalysis.RecordedInSomeScope` | internal/sqllsp/analyzer.go:2571-2726 | whatever template replacement does, each recorded relation is a candidate of some scope, at its place in the prepared text of that scope |
| `ScopeAnalysis.ScopeIsRecorded` | internal/sqllsp/analyzer.go:2571-2726 | conversely, every relation among the candidates of every scope is recorded, at its place in the prepared text of that scope |
| `ScopeAnalysis.RecordedOften` | internal/sqllsp/analyzer.go:2616-2664 | a relation of the innermost of nested queries is recorded twice as often for every query around that query but the first |
| `ScopeAnalysis.ApplyColumnAliases` | internal/sqllsp/completion_scope.go:124-140 | renamed columns have exactly the aliases' names and keep the types of the columns they rename |
| `ScopeAnalysis.AliasIsPlaced` | internal/sqllsp/completion_scope.go:124-140 | a column name is placed at the last alias that has it, up to case |
| `ScopeAnalysis.PlacedHasAlias` | internal/sqllsp/completion_scope.go:124-140 | and no other name is placed |
| `ScopeAnalysis.AddCTEDef` | internal/sqllsp/completion_scope.go:108-122 | only the definition's name becomes visible, at its place in the document, with the columns that an analysis of its body puts out, renamed by its column list; nothing else changes; the recursion ends |
| `ScopeAnalysis.AddUse` | internal/sqllsp/analyzer.go:2616-2660 | a relation candidate is recorded, its alias bound to the definition in scope it names or to the catalog, and every other alias keeps its meaning |
| `ScopeAnalysis.AddSubquery` | internal/sqllsp/analyzer.go:2661-2709 | a subquery contributes its relations and its alias, bound at its place in the document with the columns of its body renamed by its column list, and nothing else of its scope |
| `ScopeAnalysis.Analyze` | internal/sqllsp/analyzer.go:2571-2726 | the recursion ends, because every body is strictly shorter; it records exactly the relations of all scopes; it sees the parent's names, each with its meaning unless the scope introduces that name itself, and adds exactly its own definitions and aliases. The last candidate that introduces a name decides: a relation whose written name has the key of a definition takes over that definition's kind, name, columns and their places, under its own alias, which stands where it is written if apart from the name; any other relation comes from the catalog; a subquery comes before both, and of definitions with one key the last. The columns of a definition or a subquery are the output of its body, which sees the definitions before it, or all, and those of the query around |
| `ScopeAnalysis.WithNamesAreMeant` | internal/sqllsp/analyzer.go:2646-2656 | an alias of a relation with a WITH name stands for the last definition of that name in the query's own WITH, with the columns of its body; if there is none, for what the query around it means by the name; and only if no definition has the name, for the relation of the catalog |
| `ScopeAnalysis.AddCTEDefs` | internal/sqllsp/analyzer.go:2585-2587 | the last definition of a name is bound, and the body of a definition is analyzed where it sees the names of the query around it and the definitions before it, the last of each name, and itself with its declared columns if it is recursive |
| `ScopeAnalysis.UseNamesMeaning` | internal/sqllsp/analyzer.go:2616-2660 | an alias of a relation or table function is introduced by the last candidate that names it |
| `ScopeAnalysis.SubqueryNamesMeaning` | internal/sqllsp/analyzer.go:2661-2709 | an alias of a subquery is introduced by the last subquery that names it |
| `ScopeAnalysis.BindingsMeaning` | internal/sqllsp/analyzer.go:2585-2587 | a WITH name is bound exactly when some definition has it, and then to the last one |
| `ScopeAnalysis.VisibleCTEsAt` | internal/sqllsp/completion_scope.go:84-106 | in each scope around the cursor exactly the definitions whose body ends before it are visible, and the recursive one it is in; each name refers, at its place in the document, to the definition the scopes bind it to |
| `ScopeAnalysis.LastVisibleWins` | internal/sqllsp/completion_scope.go:84-106 | in one scope a name is bound exactly when a visible definition has it, and then to the last such |
| `ScopeAnalysis.InnermostWins` | internal/sqllsp/completion_scope.go:84-106 | over all scopes the innermost one that binds a name decides |
| `ScopeAnalysis.AddVisibleIn` | internal/sqllsp/completion_scope.go:90-103 | stopping at the first definition that starts behind the cursor or contains it misses no visible one |
| `QueryAnalysis.KeyOfQuoted` | internal/sqllsp/completion_scope.go:63-82 | a quoted identifier's key is its exact name in dialects that respect case, and its folded name in the others |
| `QueryAnalysis.KeyOfBare` | internal/sqllsp/completion_scope.go:63-82 | a bare identifier is folded to upper case in Snowflake and Oracle and to lower case elsewhere |
| `QueryAnalysis.SortedIsStable` | internal/sqllsp/analyzer.go:2615 | candidates at one position keep their order |
| `QueryAnalysis.CandidatesMeaning` | internal/sqllsp/analyzer.go:2590-2615 | the candidates are exactly the pattern matches that lie in code, and for commas continue a FROM list |
| `QueryAnalysis.CandidatesOrdered` | internal/sqllsp/analyzer.go:2615 | candidates are taken in order of position |
| `RelationAliases.SkippedIff` | internal/sqllsp/analyzer.go:2617-2620 | a match is skipped exactly when its normalized name is empty or one of fifteen keywords |
| `RelationAliases.TableFunctionIff` | internal/sqllsp/analyzer.go:2831-2849 | it is a table function exactly when an opening parenthesis follows after white space only |
| `RelationAliases.WrittenAliasIsTaken` | internal/sqllsp/analyzer.go:2634-2642 | an alias with AS is the alias unless it is a keyword, and then the last part of the name is |
| `RelationAliases.WordBehindIsTaken` | internal/sqllsp/analyzer.go:2822-2829 | without AS, the name behind the relation is the alias, as it is written |
| `RelationAliases.NothingBehindIsNone` | internal/sqllsp/analyzer.go:2822-2829 | and the last part of the name is if none stands there, or a keyword |
| `RelationAliases.ShortNameIsLast` | internal/sqllsp/analyzer.go:3892-3895 | the last part of a name is what stands behind its last dot |
| `RelationAliases.ShortNameUnquotes` | internal/sqllsp/analyzer.go:3892-3895 | without the quotes around it |
| `RelationAliases.SubqueryAliasIsTaken` | internal/sqllsp/analyzer.go:2980-2998 | the alias of a subquery is the name at its place behind the parenthesis, with the column list behind that |
| `RelationAliases.NoSubqueryAlias` | internal/sqllsp/analyzer.go:2980-2998 | a subquery with no name there, or a keyword, has no alias and no columns |
| `QueryAnalysis.PartsMeaning` | internal/sqllsp/analyzer.go:2571-2615 | the analysis of a text takes its definitions, candidates and subqueries as the parts above find them in the prepared text |
| `QueryAnalysis.PartsSound` | internal/sqllsp/analyzer.go:2907-3002 | the parts of any text lie in it, and every body analyzed on its own is strictly shorter |
| `QueryAnalysis.RecordedRangesAreTrue` | internal/sqllsp/analyzer.go:2571-2726 | for a template-free document every recorded range is in bounds and its slice normalizes to the recorded name |
| `QueryAnalysis.RecordedRangesAreTrueOfTheirScope` | internal/sqllsp/analyzer.go:2571-2726 | for every document, each recorded range lies in some scope inside the document, and the prepared text of that scope normalizes there to the recorded name |
| `QueryAnalysis.RecordedRangesAreTrueOfPrepared` | internal/sqllsp/analyzer.go:2571-2726 | with template calls the same holds of the prepared text, when preparing it leaves no call |
| `QueryAnalysis.AnalyzeSQL` | internal/sqllsp/analyzer.go:2563-2569 | the analysis of a whole document has these properties, binds only its own aliases, and every alias and definition stands for what it should |
| `CodeScopes.CandidatesInCode` | internal/sqllsp/analyzer.go:2571-2726 | in a document without template calls every candidate of a scope that is reached through parentheses in code stands in code of the document |
| `CodeScopes.CodeIsRecorded` | internal/sqllsp/analyzer.go:2571-2726 | and if it is a relation it is recorded there |
| `CodeScopes.SubqueryIsRecorded` | internal/sqllsp/analyzer.go:2966-3002 | of any subquery of such a document, wherever its parenthesis stands, the relations are recorded |
| `CodeScopes.StringsAreAnalyzed` | internal/sqllsp/analyzer.go:2966-3002 | so the table of a concrete query in a string is recorded, whenever the relation pattern matches it in that query |
| `CodeScopes.TableInString` | internal/sqllsp/analyzer.go:2966-3002 | the recorded place and the parenthesis of that query lie in the string, not in code |
| `TopoOrder.GreedyIsTopological` | internal/sqllsp/schema_snapshot.go:371-420 | the greedy order is topological and stops only when no asset is ready |
| `TopoOrder.GreedyIsLeast` | internal/sqllsp/schema_snapshot.go:371-420 | it is the lexicographically least topological order by input index, and reaches whatever any topological order reaches |
| `TopoOrder.HeldIffCycle` | internal/sqllsp/schema_snapshot.go:371-420 | exactly the assets on or downstream of a cycle are left out of it |
| `TopoOrder.OrderIsPermutation` | internal/sqllsp/schema_snapshot.go:371-420 | the whole order, the rest appended in input order, has every asset exactly once |
| `TopoOrder.IndexByName` | internal/sqllsp/schema_snapshot.go:372-379 | a name resolves to the last asset that carries it as id, name or URI |
| `TopoOrder.EdgesAre` | internal/sqllsp/schema_snapshot.go:380-391 | one asset is upstream of another exactly when the other names it by its identifier, name or location, up to case and white space around them, and no later asset is called so; never of itself |
| `TopoOrder.BuildGraph` | internal/sqllsp/schema_snapshot.go:380-391 | `downstream` mirrors the upstream graph with multiplicity and `indegree` counts it |
| `TopoOrder.Release` | internal/sqllsp/schema_snapshot.go:406-412 | releasing an asset's downstream keeps the counts and leaves the queue sorted and exactly the ready assets |
| `TopoOrder.TopoOrderInferenceAssets` | internal/sqllsp/schema_snapshot.go:371-420 | Kahn's algorithm with the sorted queue returns the assets in that order |
| `SchemaInference.ValidationSchema` | internal/sqllsp/schema_snapshot.go:232-260 | the schema and the known flags show of every named relation what its last layer says |
| `SchemaInference.LastLayerMeaning` | internal/sqllsp/schema_snapshot.go:233-236 | the layer that counts for a relation is the last one that names it |
| `SchemaInference.TrimmedTypesMeaning` | internal/sqllsp/schema_snapshot.go:245-252 | the types are those of the last columns of each name that is not blank |
| `SchemaInference.KnownMeaning` | internal/sqllsp/schema_snapshot.go:245-258 | a relation is known exactly if its layer is complete and has a column whose name is not blank |
| `SchemaInference.EntryMeaning` | internal/sqllsp/schema_snapshot.go:238-258 | the schema and the flags have an entry for every relation whose name is not blank, from the layer of the last relation of that name |
| `SchemaInference.OnlyEntries` | internal/sqllsp/schema_snapshot.go:238-258 | and no other |
| `SchemaInference.SeeFresh` | internal/sqllsp/schema_snapshot.go:232-260 | a fresh environment shows of every relation what its last layer says |
| `SchemaInference.SeenAtOnceIff` | internal/sqllsp/schema_snapshot.go:104-114 | an output recorded during a round is seen at once under the relation's trimmed name if and only if the name has no white space around it |
| `SchemaInference.RunRounds` | internal/sqllsp/schema_snapshot.go:82-138 | the loop runs rounds until one changes nothing, the context is cancelled or five have run |
| `SchemaInference.FiveRounds` | internal/sqllsp/schema_snapshot.go:82-119 | rounds that go on changing things are stopped after the fifth |
| `SchemaSnapshot.InferSchemaSnapshot` | internal/sqllsp/schema_snapshot.go:38-140 | relations stay. Layers of a relation stay unless it is the relation of an asset that qualifies: the last relation of that asset, with no complete layer that has columns, and with SQL that is not blank; layers that were not inferred always stay. No round is begun exactly if no asset qualifies or the context is cancelled at once, and if none qualifies the graph comes back untouched. If upstreams are acyclic and inference reads upstreams only, two rounds are begun, and the last layer of every qualifying asset's relation is what inference yields from the resulting schemas, whenever that has columns |
| `SchemaSnapshot.NeedsInferenceIff` | internal/sqllsp/schema_snapshot.go:55-63 | an asset is inferred exactly when it qualifies |
| `SchemaSnapshot.TargetsAre` | internal/sqllsp/schema_snapshot.go:55-63 | the targets are the qualifying assets in the order given |
| `SchemaSnapshot.OneAssetSettles` | internal/sqllsp/schema_snapshot.go:38-140 | a concrete graph on which inference settles: one asset, whose relation has no layer |
| `SchemaSnapshot.OneAssetIsInferred` | internal/sqllsp/schema_snapshot.go:38-140 | and its relation gets the inferred layer |
| `SchemaInference.FirstRound` | internal/sqllsp/schema_snapshot.go:82-119 | the first round records for every target what can be inferred from earlier outputs |
| `SchemaInference.OneSolution` | internal/sqllsp/schema_snapshot.go:38-140 | any solution of the inference equations agrees with the outputs of the first round |
| `SchemaInference.SecondRoundIsQuiet` | internal/sqllsp/schema_snapshot.go:38-140 | with acyclic targets the second round changes nothing, so inference stops after two of five rounds with the one solution |
| `SchemaSnapshot.InferenceSettles` | internal/sqllsp/schema_snapshot.go:38-140 | stated of the input graph: acyclic upstreams, inference that reads upstreams only and no base columns for targets give two rounds, the unique solution, and untouched layers for every other relation |
| `AnalysisCache.KeepsMostRecent` | internal/sqlintelligence/analysis.go:347-397 | after any requests the cache holds exactly the `capacity` most recently requested distinct keys in recency order |
| `AnalysisCache.Inclusion` | internal/sqlintelligence/analysis.go:347-397 | a larger cache's keys begin with those of a smaller one |
| `AnalysisCache.RecencyByLastRequest` | internal/sqlintelligence/analysis.go:347-397 | the recency list orders keys by their last request |
| `AnalysisCache.KeyTextInjective` | internal/sqlintelligence/analysis.go:343-345 | the text that is hashed determines the query and the options |
| `AnalysisCache.QueryAnalysisCache.Get` | internal/sqlintelligence/analysis.go:370-379 | a hit returns the stored answer and makes its key the most recent; a miss changes nothing; map and list still agree |
| `AnalysisCache.QueryAnalysisCache.Add` | internal/sqlintelligence/analysis.go:381-397 | the key becomes the most recent with the new answer, the least recent one is dropped when the cache is over capacity, all others keep theirs |
| `AnalysisCache.QueryAnalysisCache.MoveToFront` | internal/sqlintelligence/analysis.go:370-388 | moving a node keeps the links, the map and all other nodes in order |
| `AnalysisCache.AnalyzeQuery` | internal/sqlintelligence/analysis.go:112-138 | an answer is the uncached analysis of the request or the stored one, the errors come in the order of the code, failures leave no trace, and a success makes its key the most recent, for one caller at a time |
| `AnalysisCache.AnalyzeAll` | internal/sqlintelligence/analysis.go:112-138 | over any sequence of requests every answer is the analyzer's own, and the cache ends with the most recently answered keys |
| `AnalysisCache.NextKeepsSound` | internal/sqlintelligence/analysis.go:112-138 | every locked lookup or store of any caller keeps the stored answers true, the keys distinct and within capacity |
| `AnalysisCache.ConcurrentAnswersAreTrue` | internal/sqlintelligence/analysis.go:112-138 | in every interleaving of callers, with lookup and store as separate steps, every answer is the analyzer's own and the cache holds the most recently used keys |
| `ExecutionLease.ExclusiveIsAlone` | cmd/server_lock.go:152-226 | in every interleaving a full exclusive holder never coexists with another full holder it shares a lock file with |
| `ExecutionLease.FinishedHoldsNothing` | cmd/server_lock.go:168-192 | an attempt that failed or ended holds exactly the files the system refused to unlock, so none if it refused none; one that crashed holds nothing |
| `ExecutionLease.AcquiredIffHeld` | cmd/server_lock.go:152-192 | an attempt that has ended counts as a success if and only if at some moment it had its full lease |
| `ExecutionLease.KeptStaysLocked` | cmd/server_lock.go:342-357 | a file whose unlock was refused stays locked by its process until that dies |
| `ExecutionLease.KeptBlocks` | cmd/server_lock.go:152-226 | whoever asks for such a file in a mode that does not fit does not get on, however locks are granted and released |
| `ExecutionLease.RecoveryIsSafe` | cmd/server.go:474-497 | recovery turns exactly the active claims dirty, and the execution of each of them has ended |
| `ExecutionLease.LiveClaimsAreNotDirty` | cmd/server.go:474-497 | while every recovering attempt shares a file with every executing one, no claim of an execution that holds the lease is ever dirty |
| `ExecutionLease.WithoutASharedFileRecoveryIsUnsafe` | cmd/server_lock.go:37-49 | without a shared file there is a run in which recovery marks a live claim dirty |
| `ExecutionLease.SafeIffShared` | cmd/server_lock.go:37-49 | over all runs of any kinds of attempts, recovery never marks a live claim dirty if and only if every kind of recovery shares a file with every kind of execution |
| `ExecutionLease.WaitingGoesForward` | cmd/server_lock.go:152-193 | whoever is waited for is further along in the primary-then-compatibility order, so waiting is never circular, and has not ended unless the system refused it an unlock |
| `ExecutionLease.NeverDeadlocked` | cmd/server_lock.go:152-226 | while no unlock has been refused, from every reachable state there is a continuation in which every pending attempt gets its full lease and gives it back |
| `ExecutionLease.EveryScheduleDrains` | cmd/server_lock.go:152-226 | while no unlock has been refused: whatever the schedule, at most four grants and releases per attempt follow any reachable state, and they stop only when no lock is left, every attempt has ended and every one that was asking has had its lease |
| `ServerLock.FileLock.TryLock` | cmd/server_lock.go:164-173 | a lock is granted exactly when it fits what everybody else holds at that moment, and nothing else of this owner changes |
| `ServerLock.Lease.Close` | cmd/server_lock.go:342-357 | the first close gives back the locks the system lets go of, and later ones only repeat its error |
| `ServerLock.AcquireBoth` | cmd/server_lock.go:152-226 | the lease is acquired exactly when both files are granted, and then is held in full; a failed attempt keeps no lock unless the system refuses to unlock |
| `ServerLock.AcquireServerLease` | cmd/server_lock.go:61-116 | the same for the server's own lease, which is also given back when an older server is alive |
| `ServerLock.ExclusiveLeaseIsAlone` | cmd/server_lock.go:144-226 | holding the lease exclusively means that nobody else has a lock on either file |
| `ServerLock.RecoverClaims` | cmd/server.go:474-497 | active claims turn dirty exactly when the exclusive lease was obtained and marking succeeded, and all others stay; nothing is held afterwards; without the lease a server reports an error, and an embedded process does so only if the system did: a busy workspace it leaves alone without one |
| `ChangeStore.Store.SweepLocked` | internal/notebookmcp/changes.go:147-154 | exactly the expired entries that are not in use are dropped |
| `ChangeStore.Store.Put` | internal/notebookmcp/changes.go:66-95 | a full store gives up one oldest entry unless it is in use, and admits the new one if there is room |
| `ChangeStore.Store.Get` | internal/notebookmcp/changes.go:97-106 | a present entry that has not expired is copied |
| `ChangeStore.Store.BeginApply` | internal/notebookmcp/changes.go:108-121 | an entry is taken exactly when it is present, unexpired and free |
| `ChangeStore.Store.FinishApply` | internal/notebookmcp/changes.go:123-133 | a success removes the entry, a failure frees it |
| `ChangeStore.Store.Discard` | internal/notebookmcp/changes.go:135-145 | an entry is discarded exactly when it is present, unexpired and free |
| `ChangeStore.SweptMeaning` | internal/notebookmcp/changes.go:147-154 | a sweep leaves exactly the changes that are being applied or have not reached the time they expire at |
| `ChangeStore.PutMeaning` | internal/notebookmcp/changes.go:66-95 | of 64 swept changes one that was created first is dropped, or none if such a one is being applied, and then the new change is refused; otherwise it is added, free, with half an hour to live |
| `ChangeStore.EntryMeaning` | internal/notebookmcp/changes.go:108-145 | beginning takes a free entry, a success drops the entry, a failure frees it, discarding drops a free one; every other entry stays |
| `ChangeStore.NextKeepsInv` | internal/notebookmcp/changes.go:66-154 | every locked region of any caller keeps: at most 64 entries, every apply in flight has its entry, no two have the same |
| `ChangeStore.AppliedAtMostOnce` | internal/notebookmcp/changes.go:208-227 | over every run each prepared change is successfully applied at most once |
| `ChangeStore.InFlightIsKept` | internal/notebookmcp/changes.go:66-154 | a change in flight is never evicted, expired or discarded, cannot be taken again, and no two calls hold the same one |
| `ChangeStore.FailedApplyCanBeRetried` | internal/notebookmcp/changes.go:123-133 | after a failed apply the change can be taken again exactly until it expires |
| `ChangeStore.AppliesWhatWasPrepared` | internal/notebookmcp/changes.go:208-227 | the plan a call applies is the plan that was prepared under the identifier |
| `ChangeStore.RefusedOnlyWhileApplying` | internal/notebookmcp/changes.go:70-83 | a change is refused for lack of room only while an oldest one is being applied, and then nothing but the sweep has happened |
| `ChangeStore.MayBeRefused` | internal/notebookmcp/changes.go:66-83 | a refusal is possible exactly when the swept store is full and some oldest entry is being applied |
| `ChangeStore.MustBeRefused` | internal/notebookmcp/changes.go:66-83 | a refusal is certain exactly when the swept store is full and every oldest entry is being applied |
| `ChangeStore.RefusedIff` | internal/notebookmcp/changes.go:66-83 | with different creation times the outcome is decided: refused exactly when the swept store is full and its oldest entry is being applied |
| `ChangeStore.RefusedWithFreeEntries` | internal/notebookmcp/changes.go:66-83 | there is a run of 64 prepared changes and one apply after which every further change is refused although 63 entries are free |
| `RunStore.Store.SweepLocked` | internal/notebookmcp/runs.go:141-148 | exactly the runs that finished before the retention time are dropped |
| `RunStore.Store.Start` | internal/notebookmcp/runs.go:47-80 | a full store gives up one oldest finished run, and admits the new one with a live context if there is room |
| `RunStore.Store.MarkRunning` | internal/notebookmcp/runs.go:82-83 | the status becomes running, over cancelling too |
| `RunStore.Store.MarkFinished` | internal/notebookmcp/runs.go:85-98 | a run ends cancelled if and only if its context or the root is cancelled, its result says so or its status is cancelling; otherwise failed if and only if the backend failed, and else succeeded; every other run stays |
| `RunStore.Store.RequestCancel` | internal/notebookmcp/runs.go:122-139 | a queued or running run becomes cancelling and its own context, no other, is cancelled |
| `RunStore.Store.StatusOf` | internal/notebookmcp/runs.go:109-120 | the status of a remembered run after the sweep |
| `RunStore.SweptMeaning` | internal/notebookmcp/runs.go:141-148 | a sweep leaves exactly the runs that have not finished, or not earlier than two hours ago |
| `RunStore.RoomMeaning` | internal/notebookmcp/runs.go:51-64 | fewer than 64 runs all stay, as do 64 none of which has finished; of other 64 one that finished first is dropped |
| `RunStore.StartMeaning` | internal/notebookmcp/runs.go:47-80 | a start is refused for lack of room exactly when 64 unfinished runs are left after the sweep; otherwise the run is added, queued, to what is left |
| `RunStore.CancelMeaning` | internal/notebookmcp/runs.go:122-139 | a queued or running run becomes cancelling and nothing else changes |
| `RunStore.NextKeepsInv` | internal/notebookmcp/runs.go:47-148 | every locked region of any caller or goroutine keeps the store's invariant |
| `RunStore.UnfinishedRunsAreKept` | internal/notebookmcp/runs.go:47-148 | in every interleaving at most 64 runs are stored, and a run whose goroutine has not ended is among them and not terminal |
| `RunStore.TerminalNeverChanges` | internal/notebookmcp/runs.go:82-139 | a terminal record never changes and an evicted run never comes back |
| `RunStore.AcceptedCancelWins` | internal/notebookmcp/runs.go:82-139 | after an accepted cancel the context stays cancelled, and a finished record of that run says cancelled |
| `RunStore.CancelledRunEndsCancelled` | internal/notebookmcp/runs.go:82-139 | when such a run's goroutine ends, it records cancelled whatever its result |
| `RunStore.RecordedOutcome` | internal/notebookmcp/runs.go:82-98 | over all runs of the store, a finished record is the one its own last step made: cancelled if and only if its context or the root was cancelled by then or the backend reported it, otherwise failed if and only if the backend failed, and else succeeded |
| `RunStore.OutcomeIsReported` | internal/notebookmcp/runs.go:82-139 | a run recorded as succeeded or failed had no accepted cancellation, and failed exactly if the backend did |
| `RunStore.CancellingIsOverwritten` | internal/notebookmcp/runs.go:83 | there is a run in which cancelling is overwritten with running |
| `RunStore.OverwrittenIff` | internal/notebookmcp/runs.go:82-139 | the step that turns a cancelling run into a running one is its own goroutine beginning, and no other |
| `RunStore.RunningAgainIff` | internal/notebookmcp/runs.go:82-139 | after an accepted cancel the run is reported as running again if and only if its goroutine begins afterwards |
| `RunStore.CancelAfterBeginStays` | internal/notebookmcp/runs.go:82-139 | a cancel accepted once the goroutine has begun is never overwritten |
| `CellSelection.ClosureIsLeast` | internal/notebookmcp/runs.go:323-346 | the closure is the least closed set that contains the seed, cyclic or not |
| `CellSelection.EdgesAgree` | internal/notebookmcp/runs.go:295-310 | upstream and downstream edges are one graph when identifiers are unique |
| `CellSelection.MarkDownstream` | internal/notebookmcp/runs.go:358-366 | the depth-first marking ends on any graph; all it marks is reachable, and the successors of all it marks are marked |
| `CellSelection.MarkAncestors` | internal/notebookmcp/runs.go:325-337 | the same upwards, from a cell that is marked already |
| `CellSelection.SelectedCells` | internal/notebookmcp/runs.go:295-356 | the least set that holds all cells if all are asked for, the listed cells, and every cell at the end of a chain of cells from the one to run from, each naming the one before it as an upstream, and that is closed under upstreams, in notebook order; an error exactly for an identifier no cell has |
| `CellSelection.ChosenIsUnique` | internal/notebookmcp/runs.go:295-356 | the request and the notebook decide which cells are chosen |
| `CellSelection.DownstreamIsByChains` | internal/notebookmcp/runs.go:358-366 | what the marking reaches downstream are exactly the ends of the chains |
| `CellSelection.CheckRun` | internal/notebookmcp/runs.go:150-191 | a request without a notebook, one that uses none or several of the three ways to select, and a notebook that cannot be loaded are refused as such; a proper request is accepted exactly when its sources are approved and Python is allowed or absent from the chosen cells, approval being asked for first and the first Python cell being named |
| `CellSelection.UpstreamsAreSelected` | internal/notebookmcp/runs.go:323-346 | following upstreams from a requested cell never leaves the selection |
| `CellSelection.ReachedIsChosen` | internal/notebookmcp/runs.go:313-356 | a cell downstream of the cell to run from, or upstream of such a cell by any chain, is chosen |
| `CellSelection.PythonOnChainIsRefused` | internal/notebookmcp/runs.go:150-191 | a request is refused when there is a Python cell at the end of such a chain and Python is not allowed |
| `DeclareHoister.TopLevelSemicolons` | internal/bruincompat/declare_hoister.go:100-150 | the loop over the tokens reports what the three counters report |
| `DeclareHoister.NextSignificantIsTransaction` | internal/bruincompat/declare_hoister.go:152-160 | whether the first token that is not a comment is TRANSACTION |
| `DeclareHoister.ScanFollowsNesting` | internal/bruincompat/declare_hoister.go:119-148 | on the tokens of any well-nested script the counters follow the nesting: open blocks and CASEs are their sum, and the block counter is zero exactly while no block has begun |
| `DeclareHoister.ReportedIsTopLevel` | internal/bruincompat/declare_hoister.go:100-150 | the reported semicolons are exactly those at empty nesting if and only if no semicolon is exposed |
| `DeclareHoister.CleanExposesNothing` | internal/bruincompat/declare_hoister.go:100-150 | no semicolon is exposed in a script without one directly under CASE |
| `DeclareHoister.NestedSemicolonReported` | internal/bruincompat/declare_hoister.go:119-148 | a concrete script with an exposed semicolon |
| `DeclareHoister.HoistingPermutes` | internal/bruincompat/declare_hoister.go:68-98 | hoisting loses and adds nothing |
| `DeclareHoister.HoistingIsStable` | internal/bruincompat/declare_hoister.go:68-98 | declarations come first and both groups keep their order |
| `DeclareHoister.HoistingTwice` | internal/bruincompat/declare_hoister.go:68-98 | hoisting is idempotent |
| `DeclareHoister.HoistingIsUnique` | internal/bruincompat/declare_hoister.go:68-98 | it is the only list with these properties |
| `DeclareHoister.HoistDeclaresList` | internal/bruincompat/declare_hoister.go:68-98 | the loop with its shortcuts returns the hoisted list, or the input when the classifier fails |
| `DeclareHoister.SlicesGiveTheTextBack` | internal/bruincompat/declare_hoister.go:29-39 | the pieces with their semicolons give the text back |
| `DeclareHoister.StatementsMeaning` | internal/bruincompat/declare_hoister.go:44-48 | the statements are the trimmed pieces that are not blank, in order |
| `DeclareHoister.DeclaresMeaning` | internal/bruincompat/declare_hoister.go:81-86 | a statement is a declaration exactly if the classifier says so, which is asked about the trimmed statement |
| `DeclareHoister.HoistDeclares` | internal/bruincompat/declare_hoister.go:16-66 | the text is rewritten exactly when a declaration follows another statement, to the hoisted non-blank statements |
| `Framing.DecimalRoundTrip` | internal/sqllsp/server.go:559-562 | the decimal form of a number is read back as that number |
| `Framing.AtoiOfDecimal` | internal/sqllsp/server.go:540-544 | the length that is written is the length that is parsed, up to the largest 64-bit integer |
| `Framing.ReadMessage` | internal/sqllsp/server.go:525-557 | the loop over the reader returns the payload or the error, and leaves the reader where the message ends |
| `Framing.WriteMessage` | internal/sqllsp/server.go:559-562 | `Content-Length: `, the length in decimal, an empty line and the payload are appended |
| `Framing.ReadOne` | internal/sqllsp/server.go:525-562 | a framed payload is read back unchanged when it is no longer than 64 MiB, and refused otherwise |
| `Framing.RoundTrip` | internal/sqllsp/server.go:525-562 | any payloads framed one after the other are read back in order, whatever bytes they hold |
| `Framing.ReadToTheEnd` | internal/sqllsp/server.go:525-562 | reading on until the stream ends gives exactly the payloads, then the end of the stream |
| `Framing.OtherHeadersAreIgnored` | internal/sqllsp/server.go:525-557 | other headers before and after the length change nothing |
| `Framing.LastLengthWins` | internal/sqllsp/server.go:539-545 | a later length replaces an earlier one |
| `Framing.NoLengthIsRefused` | internal/sqllsp/server.go:547-549 | without a length the message is refused |
| `Framing.NoNumberIsRefused` | internal/sqllsp/server.go:540-543 | so is one with a length that is no number |
| `Framing.CutPayloadIsRefused` | internal/sqllsp/server.go:553-556 | a stream that ends inside the payload is refused, and nothing of it is left |
| `Framing.AnyCaseIsRead` | internal/sqllsp/server.go:539 | the name of the length header is read in any case |
| `Framing.AtoiOfSigned` | internal/sqllsp/server.go:540 | a sign is read, and the least 64-bit integer is the smallest number that is |
| `Framing.BlanksAreTrimmed` | internal/sqllsp/server.go:540 | white space around the length does not matter |

## Left out

- SemanticTokens.EncodeSemanticTokens: texts of 4 GiB and more, whose offsets do not fit the 32-bit numbers of the protocol; messages are at most 64 MiB.
- SemanticTokens.SortTokens: the library's sort is a selection sort here, with the same promise and none about equal tokens.
- SelectScopes.CurrentTopLevelSelectStart: lower-casing that changes the byte length of a text, which would shift its offsets.
- TopoOrder.TopoOrderInferenceAssets: trimming and lower-casing of names are parameters.
- SchemaSnapshot.InferSchemaSnapshot: the default list of assets of the graph, and the provenance and confidence recorded with a layer.
- SchemaInference.SeeFresh: relations with white space around their names, for which the schema of the first round and that of later updates use different keys (`SeenAtOnceIff`).
- SchemaInference.SecondRoundIsQuiet: the same relations, whose outputs reach their readers only when the schema is built anew.
- SchemaSnapshot.InferenceSettles: the same relations.
- AnalysisCache.AnalyzeQuery: that SHA-256 does not collide is assumed; the method is one caller alone, and callers that interleave between lookup and store are the steps of `ConcurrentAnswersAreTrue`.
- ScopeAnalysis.Analyze: references to columns (`columnUse`) and their resolution; the output columns of an analyzed body are a parameter.
- ScopeAnalysis.VisibleCTEsAt: which other definitions the body of a visible one sees when it is analyzed for its columns.
- QueryAnalysis.RecordedRangesAreTrueOfPrepared: documents whose prepared text still holds a call, where nested bodies are prepared again; for them `RecordedRangesAreTrueOfTheirScope` speaks of the text of each scope.
- WithClauses.ReadRightlyIff: clauses written with a last body that has no closing parenthesis, which is taken to the end of the text.
- ScopeAnalysis.RecordedOften: nested queries with others beside them, where the counts of the branches add up.
- QueryAnalysis.CandidatesMeaning: the test whether a comma continues a FROM list (`commaStartsFromRelation`) is a parameter, as are the two regular expressions.
- QueryText.ReplaceCalls: which name stands for a dbt or Jinja call is a parameter.
- Framing.ReadMessage: white space outside ASCII around a header is trimmed by a parameter whose behaviour on ASCII text is fixed.
- ServerLock.AcquireBoth: the paths of the lock files, the creation of their directories and the retry delay; what the other processes do meanwhile is a parameter here and all interleavings in `ExecutionLease`.
- ExecutionLease.NeverDeadlocked: fairness towards attempts that keep arriving; with no new ones every schedule drains (`EveryScheduleDrains`), but later arrivals may starve a waiting attempt.
- RunStore.Store.Start: request contents, run results and error texts.
- CellSelection.CheckRun: how the approval message is computed, and the failure to load approvals, which counts as a message.
- DeclareHoister.HoistDeclares: the tokenizer and the parser, and whether a token list comes from a well-nested script.
- SourceMaps.RenderTemplateSQL: the list of template invocations recorded beside the segments, which repeats the matches.
- Golyglot parsing, type inference and the rewrites that rest on them.
- Command line, HTTP, service wiring, schedulers, hover and completion texts, diagnostics wording: no algorithm, or no property worth proving.

# Verified model of the log viewer's query, ingestion and paging logic

nomadl follows the logs of running Nomad tasks, stores their lines in a table,
and lets a browser search them with a query language whose facet checkboxes
edit the query text. This project models four parts of it in Dafny and proves
what they are for.

**The query language and its rewriter.** `Lexer` and `Parser` are the
tokenizer loops and the mutable recursive-descent parser, each proved against
the functions in `Lexer` and `Syntax`. `LexerFacts`, `Locality`, `Spans` and
`Clauses` prove that reading is local: a clause cut out of a query by its span
reads as the same tree wherever it is put. `Language` gives the language's texts
and their truth on a row, and proves that every text of it parses to a query
with that truth; `Reading` does so for ranges and comparisons alone, and
`Columns` says which field of a row each name stands for. `Quoting`, `FieldClauses`,
`Rewrite`, `RewriteText`, `SelectionText` and `FilterText` carry this to the
rewriter, which works on text: they say for every query, field, selection and
value exactly when the rewritten text reads as the clauses it was built from.
`Limits` and `Misreadings` hold inputs for which it does not. `Semantics` gives
clauses a three-valued meaning on rows, `Like` and `Sql` prove that the
compiled conditions have that meaning under SQL's rules, and `Where` that the
statements around them bind every placeholder and select the right rows.
`SelectionMeaning`, `Reselection`, `FilterMeaning` and `Narrowing` say what a
rewrite does to a query's meaning, and `Removal` which clauses it takes away and
what is lost with them. `Facets`, `FacetRows`, `Readings`, `Probes`, `FacetCounts`,
`Checkboxes` and `Sidebar` close the loop from a click on a checkbox to the rows
that are shown and counted.

**Ingestion.** `Frames` cuts arbitrary byte frames into lines, `Following` is
one connection, `LogFiles` says which lines of a rotated log one connection
hands on, `Reconnect` follows a task over many, `Table` is the store's table,
and `Streams` proves what it holds after any connections, interleaved with
anything else; `Overlap` derives from what a follower asks for that no gap is
left. `Targets` and `Ingest` choose which streams to follow, `Writer`
is the single writer with its shutdown, and `Ingestion` puts the parts together.

**Paging and live updates.** `Paging` follows cursors and `Live` polls and
reconnects while rows are inserted and pruned (`Table.Evolves`).

**Helpers.** `Wrappers`, `Text`, `Names`, `Sequences`, `Numerals` and `Levels`.

Text is a sequence of Unicode characters, and spans count characters. Log data
is a sequence of bytes. What happens around the modelled code (frames that
arrive, listings that fail, states of the table between requests, events lost
on the way) is an arbitrary input of the theorems.

Limits of the code that the proofs bring out, each with its condition:

- A range whose upper bound starts with a minus does not parse
  (`Reading.RangeReads`).
- A comparison or range of `status`, which is documented as an alias of `level`,
  reads an attribute of the line, and so does a range without bounds of any field;
  yet selecting levels, or services, takes such a clause away with the others on
  the field (`Removal.StatusComparisonIsDropped`, `Removal.OpenRangeIsDropped`). Without such a leaf nothing is lost but which
  values are let through (`Removal.LeafDecided`,
  `Removal.SelectionForgetsOnlyTheField`).
- A query whose last clause ends in an unpaired backslash swallows whatever is
  appended; `RewriteText.RewriteTheorem` shows that this and the next item are
  the only failures, `Limits.UnpairedBackslashSwallows` is an input.
- The blank test trims more characters than the tokenizer skips, so a clause
  such as a vertical tab is a term until it stands alone
  (`Limits.TabVanishes`).
- A filter's field may be a keyword, start with `-` or hold a backslash; then
  the filter does not mean that field (`FilterText.AddFilterTheorem`).
- A selection with a quoted `*` reads back as everything
  (`Facets.SelectionRoundTrip`). Services compare without regard to case in SQL
  but exactly in the facets, and a raw level is shown as its bucket:
  `Readings.TermExact` and `Readings.ClauseExact` say which clauses are read as
  what they mean, and `Misreadings` shows what happens to the others.
  `-service:*` keeps rows without a service
  (`Misreadings.NegatedExistenceKeepsEmpty`).
- A cursor holds 64 bits of nanoseconds, which wrap outside the years 1678 to 2262,
  and a negative number is refused. A page that ends with a row from before 1970 or
  after 2262 cannot be followed, or hides or repeats rows (`Numerals.CursorReadsBack`, `Paging.NextIsOlder`,
  `Paging.FarRowHidesOthers`). Lines may carry such times.
- With a backfill below the reconnect overlap a reconnect can start before the
  first connection did (`Reconnect.BackfillDecides`), and a line kept from
  before the first one ever kept is stored out of order, so that the comment
  on `Around` does not hold of it (`Streams.ExactlyOnce`). Even with enough
  backfill this happens when the first connection starts inside a file's trailing
  newlines, so that it leaves out the next file's first line, and a reconnect
  starts with that file (`Reconnect.EdgeStartKeepsEarlier`,
  `Reconnect.EdgeRunIsOutOfOrder`); `Reconnect.EnoughBackfillKeepsOrder` gives the
  exact condition.
- A follower that is cancelled in the middle of a frame may drop a line of it and
  still send a later one (`Reconnect.FollowTarget`, `Ingestion.StoredInOrder`).

## Model

| member | source | states |
|---|---|---|
| Lexer.ReadQuotedToken | internal/store/query.go:154-172 | the loop reads exactly the quoted lexeme that the position-free specification gives for the rest of the input, with its end, or finds it unterminated |
| Lexer.ReadWordToken | internal/store/query.go:174-192 | the loop reads exactly the specified word: up to a delimiter, a backslash taking the next character with it |
| Lexer.Tokenize | internal/store/query.go:101-152 | for every input the loop yields the specified tokens with their positions, or the error at its position |
| LexerFacts.LexShift | internal/store/query.go:101-152 | tokens do not depend on where a text stands, but for their positions |
| LexerFacts.LexAppend | internal/store/query.go:101-192 | two texts after each other read as the tokens of the first and then those of the second, given that the first is not left open and does not end in a word that goes on |
| LexerFacts.LexRunsOn | internal/store/query.go:174-192 | and if it ends in a word that goes on, and the whole can be read, they do not |
| LexerFacts.LexSlice | internal/store/query.go:101-192 | a stretch of a query cut on token boundaries reads as exactly the tokens it was cut from |
| LexerFacts.LexInOrder | internal/store/query.go:101-152 | tokens lie in the input in order, none overlapping or empty but the last |
| Parser.QueryParser.ParseOr | internal/store/query.go:199-213 | the method advances `pos` and returns the node exactly as the grammar function does, errors included |
| Parser.QueryParser.ParseAnd | internal/store/query.go:215-239 | the same for a conjunction: adjacent clauses and AND alike |
| Parser.QueryParser.ParseUnary | internal/store/query.go:241-251 | the same for a negation |
| Parser.QueryParser.ParsePrimary | internal/store/query.go:253-279 | the same for groups, terms and fields |
| Parser.QueryParser.ParseFieldValue | internal/store/query.go:281-310 | the same for a field's value: group, quoted, range, comparison or word |
| Parser.QueryParser.ParseRange | internal/store/query.go:312-340 | the same for a range that is spread over tokens |
| Parser.ParseLogQuery | internal/store/query.go:81-99 | the whole query parses to what the grammar gives, nothing for a blank one, and a leftover token is an error |
| Language.LanguageTheorem | internal/store/query.go:81-396 | every text of the language, however spelled and spaced, with NOT binding closest, then AND or nothing, then OR, parses, and its three-valued truth on every row is that of what is written: texts, quoted texts, comparisons, ranges and groups of a field |
| Language.LanguageKeeps | internal/store/query.go:81-473 | so a query keeps exactly the rows on which what is written is true |
| Language.TextReads | internal/store/query.go:101-192 | each such text reads as its tokens, whatever white space is between them |
| Language.SpellingReads | internal/store/query.go:154-192 | a text reads as one token with exactly that text wherever backslashes stand in it, given that each character has one that needs it |
| Language.CombineMeans | internal/store/query.go:374-387 | two clauses put together, flattened or not, are true as both, or either, of them are |
| Reading.RangeReads | internal/store/query.go:312-340 | `f:[l TO u]` parses to the one range from l to u of f, if and only if u has no minus in front; else it is an unclosed range |
| Reading.CompareReads | internal/store/query.go:389-396 | `f:>=v`, `f:<=v`, `f:>v` and `f:<v` parse to that comparison of f with v |
| Reading.RangeKeeps | internal/store/query.go:646-678 | a range keeps exactly the rows with a number there that is at least its first bound and at most its second, a star being no bound; without bounds, those with the attribute |
| Reading.CompareKeeps | internal/store/query.go:635-644 | a comparison keeps exactly the rows with a number there for which it holds |
| Locality.OrLocal | internal/store/query.go:199-340 | what a disjunction parses to depends only on the tokens it consumes and the kind of the next |
| Locality.UnaryLocal | internal/store/query.go:241-340 | the same for a single clause |
| Spans.SpanTheorem | internal/store/query.go:199-387 | in every parse spans are nested, ordered and on token boundaries; And and Or have two or more children, none an ungrouped node of the same kind, no And has an ungrouped Or, and the root's span is inside the query |
| Clauses.UnarySlice | internal/store/rewrite.go:281-297 | a conjunct's text, cut out by its span, reads as the same clause, shifted |
| Clauses.RootSlice | internal/store/rewrite.go:281-297 | an ungrouped root, cut out by its span, reads as the same query, shifted |
| Clauses.WrapText | internal/store/rewrite.go:285-290 | a query in parentheses reads as one clause, the same tree grouped |
| Clauses.JoinReads | internal/store/rewrite.go:281-297 | clauses that are not left open, joined by blanks, read as a conjunction of exactly those clauses, each where its text stands |
| Quoting.QuoteReadsBack | internal/store/rewrite.go:151-164 | every value, whatever its characters, is read back from its quoted or bare form as one token with exactly that value |
| Quoting.BareIsTerm | internal/store/rewrite.go:151-164 | a value left bare is no range, comparison or keyword, and has no wildcard |
| FieldClauses.FieldClauseReads | internal/store/rewrite.go:266-276 | a generated field clause reads as one clause: the exact terms for its values and nothing else |
| FieldClauses.NegatedReads | internal/store/rewrite.go:119-126 | with a minus in front it reads as the negation of that clause |
| Levels.BucketsPartition | internal/store/query.go:557-604 | every level is in exactly one bucket, and the catch-all one has the levels that no other lists |
| Rewrite.Walk | internal/store/rewrite.go:189-216 | the walk with its two flags finds whether some leaf tests the field and whether some leaf does not |
| Rewrite.FieldUseOf | internal/store/rewrite.go:189-216 | classifies a clause as on the field alone, mixed, or not on it |
| Removal.LeavesOutExactly | internal/store/rewrite.go:97-130 | setting a selection leaves out a clause if and only if it has a leaf and the name of every leaf is one of the field's, and keeps the others in order |
| Removal.LeafDecided | internal/store/query.go:646-687 | a leaf on the field is as true of any row as of any other with the same service, or level, if and only if it is no range without bounds and no comparison or range of `status` |
| Removal.LeftOutDecided | internal/store/rewrite.go:189-216 | a clause that is left out, with no such leaf, is as true of any row as of any other with the same value |
| Removal.SelectionForgetsOnlyTheField | internal/store/rewrite.go:97-130 | without the field's clauses every row is still kept that was, and the query keeps both or neither of two rows with one value that are kept then |
| Removal.StatusComparisonIsDropped | internal/store/rewrite.go:189-216 | every comparison of the attribute `status` is dropped when levels are selected, and rows without it are kept then |
| Removal.OpenRangeIsDropped | internal/store/rewrite.go:189-216 | a range of services without bounds is dropped when services are selected, and rows without such an attribute are kept then |
| Rewrite.JoinClauses | internal/store/rewrite.go:281-297 | joins the source text of the clauses, parenthesizing a bare disjunction when it is not alone |
| Rewrite.SetSelection | internal/store/rewrite.go:97-130 | the loop yields the kept clauses' text joined with the selection's clause, or the error |
| Rewrite.AddFilter | internal/store/rewrite.go:134-147 | yields all clauses' text joined with the filter clause, or refuses the field |
| Rewrite.FacetValuesOf | internal/store/rewrite.go:219-237 | finds the values of a clause of literal terms and whether it is negated |
| Rewrite.NormalizeFacetValues | internal/store/rewrite.go:241-264 | levels become buckets, each once, in first-seen order |
| Rewrite.DeleteFunc | internal/store/rewrite.go:76-88 | keeps exactly the values that are, or are not, in another list, in order |
| Rewrite.SelectionOf | internal/store/rewrite.go:40-92 | the loop over conjuncts yields the selection that the fold over the clauses gives |
| RewriteText.RewriteReproduces | internal/store/rewrite.go:281-297 | without the two limits, the rewritten text parses to exactly the kept clauses followed by the added one |
| RewriteText.SwallowBreaks | internal/store/query.go:180-184 | a last clause left open by a backslash makes the rewritten text read otherwise, for every such query |
| RewriteText.VanishBreaks | internal/store/query.go:82 | kept clauses whose texts are all blank to the trim test, with nothing after them, are not read at all |
| RewriteText.RewriteTheorem | internal/store/rewrite.go:281-297 | the rewritten text reads as the intended clauses if and only if neither limit applies |
| SelectionText.SetSelectionTheorem | internal/store/rewrite.go:97-130 | for every query and selection: the output is the clauses not on the field alone, then the selection's clause, and it reads so if and only if neither limit applies |
| SelectionText.OrdinaryQueries | internal/store/rewrite.go:97-130 | a query that does not end in an open backslash and has no odd white space is outside both limits |
| Limits.UnpairedBackslashSwallows | internal/store/query.go:180-184 | a concrete query whose rewrite loses the new clause |
| Limits.TabVanishes | internal/store/query.go:82 | a concrete query whose rewrite leaves a term that no longer parses |
| FilterText.AddFilterTheorem | internal/store/rewrite.go:134-165 | the output parses to the original clauses followed by one exact term (or its negation) if and only if the field is no keyword, has no leading minus and no backslash, and the query is not left open |
| Like.BuildLikePattern | internal/store/query.go:705-733 | the loop builds the specified pattern |
| Like.LikePatternCorrect | internal/store/query.go:705-733 | LIKE on the pattern holds if and only if the text matches the glob, equals the quoted value, or contains such a match, up to ASCII case |
| Sql.TextSqlMeans | internal/store/query.go:433-455 | a text column's condition means what the term means |
| Sql.LevelSqlMeans | internal/store/query.go:513-555 | a level term's condition means its bucket, the catch-all, or the raw level |
| Sql.AttributeSqlMeans | internal/store/query.go:607-633 | an attribute's condition means the term, unknown where the attribute is missing or null |
| Sql.NumberSqlMeans | internal/store/query.go:635-687 | a comparison's condition means the comparison |
| Sql.RangeSqlMeans | internal/store/query.go:646-678 | a range's condition means both bounds, or existence when open on both sides |
| Sql.CompilePreservesMeaning | internal/store/query.go:398-473 | for every tree that compiles and every row, the condition's three-valued truth is the tree's, and there is one argument for each placeholder |
| Columns.NamesMean | internal/store/query.go:482-501 | for every value and row: service and job test the job, task the task, stream the stream, the three names of the allocation its id, exactly; message, content and raw look inside theirs |
| Columns.TextMeans | internal/store/query.go:433-455 | on a field compared as a whole a bare star means that it is not empty, a quoted value equality but for case, and any other that the pattern fits |
| Columns.AnywhereMeans | internal/store/query.go:433-473 | a value without a field is looked for in the message, and one of `*` in each of seven fields |
| Columns.LevelsMean | internal/store/query.go:513-604 | a bare name of a bucket means its levels in any case, a catch-all name all others, and anything else the level as it is |
| Columns.OtherNamesMean | internal/store/query.go:433-455 | every name that is not reserved is an attribute's |
| Columns.NamesInAnyCase | internal/store/query.go:503-509 | the case of a name and white space around it do not matter, unless it is marked as an attribute's |
| Columns.KeyReads | internal/store/query.go:735-761 | an attribute whose key has no dot is the one under that key |
| Columns.DottedKeyReads | internal/store/query.go:627-633 | one with a dot is the one under the whole key, or if that has no value, the nested one |
| Columns.MarksDoNotMatter | internal/store/query.go:735-738 | an attribute is the same with or without the marks before its name |
| Columns.NoJsonNoAttribute | internal/store/query.go:619-633 | a line that is not JSON has no attribute |
| Columns.NumbersRead | internal/store/query.go:680-687 | what a number is compared with, for each name |
| Where.SearchWhereMeans | internal/store/store.go:296-320 | the common condition holds of a row exactly when it is in the window and the query keeps it |
| Where.SearchSelects | internal/store/store.go:267-294 | a page's statement binds every placeholder and selects exactly the matching rows beyond the cursor |
| Where.SearchAfterSelects | internal/store/store.go:458-481 | the tail's statement, with the id put before the other arguments, selects exactly the later matching rows |
| Where.HistogramSelects | internal/store/store.go:410-424 | the counting statement, with two arguments put first, selects exactly the matching rows |
| Semantics.ConjunctsMean | internal/store/rewrite.go:168-177 | a query means the conjunction of its conjuncts |
| SelectionMeaning.SetSelectionPreservesMeaning | internal/store/rewrite.go:97-130 | on every row the rewritten query's truth is the conjunction of the original conjuncts not on the field alone and the requested selection |
| Reselection.SecondHolds | internal/store/rewrite.go:97-130 | a second selection is outside both limits on the rewritten text if it is on the original |
| Reselection.LaterSelectionDecides | internal/store/rewrite.go:97-130 | after two selections on one field the query means what the second alone gives, given only that each is outside both limits on the original text |
| FilterMeaning.AddFilterPreservesMeaning | internal/store/rewrite.go:134-147 | on every row the narrowed query's truth is the conjunction of the original conjuncts and the one term |
| Narrowing.FilterKeeps | internal/store/rewrite.go:134-147 | a filter keeps exactly the rows that the query keeps and its term is true of |
| Narrowing.RowFilterKeeps | internal/store/rewrite.go:134-147 | filtering on a service, task, stream or allocation keeps, of the rows that the query keeps, exactly those with that one, or when excluding exactly the others |
| Narrowing.AttributeFilterKeeps | internal/store/rewrite.go:134-147 | filtering on an attribute keeps those that have it with that value, or when excluding with another |
| Facets.NextSelectionChecks | web/ui/sidebar.js:12-21 | the selection for the checked values checks exactly those of the listed values |
| Facets.ErasedCollect | internal/store/rewrite.go:51-92 | a selection is read alike from trees that differ in places and parentheses alone |
| Facets.SelectionRoundTrip | internal/store/rewrite.go:40-130 | what is read back after setting a selection: custom if a kept clause mixes fields, else the selection itself, and if and only if it is faithful (distinct bucket names, no star, no redundant form) |
| Checkboxes.ClickFlipsOneBox | web/ui/sidebar.js:12-21 | a click on one box, sent through the rewrite and read back, flips that box and no other |
| Sidebar.SelectionTreeMeans | internal/store/rewrite.go:112-130 | the clause a selection writes is true of a row exactly when the selection checks the row's value; for the clause that keeps nothing, of a row with the field |
| Sidebar.ClickShowsRows | web/ui/sidebar.js:12-21 | after a click a listed row is kept exactly when the query's other clauses are true of it and its own box, turned or not, is checked; a row without the field too, unless the click leaves no box checked |
| FacetRows.ClauseMeans | internal/store/rewrite.go:219-237 | a clause of literal terms on the field is never unknown, and true exactly when one of its terms matches the row, or none for a negation |
| FacetRows.SelectionAccepts | internal/store/rewrite.go:64-92 | a selection that is not custom checks a row's value exactly when every clause on the field alone, read as facet values, lets it through |
| Readings.TermExact | internal/store/query.go:513-555 | a term means what it is read as, on every row with the field, if and only if it is a bare star, a service without letters, a bare bucket or catch-all name, or a spelling of the one level of its bucket |
| Readings.ClauseExact | internal/store/rewrite.go:219-264 | a clause means what it is read as, on every row with the field, if and only if it holds a bare star, or lists each of its services in every spelling and no quoted star, or matches every raw level of every bucket it is read as; without a bare star it then does so on rows without the field too |
| Readings.OneClauseSelection | internal/store/rewrite.go:40-92 | the selection of a query with one clause on the field says of every row whether that clause is true if and only if the clause is exact in that sense |
| Readings.SelectionSound | internal/store/rewrite.go:40-92 | a row satisfies all clauses on the field alone if and only if its value's box is checked, given that each of those clauses is exact or holds no other spelling of the row's value, and no bare star if the row lacks the field |
| Probes.QueryExact | internal/store/rewrite.go:40-92 | for any number of clauses: the boxes agree with the clauses on every row with the field if and only if they agree on finitely many values, namely every spelling of the listed services and one other, or the bucketed levels, the listed ones and one other |
| Misreadings.OtherCaseMisread | internal/store/rewrite.go:40-92 | any service spelled in another case, quoted or bare, matches rows whose box is not checked |
| Misreadings.QuotedStarMisread | internal/store/rewrite.go:66-70 | a quoted star matches no service but one named so, and checks all boxes |
| Misreadings.RawLevelMisread | internal/store/rewrite.go:241-264 | any level that is no bare bucket name checks the box of its bucket and does not match the bucket's other levels |
| Misreadings.ErrMisread | internal/store/rewrite.go:241-264 | a concrete such level and row |
| Misreadings.NegatedExistenceKeepsEmpty | internal/store/rewrite.go:64-74 | a negated existence test keeps rows without the field though nothing is checked |
| FacetCounts.CountBuckets | internal/store/facets.go:19-43 | the loop over raw levels gives each bucket the sum of its levels' counts, in bucket order |
| FacetCounts.LevelGroups | internal/store/facets.go:19-43 | those sums are what grouping the rows by bucket would give |
| FacetCounts.ListFacet | internal/server/api.go:175-209 | the loops and the map of counts list the facet: each value with its count, its box and whether it runs |
| FacetCounts.ListedExact | internal/server/api.go:175-209 | a facet lists exactly the counted values, and for services those that run or are selected, each once and services in order; the checked counts add up to the counts of the checked groups |
| FacetCounts.BoxesAreRight | internal/server/api.go:175-209 | each value is listed once, with the count of its own group or none, whether the selection lets it through, and whether it runs |
| FacetCounts.BinsCountRows | internal/store/store.go:440-449 | each bin counts the rows placed in it, the first and the last also those placed outside, and each level of it its own |
| FacetCounts.CountedMeans | internal/store/facets.go:45-78 | counted are the rows in the window on which every clause is true that has a leaf on something else |
| FacetCounts.AccumulateHistogram | internal/store/store.go:430-449 | each bin, and each level in it, holds the sum of its own groups, and the total is the sum over all bins and over all groups |
| FacetCounts.TotalIsRowCount | internal/store/store.go:430-449 | the histogram's total is the number of rows that match |
| FacetCounts.CountedAndChecked | internal/store/facets.go:45-78 | a row matches exactly when the query without the field's clauses matches it and its box is checked |
| FacetCounts.FacetCountsExplainTotal | internal/store/facets.go:19-78 | on one snapshot the checked values' counts add up to the number of matching rows, given only that the clauses read true on the rows which are counted |
| FacetCounts.CheckedCountsAreTheTotal | internal/store/store.go:430-449 | so they equal the histogram's total on that snapshot |
| Numerals.IntReadsBack | internal/store/store.go:59-78 | a formatted integer reads back, or is out of range |
| Numerals.CursorReadsBack | internal/store/store.go:59-78 | a cursor reads back from its text if and only if its time is from 1970 on and fits 64 bits of nanoseconds; otherwise the time wraps, and the cursor is refused if that is negative and is else read as another time |
| Numerals.FarCursorComesBackEarly | internal/store/store.go:59-78 | a cursor of the year 2603 comes back as one of 2019 |
| Numerals.LineRefIsInjective | internal/nomad/client.go:226-231 | a line reference determines the file and the offset, whatever the file's name |
| Numerals.DecimalReads | internal/server/api.go:249 | digits are read as a decimal number, each worth ten times the next |
| Frames.FrameLines.Flush | internal/nomad/client.go:189-197 | hands on the unfinished line if there is one, and forgets it |
| Frames.FrameLines.Add | internal/nomad/client.go:161-187 | the in-place loop hands on the lines, and leaves the state, that cutting the data gives |
| Frames.CutAppend | internal/nomad/client.go:161-187 | cutting bytes in two pieces hands on the same lines as cutting them at once |
| Frames.ChunkingDoesNotMatter | internal/nomad/client.go:161-197 | any two splits of the same contiguous stretches into frames give the same lines, files and offsets |
| Following.Follow | internal/nomad/client.go:95-148 | over any frames, cancellation and end, the loop with its two flags hands on the frames' lines but for the first when reading starts inside a file, and never flushes the tail |
| Following.FollowingExact | internal/nomad/client.go:95-148 | the frames accepted are those before the first other event, and following ends with the stream's end or failure, or as cancelled if the context was |
| LogFiles.LinesExact | internal/nomad/client.go:161-197 | the lines cut from a closed file are exactly its whole non-empty lines, each once, in order, at their offsets |
| LogFiles.CutExact | internal/nomad/client.go:161-187 | the lines cut from a stretch are exactly those that start and have their line end in it |
| LogFiles.ReadOn | internal/nomad/client.go:161-197 | reading on from any position, across rotations, completes exactly the lines the later position has over the earlier one |
| LogFiles.SessionTheorem | internal/nomad/client.go:102-140 | one connection hands on a contiguous run of the stream's lines; it leaves out the line it starts inside of and at most one more, none when it starts with a file, and the first line kept is determined |
| LogFiles.NoFragments | internal/nomad/client.go:102-140 | every line handed on starts at a file's beginning or after a newline and ends at a newline or a rotated file's end |
| LogFiles.StretchesRead | internal/nomad/client.go:161-197 | every stretch between two positions can be read, one frame for each file |
| LogFiles.LaterStartKeepsLater | internal/nomad/client.go:121-127 | of two connections the later one keeps no earlier line if and only if the other does not start inside a file, or it does itself, or a line ends between the two starts |
| LogFiles.LinesApart | internal/nomad/client.go:226-231 | no two lines of a stream have the same file and offset |
| Table.LogTable.InsertLogs | internal/store/store.go:220-264 | a batch is inserted entry by entry, ignoring clashes with the unique index, under fresh ids; a failure leaves the table as it was |
| Table.InsertedExact | internal/store/store.go:220-264 | an entry is ignored if and only if its allocation has a row with its reference, which is not empty, and otherwise comes last under the next id, unchanged |
| Table.LogTable.Prune | internal/store/store.go:539-558 | keeps exactly the newest rows by id, as many as asked, and reports the number deleted |
| Table.PruneKeepsNewest | internal/store/store.go:539-558 | a row stays if and only if fewer rows than are to be kept have greater ids |
| Table.LogTable.Clear | internal/store/store.go:561-567 | removes all rows without giving ids out again |
| Table.LogTable.MaxID | internal/store/store.go:528-534 | the highest id in the table, or 0 |
| Table.BatchingDoesNotMatter | internal/store/store.go:220-264 | inserting two batches is inserting their concatenation |
| Table.OperationsEvolve | internal/store/store.go:220-567 | inserting, pruning and clearing keep ids growing and references unique, and never bring back or change a row with an id already given out |
| Streams.InsertMany | internal/store/store.go:170 | whatever else is inserted, a stream's references are stored in the order first sent, each once |
| Streams.RunsTheorem | internal/server/ingest.go:262-291 | runs of lines without a gap are stored as one unbroken run in order, or out of order if and only if one starts before the first |
| Streams.RunsCutShort | internal/server/ingest.go:271-276 | after runs of which the last has lines missing near its end, what is stored is one unbroken run and then later lines, in order and each once |
| Streams.ExactlyOnce | internal/server/ingest.go:262-291 | after any connections without a gap, among any other lines, the stream's rows are exactly its lines from the first kept one on, each once and in order, unless a reconnect keeps an earlier line |
| Reconnect.FollowTarget | internal/server/ingest.go:262-291 | the loop asks for the backfill first and at least that and the overlap after, and sends every line each connection hands on, until cancelled; from then on each line left of that frame may be sent or dropped |
| Reconnect.AskedEnough | internal/server/ingest.go:267-282 | for every backfill, the first request is for it, and each later one for at least it and at least 64 KiB |
| Reconnect.GoesOnMeans | internal/server/ingest.go:269-288 | another connection follows if and only if the stream ends or fails before the context is cancelled and the pause is not cut short |
| Overlap.StartsEarlyEnough | internal/server/ingest.go:282 | for every backfill, a reconnect with at most 64 KiB between the start of a line and the log's end starts no later than that line, leaves out at most that one, and keeps it if and only if it does not start inside a file or a line before has ended by then |
| Overlap.InTimeLeavesNoGap | internal/server/ingest.go:282 | for every backfill, reconnects with at most 64 KiB from the last stored line to the log's end leave no gap |
| Overlap.InTimeStoresExactly | internal/server/ingest.go:262-291 | and the stream is then stored exactly |
| Reconnect.BackfillDecides | internal/server/ingest.go:282 | as the log grows no request of a later connection starts before the first one did if and only if the backfill is at least 64 KiB |
| Reconnect.EnoughBackfillKeepsOrder | internal/server/ingest.go:282 | with such a backfill no reconnect keeps a line from before the first one kept, if and only if each that hands on lines starts in step with the first: where the first is inside a file, inside one too or after a line's end |
| Reconnect.EdgeStartKeepsEarlier | internal/nomad/client.go:121-127 | for every backfill of at least the overlap and every file longer than it that follows one ending in two newlines, two starts the code can ask for, the later of which keeps the earlier line |
| Reconnect.EdgeRunIsOutOfOrder | internal/server/ingest.go:282 | any two connections with these starts that hand on lines meet every condition but being in step, and put the rows out of order |
| Reconnect.EdgeRunExists | internal/nomad/client.go:95-148 | and there are two such connections if the second file has two complete lines |
| Reconnect.AroundIsStretch | internal/store/store.go:487-525 | the rows around one are an unbroken stretch of its stream with it in its place |
| Reconnect.AroundIsOneStream | internal/store/store.go:487-525 | all rows around one have its allocation, task and stream |
| Reconnect.AroundIsLogOrder | internal/store/store.go:483-525 | if the stream is stored in order they are consecutive lines of the log |
| Ingestion.StoredInOrder | internal/server/ingest.go:262-291 | a stream followed with enough backfill, without gaps and in step, is stored in the log's order, each line once and none missing, but for lines of the very last frame if its follower is cancelled there |
| Ingestion.InTimeIsWellFollowed | internal/server/ingest.go:262-291 | a stream is followed well enough for that if its reconnects are in time and in step |
| Ingestion.AroundShowsTheLog | internal/store/store.go:483-525 | end to end, when the writer has stopped the rows around any row of such a stream are in the log's order, and consecutive lines of it up to the last frame before a cancellation |
| Paging.SearchedIsPage | internal/store/store.go:267-294 | a search returns the newest matching rows beyond its cursor, as many as fit, newest first |
| Paging.CursorGoesOn | internal/server/api.go:133-135 | a full page's cursor is accepted if and only if the wrapped nanoseconds of its last row are not negative, and stands at that row if and only if they did not wrap |
| Paging.NextIsOlder | internal/store/store.go:278-282 | the next request asks for exactly the rows older than the page's last if and only if the time of that row is from 1970 on and fits 64 bits |
| Paging.WrappedCursorSkips | internal/store/store.go:278-282 | otherwise rows after the page that are newer than the wrapped time are on neither page |
| Paging.FarRowHidesOthers | internal/server/api.go:133-135 | such as a row of 2023 after a page that ends in 2603 |
| Paging.NoRowTwice | internal/server/api.go:119-135 | over any inserts and prunes between pages, while each followed page ends with a row whose time fits, later pages hold only older rows and no id comes twice |
| Paging.EveryRowOnce | internal/server/api.go:119-135 | under the same condition on the followed pages, following the cursors to the end finds every matching row that is there all the time, on exactly one page |
| Live.ServeLive | internal/server/api.go:270-296 | over any states of the table the polling loop writes each non-empty batch as one event under its last row's id, and ends when a search or a write fails |
| Live.ResumesAfterLastSeen | internal/server/api.go:245-252 | for every id and whatever id the request names, a connection resumes after the last event's id, and after the named one if there is none; a negative one is refused |
| Live.LiveHasNoWindow | internal/server/api.go:241-243 | a live query asks for all rows the query keeps, without a time window, a thousand at a time |
| Live.ServingIsSound | internal/server/api.go:245-297 | to a client that gets all of it, the loop has delivered, in order and each once, every matching row after the start up to the last id that is still in the table |
| Live.PollFinds | internal/store/store.go:458-481 | a poll finds the oldest matching rows after the last id, as many as fit |
| Live.LiveTheorem | internal/server/api.go:245-297 | over any polls, lost events, reconnects with the same request and the last event's id if one was seen, inserts and prunes, delivered ids grow, and up to the last id seen every matching row still in the table was delivered |
| Live.ShortPollCatchesUp | internal/server/api.go:276-287 | after a batch that is not full nothing matching in the table is missing |
| Live.NoRowFallsBetween | internal/server/api.go:119-130 | with the newest id read before the rows, each matching row was there for the first page to find or came over the stream |
| Targets.FilterServices | internal/server/ingest.go:471-492 | the loop yields the allowed running services in allowlist order, each once |
| Targets.FilteredInOrder | internal/server/ingest.go:469-492 | they come in the order of the allowlist, or all in theirs without one |
| Targets.PrioritizeServices | internal/server/ingest.go:438-469 | the loop yields the priority services in their order and then the others in theirs |
| Targets.PrioritizedExact | internal/server/ingest.go:438-469 | no service is lost, added or repeated, and each priority service comes before each other one |
| Targets.PrioritizedInOrder | internal/server/ingest.go:438-469 | priority services come in the order of their list and then the others in the order they were in |
| Targets.ServiceNamesExact | internal/server/ingest.go:425-436 | the services of the tasks, each once, in order |
| Names.OrderMeans | internal/server/ingest.go:424-436 | names are in the order of their characters at the first place where they differ, the shorter first |
| Targets.SortedByService | internal/server/ingest.go:344-348 | the stable sort by rank lists each service's tasks in turn, in the order they came |
| Targets.TargetsLocked | internal/server/ingest.go:328-355 | the loops yield every stream of the tasks of each allowed service, in rank order |
| Targets.WantedExact | internal/server/ingest.go:328-355 | the targets are exactly the streams of running tasks of allowed services |
| Targets.WantedPriorityFirst | internal/server/ingest.go:328-355 | no target of an ordinary service comes before one of a priority service |
| Ingest.Ingester.ReconcileLocked | internal/server/ingest.go:225-258 | the loops over followers and targets leave the followers, the waiting list and the started targets that giving out places in order leaves, and cancel exactly the followers not wanted |
| Ingest.Ingester.Discover | internal/server/ingest.go:195-220 | one discovery's whole effect on the state; an interrupted or failed listing changes no follower |
| Ingest.Ingester.SetServices | internal/server/ingest.go:382-391 | changes the allowlist alone, to the names given, trimmed, none empty and each once |
| Targets.CleanServiceList | internal/server/server.go:176-191 | the loop yields the trimmed names in order, none empty and each once |
| Targets.CleanedExact | internal/server/server.go:176-191 | the kept allowlist names exactly what the given one names |
| Ingest.Ingester.VisibleServices | internal/server/ingest.go:395-400 | the running services that are allowed, priority services first |
| Ingest.VisibleExact | internal/server/ingest.go:395-400 | after any discoveries they are exactly the services of the last listing that are allowed now, each once, priority services first |
| Ingest.ReconcileTheorem | internal/server/ingest.go:222-258 | the cap holds, no wanted follower is cancelled, the waiting targets are exactly the wanted ones without a follower and exist only while all places are taken, and every started target comes before every waiting one |
| Ingest.AlwaysSteady | internal/server/ingest.go:195-258 | over any discoveries, failures and allowlist changes the cap holds and waiting means full |
| Ingest.WantedFollowerStays | internal/server/ingest.go:195-258 | over any run a follower that every successful discovery wants is never cancelled or replaced |
| Ingest.DiscoveryPartitions | internal/server/ingest.go:195-258 | after a successful discovery followed and waiting targets partition the wanted ones |
| Targets.KeysTellApart | internal/server/ingest.go:65-67 | two targets have one key if and only if they are one stream of one task of one allocation, given that the names of allocation and stream have no slash |
| Ingest.EveryStreamHasItsPlace | internal/server/ingest.go:195-258 | after a successful discovery each wanted stream has a follower of its own or its label waits, and no two followers are of one stream |
| Writer.Write | internal/server/ingest.go:295-324 | the loop hands over and keeps pending what the writer's steps give |
| Writer.WriterTheorem | internal/server/ingest.go:295-324 | the batches and the pending rest are exactly what is received, in order, each batch non-empty and at most 1000 long, and nothing is pending after the channel closes |
| Writer.TickHandsOver | internal/server/ingest.go:320-321 | after a tick nothing is pending, and what was is the last batch handed over |
| Writer.ThousandAreHandedOver | internal/server/ingest.go:309-320 | without a tick lines are pending until there are a thousand, which are handed over as one batch |
| Writer.NothingSentAfterClose | internal/server/ingest.go:155-177 | in every interleaving no follower sends on the closed channel |
| Writer.StopHandsOverEverything | internal/server/ingest.go:155-177 | when stop returns every entry sent has been handed to the store, in order |
| Writer.StopStoresEverything | internal/server/ingest.go:295-324 | and if no insert failed the table is what inserting the entries one by one makes of it |
| Writer.StopIsNeverStuck | internal/server/ingest.go:155-177 | from every reachable state in which the context is cancelled some steps lead to the return of stop |

## Left out

- Letter case is ASCII only, and text is characters rather than bytes: invalid UTF-8 and Unicode case folding are not modelled, and spans count characters.
- JSON extraction is a map from paths to values in each row; number parsing and comparison are functions given as parameters; timestamps are integers, so their fixed-width text form and its ordering are not modelled.
- SQL is an expression tree with placeholders and arguments; statement text, SQLite itself, indexes other than the unique one, and query cancellation are not modelled. ORDER BY and LIMIT are a sort and a prefix.
- Syntax trees are values: the source mutates node positions through pointers, the model builds the changed node.
- Language.LanguageTheorem: texts in which clauses stand together without white space, ranges with quoted bounds, and the errors of texts outside the language are left to the grammar that the parser is proved against.
- Reading.RangeKeeps: numbers are ordered by a given function from texts to reals; rounding and the database's reading of texts that are no numbers are part of that function.
- Rewrite.Walk: the source's closure over two variables is a method with two flags in and out.
- FacetCounts.AccumulateHistogram: the database's placement of a row into a bin by julian days is an input; start, end and interval are not modelled.
- Following.Follow: parsing a line into timestamp, level and message, and guessing missing times, are left out; a handed-on line is its text, file and offset.
- Reconnect.FollowTarget: pause lengths and the backoff are left out; each pause ends or is cut short.
- Ingestion.StoredInOrder: one follower of the stream; when a cancelled one left lines out and discovery later starts another, the lines it then re-reads are stored after those that were sent.
- Streams.ExactlyOnce: pruning or clearing between connections is excluded, because a re-read line whose row is gone is stored again; failed batches are excluded, because their lines are lost until re-read.
- Ingest.Ingester.Discover: the clock, the kick channel, timeouts and first-discovery waiting are left out.
- Writer.Write: the flush timer is an arbitrary tick; a failed insert is logged by the source and its batch dropped, which the model of the table shows as an unchanged table.
- Live.ServeLive: payload encoding and the event stream's framing are left out; a lost event and everything after it on the connection do not arrive.
- HTTP parameters, suggestions, highlighting, settings, the Nomad API client and the rest of the web UI.

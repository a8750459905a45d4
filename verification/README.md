# Configuration in SQL tables: a verified model

mod_conf_sql keeps a ProFTPD configuration, a tree of nested contexts holding directives, in three
SQL tables and turns it back into configuration text. This project models the whole round and
proves what the programs on it promise:

* `conf2sql.pl` parses a file with a stack of contexts and writes the tree to the tables, finding
  the id of each row it has just inserted again by its content (`ConfLines`, `ConfParser`,
  `Conf2Sql`, `Sql`, `Store`, `Attempt`, `Unrecognised`);
* `mod_conf_sql.c` walks the parent links and the directive join by mutual recursion, pushes lines
  onto a global array and serves that array as a fake file (`Walk`, `ModConfSql`, `Cursor`);
* `sql2conf.pl` rebuilds the tree from the tables and prints it; what it prints can be imported
  again (`Sql2Conf`, `Agreement`, `PerlRoundTrip`);
* `uri.c` and `param.c` read the `sql://` URI that says where the tables are (`Uri`, `UrlDecode`,
  `Param`, `UriRoundTrip`, `ParamRoundTrip`).

How to read it. The code that changes state is imperative: classes `ConfSql`, `Context`, `Reader`,
`Database` and `Stdout`, and methods with loops, proved against functions of the old state. The
theorems are about those functions:

* `Walk.Explore` is the tree of calls of one run of the recursion and `Walk.Emit` the lines it
  pushes, failures included. A `Server` is the SQL engine as the module sees it: a SELECT fails or
  answers rows, and `Honest` says the rows are exactly the qualifying ones in any order. So every
  theorem about honest servers holds for every row order. `InOrder` answers in table order.
* `Ancestry` and `Termination` say when the recursion ends and what it visits; `WalkDocument`,
  `Conservation`, `Pruning` and `Reordering` say what the lines amount to.
* `Store.Load` is what `process_ctx` does to the tables up to the choice of directive ids, and
  `ImportDecodes`, `ImportRows` and `Absorb` say what the tables mean afterwards.
  `Attempt.Process` adds what happens where an opening tag was not recognised, and `Unrecognised`
  what the readers make of it.
* `LineLaws` says what a line is read as; `PlainLines`, `ParsedTree`, `Spelling` and `NormalForm`
  say which trees and texts survive being printed and read.
* `Pipeline` and `Export` put the programs one after the other.

Lemmas switch automatic induction off, so each proof is the one that is written down.

## What was found

Several properties one would expect do not hold of the code as it is. Each but the two about
comments comes with the exact condition under which it does hold, and with inputs that show the
failure.

* Importing a file and reading the tables back gives the same tree if and only if every context
  that has an earlier sibling of the same type and value is empty (`Pipeline.PipelineRoundTrip`,
  `Absorb.FaithfulIff`). Otherwise the content of the later sibling moves into the earlier one
  (`Absorb.TwinsCollapse`).
* With a base id, the recursion terminates if and only if the base context is not its own proper
  ancestor; nothing in the code checks this (`Termination.TerminatesIff`,
  `Termination.MutualParentsRunForever`). From a context with a NULL parent it always terminates.
* The document is well nested if and only if no directive or child-list SELECT fails for a context
  whose open tag was pushed (`WalkDocument.DocumentNestedIff`, `WalkDocument.FailedJoinLeavesTagOpen`).
* Printing what conf2sql.pl read does not always read back as the same. Joining continuation lines
  does not trim again, so a directive may come out empty, as a comment, or with a blank or a mark at
  its end: `Umask 022 \` before an empty line has the value "022 ". Printing is a normal form if and
  only if no joined line is of that kind (`NormalForm.NormalFormIff`, `NormalForm.UmaskChanges`).
* An opening tag that does not match the tag pattern, as `<Foo` without its `>`, gives a context
  without a type. Its id is not found again, so a directive in it makes the script die half-way
  (`Unrecognised.UnmatchedTagDies`), and a context in it becomes one more row with a NULL parent
  (`Unrecognised.UnmatchedTagAddsRoot`), after which the C module serves an empty document. An import
  finishes with a single NULL-parent row if and only if all such contexts are empty
  (`Attempt.ProcessRoots`, `Pipeline.OneRootIff`, `Pipeline.ImportAndRead`).
* sql2conf.pl and the C module print the same lines, indentation and blank lines removed from both,
  if and only if no context below the root has the value "0" (`Agreement.ExportersAgreeIff`,
  `Agreement.ZeroValueDropped`). Removing them from the script's output alone is enough exactly when
  no directive has an empty name or one that starts with a blank (`Agreement.SameLinesIff`).
* uri.c stores parameter lengths without the terminating NUL that param.c assumes. A parameter that
  comes through a URI is then read back as written if and only if it has at least two characters
  and is not a bare table name for the map (`ParamRoundTrip.ParamReadsBackFromUri`,
  `UriRoundTrip.MapNameLosesACharacter`). The last one of a longer query is stored with too great a
  length; a clause in it makes that harmless (`ParamRoundTrip.LastParamReadsBack`).
* The comment at mod_conf_sql.c:795-799 says that several base rows are an error. The test is an
  `&&` of two conditions of which the second is never true, so they are accepted and the document is
  empty; the model follows the code (`ModConfSql.ConfSql.ReadDb`).
* The comment at conf2sql.pl:135-137 says that closing the default context is a syntax error. The
  code accepts `</default>` at the top level and ignores it; so does the model (`ConfParser.Block`).

## Model

| member | source | states |
|---|---|---|
| ModConfSql.ConfSql.ReadConf | mod_conf_sql.c:482-536 | pushes one line per join row of the context, in the order answered; nothing if the SELECT fails |
| ModConfSql.ConfSql.ReadCtxCtxs | mod_conf_sql.c:437-480 | pushes the lines of every listed child in turn, whatever each child's call returns |
| ModConfSql.ConfSql.ReadCtx | mod_conf_sql.c:538-612 | terminates within the depth of its call tree, succeeds if and only if all three SELECTs do and the first answers at most one row, and appends exactly the call tree's lines; nothing for an error or several rows |
| ModConfSql.ConfSql.ReadDb | mod_conf_sql.c:766-839 | terminates for a NULL-parent base, or a base id that is not its own ancestor among the rows shown, whatever fails, in whatever order rows come, and with where clauses on the walk; the array is the base context's document, and empty for no or several base rows |
| ModConfSql.BaseDocument | mod_conf_sql.c:795-834 | the document is that of the one row with the given id, or else with a NULL parent, and empty when there is none or more than one |
| ModConfSql.ConfSql.Open | mod_conf_sql.c:881-910 | succeeds if and only if the URI is good and the array is there already or connection, base query and close all succeed; builds the array at most once between two postparse events; the state is the cursor machine's next state |
| ModConfSql.ConfSql.Read | mod_conf_sql.c:920-953 | returns the line under the cursor and advances, or end of file, or fails without an array |
| ModConfSql.ConfSql.Postparse | mod_conf_sql.c:958-981 | forgets the array and resets the cursor if a pool exists |
| Walk.InOrder | mod_conf_sql.c:449-461 | answering every SELECT in table order is one honest way of answering |
| Walk.ExploreSame | mod_conf_sql.c:538-612 | a run's call tree does not depend on the depth bound used to describe it |
| Walk.AmbiguousSkips | mod_conf_sql.c:562-578 | an error or several rows for the type and value: the context is skipped and nothing is pushed |
| Walk.CallPushes | mod_conf_sql.c:580-612 | in terms of what the SELECTs answered: open tag, directives, children, close tag; no tags for the base or without a type; nothing after a failing SELECT |
| Ancestry.CycleThroughBase | mod_conf_sql.c:449-455 | a cycle that can be reached from the base contains the base |
| Ancestry.SiblingsApart | mod_conf_sql.c:449-455 | off the cycles, two children of one context share no descendant |
| Termination.HaltsAlong | mod_conf_sql.c:475-477 | no path of the recursion is longer than the table, because a context never repeats on it |
| Termination.BaseHalts | mod_conf_sql.c:538-612 | a base that is not its own ancestor bounds the depth by the table size, with failing SELECTs and any row order |
| Termination.RootHalts | mod_conf_sql.c:771-773 | a row with a NULL parent starts a terminating recursion, whatever cycles exist elsewhere |
| Termination.CycleRuns | mod_conf_sql.c:475-477 | on a cycle, every context of it recurses for ever |
| Termination.TerminatesIff | mod_conf_sql.c:538-612 | with succeeding SELECTs the recursion terminates if and only if the base is not its own proper ancestor |
| Termination.MutualParentsRunForever | mod_conf_sql.c:475-477 | two rows that are each other's parent make the recursion diverge |
| Termination.VisitedOnce | mod_conf_sql.c:437-480 | no context is visited twice, whatever fails on the way |
| Termination.ExactlyOnce | mod_conf_sql.c:437-480 | the visited contexts are the base and exactly its descendants, each once |
| WalkDocument.EmitIsPrint | mod_conf_sql.c:538-612 | the pushed lines are the recursive print of the tree seen; the base's own tags are left out |
| WalkDocument.NestedIff | mod_conf_sql.c:591-609 | the lines of one call are well nested if and only if no tagged call in its tree failed after its open tag |
| WalkDocument.DocumentNestedIff | mod_conf_sql.c:591-609 | for every server and base: the document is well nested if and only if no context visited below the base is found with a type and then has a failing directive or child SELECT |
| WalkDocument.FailedJoinLeavesTagOpen | mod_conf_sql.c:591-593 | tables of two contexts and a server whose directive SELECT fails for the inner one: the document lacks a close tag |
| WalkDocument.OpenTagsFollowCalls | mod_conf_sql.c:584-609 | after every prefix of the pushed lines the open tags are the path of non-base contexts being visited |
| Conservation.PushedAreJoined | mod_conf_sql.c:525-533 | the directive lines are the join rows fetched, in order |
| Conservation.DirectivesConserved | mod_conf_sql.c:494-533 | for every row order, the directive lines are as a multiset the join rows of the base and its descendants, each under its own context |
| Pruning.FailurePrunes | mod_conf_sql.c:475-477 | if only type/value SELECTs of some non-base contexts fail or are ambiguous, the document is the one of the call tree without exactly those subtrees |
| Pruning.FailureKeepsNesting | mod_conf_sql.c:562-578 | and it is still well nested: the printed tree without those subtrees |
| Pruning.WhereIsRestriction | mod_conf_sql.c:449-455 | a SELECT with the where clauses ANDed in is the plain SELECT on the rows they accept, whose ids stay unique, so the theorems above cover the walk of a filtered database |
| Pruning.WhereCuts | mod_conf_sql.c:494-508 | walking in table order with where clauses is the walk without them, cut at contexts and directives they reject |
| Reordering.AnyOrder | mod_conf_sql.c:473-477 | two honest servers show trees that are equal up to the order of directives and sub-contexts |
| Reordering.WhereCutsAnyOrder | mod_conf_sql.c:449-455 | under any row order the walk with where clauses shows that cut tree up to order |
| Cursor.RunSound | mod_conf_sql.c:881-981 | in every run the cursor stays within the array |
| Cursor.DeliversInOrder | mod_conf_sql.c:932-946 | between postparse events the reads deliver one contiguous piece of one document, across any opens and closes |
| Cursor.DeliversPrefix | mod_conf_sql.c:932-946 | from a fresh start that piece is a prefix of the document |
| Cursor.ReadsDeliverEverything | mod_conf_sql.c:932-948 | enough reads deliver all remaining lines, then end of file |
| Cursor.EofIsSticky | mod_conf_sql.c:948 | end of file is reported until the next postparse, also after another open |
| Cursor.PostparseForgets | mod_conf_sql.c:975-980 | what follows a postparse does not depend on what came before it |
| Cursor.OpenSucceedsIff | mod_conf_sql.c:899-905 | an open succeeds if and only if the URI is good and the array is there or is built and the connection closed; it never moves the cursor or replaces an array |
| Cursor.ReadReturns | mod_conf_sql.c:927-948 | a read fails exactly without an array, ends exactly behind it, and else returns the next line |
| Cursor.FailedCloseKeepsArray | mod_conf_sql.c:834-838 | where only closing the connection failed, the array stays: the next open succeeds and reads deliver it all |
| Cursor.CloseAndPostparse | mod_conf_sql.c:912-980 | a close changes nothing, a postparse resets everything if there is a pool |
| ConfLines.OpenReadsBack | conf2sql.pl:119-123 | the opening tag of a plain header is read as that header |
| ConfLines.CloseReadsBack | conf2sql.pl:138-140 | the closing tag of a plain type is read as that type |
| ConfLines.DirectiveReadsBack | conf2sql.pl:155-160 | the line of a plain directive is read as that directive |
| ConfLines.TextReadsBack | conf2sql.pl:88-160 | the text of plain lines, split at newlines, skipped, trimmed and classified, gives those lines |
| LineLaws.BrokenLine | conf2sql.pl:100-113 | a line broken by continuation marks, any number of times and with indented pieces, reads as the unbroken line, and what follows as it would behind that |
| LineLaws.BrokenAtEnd | conf2sql.pl:100-113 | a mark before an unterminated last line joins that line too |
| LineLaws.PaddingIgnored | conf2sql.pl:96-97 | blanks of any kind before and after any line of a file do not matter |
| LineLaws.SkippedLines | conf2sql.pl:92-93 | blank lines and comments, indented or not, are skipped |
| LineLaws.UnterminatedLineIgnored | conf2sql.pl:88 | what follows the last newline is not read |
| LineLaws.DirectiveLine | conf2sql.pl:155-160 | a name, blanks of any kind and number, and the rest are a directive; a lone `<` is a name |
| LineLaws.OpeningTag | conf2sql.pl:119 | with blanks behind the type the value runs to the last `>`, which anything may follow |
| LineLaws.OpeningTagWithoutValue | conf2sql.pl:119 | without blanks before the last `>` the type runs up to it |
| LineLaws.BadOpeningTag | conf2sql.pl:119 | without a `>`, or with a blank or just `>` behind the `<`, a tag is not recognised |
| LineLaws.ClosingTag | conf2sql.pl:138-140 | a closing tag's type ends at the first blank; anything may follow up to a final `>` |
| LineLaws.BadClosingTag | conf2sql.pl:138-140 | without a final `>` or without a type the tag's type is undefined |
| PlainLines.LinePlain | conf2sql.pl:92-160 | whatever is read from one line without a continuation mark can be written back |
| PlainLines.DirectiveSurvivesIff | conf2sql.pl:155-160 | a directive survives being written and read if and only if it is plain |
| PlainLines.HeaderSurvivesIff | conf2sql.pl:119-123 | a context header survives if and only if it is plain, tags that were not recognised included |
| PlainLines.TextRoundTrip | conf2sql.pl:88-162 | reading the printed text of a plain tree gives the tree |
| NormalForm.TextReadsBackIff | conf2sql.pl:88-162 | for every tree: its printed text reads back as the tree if and only if the tree is plain |
| NormalForm.SpelledOnlyPlain | conf2sql.pl:88-160 | lines that spell a document can be read as a tree of that many lines and that much directive text only if each was read on its own, so the tree is plain |
| NormalForm.NormalFormIff | conf2sql.pl:100-160 | for every text of a complete document, continuation lines included: printing what was read gives a text that reads the same, directives before contexts, if and only if every joined line is settled |
| NormalForm.NormalForm | conf2sql.pl:88-162 | that is so when no line but comments ends in a continuation mark |
| NormalForm.SettledIff | conf2sql.pl:154-160 | a joined line is settled if and only if what it is read as can be written on one line |
| NormalForm.MarkKeepsBlank | conf2sql.pl:100-113 | a continuation mark before an empty line leaves a blank behind the value that printing does not keep |
| ConfParser.StackIsOpenContexts | conf2sql.pl:117-150 | over any document the stack is the open contexts, and the script dies exactly when a close does not match the innermost one; a close of the default context with nothing open is skipped |
| ConfParser.WellNestedParses | conf2sql.pl:117-150 | a well nested document is read to its end and back to the root; without a closing tag of the default context only a well nested one is |
| ConfParser.RunReadsBlock | conf2sql.pl:117-162 | the stack machine reads a block as the recursive-descent grammar does, in source order |
| ConfParser.ParsesIff | conf2sql.pl:74-162 | the script ends in the root context exactly on complete documents, with the grammar's tree |
| ConfParser.PrintedParses | conf2sql.pl:117-162 | parsing a printed tree gives its directives and sub-contexts |
| ParsedTree.ParsedAll | conf2sql.pl:117-162 | the tree read holds what the lines said, and nothing else |
| ParsedTree.ParsedTotal | conf2sql.pl:117-162 | by any measure of lines, printing what was read takes no more than was read |
| Conf2Sql.Reader.AddDirective | conf2sql.pl:152-161 | pushes onto the current context's directives; the heap of records still represents the machine's stack |
| Conf2Sql.Reader.OpenContext | conf2sql.pl:117-133 | links a new context into its parent and makes it current |
| Conf2Sql.Reader.CloseContext | conf2sql.pl:138-149 | dies on a mismatch with nothing changed, else returns to the enclosing context and finishes the inner one |
| Conf2Sql.JoinContinuations | conf2sql.pl:100-113 | joins continuation lines, also at end of file, as the line laws describe |
| Conf2Sql.Reader.ReadFile | conf2sql.pl:88-162 | the record graph built is the machine's stack for the file's lines, and it dies exactly when the machine does |
| Sql.SharedRowHarmless | conf2sql.pl:262-282 | whichever row with that name and value the lookup hits, the join gains exactly that directive in that context |
| Sql.JoinIff | mod_conf_sql.c:503-508 | the join has a row for a directive and a context if and only if the map table pairs their ids |
| Conf2Sql.PlaceDirective | conf2sql.pl:257-283 | one directive more in one context, nothing else, for every choice of row; without a context id the script dies and the readers see no change |
| Conf2Sql.AddSubContext | conf2sql.pl:287-310 | inserts the row and fills the first row with that type, value and parent |
| Conf2Sql.ProcessCtx | conf2sql.pl:252-312 | the tables and the survival of the script are what the process function says, keys stay unique and every map row refers to existing rows, whatever tags were not recognised |
| Conf2Sql.Import | conf2sql.pl:88-203 | for every file: untouched tables if the parse dies, else the fresh default context processed with the context that was current at end of input, or dead where that dies |
| Attempt.ProcessLoads | conf2sql.pl:252-312 | when all opening tags were recognised the script finishes and has loaded the tree |
| Attempt.ProcessInOrder | conf2sql.pl:287-310 | contexts are processed in order, and nothing is written once the script has died |
| Attempt.ProcessRoots | conf2sql.pl:300-309 | it finishes without adding a NULL-parent row if and only if every context without a type is empty |
| Unrecognised.UnmatchedTagDies | conf2sql.pl:277-281 | the file `<Foo`, `Umask 022`, `</Foo` makes the script die half-way |
| Unrecognised.UnmatchedTagAddsRoot | conf2sql.pl:300-309 | the file `<Foo`, `<A>`, `</A>`, `</Foo` is imported as a row with NULL type and value and a second row with a NULL parent |
| Unrecognised.ProcessFills | conf2sql.pl:252-312 | where contexts without a type are all empty, the script finishes and has loaded the tree, up to the types of those rows |
| Unrecognised.ProcessWritesAll | conf2sql.pl:252-312 | a script that finishes has written a row for every context and directive, recognised or not, in source order |
| Unrecognised.EmitFilled | mod_conf_sql.c:584-609 | the C module pushes for rows without a type what it would for rows with one, except their tags |
| ImportDecodes.LoadDecodes | conf2sql.pl:252-312 | decoding the tables after process_ctx gives the stored tree with the source tree absorbed, for all trees, and changes only below that context |
| ImportDecodes.LookupIsFirstTwin | conf2sql.pl:300-307 | the content lookup hits the first child with that type and value |
| Store.LookupHits | conf2sql.pl:300-307 | it is the first row with that type, that value and that parent |
| ImportRows.ImportWritesAll | conf2sql.pl:252-312 | one context row per context and one directive per directive, in source order, even when siblings collapse |
| Absorb.FaithfulIff | conf2sql.pl:300-309 | importing into a fresh context stores the source tree if and only if every later twin is empty |
| Absorb.SiblingsDifferSuffices | conf2sql.pl:300-309 | siblings that differ in type or value suffice |
| Absorb.LaterTwinStoredEmpty | conf2sql.pl:300-309 | a later twin is always stored empty |
| Absorb.TwinsCollapse | conf2sql.pl:300-309 | a directive of a second twin ends up in the first |
| Pipeline.WalkDecodes | mod_conf_sql.c:538-612 | the C walk in table order sees the tree the tables decode to |
| Pipeline.ImportStores | conf2sql.pl:188-202 | after an import there is one NULL-parent row and it decodes to the absorbed tree |
| Pipeline.OneRootIff | conf2sql.pl:300-309 | after an import that finished, the default context is the only NULL-parent row if and only if every context without a type is empty |
| Pipeline.ServedDocument | mod_conf_sql.c:584-609 | where contexts without a type are all empty, the document is the printed absorbed tree without their tags |
| Pipeline.PipelineRoundTrip | conf2sql.pl:252-311 | import, C walk from the NULL-parent root and re-parse give the absorbed tree if and only if the source is plain; then it is the source tree if and only if later twins are empty |
| Pipeline.PipelineAnyOrder | mod_conf_sql.c:437-612 | with siblings that differ and any row order, the re-parsed tree is the source tree up to order |
| Pipeline.ImportAndRead | mod_conf_sql.c:829-834 | the two programs one after the other leave exactly the rendered lines of the absorbed tree; without the tags of contexts without a type if those are all empty; and an empty document if the import finished over one that was not |
| Sql2Conf.GetCtx | sql2conf.pl:111-146 | fetches the tree of the same walk, from the NULL-parent context when no id is given |
| Sql2Conf.GetCtxDirectives | sql2conf.pl:168-189 | the directives joined to the context |
| Sql2Conf.GetCtxCtxs | sql2conf.pl:148-166 | the ids of the contexts with that parent |
| Sql2Conf.FetchedIsTreeOf | sql2conf.pl:132-146 | its tree is the tree the C module's walk sees |
| Sql2Conf.Stdout.PrintCtxs | sql2conf.pl:198-217 | prints each context with a blank line and indentation |
| Sql2Conf.Stdout.PrintDirectives | sql2conf.pl:219-231 | prints the directives with indentation |
| Agreement.ConfSqueezed | sql2conf.pl:191-231 | for every tree: the output is, indentation and blank lines removed on both sides, the printed tree with values that are false in Perl dropped |
| Agreement.ExportersAgreeIff | sql2conf.pl:203-204 | for every tree: that equals the C module's lines, indentation and blank lines removed on both sides, if and only if no nested context has the value "0" |
| Agreement.SameLinesIff | sql2conf.pl:219-231 | with indentation and blank lines removed from the script's output alone, it equals the C module's lines if and only if, besides, no directive has an empty name or one that starts with a blank |
| Agreement.ZeroValueDropped | sql2conf.pl:204 | a context value "0" is lost |
| Agreement.SameTablesSameText | sql2conf.pl:72-74 | both exporters on the same tables agree in that sense if and only if no context below the root has the value "0" |
| PerlRoundTrip.ExportReadsBackIff | sql2conf.pl:191-231 | for every tree: conf2sql.pl reads the exported text, indentation and blank lines and all, as the printed tree if and only if the tree is plain and no nested context has the value "0" |
| PerlRoundTrip.ExportThenImportIff | conf2sql.pl:88-162 | so it rebuilds the tree sql2conf.pl printed under exactly that condition |
| Export.ImportFetches | sql2conf.pl:111-146 | after an import get_ctx on the root returns the absorbed tree, contexts without a type included where they are empty; the source tree if and only if later twins are empty |
| Export.OneRowPerContext | conf2sql.pl:252-312 | the context table then holds exactly one row per context of the stored tree, under its parent's row id, with its directives joined to it |
| Export.ExportRoundTrip | sql2conf.pl:191-231 | import, export and import again give the absorbed tree if and only if the source is plain and no context has the value "0"; then it is the source tree if and only if later twins are empty |
| Export.ImportAndExport | sql2conf.pl:72-74 | the two scripts one after the other print the absorbed tree |
| Sql2Conf.Stdout.PrintConf | sql2conf.pl:191-196 | prints the root's directives and then its contexts, without the root's own tags |
| Sql2Conf.ContextLayout | sql2conf.pl:198-217 | a context is printed as an empty line, its header, what would be printed for it as a root moved right by two columns, and its closing tag |
| UrlDecode.Decode | uri.c:468-539 | writes the decoded text and a NUL within the buffer and returns its C length |
| UrlDecode.DecodesAnyEncoding | uri.c:493-533 | undoes every percent-encoding, whichever characters it escapes and in whichever case |
| UrlDecode.DecodeInvertsEncode | uri.c:493-536 | every byte string comes back from its encoding, with its length if it has no NUL |
| UrlDecode.StrayPercent | uri.c:498-533 | a `%` without two hexadecimal digits behind it stays, and so does what follows it |
| UrlDecode.HexDigits | uri.c:501-521 | the value of a hexadecimal digit in either case |
| Param.ParseConf | param.c:33-156 | the three-column instance of the grammar, for lengths with or without the NUL, and for longer ones where both colons are in the value |
| Param.ParseCtx | param.c:162-301 | the four-column instance |
| Param.ParseMap | param.c:307-415 | the two-column instance, with its different length for a bare table name |
| Param.TakeColumn | param.c:100-113 | splits off the text up to the next comma |
| Param.RestartFindsDelimiter | param.c:136 | the search restarted at len(last column) finds the colon after the columns |
| Param.TakeWhere | param.c:139-153 | accepts a clause if and only if it starts with where= in any case, and decodes it, prefix included |
| ParamRoundTrip.ParamReadsBack | param.c:29-32 | a rendered value is read back: table, columns and decoded clause, colons in the clause included |
| ParamRoundTrip.ParamReadsBackFromUri | uri.c:253-269 | under the length uri.c stores for a parameter that is not the last, if and only if it has at least two characters and is not a bare map table |
| ParamRoundTrip.LastParamReadsBack | uri.c:338 | the last parameter, stored under a length beyond its end, is read back all the same if it has a clause |
| ParamRoundTrip.EncodedClause | param.c:151-152 | an encoded clause is decoded behind its prefix, which keeps its spelling |
| ParamRoundTrip.ColumnsIff | param.c:86-132 | `n` columns are the text cut at its first n - 1 commas |
| ParamRoundTrip.ColumnsAcceptedIff | param.c:65-132 | a value with one colon is accepted if and only if enough columns follow it |
| ParamRoundTrip.ClauseAcceptedIff | param.c:136-153 | a value with two colons is accepted if and only if enough columns or nothing stand between them and where= in any case follows; otherwise it is rejected |
| ParamRoundTrip.BareTable | param.c:55-66 | a value without colons is the table, an empty one is ignored |
| ParamRoundTrip.UriLengths | uri.c:253-269 | what the lengths uri.c stores change: one character is ignored, a final colon too, the map loses one of a bare table, and nothing else |
| Uri.UriParsePort | uri.c:96-144 | rejects non-digits and values outside 1-65535 |
| Uri.UriParseParams | uri.c:292-360 | stores every segment, later ones over earlier ones, or fails on a segment without '=' |
| Uri.UriParse | uri.c:362-466 | composes scheme check, query, userinfo, host, port and path |
| UriRoundTrip.QueryReadsBack | uri.c:303-338 | a rendered query fills the table, with the whole query length for the last segment |
| UriRoundTrip.LastValueWins | uri.c:260-290 | the last value of a key is the one stored, and no other keys appear |
| UriRoundTrip.LoginReadsBack | uri.c:150-236 | user and password come back, with '@' and ':' in the password |
| UriRoundTrip.UserAloneIgnored | uri.c:205-216 | without a `:` before the last `@` there is no user, and what follows the `@` is the rest |
| UriRoundTrip.NameReadsBack | uri.c:67-93 | a host ends at the first ':' or else the first '/' |
| UriRoundTrip.HostBeforePort | uri.c:67-93 | before a port anything but a bracket is a host, slashes included |
| UriRoundTrip.AddressReadsBack | uri.c:42-65 | a bracketed host ends at ']' and always leaves a remainder, if only an empty one |
| UriRoundTrip.PortAcceptedIff | uri.c:118-141 | a port field is accepted if and only if it is all digits and its value is in range |
| UriRoundTrip.ZerosDoNotCount | uri.c:133 | leading zeros do not change the value |
| UriRoundTrip.AtoiInvertsDecimal | uri.c:133 | the value of a port field is the number it is the decimal notation of |
| UriRoundTrip.UriReadsBack | uri.c:362-466 | a rendered URI parses into its components if its port field is a number in range, and is rejected otherwise |
| UriRoundTrip.WrongScheme | uri.c:381-395 | another scheme, or nothing behind it, is rejected |
| UriRoundTrip.QueryAcceptedIff | uri.c:242-250 | a query is accepted if and only if each of its segments has a `=` |
| UriRoundTrip.SegmentRejected | uri.c:422-431 | otherwise the URI is rejected |
| UriRoundTrip.OpenBracketRejected | uri.c:45-52 | a bracket that is not closed is rejected, behind a login or not |
| UriRoundTrip.MapNameLosesACharacter | param.c:341-342 | `map=ftpmap` in front of another parameter is read as table "ftpma" |

## Left out

- The SQL backends, connection set-up and hook dispatch: a SELECT is an answer of a `Server`; connecting and closing are outcomes passed in.
- SQL text assembly and quoting: where clauses are predicates on rows; a NULL value column is taken to be delivered as the empty string.
- A type/value SELECT that answers no row leaves the module reading past the row data; the model takes the type to be missing.
- The where clause of the map parameter: it is parsed, and the walk never uses it.
- Memory pools, logging, tracing, signals, the stat callbacks and pass-through to real files.
- ModConfSql.ConfSql.Read: is about lines shorter than the read buffer, because the copy of a longer one at mod_conf_sql.c:945 is not terminated.
- Sql2Conf.GetCtx: takes ids to start at 1, as the schemas' auto-increment keys do; an id 0 would be taken for a missing one.
- UrlDecode.Decode: takes a size that is zero or at least the string's length, which is what every caller passes.
- Uri.UriParsePort: is about digit strings that fit an int, because `atoi` is undefined on others; so is `Uri.UriParse`.
- Uri.UriParse: finds nothing past the end of the query when the last segment has no '=' (uri.c:338) or past an empty host (uri.c:67), where the code reads on.
- ParamRoundTrip.LastParamReadsBack: is about values with a clause; without one the searches run past the value into bytes the model does not have.
- Constraints of the tables are those of the shipped schemas: unique keys, and no NULL in the map table. A failing statement ends conf2sql.pl, as its connection options ask for.
- The bytes uri.c overwrites with NUL and restores while it parses: substrings stand for them. The table API that stores parameters is not part of this model.
- The `name` column and the `$ctxno` counter of conf2sql.pl: written, never read by any of the programs.
- The `--dry-run`, `--add-conf` and `--show-tags` modes, option parsing and the DBI connection.
- NULL-argument checks and the default column names.

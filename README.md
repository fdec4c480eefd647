# openbsd_list_macro_printer, modelled in Dafny

openbsd_list_macro_printer is a Clang plugin. It looks through a C translation
unit for variables whose type was declared with one of the list-head macros of
OpenBSD's `sys/queue.h`. For every `SLIST_HEAD` list it prints a C block. The
block walks the list with `SLIST_FOREACH` and `printf()`s every field of each
entry whose type has a printf conversion. This project models the plugin's
consumer, `lib/ASTConsumer.cc`, and proves what it prints.

The model has five files:

- `wrappers.dfy` (`Wrappers`): `Option` and `Result`.
- `clang_ast.dfy` (`ClangAst`): a small abstract syntax tree in place of Clang's.
  - Record declarations have a name, their fields in declared order, and the set of macros they were expanded from.
  - A field type is one of: a pointer, a `char` (signed or not), a signed integer, an unsigned integer, a record, or something else.
  - The translation unit lists its variable declarations in traversal order.
  - Clang's type queries (`isCharType`, `isUnsignedIntegerType`, `isSignedIntegerType`, `getAsRecordDecl`) and the `isExpandedFromMacro` matcher become predicates over this tree.
- `raw_ostream.dfy` (`RawOstream`): `llvm::outs()` as a class `OutStream` whose `text` every write appends to.
  - `Unlines` turns lines into text and `Lines` splits text back into lines.
  - `Lines` undoes `Unlines` for lines without newlines.
- `ast_consumer.dfy` (`ASTConsumer`): the consumer. It has five parts:
  - the locator, with its match callback;
  - the field-printer synthesiser;
  - the entry-link resolver, with its field callback;
  - the traversal block;
  - the driver `HandleTranslationUnit`.

  Each function and callback of the source is a Dafny method, and each loop in the source stays a loop. Each method is proved against a function that states its result. Lemmas then prove what the source promises about those functions: classification, one line per classified field in order, the link-field invariant, the block text, the banner count, and the dispatch order.
- `slist_fixture.dfy` (`SlistFixture`): the scenario of `test/slist.c`, worked through the model. It also has a second unit that exhibits the finding below.

## Model

| member | source | states |
|---|---|---|
| ASTConsumer.ListMacroDeclMatchCallback.constructor | lib/ASTConsumer.cc:71-73 | the callback remembers its macro name and starts with no matches |
| ASTConsumer.ListMacroDeclMatchCallback.Run | lib/ASTConsumer.cc:75-83 | a variable handed to the callback is appended as one match record carrying the macro name, its type's record declaration and the variable |
| ASTConsumer.FindOpenBSDQueueMacroDecls | lib/ASTConsumer.cc:89-118 | running the list-head matcher over the unit's variables in traversal order yields exactly `MacroDecls` of them |
| ASTConsumer.MacroDecls | lib/ASTConsumer.cc:111-117 | every match record carries the macro name, a variable of the unit, and the record that the variable's type names, which was expanded from that macro; there are no more records than variables |
| ASTConsumer.MacroDeclsAtPositions | lib/ASTConsumer.cc:111-117 | the k-th match record is built from the k-th matching variable, and there is one record per matching variable |
| ASTConsumer.MatchPositionsIncrease | lib/ASTConsumer.cc:111-117 | the matching variables are kept in traversal order, each once |
| ASTConsumer.MatchPositionsComplete | lib/ASTConsumer.cc:111-117 | no matching variable is left out |
| ASTConsumer.MacroDeclsEmpty | lib/ASTConsumer.cc:89-118 | the locator returns nothing if and only if no variable's type is a record expanded from the macro |
| ASTConsumer.FormatSpecifierClassifies | lib/ASTConsumer.cc:147-160 | `%s` exactly for a pointer to char, `%u` exactly for unsigned integer types (this overrides `%s`), `%d` exactly for signed and not unsigned types, "" for every other type, record types among them |
| ASTConsumer.PrintersCharacterization | lib/ASTConsumer.cc:146-167 | the printer lines correspond one to one, in increasing field order, to the classified fields; each is that field's printf line, and no classified field is skipped |
| ASTConsumer.PrintersAtPositions | lib/ASTConsumer.cc:146-167 | the k-th printer line is the printf line of the k-th classified field, and there are as many lines as classified fields |
| ASTConsumer.ClassifiedPositionsIncrease | lib/ASTConsumer.cc:146 | the classified fields are taken in declared order, each once |
| ASTConsumer.ClassifiedPositionsComplete | lib/ASTConsumer.cc:146-166 | no classified field is left out |
| ASTConsumer.PrinterLinesIndented | lib/ASTConsumer.cc:163-165 | with a positive indent, every printer line starts with a space |
| ASTConsumer.PrinterLinesWithoutNewlines | lib/ASTConsumer.cc:163-165 | a printer line holds no newline when the names it is built from hold none |
| ASTConsumer.PrintPrinterForField | lib/ASTConsumer.cc:147-166 | choosing the specifier with the source's three tests and printing when it is not empty appends `indent` spaces, `printf("<spec>", <var>-><field>);` and a newline for a classified field, and nothing for another |
| ASTConsumer.PrintPrintersForRecordDeclFields | lib/ASTConsumer.cc:142-168 | the loop over the fields appends exactly the text of `Printers` for the record's fields |
| ASTConsumer.PrintersSnoc | lib/ASTConsumer.cc:146-167 | printing one more field extends the printed text of the fields before it by that field's line |
| ASTConsumer.FieldDeclMatchCallback.constructor | lib/ASTConsumer.cc:46-49 | the field callback starts with no matches |
| ASTConsumer.FieldDeclMatchCallback.Run | lib/ASTConsumer.cc:51-57 | a field handed to the callback is appended to its matches |
| ASTConsumer.LinkFields | lib/ASTConsumer.cc:186-191 | there are at most as many link fields as fields |
| ASTConsumer.LinkFieldsCharacterization | lib/ASTConsumer.cc:186-191 | the link fields are exactly the entry record's fields whose type is a record expanded from SLIST_ENTRY, in declared order, each once |
| ASTConsumer.LinkFieldsAppend | lib/ASTConsumer.cc:186-191 | the link fields of two field lists put together are those of the first followed by those of the second |
| ASTConsumer.EntryRecordOf | lib/ASTConsumer.cc:175-179 | a resolved entry record is a record of the unit |
| ASTConsumer.EntryRecordOfCharacterization | lib/ASTConsumer.cc:175-179 | the entry record is found exactly when the head record has a first field that points to a record, and it is that record; a head record without fields and a first field that does not point to a record are the two ways to fail |
| ASTConsumer.LinkFieldOfCharacterization | lib/ASTConsumer.cc:192-195 | the link field is found if and only if exactly one field is a link field, and it is that field; otherwise the error counts the link fields, and the count is 0 exactly when there is none and above 1 exactly when two fields are link fields |
| ASTConsumer.EntryLinkOf | lib/ASTConsumer.cc:174-195 | a resolved entry link names a record of the unit |
| ASTConsumer.ResolveEntryLink | lib/ASTConsumer.cc:174-195 | following the first field, handing every SLIST_ENTRY field to the callback (the corrected match of the finding below) and insisting on exactly one gives exactly `EntryLinkOf`, with each failure as an error |
| ASTConsumer.HasLinkFieldMatches | lib/ASTConsumer.cc:186-191 | the matcher as written hands over at most one field: the first link field, or none when there are no link fields |
| ASTConsumer.EntryLinkAsWritten | lib/ASTConsumer.cc:186-195 | the size check as written can only ever fail with a count of 0 |
| ASTConsumer.AsWrittenAcceptsSeveralLinkFields | lib/ASTConsumer.cc:186-195 | with two or more link fields the written check accepts the first one, while the intended check fails with their count |
| ASTConsumer.BlockHeaderText | lib/ASTConsumer.cc:198-202 | the three opening lines of the block, each ended by a newline, are the first format string with the entry name, the head variable and the link field substituted |
| ASTConsumer.BlockFooterText | lib/ASTConsumer.cc:205 | the two closing lines are the text `    }\n}\n` |
| ASTConsumer.BlockText | lib/ASTConsumer.cc:198-205 | a block's text is the opening format string, then the printers at indent 8 for the cursor `__openbsd_list_iterator`, then the closing text |
| ASTConsumer.PrintListIteratorForSListHeadDecl | lib/ASTConsumer.cc:172-206 | the entry link is resolved as the corrected `EntryLinkOf` says; on success the block for it is appended and on failure nothing is |
| ASTConsumer.AllMatchesOrder | lib/ASTConsumer.cc:20-23 | the matches come macro by macro in the order SLIST_HEAD, LIST_HEAD, SIMPLEQ_HEAD, XSIMPLEQ_HEAD, TAILQ_HEAD, STAILQ_HEAD |
| ASTConsumer.HandleMatch | lib/ASTConsumer.cc:224-231 | one match appends the banner unless it is the first one, then its block if it is an SLIST_HEAD match that the corrected `EntryLinkOf` resolves, and reports its resolution error if it has one |
| ASTConsumer.HandledSnoc | lib/ASTConsumer.cc:218-232 | handling one more match keeps the driver's state in step with the matches handled so far and clears `first` |
| ASTConsumer.HandleMatches | lib/ASTConsumer.cc:218-232 | the inner loop over one macro's matches keeps the printed text, the reports and `first` in step with all the matches handled so far, each resolved by the corrected `EntryLinkOf` |
| ASTConsumer.HandleTranslationUnit | lib/ASTConsumer.cc:213-234 | the whole run appends exactly `TranslationUnitOutput` (built on the corrected `EntryLinkOf`) and reports the diagnostics of all matches |
| ASTConsumer.OutputLinesSnoc | lib/ASTConsumer.cc:224-230 | one more match adds a banner line unless it is the first, then its lines |
| ASTConsumer.OutputTextLines | lib/ASTConsumer.cc:214-232 | the text the driver prints match by match is the output lines, each ended by a newline |
| ASTConsumer.MatchLinesShape | lib/ASTConsumer.cc:198-205 | a match's output holds no banner line, and it has one "{" line if and only if it prints a block |
| ASTConsumer.BannerAndBlockCounts | lib/ASTConsumer.cc:224-230 | M matches put max(0, M − 1) banners in the output, whichever macros they come from, and one "{" line per block printed |
| ASTConsumer.BannerLines | lib/ASTConsumer.cc:224-226 | read back line by line, the printed text holds max(0, M − 1) lines of 80 '#' for the unit's M matches |
| ASTConsumer.LinesWithoutNewlinesAppend | lib/ASTConsumer.cc:163-165 | two sequences of newline-free lines put together are one |
| ASTConsumer.OutputLinesWithoutNewlines | lib/ASTConsumer.cc:198-205 | no output line holds a newline when no declared name does |
| ASTConsumer.OutputReadBack | lib/ASTConsumer.cc:198-205 | the printed text splits back into exactly the lines printed |
| ASTConsumer.MatchesUpToEmpty | lib/ASTConsumer.cc:216-217 | the first n macros give no matches if and only if no variable is declared through any of them |
| ASTConsumer.NoListHeadsNoOutput | lib/ASTConsumer.cc:214-233 | there are no matches if and only if no variable is declared through a list-head macro, and then nothing is printed |
| ASTConsumer.SilentMatch | lib/ASTConsumer.cc:227-230 | a match of another macro, or an SLIST_HEAD match that cannot be resolved, adds at most its banner; only the latter adds a report |
| ASTConsumer.Repeat | lib/ASTConsumer.cc:225 | `std::string(n, c)` is n copies of c |
| ASTConsumer.Spaces | lib/ASTConsumer.cc:164 | the indentation is `indent` spaces |
| RawOstream.OutStream.Write | lib/ASTConsumer.cc:163-165 | writing to the stream appends to its text |
| RawOstream.UnlinesAppend | lib/ASTConsumer.cc:163-165 | the text of lines put together is the text of each part, one after the other |
| RawOstream.LinesOfUnlines | lib/ASTConsumer.cc:163-165 | splitting newline-ended lines at their newlines gives them back |
| RawOstream.OccurrencesAppend | lib/ASTConsumer.cc:224-226 | counting a line in two parts put together adds the counts |
| SlistFixture.UnitMatches | test/slist.c:43 | the only match in test/slist.c is `head`, found by the SLIST_HEAD matcher |
| SlistFixture.EntryLinkFields | test/slist.c:35-41 | `entries` is the one link field of `struct entry` |
| SlistFixture.UnitEntryLink | test/slist.c:35-43 | `slh_first` leads to `struct entry`, and its one link field `entries` is found |
| SlistFixture.UnitPrinters | test/slist.c:35-41 | `a` and `b` print with `%d` and `s` and `t` with `%s`, in that order; `entries` prints nothing |
| SlistFixture.UnitOutputLines | test/slist.c:35-43 | the output for test/slist.c is one block for `head` over `struct entry` through `entries`, with no banner |
| SlistFixture.UnitOutputText | test/slist.c:35-43 | that output is the opening format string, the four printf lines and the closing text |
| SlistFixture.UnitOutputReadBack | test/slist.c:35-43 | the output splits back into the block's lines |
| SlistFixture.UnitDiagnostics | test/slist.c:35-43 | nothing is reported for test/slist.c |
| SlistFixture.TwoLinkFieldsSlipThrough | lib/ASTConsumer.cc:186-195 | with a second SLIST_ENTRY field in `struct entry`, the written check accepts `entries` while the intended check fails with a count of 2 |

## Left out

- The Clang matcher machinery (`MatchFinder`, `varDecl`, `hasType`, `recordDecl`, `has`, `isExpandedFromMacro`) is a foreign library. It is replaced by the abstract tree and by predicates over it.
  - A record's macro provenance is a set of macro names. The set stands for every macro on the record's expansion stack.
  - Clang's traversal order of variable declarations is the order of the unit's variable list.
- Typedefs, qualifiers, enums and the other details of C types are folded into the type kinds. Whether plain `char` is signed is a flag of the `Char` kind.
- MatchesListHead and IsLinkField do not model typedefs. Clang's `hasType(recordDecl(...))` (lib/ASTConsumer.cc:112, 188) reaches the declaration through `hasDeclaration`, which stops at a typedef's own declaration. So the source does not match a head variable or a link field declared through a typedef of the macro's struct. The model has no typedef kind, so it matches them.
- `llvm::outs()` becomes the `text` of an `OutStream`. `std::format` calls are written out as their resulting strings, with `{{` and `}}` as a literal brace.
- An `assert` that aborts, or a null or empty dereference in the resolver (lib/ASTConsumer.cc:177-179, 194-195), is modelled as a `ResolveError` result.
  - The failing match prints nothing after its banner.
  - It is reported as a `Diagnostic`, and the run goes on.
  - The source aborts the process instead, or reads an invalid pointer.
- ResolveEntryLink follows the corrected `EntryLinkOf`: it hands every SLIST_ENTRY field of the entry record to the callback and fails unless there is exactly one. With several link fields the source prints the block through the first one (`EntryLinkAsWritten`; see Findings).
- PrintListIteratorForSListHeadDecl follows the corrected `EntryLinkOf`. With several link fields it prints nothing and returns `LinkFieldCount`, where the source prints the block through the first link field (`EntryLinkAsWritten`).
- HandleMatch follows the corrected `EntryLinkOf` through PrintListIteratorForSListHeadDecl. With several link fields it prints only the banner and reports the match, where the source prints the block through the first link field (`EntryLinkAsWritten`).
- HandleMatches follows the corrected `EntryLinkOf` through HandleMatch. It differs from the source only on entry records with several link fields, where the source prints the block through the first one (`EntryLinkAsWritten`).
- HandleTranslationUnit follows the corrected `EntryLinkOf`: `TranslationUnitOutput` and `Diagnostics` use it. With several link fields the source prints the block through the first one (`EntryLinkAsWritten`).
- HandleTranslationUnit: the source's nested loops become an outer loop plus the helper methods `HandleMatches` (the inner loop) and `HandleMatch` (its body). The helpers keep the same order of effects.
- Banners: the code counts every match of all six macros towards `first`, including matches that print no block. So the banner count is max(0, M − 1) over all M matches, and the model states it that way.
- The "Goal" comment in test/slist.c:45-53 does not match what the code prints (it gives `%s` for the `int` field `b`). The fixture follows the code.
- The `ASTConsumer` constructor (lib/ASTConsumer.cc:209) discards its argument. lib/PluginASTAction.cc only registers the plugin. Neither is part of this model.

## Findings

| source | as written | input that shows it | evidently intended | confidence | as-written member | corrected member |
|---|---|---|---|---|---|---|
| lib/ASTConsumer.cc:186-194 | `recordDecl(has(fieldDecl(...).bind("root")))` binds only the first child that matches, so the callback receives at most one field and `assert(1 == FDMC.Matches.size())` cannot catch an entry record with several SLIST_ENTRY fields | `struct entry` of test/slist.c with a second field `SLIST_ENTRY(entry) more;` | every SLIST_ENTRY field of the entry record is collected, and anything other than exactly one is rejected | not executed; follows from `has` binding one match per node | ASTConsumer.EntryLinkAsWritten | ASTConsumer.EntryLinkOf |

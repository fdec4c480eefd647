/** The translation unit of test/slist.c, and what the printer makes of it:
    one SLIST_HEAD list `head` of `struct entry` records, linked through the
    field `entries`.  A second unit, whose entry record has two link fields,
    shows where the written check on the link field falls short. */
module SlistFixture {
  import opened Wrappers
  import opened ClangAst
  import opened RawOstream
  import opened ASTConsumer

  const FieldA: FieldDecl := FieldDecl("a", SignedInt)
  const FieldB: FieldDecl := FieldDecl("b", SignedInt)
  const FieldS: FieldDecl := FieldDecl("s", Pointer(Char(true)))
  const FieldT: FieldDecl := FieldDecl("t", Pointer(Char(true)))
  const Entries: FieldDecl := FieldDecl("entries", Record(1))

  /** struct entry { int a; int b; char *s; char *t; SLIST_ENTRY(entry) entries; } */
  const EntryFields: seq<FieldDecl> := [FieldA, FieldB, FieldS, FieldT, Entries]

  /** The anonymous struct that SLIST_ENTRY(entry) declares. */
  const EntryLinkRecord: RecordDecl := RecordDecl("", [FieldDecl("sle_next", Pointer(Record(0)))], {"SLIST_ENTRY"})

  /** struct slisthead, declared by SLIST_HEAD(slisthead, entry). */
  const HeadRecord: RecordDecl := RecordDecl("slisthead", [FieldDecl("slh_first", Pointer(Record(0)))], {"SLIST_HEAD"})

  const HeadVar: VarDecl := VarDecl("head", Record(2))

  /** Records 0, 1 and 2 are `struct entry`, the SLIST_ENTRY struct and `struct slisthead`. */
  const Unit: TranslationUnit :=
    TranslationUnit([RecordDecl("entry", EntryFields, {}), EntryLinkRecord, HeadRecord], [HeadVar])

  const HeadMatch: QueueMacroDecl := QueueMacroDecl("SLIST_HEAD", 2, HeadVar)

  /** The only match is `head`, found by the SLIST_HEAD matcher. */
  lemma UnitMatches()
    ensures AllMatches(Unit) == [HeadMatch]
  {
    AllMatchesOrder(Unit);
    assert MacroDecls(Unit, Unit.vars, "SLIST_HEAD") == [HeadMatch];
    MacroDeclsEmpty(Unit, Unit.vars, "LIST_HEAD");
    MacroDeclsEmpty(Unit, Unit.vars, "SIMPLEQ_HEAD");
    MacroDeclsEmpty(Unit, Unit.vars, "XSIMPLEQ_HEAD");
    MacroDeclsEmpty(Unit, Unit.vars, "TAILQ_HEAD");
    MacroDeclsEmpty(Unit, Unit.vars, "STAILQ_HEAD");
  }

  /** One more field extends the link fields of a prefix by that field, if it is one. */
  lemma LinkFieldsStep(tu: TranslationUnit, fields: seq<FieldDecl>, i: nat, before: seq<FieldDecl>)
    requires i < |fields| && LinkFields(tu, fields[..i]) == before
    ensures LinkFields(tu, fields[..i + 1]) == before + (if IsLinkField(tu, fields[i]) then [fields[i]] else [])
  {
    PrefixStep(fields, i);
  }

  /** One more field extends the printers of a prefix by that field's line, if it has one. */
  lemma PrintersStep(fields: seq<FieldDecl>, i: nat, before: seq<string>)
    requires i < |fields| && Printers(8, Cursor, fields[..i]) == before
    ensures Printers(8, Cursor, fields[..i + 1]) ==
      before + (if IsClassified(fields[i]) then [PrinterLine(8, Cursor, fields[i])] else [])
  {
    PrefixStep(fields, i);
  }

  /** In a unit whose record 1 is the SLIST_ENTRY struct, `entries` is the one
      link field of `struct entry`. */
  lemma EntryLinkFields(tu: TranslationUnit)
    requires |tu.records| > 1 && tu.records[1] == EntryLinkRecord
    ensures LinkFields(tu, EntryFields) == [Entries]
  {
    LinkFieldsStep(tu, EntryFields, 0, []);
    LinkFieldsStep(tu, EntryFields, 1, []);
    LinkFieldsStep(tu, EntryFields, 2, []);
    LinkFieldsStep(tu, EntryFields, 3, []);
    LinkFieldsStep(tu, EntryFields, 4, []);
    WholeSlice(EntryFields);
  }

  /** slh_first leads to `struct entry`, whose one link field is `entries`. */
  lemma UnitEntryLink()
    ensures EntryLinkOf(Unit, 2) == Success(EntryLink(0, Entries))
  {
    EntryLinkFields(Unit);
  }

  /** The two ints print with %d and the two char pointers with %s, in declared
      order; the link field is skipped. */
  lemma UnitPrinters()
    ensures Printers(8, Cursor, EntryFields) ==
      [PrinterLine(8, Cursor, FieldA), PrinterLine(8, Cursor, FieldB),
       PrinterLine(8, Cursor, FieldS), PrinterLine(8, Cursor, FieldT)]
    ensures FormatSpecifier(FieldA.ty) == "%d" && FormatSpecifier(FieldB.ty) == "%d"
    ensures FormatSpecifier(FieldS.ty) == "%s" && FormatSpecifier(FieldT.ty) == "%s"
  {
    var a, b, s, t := PrinterLine(8, Cursor, FieldA), PrinterLine(8, Cursor, FieldB),
                      PrinterLine(8, Cursor, FieldS), PrinterLine(8, Cursor, FieldT);
    PrintersStep(EntryFields, 0, []);
    PrintersStep(EntryFields, 1, [a]);
    PrintersStep(EntryFields, 2, [a, b]);
    PrintersStep(EntryFields, 3, [a, b, s]);
    PrintersStep(EntryFields, 4, [a, b, s, t]);
    WholeSlice(EntryFields);
  }

  /** The lines printed for test/slist.c: the block for `head`, and no banner. */
  lemma UnitOutputLines()
    ensures OutputLines(Unit, AllMatches(Unit)) == BlockLines("entry", "head", "entries", EntryFields)
  {
    UnitMatches();
    UnitEntryLink();
    assert OutputLines(Unit, [HeadMatch]) == MatchLines(Unit, HeadMatch);
  }

  /** The text printed for test/slist.c is the first format string, the
      printers and the closing format string. */
  lemma UnitOutputText()
    ensures TranslationUnitOutput(Unit) ==
      HeaderFormat("entry", "head", "entries") + Unlines(Printers(8, Cursor, EntryFields)) + "    }\n}\n"
  {
    UnitOutputLines();
    BlockText("entry", "head", "entries", EntryFields);
    BlockHeaderText("entry", "head", "entries");
    BlockFooterText();
  }

  /** No record, field or variable name of test/slist.c holds a newline. */
  lemma UnitNamesWithoutNewlines()
    ensures NamesWithoutNewlines(Unit)
  {
    assert NoNewline("entry") && NoNewline("") && NoNewline("slisthead") && NoNewline("head");
    assert NoNewline("a") && NoNewline("b") && NoNewline("s") && NoNewline("t") && NoNewline("entries");
    assert NoNewline("sle_next") && NoNewline("slh_first");
  }

  /** Read back line by line, the text gives back the lines printed. */
  lemma UnitOutputReadBack()
    ensures Lines(TranslationUnitOutput(Unit)) == BlockLines("entry", "head", "entries", EntryFields)
  {
    UnitNamesWithoutNewlines();
    OutputReadBack(Unit);
    UnitOutputLines();
  }

  /** Nothing in test/slist.c is reported. */
  lemma UnitDiagnostics()
    ensures Diagnostics(Unit, AllMatches(Unit)) == []
  {
    UnitMatches();
    UnitEntryLink();
    assert Diagnostics(Unit, [HeadMatch]) == DiagnosticsOf(Unit, HeadMatch);
  }

  /** The same list whose entry record has a second SLIST_ENTRY field, `more`. */
  const More: FieldDecl := FieldDecl("more", Record(1))

  const TwoLinkUnit: TranslationUnit :=
    TranslationUnit([RecordDecl("entry", EntryFields + [More], {}), EntryLinkRecord, HeadRecord], [HeadVar])

  /** The written check accepts the first link field, `entries`; the intended
      one reports that the entry record has two. */
  lemma TwoLinkFieldsSlipThrough()
    ensures EntryLinkAsWritten(TwoLinkUnit, 2) == Success(EntryLink(0, Entries))
    ensures EntryLinkOf(TwoLinkUnit, 2) == Failure(LinkFieldCount(2))
  {
    EntryLinkFields(TwoLinkUnit);
    LinkFieldsAppend(TwoLinkUnit, EntryFields, [More]);
    assert LinkFields(TwoLinkUnit, [More]) == [More];
    AsWrittenAcceptsSeveralLinkFields(TwoLinkUnit, 2, 0);
  }
}

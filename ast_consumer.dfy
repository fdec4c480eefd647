/** The list-macro printer: finds variables whose type was declared with one of
    the list-head macros of OpenBSD's sys/queue.h and, for each SLIST_HEAD one,
    prints a C block that walks the list and printf()s every field of its entries
    whose type it can classify. */
module ASTConsumer {
  import opened Wrappers
  import opened ClangAst
  import opened RawOstream

  /** The list-head macros, in the order they are processed. */
  const QueueMacroDeclNames: seq<string> :=
    ["SLIST_HEAD", "LIST_HEAD", "SIMPLEQ_HEAD", "XSIMPLEQ_HEAD", "TAILQ_HEAD", "STAILQ_HEAD"]

  /** The only list-head macro for which a traversal block is printed. */
  const SlistHead: string := "SLIST_HEAD"

  /** The macro that declares the link field inside an SLIST entry record. */
  const SlistEntry: string := "SLIST_ENTRY"

  /** The cursor variable of every generated traversal block. */
  const Cursor: string := "__openbsd_list_iterator"

  /** The separator printed before every match but the first: 80 '#'. */
  const Banner: string := Repeat('#', 80)

  function Repeat(c: char, n: nat): (s: string)
    ensures |s| == n && forall k :: 0 <= k < n ==> s[k] == c
  {
    seq(n, _ => c)
  }

  function Spaces(n: nat): (s: string)
    ensures |s| == n && forall k :: 0 <= k < n ==> s[k] == ' '
  {
    Repeat(' ', n)
  }

  // ---------------------------------------------------------------------------
  // Locating list-head declarations
  // ---------------------------------------------------------------------------

  /** A variable whose type was declared by the list-head macro `macroName`,
      with the record declaration of that type. */
  datatype QueueMacroDecl = QueueMacroDecl(macroName: string, recordDecl: RecordId, varDecl: VarDecl)

  /** The matcher varDecl(hasType(recordDecl(isExpandedFromMacro(macro)))). */
  predicate MatchesListHead(tu: TranslationUnit, v: VarDecl, macro: string)
  {
    HasRecordTypeExpandedFrom(tu, v.ty, macro)
  }

  /** The match records for `macro` among `vars`, in the order of `vars`. */
  function MacroDecls(tu: TranslationUnit, vars: seq<VarDecl>, macro: string): (ds: seq<QueueMacroDecl>)
    ensures |ds| <= |vars|
    ensures forall k :: 0 <= k < |ds| ==>
      ds[k].macroName == macro && ds[k].varDecl in vars && MatchesListHead(tu, ds[k].varDecl, macro)
      && ds[k].recordDecl == ds[k].varDecl.ty.decl && ds[k].recordDecl < |tu.records|
    decreases |vars|
  {
    if vars == [] then []
    else
      var v := vars[|vars| - 1];
      MacroDecls(tu, vars[..|vars| - 1], macro)
        + (if MatchesListHead(tu, v, macro) then [QueueMacroDecl(macro, v.ty.decl, v)] else [])
  }

  /** The positions in `vars` of the variables that match, in increasing order. */
  function MatchPositions(tu: TranslationUnit, vars: seq<VarDecl>, macro: string): (ps: seq<nat>)
    ensures forall k :: 0 <= k < |ps| ==> ps[k] < |vars|
    decreases |vars|
  {
    if vars == [] then []
    else
      var n := |vars| - 1;
      MatchPositions(tu, vars[..n], macro) + (if MatchesListHead(tu, vars[n], macro) then [n] else [])
  }

  /** The locator's k-th match record comes from the k-th matching variable. */
  lemma {:induction false} MacroDeclsAtPositions(tu: TranslationUnit, vars: seq<VarDecl>, macro: string)
    ensures |MatchPositions(tu, vars, macro)| == |MacroDecls(tu, vars, macro)|
    ensures forall k :: 0 <= k < |MatchPositions(tu, vars, macro)| ==>
      var j := MatchPositions(tu, vars, macro)[k];
      MatchesListHead(tu, vars[j], macro)
      && MacroDecls(tu, vars, macro)[k] == QueueMacroDecl(macro, vars[j].ty.decl, vars[j])
    decreases |vars|
  {
    if vars != [] {
      var n := |vars| - 1;
      var prefix := vars[..n];
      MacroDeclsAtPositions(tu, prefix, macro);
      var ps0, ds0 := MatchPositions(tu, prefix, macro), MacroDecls(tu, prefix, macro);
      var ps, ds := MatchPositions(tu, vars, macro), MacroDecls(tu, vars, macro);
      forall k | 0 <= k < |ps0|
        ensures ps[k] == ps0[k] && ds[k] == ds0[k] && vars[ps0[k]] == prefix[ps0[k]]
      {
      }
    }
  }

  /** Each matching variable is kept once: the positions increase strictly. */
  lemma {:induction false} MatchPositionsIncrease(tu: TranslationUnit, vars: seq<VarDecl>, macro: string)
    ensures forall k, l :: 0 <= k < l < |MatchPositions(tu, vars, macro)| ==>
      MatchPositions(tu, vars, macro)[k] < MatchPositions(tu, vars, macro)[l]
    decreases |vars|
  {
    if vars != [] {
      var n := |vars| - 1;
      MatchPositionsIncrease(tu, vars[..n], macro);
    }
  }

  /** No matching variable is missed. */
  lemma {:induction false} MatchPositionsComplete(tu: TranslationUnit, vars: seq<VarDecl>, macro: string)
    ensures forall j :: 0 <= j < |vars| && MatchesListHead(tu, vars[j], macro) ==> j in MatchPositions(tu, vars, macro)
    decreases |vars|
  {
    if vars != [] {
      var n := |vars| - 1;
      var prefix := vars[..n];
      MatchPositionsComplete(tu, prefix, macro);
      forall j | 0 <= j < n
        ensures vars[j] == prefix[j]
      {
      }
    }
  }

  /** The locator finds nothing exactly when no variable matches. */
  lemma MacroDeclsEmpty(tu: TranslationUnit, vars: seq<VarDecl>, macro: string)
    ensures MacroDecls(tu, vars, macro) == [] <==>
      forall j :: 0 <= j < |vars| ==> !MatchesListHead(tu, vars[j], macro)
  {
    MacroDeclsAtPositions(tu, vars, macro);
    MatchPositionsComplete(tu, vars, macro);
    var ps := MatchPositions(tu, vars, macro);
    if ps != [] {
      assert MatchesListHead(tu, vars[ps[0]], macro);
    }
  }

  /** OpenBSDListMacroDeclMatchCallback: collects a match record for every
      variable the list-head matcher hands it. */
  class ListMacroDeclMatchCallback {
    const macroName: string
    var matches: seq<QueueMacroDecl>

    constructor (macroName: string)
      ensures this.macroName == macroName && matches == []
    {
      this.macroName := macroName;
      matches := [];
    }

    method Run(tu: TranslationUnit, v: VarDecl)
      requires MatchesListHead(tu, v, macroName)
      modifies this
      ensures matches == old(matches) + [QueueMacroDecl(macroName, v.ty.decl, v)]
    {
      var recordDecl := GetAsRecordDecl(tu, v.ty);
      matches := matches + [QueueMacroDecl(macroName, recordDecl.value, v)];
    }
  }

  /** Runs the list-head matcher for `macro` over the translation unit: Clang's
      traversal hands the callback each matching variable in traversal order. */
  method FindOpenBSDQueueMacroDecls(tu: TranslationUnit, macro: string) returns (ds: seq<QueueMacroDecl>)
    ensures ds == MacroDecls(tu, tu.vars, macro)
  {
    var callback := new ListMacroDeclMatchCallback(macro);
    for i := 0 to |tu.vars|
      invariant callback.matches == MacroDecls(tu, tu.vars[..i], macro)
    {
      var v := tu.vars[i];
      assert tu.vars[..i + 1][..i] == tu.vars[..i];
      if MatchesListHead(tu, v, macro) {
        callback.Run(tu, v);
      }
    }
    assert tu.vars[..|tu.vars|] == tu.vars;
    ds := callback.matches;
  }

  // ---------------------------------------------------------------------------
  // Field printers
  // ---------------------------------------------------------------------------

  /** The printf conversion for a field of type `t`, or "" when the field is not
      printed.  The string test is made first and the two integer tests may
      overwrite it, unsigned before signed. */
  function FormatSpecifier(t: Type): string
  {
    var fromPointer := if IsPointerToChar(t) then "%s" else "";
    if IsUnsignedIntegerType(t) then "%u" else if IsSignedIntegerType(t) then "%d" else fromPointer
  }

  /** Each conversion is chosen exactly for its class of types; a type in no
      class, a record type among them, gets none. */
  lemma FormatSpecifierClassifies(t: Type)
    ensures FormatSpecifier(t) == "%s" <==> IsPointerToChar(t)
    ensures FormatSpecifier(t) == "%u" <==> IsUnsignedIntegerType(t)
    ensures FormatSpecifier(t) == "%d" <==> IsSignedIntegerType(t) && !IsUnsignedIntegerType(t)
    ensures FormatSpecifier(t) == "" <==> !IsPointerToChar(t) && !IsUnsignedIntegerType(t) && !IsSignedIntegerType(t)
    ensures t.Record? ==> FormatSpecifier(t) == ""
  {
  }

  /** A field that gets a printf line: one whose FormatSpecifier is not "". */
  predicate IsClassified(f: FieldDecl)
  {
    IsPointerToChar(f.ty) || IsUnsignedIntegerType(f.ty) || IsSignedIntegerType(f.ty)
  }

  /** The printf line for field `f` of the record that `varName` points to, without its newline. */
  function PrinterLine(indent: nat, varName: string, f: FieldDecl): string
  {
    Spaces(indent) + "printf(\"" + FormatSpecifier(f.ty) + "\", " + (varName + "->" + f.name) + ");"
  }

  /** The printf lines for `fields`, in declared order. */
  function Printers(indent: nat, varName: string, fields: seq<FieldDecl>): (lines: seq<string>)
    ensures |lines| <= |fields|
    decreases |fields|
  {
    if fields == [] then []
    else
      var f := fields[|fields| - 1];
      Printers(indent, varName, fields[..|fields| - 1])
        + (if IsClassified(f) then [PrinterLine(indent, varName, f)] else [])
  }

  /** The positions of the classified fields, in increasing order. */
  function ClassifiedPositions(fields: seq<FieldDecl>): (ps: seq<nat>)
    ensures forall k :: 0 <= k < |ps| ==> ps[k] < |fields|
    decreases |fields|
  {
    if fields == [] then []
    else
      var n := |fields| - 1;
      ClassifiedPositions(fields[..n]) + (if IsClassified(fields[n]) then [n] else [])
  }

  /** The k-th printer line is the line of the k-th classified field. */
  lemma {:induction false} PrintersAtPositions(indent: nat, varName: string, fields: seq<FieldDecl>)
    ensures |ClassifiedPositions(fields)| == |Printers(indent, varName, fields)|
    ensures forall k :: 0 <= k < |ClassifiedPositions(fields)| ==>
      var j := ClassifiedPositions(fields)[k];
      IsClassified(fields[j]) && Printers(indent, varName, fields)[k] == PrinterLine(indent, varName, fields[j])
    decreases |fields|
  {
    if fields != [] {
      var n := |fields| - 1;
      var prefix := fields[..n];
      PrintersAtPositions(indent, varName, prefix);
      var ps0, ls0 := ClassifiedPositions(prefix), Printers(indent, varName, prefix);
      var ps, ls := ClassifiedPositions(fields), Printers(indent, varName, fields);
      forall k | 0 <= k < |ps0|
        ensures ps[k] == ps0[k] && ls[k] == ls0[k] && fields[ps0[k]] == prefix[ps0[k]]
      {
      }
    }
  }

  /** Each classified field is kept once: the positions increase strictly. */
  lemma {:induction false} ClassifiedPositionsIncrease(fields: seq<FieldDecl>)
    ensures forall k, l :: 0 <= k < l < |ClassifiedPositions(fields)| ==>
      ClassifiedPositions(fields)[k] < ClassifiedPositions(fields)[l]
    decreases |fields|
  {
    if fields != [] {
      ClassifiedPositionsIncrease(fields[..|fields| - 1]);
    }
  }

  /** No classified field is missed. */
  lemma {:induction false} ClassifiedPositionsComplete(fields: seq<FieldDecl>)
    ensures forall j :: 0 <= j < |fields| && IsClassified(fields[j]) ==> j in ClassifiedPositions(fields)
    decreases |fields|
  {
    if fields != [] {
      var n := |fields| - 1;
      var prefix := fields[..n];
      ClassifiedPositionsComplete(prefix);
      forall j | 0 <= j < n
        ensures fields[j] == prefix[j]
      {
      }
    }
  }

  /** One line per classified field and none for the others, in declared order:
      `idx` lists the positions of the fields the lines come from. */
  lemma PrintersCharacterization(indent: nat, varName: string, fields: seq<FieldDecl>)
    returns (idx: seq<nat>)
    ensures |idx| == |Printers(indent, varName, fields)|
    ensures forall k :: 0 <= k < |idx| ==>
      idx[k] < |fields| && IsClassified(fields[idx[k]])
      && Printers(indent, varName, fields)[k] == PrinterLine(indent, varName, fields[idx[k]])
    ensures forall k, l :: 0 <= k < l < |idx| ==> idx[k] < idx[l]
    ensures forall j :: 0 <= j < |fields| && IsClassified(fields[j]) ==> j in idx
  {
    idx := ClassifiedPositions(fields);
    PrintersAtPositions(indent, varName, fields);
    ClassifiedPositionsIncrease(fields);
    ClassifiedPositionsComplete(fields);
  }

  /** Every printer line starts with its indentation. */
  lemma {:induction false} PrinterLinesIndented(indent: nat, varName: string, fields: seq<FieldDecl>)
    requires indent > 0
    ensures forall k :: 0 <= k < |Printers(indent, varName, fields)| ==>
      |Printers(indent, varName, fields)[k]| > 0 && Printers(indent, varName, fields)[k][0] == ' '
    decreases |fields|
  {
    if fields != [] {
      PrinterLinesIndented(indent, varName, fields[..|fields| - 1]);
    }
  }

  /** No printer line holds a newline when the names it is made of hold none. */
  lemma {:induction false} PrinterLinesWithoutNewlines(indent: nat, varName: string, fields: seq<FieldDecl>)
    requires NoNewline(varName) && forall j :: 0 <= j < |fields| ==> NoNewline(fields[j].name)
    ensures forall k :: 0 <= k < |Printers(indent, varName, fields)| ==> NoNewline(Printers(indent, varName, fields)[k])
    decreases |fields|
  {
    if fields != [] {
      var n := |fields| - 1;
      assert forall j :: 0 <= j < n ==> fields[..n][j] == fields[j];
      PrinterLinesWithoutNewlines(indent, varName, fields[..n]);
      assert NoNewline(Spaces(indent));
    }
  }

  /** PrintPrintersForRecordDeclFields: writes the printf line of every classified
      field of `recordDecl`, in declared order. */
  method PrintPrintersForRecordDeclFields(indent: nat, recordDeclVarName: string, recordDecl: RecordDecl, out: OutStream)
    modifies out
    ensures out.text == old(out.text) + Unlines(Printers(indent, recordDeclVarName, recordDecl.fields))
  {
    var fields := recordDecl.fields;
    for i := 0 to |fields|
      invariant out.text == old(out.text) + Unlines(Printers(indent, recordDeclVarName, fields[..i]))
    {
      ghost var before := out.text;
      PrintPrinterForField(indent, recordDeclVarName, fields[i], out);
      PrintersSnoc(indent, recordDeclVarName, fields, i, old(out.text), before, out.text);
    }
    WholeSlice(fields);
  }

  /** Writing the line of field `i` extends the text of the first `i` fields to that of the first `i + 1`. */
  lemma PrintersSnoc(indent: nat, varName: string, fields: seq<FieldDecl>, i: nat, base: string, before: string, after: string)
    requires i < |fields|
    requires before == base + Unlines(Printers(indent, varName, fields[..i]))
    requires after == before + Unlines(if IsClassified(fields[i]) then [PrinterLine(indent, varName, fields[i])] else [])
    ensures after == base + Unlines(Printers(indent, varName, fields[..i + 1]))
  {
    var line := if IsClassified(fields[i]) then [PrinterLine(indent, varName, fields[i])] else [];
    PrefixStep(fields, i);
    assert Printers(indent, varName, fields[..i + 1]) == Printers(indent, varName, fields[..i]) + line;
    UnlinesAppend(Printers(indent, varName, fields[..i]), line);
    ConcatAssoc(base, Unlines(Printers(indent, varName, fields[..i])), Unlines(line));
  }

  /** The body of the loop of PrintPrintersForRecordDeclFields, for one field:
      choose the format specifier and write the printf line if there is one. */
  method PrintPrinterForField(indent: nat, recordDeclVarName: string, field: FieldDecl, out: OutStream)
    modifies out
    ensures out.text == old(out.text) + Unlines(if IsClassified(field) then [PrinterLine(indent, recordDeclVarName, field)] else [])
  {
    var formatSpecifier := "";
    var printfArgument := recordDeclVarName + "->" + field.name;
    var t := field.ty;
    if IsPointerToChar(t) {
      formatSpecifier := "%s";
    }
    if IsUnsignedIntegerType(t) {
      formatSpecifier := "%u";
    } else if IsSignedIntegerType(t) {
      formatSpecifier := "%d";
    }
    assert formatSpecifier == FormatSpecifier(t);
    if formatSpecifier != "" {
      var line := Spaces(indent) + "printf(\"" + formatSpecifier + "\", " + printfArgument + ");";
      out.Write(line + "\n");
      UnlinesSnoc([], line);
    }
  }

  // ---------------------------------------------------------------------------
  // Resolving the entry record and its link field
  // ---------------------------------------------------------------------------

  /** Why a list head could not be printed. */
  datatype ResolveError =
    | HeadRecordHasNoFields           // the head record has no first field
    | FirstFieldNotPointerToRecord    // the first field does not point to a record
    | LinkFieldCount(count: nat)      // the entry record has `count` SLIST_ENTRY fields, not one

  /** The entry record of a list and the field that links its entries. */
  datatype EntryLink = EntryLink(entry: RecordId, link: FieldDecl)

  /** The matcher fieldDecl(hasType(recordDecl(isExpandedFromMacro("SLIST_ENTRY")))). */
  predicate IsLinkField(tu: TranslationUnit, f: FieldDecl)
  {
    HasRecordTypeExpandedFrom(tu, f.ty, SlistEntry)
  }

  /** The link fields among `fields`, in declared order. */
  function LinkFields(tu: TranslationUnit, fields: seq<FieldDecl>): (links: seq<FieldDecl>)
    ensures |links| <= |fields|
    decreases |fields|
  {
    if fields == [] then []
    else
      var f := fields[|fields| - 1];
      LinkFields(tu, fields[..|fields| - 1]) + (if IsLinkField(tu, f) then [f] else [])
  }

  /** The link fields in order, each once: `idx` lists their positions. */
  lemma {:induction false} LinkFieldsCharacterization(tu: TranslationUnit, fields: seq<FieldDecl>)
    returns (idx: seq<nat>)
    ensures |idx| == |LinkFields(tu, fields)|
    ensures forall k :: 0 <= k < |idx| ==>
      idx[k] < |fields| && IsLinkField(tu, fields[idx[k]]) && LinkFields(tu, fields)[k] == fields[idx[k]]
    ensures forall k, l :: 0 <= k < l < |idx| ==> idx[k] < idx[l]
    ensures forall j :: 0 <= j < |fields| && IsLinkField(tu, fields[j]) ==> j in idx
    decreases |fields|
  {
    if fields == [] {
      idx := [];
    } else {
      var n := |fields| - 1;
      var prefix := fields[..n];
      var idx0 := LinkFieldsCharacterization(tu, prefix);
      var ls0, ls := LinkFields(tu, prefix), LinkFields(tu, fields);
      if IsLinkField(tu, fields[n]) {
        idx := idx0 + [n];
        assert ls == ls0 + [fields[n]];
      } else {
        idx := idx0;
        assert ls == ls0;
      }
      forall k | 0 <= k < |idx0|
        ensures fields[idx0[k]] == prefix[idx0[k]]
      {
      }
      forall j | 0 <= j < |fields| && IsLinkField(tu, fields[j])
        ensures j in idx
      {
        if j < n {
          assert prefix[j] == fields[j];
        }
      }
    }
  }

  lemma {:induction false} LinkFieldsAppend(tu: TranslationUnit, a: seq<FieldDecl>, b: seq<FieldDecl>)
    ensures LinkFields(tu, a + b) == LinkFields(tu, a) + LinkFields(tu, b)
    decreases |b|
  {
    if b == [] {
      assert a + b == a;
    } else {
      var b' := b[..|b| - 1];
      assert (a + b)[..|a + b| - 1] == a + b';
      LinkFieldsAppend(tu, a, b');
    }
  }

  /** Field `j` is the one and only link field of `fields`. */
  predicate UniqueLinkFieldAt(tu: TranslationUnit, fields: seq<FieldDecl>, j: nat)
  {
    j < |fields| && IsLinkField(tu, fields[j])
    && forall i :: 0 <= i < |fields| && i != j ==> !IsLinkField(tu, fields[i])
  }

  /** The entry record: the record the head record's first field points to. */
  function EntryRecordOf(tu: TranslationUnit, head: RecordId): (r: Result<RecordId, ResolveError>)
    requires head < |tu.records|
    ensures r.Success? ==> r.value < |tu.records|
  {
    var headFields := tu.records[head].fields;
    if |headFields| == 0 then Failure(HeadRecordHasNoFields)
    else if !headFields[0].ty.Pointer? then Failure(FirstFieldNotPointerToRecord)
    else match GetAsRecordDecl(tu, headFields[0].ty.pointee)
      case None => Failure(FirstFieldNotPointerToRecord)
      case Some(entry) => Success(entry)
  }

  /** The entry record is found exactly when the head record's first field
      points to a record, and it is that record; a head record without fields
      is told apart from one whose first field points elsewhere. */
  lemma EntryRecordOfCharacterization(tu: TranslationUnit, head: RecordId)
    requires head < |tu.records|
    ensures EntryRecordOf(tu, head).Success? <==>
      |tu.records[head].fields| > 0 && tu.records[head].fields[0].ty.Pointer?
      && GetAsRecordDecl(tu, tu.records[head].fields[0].ty.pointee).Some?
    ensures EntryRecordOf(tu, head).Success? ==>
      tu.records[head].fields[0].ty == Pointer(Record(EntryRecordOf(tu, head).value))
    ensures EntryRecordOf(tu, head) == Failure(HeadRecordHasNoFields) <==> |tu.records[head].fields| == 0
    ensures EntryRecordOf(tu, head).Failure? ==>
      EntryRecordOf(tu, head).error.HeadRecordHasNoFields? || EntryRecordOf(tu, head).error.FirstFieldNotPointerToRecord?
  {
  }

  /** The link field of an entry record: its SLIST_ENTRY fields must be exactly one. */
  function LinkFieldOf(tu: TranslationUnit, fields: seq<FieldDecl>): Result<FieldDecl, ResolveError>
  {
    var links := LinkFields(tu, fields);
    if |links| != 1 then Failure(LinkFieldCount(|links|)) else Success(links[0])
  }

  /** The link field is found exactly when there is one and only one, and it is
      that field; otherwise the error counts the link fields, zero or several. */
  lemma LinkFieldOfCharacterization(tu: TranslationUnit, fields: seq<FieldDecl>)
    ensures LinkFieldOf(tu, fields).Success? <==> exists j: nat :: UniqueLinkFieldAt(tu, fields, j)
    ensures forall j: nat :: UniqueLinkFieldAt(tu, fields, j) ==> LinkFieldOf(tu, fields) == Success(fields[j])
    ensures LinkFieldOf(tu, fields).Failure? ==> LinkFieldOf(tu, fields).error.LinkFieldCount?
    ensures LinkFieldOf(tu, fields) == Failure(LinkFieldCount(0)) <==>
      forall j :: 0 <= j < |fields| ==> !IsLinkField(tu, fields[j])
    ensures (LinkFieldOf(tu, fields).Failure? && LinkFieldOf(tu, fields).error.count > 1) <==>
      exists i, j :: 0 <= i < j < |fields| && IsLinkField(tu, fields[i]) && IsLinkField(tu, fields[j])
  {
    var idx := LinkFieldsCharacterization(tu, fields);
    if |idx| == 1 {
      assert UniqueLinkFieldAt(tu, fields, idx[0]);
      forall j: nat | UniqueLinkFieldAt(tu, fields, j)
        ensures j == idx[0]
      {
      }
    } else {
      if |idx| > 1 {
        assert IsLinkField(tu, fields[idx[0]]) && IsLinkField(tu, fields[idx[1]]) && idx[0] < idx[1];
      }
      forall j: nat | UniqueLinkFieldAt(tu, fields, j)
        ensures false
      {
      }
    }
  }

  /** The entry record reached through the head record's first field, and the
      link field of that entry record. */
  function EntryLinkOf(tu: TranslationUnit, head: RecordId): (r: Result<EntryLink, ResolveError>)
    requires head < |tu.records|
    ensures r.Success? ==> r.value.entry < |tu.records|
  {
    match EntryRecordOf(tu, head)
    case Failure(e) => Failure(e)
    case Success(entry) =>
      match LinkFieldOf(tu, tu.records[entry].fields)
      case Failure(e) => Failure(e)
      case Success(link) => Success(EntryLink(entry, link))
  }

  /** FieldDeclarationMatcherCallback: collects every field handed to it. */
  class FieldDeclMatchCallback {
    var matches: seq<FieldDecl>

    constructor ()
      ensures matches == []
    {
      matches := [];
    }

    method Run(f: FieldDecl)
      modifies this
      ensures matches == old(matches) + [f]
    {
      matches := matches + [f];
    }
  }

  /** The first half of PrintListIteratorForSLIST_HEADDecl, with the corrected
      link-field match: follow the head's first field to the entry record, hand
      every SLIST_ENTRY field of it to the callback and insist on exactly one.
      The matcher as written hands over only the first such field; see
      EntryLinkAsWritten. */
  method ResolveEntryLink(tu: TranslationUnit, slistHeadDecl: QueueMacroDecl) returns (r: Result<EntryLink, ResolveError>)
    requires slistHeadDecl.recordDecl < |tu.records|
    ensures r == EntryLinkOf(tu, slistHeadDecl.recordDecl)
  {
    var recordDecl := tu.records[slistHeadDecl.recordDecl];
    if |recordDecl.fields| == 0 {
      return Failure(HeadRecordHasNoFields);
    }
    var firstFieldDecl := recordDecl.fields[0];
    if !firstFieldDecl.ty.Pointer? {
      return Failure(FirstFieldNotPointerToRecord);
    }
    var entryId := GetAsRecordDecl(tu, firstFieldDecl.ty.pointee);
    if entryId.None? {
      return Failure(FirstFieldNotPointerToRecord);
    }
    var entryFields := tu.records[entryId.value].fields;
    var fdmc := new FieldDeclMatchCallback();
    for i := 0 to |entryFields|
      invariant fdmc.matches == LinkFields(tu, entryFields[..i])
    {
      assert entryFields[..i + 1][..i] == entryFields[..i];
      if IsLinkField(tu, entryFields[i]) {
        fdmc.Run(entryFields[i]);
      }
    }
    assert entryFields[..|entryFields|] == entryFields;
    if |fdmc.matches| != 1 {
      return Failure(LinkFieldCount(|fdmc.matches|));
    }
    r := Success(EntryLink(entryId.value, fdmc.matches[0]));
  }

  // ---------------------------------------------------------------------------
  // The matcher as written: `has` binds only the first matching field
  // ---------------------------------------------------------------------------

  /** The fields recordDecl(has(fieldDecl(...).bind("root"))) hands to its callback
      for one record: `has` stops at the first child that matches, so at most one. */
  function HasLinkFieldMatches(tu: TranslationUnit, fields: seq<FieldDecl>): (ms: seq<FieldDecl>)
    ensures |ms| <= 1
    ensures ms == [] <==> LinkFields(tu, fields) == []
    ensures ms != [] ==> ms[0] == LinkFields(tu, fields)[0]
    decreases |fields|
  {
    if fields == [] then []
    else
      LinkFieldsAppend(tu, [fields[0]], fields[1..]);
      assert [fields[0]] + fields[1..] == fields;
      if IsLinkField(tu, fields[0]) then [fields[0]]
      else HasLinkFieldMatches(tu, fields[1..])
  }

  /** EntryLinkOf as lib/ASTConsumer.cc writes it: the size check sees only what `has` bound. */
  function EntryLinkAsWritten(tu: TranslationUnit, head: RecordId): (r: Result<EntryLink, ResolveError>)
    requires head < |tu.records|
    ensures r.Failure? && r.error.LinkFieldCount? ==> r.error.count == 0
  {
    match EntryRecordOf(tu, head)
    case Failure(e) => Failure(e)
    case Success(entry) =>
      var matches := HasLinkFieldMatches(tu, tu.records[entry].fields);
      if |matches| != 1 then Failure(LinkFieldCount(|matches|)) else Success(EntryLink(entry, matches[0]))
  }

  /** With two or more link fields the written check lets the first one through,
      where the intended check reports the mismatch. */
  lemma AsWrittenAcceptsSeveralLinkFields(tu: TranslationUnit, head: RecordId, entry: RecordId)
    requires head < |tu.records| && entry < |tu.records|
    requires |tu.records[head].fields| > 0 && tu.records[head].fields[0].ty == Pointer(Record(entry))
    requires |LinkFields(tu, tu.records[entry].fields)| >= 2
    ensures EntryLinkAsWritten(tu, head) == Success(EntryLink(entry, LinkFields(tu, tu.records[entry].fields)[0]))
    ensures EntryLinkOf(tu, head) == Failure(LinkFieldCount(|LinkFields(tu, tu.records[entry].fields)|))
  {
    var ms := HasLinkFieldMatches(tu, tu.records[entry].fields);
    assert |ms| == 1;
  }

  // ---------------------------------------------------------------------------
  // The traversal block
  // ---------------------------------------------------------------------------

  /** The three opening lines of the block that walks list `varName` of
      `entryName` records linked through `linkName`. */
  function BlockHeader(entryName: string, varName: string, linkName: string): seq<string>
  {
    ["{",
     "    struct " + entryName + " * __openbsd_list_iterator;",
     "    SLIST_FOREACH(__openbsd_list_iterator, &" + varName + ", " + linkName + ") {"]
  }

  /** The two closing lines of the block. */
  function BlockFooter(): seq<string>
  {
    ["    }", "}"]
  }

  /** The block that walks list `varName` of `entryName` records linked through
      `linkName`, printing the classified fields of each entry. */
  function BlockLines(entryName: string, varName: string, linkName: string, entryFields: seq<FieldDecl>): seq<string>
  {
    BlockHeader(entryName, varName, linkName) + Printers(8, Cursor, entryFields) + BlockFooter()
  }

  /** The first format string of PrintListIteratorForSLIST_HEADDecl with its
      three arguments substituted, written line by line. */
  function HeaderFormat(entryName: string, varName: string, linkName: string): string
  {
    "{\n"
    + ("    struct " + entryName + " * __openbsd_list_iterator;\n")
    + ("    SLIST_FOREACH(__openbsd_list_iterator, &" + varName + ", " + linkName + ") {\n")
  }

  /** The second header line, ended by its newline, is the second line of the format string. */
  lemma StructLineEnded(entryName: string)
    ensures ("    struct " + entryName + " * __openbsd_list_iterator;") + "\n"
         == "    struct " + entryName + " * __openbsd_list_iterator;\n"
  {
    ConcatAssoc("    struct " + entryName, " * __openbsd_list_iterator;", "\n");
  }

  /** The third header line, ended by its newline, is the third line of the format string. */
  lemma ForeachLineEnded(varName: string, linkName: string)
    ensures ("    SLIST_FOREACH(__openbsd_list_iterator, &" + varName + ", " + linkName + ") {") + "\n"
         == "    SLIST_FOREACH(__openbsd_list_iterator, &" + varName + ", " + linkName + ") {\n"
  {
    ConcatAssoc("    SLIST_FOREACH(__openbsd_list_iterator, &" + varName + ", " + linkName, ") {", "\n");
  }

  /** The header lines are exactly the first format string's output. */
  lemma BlockHeaderText(entryName: string, varName: string, linkName: string)
    ensures Unlines(BlockHeader(entryName, varName, linkName)) == HeaderFormat(entryName, varName, linkName)
  {
    var l1 := "    struct " + entryName + " * __openbsd_list_iterator;";
    var l2 := "    SLIST_FOREACH(__openbsd_list_iterator, &" + varName + ", " + linkName + ") {";
    UnlinesCons(l2, []);
    UnlinesCons(l1, [l2]);
    UnlinesCons("{", [l1, l2]);
    assert [l1] + [l2] == [l1, l2];
    assert ["{"] + [l1, l2] == BlockHeader(entryName, varName, linkName);
    StructLineEnded(entryName);
    ForeachLineEnded(varName, linkName);
  }

  /** The footer lines are the second format string. */
  lemma BlockFooterText()
    ensures Unlines(BlockFooter()) == "    }\n}\n"
  {
    UnlinesCons("}", []);
    UnlinesCons("    }", ["}"]);
    assert ["    }"] + ["}"] == BlockFooter();
  }

  /** The block's text is the printers' text framed by the two format strings. */
  lemma BlockText(entryName: string, varName: string, linkName: string, entryFields: seq<FieldDecl>)
    ensures Unlines(BlockLines(entryName, varName, linkName, entryFields)) ==
      Unlines(BlockHeader(entryName, varName, linkName))
      + Unlines(Printers(8, Cursor, entryFields))
      + Unlines(BlockFooter())
  {
    var h, p := BlockHeader(entryName, varName, linkName), Printers(8, Cursor, entryFields);
    UnlinesAppend(h, p);
    UnlinesAppend(h + p, BlockFooter());
  }

  /** The lines printed for an SLIST_HEAD match: its block, or nothing when its
      entry link cannot be resolved. */
  function SlistBlockLines(tu: TranslationUnit, d: QueueMacroDecl): seq<string>
    requires d.recordDecl < |tu.records|
  {
    match EntryLinkOf(tu, d.recordDecl)
    case Failure(_) => []
    case Success(l) => BlockLines(tu.records[l.entry].name, d.varDecl.name, l.link.name, tu.records[l.entry].fields)
  }

  /** PrintListIteratorForSLIST_HEADDecl: resolves the entry link and, when that
      succeeds, prints the traversal block; on failure it prints nothing. */
  method PrintListIteratorForSListHeadDecl(tu: TranslationUnit, slistHeadDecl: QueueMacroDecl, out: OutStream)
    returns (r: Result<EntryLink, ResolveError>)
    requires slistHeadDecl.recordDecl < |tu.records|
    modifies out
    ensures r == EntryLinkOf(tu, slistHeadDecl.recordDecl)
    ensures out.text == old(out.text) + Unlines(SlistBlockLines(tu, slistHeadDecl))
  {
    r := ResolveEntryLink(tu, slistHeadDecl);
    if r.Failure? {
      return;
    }
    var declName := slistHeadDecl.varDecl.name;
    var entry := tu.records[r.value.entry];
    var linkField := r.value.link;
    out.Write(HeaderFormat(entry.name, declName, linkField.name));
    PrintPrintersForRecordDeclFields(8, Cursor, entry, out);
    out.Write("    }\n}\n");
    BlockHeaderText(entry.name, declName, linkField.name);
    BlockFooterText();
    BlockText(entry.name, declName, linkField.name, entry.fields);
    ghost var h, p := Unlines(BlockHeader(entry.name, declName, linkField.name)), Unlines(Printers(8, Cursor, entry.fields));
    ConcatAssoc(old(out.text), h + p, Unlines(BlockFooter()));
    ConcatAssoc(old(out.text), h, p);
  }

  // ---------------------------------------------------------------------------
  // The driver
  // ---------------------------------------------------------------------------

  /** Every match record refers to a record declaration of `tu`. */
  predicate InUnit(tu: TranslationUnit, ds: seq<QueueMacroDecl>)
  {
    forall k :: 0 <= k < |ds| ==> ds[k].recordDecl < |tu.records|
  }

  /** The matches of the first `n` list-head macros, macro by macro. */
  function MatchesUpTo(tu: TranslationUnit, n: nat): (ds: seq<QueueMacroDecl>)
    requires n <= |QueueMacroDeclNames|
    ensures InUnit(tu, ds)
  {
    if n == 0 then []
    else MatchesUpTo(tu, n - 1) + MacroDecls(tu, tu.vars, QueueMacroDeclNames[n - 1])
  }

  /** All matches, in the order the driver meets them. */
  function AllMatches(tu: TranslationUnit): (ds: seq<QueueMacroDecl>)
    ensures InUnit(tu, ds)
  {
    MatchesUpTo(tu, |QueueMacroDeclNames|)
  }

  /** Macros are processed in the order of the name table, each one's matches in traversal order. */
  lemma AllMatchesOrder(tu: TranslationUnit)
    ensures AllMatches(tu) ==
      MacroDecls(tu, tu.vars, "SLIST_HEAD") + MacroDecls(tu, tu.vars, "LIST_HEAD")
      + MacroDecls(tu, tu.vars, "SIMPLEQ_HEAD") + MacroDecls(tu, tu.vars, "XSIMPLEQ_HEAD")
      + MacroDecls(tu, tu.vars, "TAILQ_HEAD") + MacroDecls(tu, tu.vars, "STAILQ_HEAD")
  {
    assert MatchesUpTo(tu, 1) == MacroDecls(tu, tu.vars, "SLIST_HEAD");
    assert MatchesUpTo(tu, 2) == MatchesUpTo(tu, 1) + MacroDecls(tu, tu.vars, "LIST_HEAD");
    assert MatchesUpTo(tu, 3) == MatchesUpTo(tu, 2) + MacroDecls(tu, tu.vars, "SIMPLEQ_HEAD");
    assert MatchesUpTo(tu, 4) == MatchesUpTo(tu, 3) + MacroDecls(tu, tu.vars, "XSIMPLEQ_HEAD");
    assert MatchesUpTo(tu, 5) == MatchesUpTo(tu, 4) + MacroDecls(tu, tu.vars, "TAILQ_HEAD");
    assert MatchesUpTo(tu, 6) == MatchesUpTo(tu, 5) + MacroDecls(tu, tu.vars, "STAILQ_HEAD");
  }

  /** What one match adds after its banner: a block for a resolvable SLIST_HEAD
      match, nothing for any other. */
  function MatchLines(tu: TranslationUnit, d: QueueMacroDecl): seq<string>
    requires d.recordDecl < |tu.records|
  {
    if d.macroName == SlistHead then SlistBlockLines(tu, d) else []
  }

  /** The lines printed for the matches `ds`: a banner before every match but the first. */
  function OutputLines(tu: TranslationUnit, ds: seq<QueueMacroDecl>): seq<string>
    requires InUnit(tu, ds)
    decreases |ds|
  {
    if ds == [] then []
    else
      OutputLines(tu, ds[..|ds| - 1])
        + (if |ds| == 1 then [] else [Banner])
        + MatchLines(tu, ds[|ds| - 1])
  }

  /** A match whose printing failed, with the reason. */
  datatype Diagnostic = Diagnostic(decl: QueueMacroDecl, error: ResolveError)

  /** The SLIST_HEAD matches among `ds` whose entry link could not be resolved. */
  function Diagnostics(tu: TranslationUnit, ds: seq<QueueMacroDecl>): seq<Diagnostic>
    requires InUnit(tu, ds)
    decreases |ds|
  {
    if ds == [] then []
    else Diagnostics(tu, ds[..|ds| - 1]) + DiagnosticsOf(tu, ds[|ds| - 1])
  }

  /** The report for one match: one Diagnostic when it is an SLIST_HEAD match
      whose entry link cannot be resolved. */
  function DiagnosticsOf(tu: TranslationUnit, d: QueueMacroDecl): seq<Diagnostic>
    requires d.recordDecl < |tu.records|
  {
    if d.macroName == SlistHead && EntryLinkOf(tu, d.recordDecl).Failure?
    then [Diagnostic(d, EntryLinkOf(tu, d.recordDecl).error)] else []
  }

  /** The text of one more match: its banner unless it is the first, then its lines. */
  lemma OutputLinesSnoc(tu: TranslationUnit, ds: seq<QueueMacroDecl>, d: QueueMacroDecl)
    requires InUnit(tu, ds) && d.recordDecl < |tu.records|
    ensures InUnit(tu, ds + [d])
    ensures Unlines(OutputLines(tu, ds + [d])) ==
      Unlines(OutputLines(tu, ds)) + (if ds == [] then "" else Banner + "\n") + Unlines(MatchLines(tu, d))
    ensures Diagnostics(tu, ds + [d]) == Diagnostics(tu, ds) + DiagnosticsOf(tu, d)
  {
    SnocParts(ds, d);
    var lines, m := OutputLines(tu, ds), MatchLines(tu, d);
    if ds == [] {
      assert OutputLines(tu, ds + [d]) == [] + [] + m;
      EmptyConcat(m);
      EmptyConcat(Unlines(m));
    } else {
      assert OutputLines(tu, ds + [d]) == lines + [Banner] + m;
      UnlinesAppend(lines + [Banner], m);
      UnlinesAppend(lines, [Banner]);
      UnlinesSingle(Banner);
    }
  }

  /** The text printed for the matches `ds`, built the way the driver prints
      it: match by match, a banner line before every match but the first. */
  function OutputText(tu: TranslationUnit, ds: seq<QueueMacroDecl>): string
    requires InUnit(tu, ds)
    decreases |ds|
  {
    if ds == [] then ""
    else
      OutputText(tu, ds[..|ds| - 1])
        + (if |ds| == 1 then "" else Banner + "\n")
        + Unlines(MatchLines(tu, ds[|ds| - 1]))
  }

  /** The printed text is the output lines, each ended by a newline. */
  lemma {:induction false} OutputTextLines(tu: TranslationUnit, ds: seq<QueueMacroDecl>)
    requires InUnit(tu, ds)
    ensures OutputText(tu, ds) == Unlines(OutputLines(tu, ds))
    decreases |ds|
  {
    if ds != [] {
      var prefix := ds[..|ds| - 1];
      assert prefix + [ds[|ds| - 1]] == ds;
      OutputTextLines(tu, prefix);
      OutputLinesSnoc(tu, prefix, ds[|ds| - 1]);
    }
  }

  /** The whole text printed for a translation unit. */
  function TranslationUnitOutput(tu: TranslationUnit): string
  {
    Unlines(OutputLines(tu, AllMatches(tu)))
  }

  /** ASTConsumer::HandleTranslationUnit: for each list-head macro in table order
      and each of its matches, a banner unless it is the very first match, then
      the traversal block if the macro is SLIST_HEAD.  A match whose entry link
      cannot be resolved is reported and the run goes on. */
  method HandleTranslationUnit(tu: TranslationUnit, out: OutStream) returns (diagnostics: seq<Diagnostic>)
    modifies out
    ensures out.text == old(out.text) + TranslationUnitOutput(tu)
    ensures diagnostics == Diagnostics(tu, AllMatches(tu))
  {
    diagnostics := [];
    var first := true;
    ghost var done: seq<QueueMacroDecl> := [];
    for n := 0 to |QueueMacroDeclNames|
      invariant done == MatchesUpTo(tu, n)
      invariant Handled(tu, old(out.text), done, out.text, diagnostics, first)
    {
      var matches := FindOpenBSDQueueMacroDecls(tu, QueueMacroDeclNames[n]);
      first, diagnostics := HandleMatches(tu, old(out.text), done, matches, first, diagnostics, out);
      done := done + matches;
    }
    OutputTextLines(tu, done);
  }

  /** The driver's state after it has handled the matches `ds` in order,
      starting from the text `base`: `text` is what has been printed, `diagnostics`
      the failures reported, and `first` says that nothing was handled yet. */
  predicate Handled(tu: TranslationUnit, base: string, ds: seq<QueueMacroDecl>,
                    text: string, diagnostics: seq<Diagnostic>, first: bool)
  {
    InUnit(tu, ds)
    && (first <==> |ds| == 0)
    && text == base + OutputText(tu, ds)
    && diagnostics == Diagnostics(tu, ds)
  }

  /** Handling one more match `d` appends its banner (unless it is the first)
      and its lines to the text, and its diagnostic, if it has one, to the
      diagnostics. */
  lemma HandledSnoc(tu: TranslationUnit, base: string, ds: seq<QueueMacroDecl>, d: QueueMacroDecl,
                    text: string, text': string, diagnostics: seq<Diagnostic>, diagnostics': seq<Diagnostic>,
                    first: bool)
    requires Handled(tu, base, ds, text, diagnostics, first)
    requires d.recordDecl < |tu.records|
    requires text' == text + (if first then "" else Banner + "\n") + Unlines(MatchLines(tu, d))
    requires diagnostics' == diagnostics + DiagnosticsOf(tu, d)
    ensures Handled(tu, base, ds + [d], text', diagnostics', false)
  {
    SnocParts(ds, d);
    var banner := if first then "" else Banner + "\n";
    ConcatAssoc(base, OutputText(tu, ds) + banner, Unlines(MatchLines(tu, d)));
    ConcatAssoc(base, OutputText(tu, ds), banner);
  }


  /** The body of HandleTranslationUnit's inner loop for match `m`: the banner
      unless `m` is the first match, then the block for an SLIST_HEAD match. */
  method HandleMatch(tu: TranslationUnit, m: QueueMacroDecl, first: bool, out: OutStream)
    returns (reported: seq<Diagnostic>)
    requires m.recordDecl < |tu.records|
    modifies out
    ensures out.text == old(out.text) + (if first then "" else Banner + "\n") + Unlines(MatchLines(tu, m))
    ensures reported == DiagnosticsOf(tu, m)
  {
    reported := [];
    if !first {
      out.Write(Banner + "\n");
    }
    if m.macroName == SlistHead {
      var r := PrintListIteratorForSListHeadDecl(tu, m, out);
      if r.Failure? {
        reported := [Diagnostic(m, r.error)];
      }
    }
  }

  /** HandleTranslationUnit's inner loop, over the matches of one macro. */
  method HandleMatches(tu: TranslationUnit, ghost base: string, ghost done: seq<QueueMacroDecl>,
                       matches: seq<QueueMacroDecl>, first0: bool, diagnostics0: seq<Diagnostic>, out: OutStream)
    returns (first: bool, diagnostics: seq<Diagnostic>)
    requires InUnit(tu, matches)
    requires Handled(tu, base, done, out.text, diagnostics0, first0)
    modifies out
    ensures Handled(tu, base, done + matches, out.text, diagnostics, first)
  {
    first, diagnostics := first0, diagnostics0;
    ghost var printed := done;
    PrefixSlices(done, matches, 0);
    for j := 0 to |matches|
      invariant printed == done + matches[..j]
      invariant Handled(tu, base, printed, out.text, diagnostics, first)
    {
      var m := matches[j];
      PrefixSlices(done, matches, j);
      ghost var before, reportedBefore := out.text, diagnostics;
      var reported := HandleMatch(tu, m, first, out);
      diagnostics := diagnostics + reported;
      HandledSnoc(tu, base, printed, m, before, out.text, reportedBefore, diagnostics, first);
      first := false;
      printed := printed + [m];
    }
    PrefixSlices(done, matches, |matches|);
  }

  /** The empty sequence is neutral for concatenation. */
  lemma EmptyConcat<T>(s: seq<T>)
    ensures [] + s == s && [] + [] + s == s && s + [] == s
  {
  }

  /** The parts of `s + [x]` that the left-recursive definitions take apart. */
  lemma SnocParts<T>(s: seq<T>, x: T)
    ensures (s + [x])[..|s + [x]| - 1] == s && (s + [x])[|s + [x]| - 1] == x
  {
  }

  /** The facts about `a + b[..j]` that a loop over `b` needs. */
  lemma PrefixSlices<T>(a: seq<T>, b: seq<T>, j: nat)
    requires j <= |b|
    ensures j == 0 ==> a + b[..j] == a
    ensures j < |b| ==> a + b[..j + 1] == a + b[..j] + [b[j]]
    ensures j == |b| ==> a + b[..j] == a + b
  {
    if j < |b| {
      assert b[..j + 1] == b[..j] + [b[j]];
    }
  }

  /** The parts of `s[..i + 1]` that the left-recursive definitions take apart. */
  lemma PrefixStep<T>(s: seq<T>, i: nat)
    requires i < |s|
    ensures |s[..i + 1]| - 1 == i && s[..i + 1][..i] == s[..i] && s[..i + 1][i] == s[i]
  {
  }

  lemma WholeSlice<T>(s: seq<T>)
    ensures s[..|s|] == s
  {
  }

  /** Concatenation is associative. */
  lemma ConcatAssoc<T>(a: seq<T>, b: seq<T>, c: seq<T>)
    ensures a + (b + c) == a + b + c
  {
  }

  // ---------------------------------------------------------------------------
  // Properties of the whole output
  // ---------------------------------------------------------------------------

  /** No line of a match's output is a banner, and its first line, if any, is "{". */
  lemma MatchLinesShape(tu: TranslationUnit, d: QueueMacroDecl)
    requires d.recordDecl < |tu.records|
    ensures forall k :: 0 <= k < |MatchLines(tu, d)| ==> MatchLines(tu, d)[k] != Banner
    ensures Occurrences(MatchLines(tu, d), "{") == if MatchLines(tu, d) == [] then 0 else 1
  {
    var lines := MatchLines(tu, d);
    if lines != [] {
      var l := EntryLinkOf(tu, d.recordDecl).value;
      var fields := tu.records[l.entry].fields;
      var p := Printers(8, Cursor, fields);
      PrinterLinesIndented(8, Cursor, fields);
      var head := BlockHeader(tu.records[l.entry].name, d.varDecl.name, l.link.name);
      var rest := head[1..] + p + BlockFooter();
      assert lines == head + p + BlockFooter();
      assert lines == ["{"] + rest;
      assert Banner[0] == '#';
      var e := tu.records[l.entry].name;
      assert ("    struct " + e)[0] == ' ';
      assert ("    SLIST_FOREACH(__openbsd_list_iterator, &" + d.varDecl.name)[0] == ' ';
      forall k | 0 <= k < |rest|
        ensures rest[k] != "{" && rest[k] != Banner
      {
        if k < 2 {
          assert rest[k] == head[k + 1] && rest[k][0] == ' ';
        } else if k < 2 + |p| {
          assert rest[k] == p[k - 2] && rest[k][0] == ' ';
        } else {
          assert rest[k] == BlockFooter()[k - 2 - |p|];
        }
      }
      forall k | 0 <= k < |lines|
        ensures lines[k] != Banner
      {
        if k > 0 {
          assert lines[k] == rest[k - 1];
        }
      }
      OccurrencesAppend(["{"], rest, "{");
      OccurrencesAbsent(rest, "{");
    }
  }

  /** The number of matches in `ds` that print a block. */
  function BlockCount(tu: TranslationUnit, ds: seq<QueueMacroDecl>): nat
    requires InUnit(tu, ds)
    decreases |ds|
  {
    if ds == [] then 0
    else BlockCount(tu, ds[..|ds| - 1]) + (if MatchLines(tu, ds[|ds| - 1]) == [] then 0 else 1)
  }

  /** For M matches the output holds max(0, M - 1) banners, and one block,
      opened by a "{" line, per match that prints one. */
  lemma {:induction false} BannerAndBlockCounts(tu: TranslationUnit, ds: seq<QueueMacroDecl>)
    requires InUnit(tu, ds)
    ensures Occurrences(OutputLines(tu, ds), Banner) == if ds == [] then 0 else |ds| - 1
    ensures Occurrences(OutputLines(tu, ds), "{") == BlockCount(tu, ds)
    decreases |ds|
  {
    if ds != [] {
      var prefix := ds[..|ds| - 1];
      var d := ds[|ds| - 1];
      BannerAndBlockCounts(tu, prefix);
      var banner := if |ds| == 1 then [] else [Banner];
      MatchLinesShape(tu, d);
      OccurrencesAbsent(MatchLines(tu, d), Banner);
      OccurrencesAppend(OutputLines(tu, prefix) + banner, MatchLines(tu, d), Banner);
      OccurrencesAppend(OutputLines(tu, prefix), banner, Banner);
      OccurrencesAppend(OutputLines(tu, prefix) + banner, MatchLines(tu, d), "{");
      OccurrencesAppend(OutputLines(tu, prefix), banner, "{");
      if banner != [] {
        assert Banner != "{" by { assert |Banner| == 80; }
        assert Occurrences(banner, "{") == 0;
      }
    }
  }

  /** No declared name of the translation unit holds a newline (true of C identifiers). */
  predicate NamesWithoutNewlines(tu: TranslationUnit)
  {
    (forall r :: 0 <= r < |tu.records| ==>
       NoNewline(tu.records[r].name)
       && forall j :: 0 <= j < |tu.records[r].fields| ==> NoNewline(tu.records[r].fields[j].name))
    && forall v :: 0 <= v < |tu.vars| ==> NoNewline(tu.vars[v].name)
  }

  lemma HeaderLinesWithoutNewlines(entryName: string, varName: string, linkName: string)
    requires NoNewline(entryName) && NoNewline(varName) && NoNewline(linkName)
    ensures forall k :: 0 <= k < |BlockHeader(entryName, varName, linkName)| ==>
      NoNewline(BlockHeader(entryName, varName, linkName)[k])
  {
    var s0, s1 := "    struct ", " * __openbsd_list_iterator;";
    var f0, f1, f2 := "    SLIST_FOREACH(__openbsd_list_iterator, &", ", ", ") {";
    assert NoNewline(s0) && NoNewline(s1);
    assert NoNewline(f0) && NoNewline(f1) && NoNewline(f2);
    assert NoNewline(s0 + entryName + s1);
    assert NoNewline(f0 + varName + f1 + linkName + f2);
  }

  /** A block's lines hold no newline when the names it prints hold none. */
  lemma BlockLinesWithoutNewlines(entryName: string, varName: string, linkName: string, entryFields: seq<FieldDecl>)
    requires NoNewline(entryName) && NoNewline(varName) && NoNewline(linkName)
    requires forall j :: 0 <= j < |entryFields| ==> NoNewline(entryFields[j].name)
    ensures forall k :: 0 <= k < |BlockLines(entryName, varName, linkName, entryFields)| ==>
      NoNewline(BlockLines(entryName, varName, linkName, entryFields)[k])
  {
    var head := BlockHeader(entryName, varName, linkName);
    var p := Printers(8, Cursor, entryFields);
    assert NoNewline(Cursor);
    PrinterLinesWithoutNewlines(8, Cursor, entryFields);
    HeaderLinesWithoutNewlines(entryName, varName, linkName);
    assert forall k :: 0 <= k < |BlockFooter()| ==> NoNewline(BlockFooter()[k]);
    var lines := head + p + BlockFooter();
    forall k | 0 <= k < |lines|
      ensures NoNewline(lines[k])
    {
      if k < |head| {
        assert lines[k] == head[k];
      } else if k < |head| + |p| {
        assert lines[k] == p[k - |head|];
      } else {
        assert lines[k] == BlockFooter()[k - |head| - |p|];
      }
    }
  }

  /** A match's lines hold no newline when the unit's names hold none. */
  lemma MatchLinesWithoutNewlines(tu: TranslationUnit, d: QueueMacroDecl)
    requires d.recordDecl < |tu.records| && NamesWithoutNewlines(tu) && d.varDecl in tu.vars
    ensures forall k :: 0 <= k < |MatchLines(tu, d)| ==> NoNewline(MatchLines(tu, d)[k])
  {
    if MatchLines(tu, d) != [] {
      var l := EntryLinkOf(tu, d.recordDecl).value;
      var entry := tu.records[l.entry];
      var idx := LinkFieldsCharacterization(tu, entry.fields);
      assert l.link == entry.fields[idx[0]];
      BlockLinesWithoutNewlines(entry.name, d.varDecl.name, l.link.name, entry.fields);
    }
  }

  /** The lines printed for matches of the unit's own variables hold no newline. */
  lemma {:induction false} OutputLinesWithoutNewlines(tu: TranslationUnit, ds: seq<QueueMacroDecl>)
    requires InUnit(tu, ds) && NamesWithoutNewlines(tu)
    requires forall k :: 0 <= k < |ds| ==> ds[k].varDecl in tu.vars
    ensures forall k :: 0 <= k < |OutputLines(tu, ds)| ==> NoNewline(OutputLines(tu, ds)[k])
    decreases |ds|
  {
    if ds != [] {
      var prefix, d := ds[..|ds| - 1], ds[|ds| - 1];
      OutputLinesWithoutNewlines(tu, prefix);
      MatchLinesWithoutNewlines(tu, d);
      var a := OutputLines(tu, prefix);
      var banner := if |ds| == 1 then [] else [Banner];
      var b := MatchLines(tu, d);
      assert NoNewline(Banner);
      LinesWithoutNewlinesAppend(a, banner);
      LinesWithoutNewlinesAppend(a + banner, b);
    }
  }

  /** Two sequences of lines without newlines concatenate to one. */
  lemma LinesWithoutNewlinesAppend(a: seq<string>, b: seq<string>)
    requires forall k :: 0 <= k < |a| ==> NoNewline(a[k])
    requires forall k :: 0 <= k < |b| ==> NoNewline(b[k])
    ensures forall k :: 0 <= k < |a + b| ==> NoNewline((a + b)[k])
  {
    forall k | 0 <= k < |a + b|
      ensures NoNewline((a + b)[k])
    {
      if k < |a| {
        assert (a + b)[k] == a[k];
      } else {
        assert (a + b)[k] == b[k - |a|];
      }
    }
  }

  /** Read back as text, the output of a translation unit has max(0, M - 1)
      banner lines for its M matches, whichever macros they come from. */
  lemma BannerLines(tu: TranslationUnit)
    requires NamesWithoutNewlines(tu)
    ensures Occurrences(Lines(TranslationUnitOutput(tu)), Banner) ==
      if AllMatches(tu) == [] then 0 else |AllMatches(tu)| - 1
  {
    OutputReadBack(tu);
    BannerAndBlockCounts(tu, AllMatches(tu));
  }

  /** When no name holds a newline, splitting the printed text at its newlines
      gives back exactly the lines printed. */
  lemma OutputReadBack(tu: TranslationUnit)
    requires NamesWithoutNewlines(tu)
    ensures Lines(TranslationUnitOutput(tu)) == OutputLines(tu, AllMatches(tu))
  {
    var ds := AllMatches(tu);
    forall k | 0 <= k < |ds|
      ensures ds[k].varDecl in tu.vars
    {
      AllMatchesFromVars(tu, |QueueMacroDeclNames|, k);
    }
    OutputLinesWithoutNewlines(tu, ds);
    LinesOfUnlines(OutputLines(tu, ds));
  }

  lemma {:induction false} AllMatchesFromVars(tu: TranslationUnit, n: nat, k: nat)
    requires n <= |QueueMacroDeclNames| && k < |MatchesUpTo(tu, n)|
    ensures MatchesUpTo(tu, n)[k].varDecl in tu.vars
  {
    var prefix := MatchesUpTo(tu, n - 1);
    if k < |prefix| {
      AllMatchesFromVars(tu, n - 1, k);
    }
  }

  /** The first `n` macros have no matches exactly when no variable is declared
      through any of them. */
  lemma {:induction false} MatchesUpToEmpty(tu: TranslationUnit, n: nat)
    requires n <= |QueueMacroDeclNames|
    ensures MatchesUpTo(tu, n) == [] <==>
      forall m, j :: 0 <= m < n && 0 <= j < |tu.vars| ==> !MatchesListHead(tu, tu.vars[j], QueueMacroDeclNames[m])
  {
    if n > 0 {
      MatchesUpToEmpty(tu, n - 1);
      MacroDeclsEmpty(tu, tu.vars, QueueMacroDeclNames[n - 1]);
    }
  }

  /** With no variable declared through a list-head macro there are no matches
      and nothing is printed. */
  lemma NoListHeadsNoOutput(tu: TranslationUnit)
    ensures AllMatches(tu) == [] <==>
      forall j, n :: 0 <= j < |tu.vars| && 0 <= n < |QueueMacroDeclNames| ==>
        !MatchesListHead(tu, tu.vars[j], QueueMacroDeclNames[n])
    ensures AllMatches(tu) == [] ==> TranslationUnitOutput(tu) == ""
  {
    MatchesUpToEmpty(tu, |QueueMacroDeclNames|);
  }

  /** A match of any macro but SLIST_HEAD, or one whose entry link cannot be
      resolved, contributes at most its banner; only the latter is reported. */
  lemma SilentMatch(tu: TranslationUnit, ds: seq<QueueMacroDecl>, d: QueueMacroDecl)
    requires InUnit(tu, ds) && d.recordDecl < |tu.records|
    requires d.macroName != SlistHead || EntryLinkOf(tu, d.recordDecl).Failure?
    ensures OutputLines(tu, ds + [d]) == OutputLines(tu, ds) + (if ds == [] then [] else [Banner])
    ensures |Diagnostics(tu, ds + [d])| == |Diagnostics(tu, ds)| + (if d.macroName == SlistHead then 1 else 0)
  {
    SnocParts(ds, d);
  }
}

/** A small abstract syntax tree standing in for the parts of Clang's AST that the
    list-macro printer inspects: record declarations with their fields and the
    macros they were expanded from, field types, and the translation unit's
    variable declarations in traversal order. */
module ClangAst {
  import opened Wrappers

  /** A record declaration is referred to by its position in the translation unit. */
  type RecordId = nat

  /** The canonical type of a field or variable, reduced to what the printer looks at. */
  datatype Type =
    | Pointer(pointee: Type)
    | Char(isSigned: bool)    // char, signed char, unsigned char; plain char is signed or not as the target says
    | SignedInt               // short, int, long, long long, and enums whose underlying type is signed
    | UnsignedInt             // _Bool, the unsigned integer types, and enums whose underlying type is unsigned
    | Record(decl: RecordId)  // a struct or union type
    | Other                   // void, floating point, arrays, functions and the rest

  datatype FieldDecl = FieldDecl(name: string, ty: Type)

  /** `expandedFrom` holds every macro on whose expansion stack the declaration lies. */
  datatype RecordDecl = RecordDecl(name: string, fields: seq<FieldDecl>, expandedFrom: set<string>)

  datatype VarDecl = VarDecl(name: string, ty: Type)

  /** `vars` lists every variable declaration in the order a pre-order walk of the
      translation unit meets them. */
  datatype TranslationUnit = TranslationUnit(records: seq<RecordDecl>, vars: seq<VarDecl>)

  /** Type::isCharType: char, signed char and unsigned char. */
  predicate IsCharType(t: Type)
  {
    t.Char?
  }

  /** Type::isPointerType() && Type::getPointeeType()->isCharType(). */
  predicate IsPointerToChar(t: Type)
  {
    t.Pointer? && IsCharType(t.pointee)
  }

  /** Type::isUnsignedIntegerType. */
  predicate IsUnsignedIntegerType(t: Type)
  {
    t.UnsignedInt? || (t.Char? && !t.isSigned)
  }

  /** Type::isSignedIntegerType. */
  predicate IsSignedIntegerType(t: Type)
  {
    t.SignedInt? || (t.Char? && t.isSigned)
  }

  /** Type::getAsRecordDecl: the declaration of a record type, None for any other type. */
  function GetAsRecordDecl(tu: TranslationUnit, t: Type): Option<RecordId>
  {
    if t.Record? && t.decl < |tu.records| then Some(t.decl) else None
  }

  /** The matcher hasType(recordDecl(isExpandedFromMacro(macro))): the type is a record
      whose declaration was expanded from `macro`. */
  predicate HasRecordTypeExpandedFrom(tu: TranslationUnit, t: Type, macro: string)
  {
    t.Record? && t.decl < |tu.records| && macro in tu.records[t.decl].expandedFrom
  }
}

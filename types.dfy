/**
 * The vocabulary of the semantic analyzer: type tags, operators, the
 * statement records it consumes, the nodes it produces and the error kinds
 * it reports.
 */
module Types {

  /** The shapes of a type tag. The three primitive types have their own
      constructors; any other type string a caller supplies is kept as
      `Other`, and `NoType` stands for the absent type (Python's None). */
  datatype AnyType = Int | Float | Str | Other(name: string) | NoType

  /** The type strings the analyzer compares against. */
  const PrimitiveNames: set<string> := {"int", "float", "str"}

  /** A type tag as the analyzer compares it: each type string has exactly
      one tag, so `Other` never holds a primitive name. */
  type TypeTag = t: AnyType | t.Other? ==> t.name !in PrimitiveNames witness Int

  /** The printed name of a type tag. */
  function TypeName(t: TypeTag): string
  {
    match t
    case Int => "int"
    case Float => "float"
    case Str => "str"
    case Other(name) => name
    case NoType => "None"
  }

  /** Reads a declared type string into a tag: the three primitive names are
      recognised exactly, every other string is an unvalidated `Other`. */
  function TagOf(s: string): (t: TypeTag)
    ensures TypeName(t) == s
    ensures t != NoType
    ensures t.Other? <==> s !in PrimitiveNames
  {
    if s == "int" then Int
    else if s == "float" then Float
    else if s == "str" then Str
    else Other(s)
  }

  /** The shapes of an operator: the four the rule table knows, or any
      other symbol. */
  datatype AnyOp = Add | Sub | Mul | Div | OtherOp(symbol: string)

  /** The operator symbols the rule table compares against. */
  const KnownSymbols: set<string> := {"+", "-", "*", "/"}

  /** The operator held by an expression node: each symbol has exactly one
      operator, so `OtherOp` never holds a known symbol. */
  type Op = o: AnyOp | o.OtherOp? ==> o.symbol !in KnownSymbols witness Add

  /** The symbol of an operator. */
  function Symbol(o: Op): string
  {
    match o
    case Add => "+"
    case Sub => "-"
    case Mul => "*"
    case Div => "/"
    case OtherOp(symbol) => symbol
  }

  /** Reads an operator symbol: the four known symbols are recognised
      exactly, every other symbol is an `OtherOp` that the rule table does
      not know. */
  function OpOf(s: string): (o: Op)
    ensures Symbol(o) == s
    ensures o.OtherOp? <==> s !in KnownSymbols
  {
    if s == "+" then Add
    else if s == "-" then Sub
    else if s == "*" then Mul
    else if s == "/" then Div
    else OtherOp(s)
  }

  /** Every tag other than the absent type is the reading of its own name:
      reading type strings loses nothing, and no two tags share a name. */
  lemma TagRoundTrip(t: TypeTag)
    requires t != NoType
    ensures TagOf(TypeName(t)) == t
  {
  }

  /** Every operator is the reading of its own symbol. */
  lemma OpRoundTrip(o: Op)
    ensures OpOf(Symbol(o)) == o
  {
  }

  /** A child of an expression node. A child that is itself a node is a
      variable reference (its value names the variable); any other child is a
      plain literal, whose text is opaque. */
  datatype Operand = Ref(name: string) | Constant(text: string)

  /** An expression node: an operator over two children, one level deep. */
  datatype Expr = BinOp(op: Op, left: Operand, right: Operand)

  /** The right-hand side of an assignment: a literal (opaque text) or an
      expression node. */
  datatype Value = Scalar(text: string) | Compound(expr: Expr)

  /** A statement record handed to the analyzer. */
  datatype Statement =
    | Assignment(name: string, varType: TypeTag, value: Value)
    | Print(name: string)

  /** A node of the generated tree. */
  datatype AstNode =
    | Variable(name: string, varType: TypeTag)
    | Literal(value: Value)
    | Assign(name: string, left: AstNode, right: AstNode, varType: TypeTag)
    | PrintOut(name: string, varType: TypeTag)

  /** What can go wrong with one statement. */
  datatype ErrorKind =
    | DuplicateDeclaration(name: string)
    | UndeclaredVariable(name: string)
    | TypeMismatch(left: TypeTag, right: TypeTag, op: Op)

  datatype Option<T> = None | Some(value: T)

  datatype Result<T> = Success(value: T) | Failure(error: ErrorKind)

  datatype Outcome = Pass | Fail(error: ErrorKind)

  /** A diagnostic: the 1-based line of the offending statement and what
      went wrong there. */
  datatype Diagnostic = Diagnostic(line: int, kind: ErrorKind)
}

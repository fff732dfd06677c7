/**
 The statement tree the table walk reads. A node keeps the fields its walker visits apart from the
 fields the walker knows but does not visit and from all others.
 */
module ReadTree {
  import opened Common

  /** A table reference; "" where the statement names no database or alias. */
  datatype Target = Target(db: string, table: string, alias: string)

  /** What the right side of an IN decodes to: a value, a table's name, or something neither walked nor named. */
  datatype Operand = Value | Names(target: Target) | Unread

  /** How a constant is written, as far as a stored view's WITH aliases care. */
  datatype Form = Plain | ScalarLiteral | LiteralList

  /** Which of its fields a scalar node or clause has walked (ReadFields lists them). */
  datatype Shape =
    | Aggregate | Case | If | WindowCall | Keep | NamedWindow | WindowSpec | WindowFrame | FrameBound(bounded: bool)
    | Ordered | WithFill | Between | Like | Cast | ValuesList | Binary | Unary | ListOf | TypedAggregate | TypedWindow
    | ScalarFields | ThisClause | ListClause | FetchClause | SampleClause | ConnectClause | OutputClause

  /** What stands around sources: an alias, a list, a joined table or a pivot. */
  datatype Wrapper = Aliased | Listed | JoinedTable | Pivoted

  datatype Kind =
    | Blank                                            // nothing, or a JSON scalar
    | Constant                                         // a literal
    | Name(number: bool)                               // a column or identifier; inf, nan and 0b… lex as numbers
    | Expression(shape: Shape, fixed: bool, naming: bool, form: Form) // a scalar node or clause the walk models
    | Carrier                                          // a node the walk does not model
    | Sequence                                         // a JSON list
    | Select(aliases: set<string>, marked: bool)       // kids: WITH, projections, FROM, joins, other clauses
    | SetOperation(marked: bool)                       // kids: WITH, both sides, other clauses
    | Subquery(sealed: bool, marked: bool)             // kids: the body, then clauses
    | Paren(marked: bool)                              // kids: the body
    | With(recursive: bool)                            // kids: its definitions, then SEARCH
    | Cte(name: string, aliasFirst: bool)              // kids: the value
    | Table(target: Target)
    | TableParameter                                   // a table named by a query parameter
    | Function(queryBodied: bool, known: bool, fixed: bool, named: Option<Target>) // kids: the arguments
    | SourceWrapper(wrapper: Wrapper)                  // kids: sources, then expressions
    | Join                                             // kids: the source, then expressions
    | In(operand: Operand)                             // kids: left side, operand, UNNEST

  /** kids are visited; unknown fields must hold no read; ignored fields are passed over. */
  datatype Node = Node(kind: Kind, kids: seq<Node>, unknown: seq<Node>, ignored: seq<Node>)

  /** opaqueSubquery. */
  predicate IsSealed(n: Node)
  {
    n.kind.Subquery? && n.kind.sealed
  }

  /** cteBodyIsReadQuery: a query under wrappers that add nothing to it. */
  predicate IsReadQuery(n: Node)
  {
    match n.kind
    case Select(_, _) | SetOperation(_) => true
    case Subquery(sealed, _) => !sealed && n.kids != [] && IsReadQuery(n.kids[0])
    case Paren(_) => n.kids != [] && IsReadQuery(n.kids[0])
    case _ => false
  }

  /** What walkReadQuery takes as its own: a read query, or wrappers around a sealed (opaque) subquery. */
  predicate IsHandled(n: Node)
  {
    match n.kind
    case Select(_, _) | SetOperation(_) => true
    case Subquery(sealed, _) => sealed || (n.kids != [] && IsHandled(n.kids[0]))
    case Paren(_) => n.kids != [] && IsHandled(n.kids[0])
    case _ => false
  }

  // ---------------------------------------------------------------------------------------
  // Reads

  /** A node that reads on its own account. */
  predicate IsRead(k: Kind)
  {
    match k
    case Select(_, _) | SetOperation(_) | TableParameter | In(_) => true
    case Subquery(sealed, _) => !sealed
    case Table(t) => t.table != ""
    case Function(_, known, _, _) => known
    case _ => false
  }

  function Children(n: Node): seq<Node>
  {
    n.kids + n.unknown + n.ignored
  }

  /** containsReadBearingNode. */
  predicate ContainsRead(n: Node)
    decreases n, 1
  {
    !IsSealed(n) && (IsRead(n.kind) || AnyRead(n, n.kids) || AnyRead(n, n.unknown) || AnyRead(n, n.ignored))
  }

  /** One of the parts, all of them inside n, contains a read. */
  predicate AnyRead(n: Node, parts: seq<Node>)
    requires forall i :: 0 <= i < |parts| ==> parts[i] < n
    decreases n, 0
  {
    exists i :: 0 <= i < |parts| && ContainsRead(parts[i])
  }

  // ---------------------------------------------------------------------------------------
  // The value of a WITH alias

  /** containsNameReference. */
  predicate ContainsName(n: Node)
    decreases n, 0
  {
    || IsNaming(n.kind)
    || exists i :: 0 <= i < |Children(n)| && (assert Children(n)[i] < n; ContainsName(Children(n)[i]))
  }

  /** A node that may name a table, or hold a query that does. */
  predicate IsNaming(k: Kind)
  {
    match k
    case Name(_) | Table(_) | TableParameter | Subquery(_, _) | Select(_, _) | SetOperation(_) => true
    case Expression(_, _, naming, _) => naming
    case Function(_, _, fixed, named) => !fixed || named.Some?
    case In(operand) => operand.Names?
    case _ => false
  }

  /** withValueIsNotTableReference. */
  predicate IsNoTable(n: Node)
  {
    if n.kind.Paren? && n.kids != [] then IsNoTable(n.kids[0])
    else
      || IsReadQuery(n)
      || (n.kind.Name? && n.kind.number)
      || (n.kind.Expression? && n.kind.fixed)
      || (n.kind.Function? && n.kind.fixed)
      || !ContainsName(n)
  }

  predicate IsScalarLiteral(n: Node)
  {
    n.kind.Constant? || (n.kind.Name? && n.kind.number) || (n.kind.Expression? && n.kind.form.ScalarLiteral?)
  }

  function Unwrapped(n: Node): Node
  {
    if n.kind.Paren? && n.kids != [] then Unwrapped(n.kids[0]) else n
  }

  /** withValueIsStoredViewLiteral. */
  predicate IsStoredViewLiteral(n: Node)
  {
    IsScalarLiteral(Unwrapped(n)) || (n.kind.Expression? && n.kind.form.LiteralList?)
  }
}

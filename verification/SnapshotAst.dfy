/**
 The closed abstract syntax of snapshot queries.

 A node the closed field sets of snapshotFields refuse is an Unsupported constructor. Table and
 CTE nodes carry a number that stands for the identity of the decoded JSON object; `bound` and
 `def` are the records the analyzer attaches to those objects and are None before analysis.
 */
module SnapshotAst {
  import opened Common
  import opened SnapshotIntegers

  datatype Ident = Ident(name: string, quoted: bool)

  datatype Op = Eq | Neq | Gt | Gte | Lt | Lte | And | Or

  /** snapshotBoundRelation: one base-table object, the table it denotes, and what its SELECT knows of it. */
  datatype Bound = Bound(node: nat, tableId: string, qualified: bool, others: set<string>)

  /** snapshotDefinition: one CTE object with the base-table objects, definitions and table ids its query uses. */
  datatype Def = Def(node: nat, nodes: seq<Bound>, used: set<Def>, bases: set<string>)

  datatype Expr =
    | Number(text: string)
    | Str(text: string)
    | DollarString(text: string)
    | OtherLiteral
    | Column(table: Option<Ident>, column: Ident)
    | Paren(inner: Expr)
    | Aliased(inner: Expr, alias: Ident)
    | Neg(inner: Expr)
    | Scalar(query: Query)
    | Binary(op: Op, left: Expr, right: Expr)
    | Not(inner: Expr)
    | In(inner: Expr, query: Query)
    | Rand(wide: bool)
    | VolatileCall
    | ParameterNode
    | UnsupportedExpr(onlyLiterals: bool)
    | Cast(inner: Expr, target: Type)

  datatype Rel =
    | Table(node: nat, schema: Option<Ident>, name: Ident, alias: Option<Ident>, bound: Option<Bound>)
    | Derived(query: Query, alias: Option<Ident>)
    | UnsupportedRel

  datatype Join = Join(rel: Rel, on: Expr, allInner: bool)

  datatype Cte = Cte(node: nat, alias: Ident, aliasFirst: bool, query: Query, def: Option<Def>)

  /** A WITH clause is its list of CTEs; SelectAll is `WITH ctes SELECT * FROM rel`. */
  datatype Query =
    | Select(ctes: seq<Cte>, items: seq<Expr>, from: Option<Rel>, joins: seq<Join>, filter: Option<Expr>)
    | Union(ctes: seq<Cte>, left: Query, right: Query)
    | SelectAll(ctes: seq<Cte>, rel: Rel)
    | UnsupportedQuery

  /** The column name a projection gives its output. */
  function OutputName(e: Expr): string
  {
    match e
    case Column(_, c) => c.name
    case Paren(x) => OutputName(x)
    case Aliased(_, a) => a.name
    case _ => ""
  }

  function Qualifier(r: Rel): string
  {
    match r
    case Table(_, _, name, alias, _) => if alias.Some? then alias.value.name else name.name
    case Derived(_, alias) => if alias.Some? then alias.value.name else ""
    case UnsupportedRel => ""
  }

  /** The text of a heredoc `$tag$body$tag$`, which the parser spells `tag NUL body`. */
  function DollarBody(s: string): string
  {
    if '\0' in s then AfterNul(s) else s
  }

  function AfterNul(s: string): string
    requires '\0' in s
  {
    if s[0] == '\0' then s[1..] else AfterNul(s[1..])
  }

  function StripParens(e: Expr): Expr
  {
    match e
    case Paren(x) => StripParens(x)
    case _ => e
  }
}

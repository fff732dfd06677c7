/** The token kinds the fidelity gate looks at. A kind no rule names is Other. */
module Tokens {

  datatype Kind =
    | LParen | LBracket | LBrace | RParen | RBracket | RBrace
    | Dot | Comma | Semicolon | Colon
    | Var | QuotedIdentifier
    | Number | HexNumber | Null | True | False | QuotedLexeme
    | Identifier(binaryLiteral: bool)
    | Select | Distinct | Where | Prewhere | Having | When | Then | Else | By | And | Or
    | From | Group | Order | Limit | Settings | Format | As | End | Asc | Desc | Union
    | Case | Between | On | Arrow | Not | Is
    | ChainOperator(name: string)
    | Other(name: string)

  predicate IsOpenBracket(t: Kind)
  {
    t.LParen? || t.LBracket? || t.LBrace?
  }

  predicate IsCloseBracket(t: Kind)
  {
    t.RParen? || t.RBracket? || t.RBrace?
  }

  predicate IsBracket(t: Kind)
  {
    IsOpenBracket(t) || IsCloseBracket(t)
  }

  /** closerOf. */
  function CloserOf(open: Kind): Kind
  {
    if open.LParen? then RParen else if open.LBracket? then RBracket else RBrace
  }

  /** isNameTok. */
  predicate IsName(t: Kind)
  {
    t.Var? || t.QuotedIdentifier?
  }

  /** isAtomicToken. */
  predicate IsAtomic(t: Kind)
  {
    || t.Var? || t.QuotedIdentifier? || t.Number? || t.HexNumber? || t.Null? || t.True? || t.False? || t.QuotedLexeme?
    || (t.Identifier? && t.binaryLiteral)
  }
}

/**
 * The operator table of backtester.py (`OPERATORS`): six comparison symbols,
 * each mapped to a comparison applied element-wise to a pandas column.
 */
module Operators {
  import opened Wrappers

  /** The six comparison kinds. */
  datatype Op = Gt | Lt | Ge | Le | Eq | Ne

  /** The key under which `op` is stored in the operator table. */
  function Symbol(op: Op): (s: string)
    ensures ParseOp(s) == Some(op)
  {
    match op
    case Gt => ">"
    case Lt => "<"
    case Ge => ">="
    case Le => "<="
    case Eq => "=="
    case Ne => "!="
  }

  /**
   * Looking an operator string up in the table; `None` stands for the
   * `KeyError` a missing key raises.
   */
  function ParseOp(s: string): (r: Option<Op>)
    ensures r.Some? <==> s in {">", "<", ">=", "<=", "==", "!="}
  {
    if s == ">" then Some(Gt)
    else if s == "<" then Some(Lt)
    else if s == ">=" then Some(Ge)
    else if s == "<=" then Some(Le)
    else if s == "==" then Some(Eq)
    else if s == "!=" then Some(Ne)
    else None
  }

  /** Every key the lookup finds is the symbol of the operator it finds. */
  lemma ParseSymbol(s: string)
    ensures ParseOp(s).Some? ==> Symbol(ParseOp(s).value) == s
  {
  }

  /** The comparison a table entry performs on two defined numbers. */
  predicate Compare(op: Op, a: real, b: real)
  {
    match op
    case Gt => a > b
    case Lt => a < b
    case Ge => a >= b
    case Le => a <= b
    case Eq => a == b
    case Ne => a != b
  }

  /**
   * The comparison applied to one cell of a column, where `None` is an
   * undefined (NaN) value or a missing threshold: pandas answers false for
   * every operator except `!=`, which answers true.
   */
  predicate Holds(op: Op, a: Option<real>, b: Option<real>)
  {
    if a.Some? && b.Some? then Compare(op, a.value, b.value) else op == Ne
  }

  /** Each symbol selects its own comparison: the table is the identity on meaning. */
  lemma SymbolMeaning(a: real, b: real)
    ensures ParseOp(">") == Some(Gt) && (Compare(Gt, a, b) <==> a > b)
    ensures ParseOp("<") == Some(Lt) && (Compare(Lt, a, b) <==> a < b)
    ensures ParseOp(">=") == Some(Ge) && (Compare(Ge, a, b) <==> a >= b)
    ensures ParseOp("<=") == Some(Le) && (Compare(Le, a, b) <==> a <= b)
    ensures ParseOp("==") == Some(Eq) && (Compare(Eq, a, b) <==> a == b)
    ensures ParseOp("!=") == Some(Ne) && (Compare(Ne, a, b) <==> a != b)
  {
  }

  /**
   * On undefined cells the usual dualities break: `!=` is the negation of
   * `==` everywhere, but `>=` is not the negation of `<` (both are false).
   */
  lemma UndefinedCells(op: Op, b: Option<real>)
    ensures Holds(op, None, b) <==> op == Ne
    ensures Holds(op, b, None) <==> op == Ne
    ensures Holds(Ne, None, b) == !Holds(Eq, None, b)
    ensures !Holds(Ge, None, b) && !Holds(Lt, None, b)
  {
  }
}

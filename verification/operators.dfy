/** The comparison operators a condition may name, and what applying one to two
    values gives: true, false, or "raises" when Python cannot perform it. */
module Operators {
  import opened Optional
  import opened Values

  /** The five supported comparisons: `>=`, `<=`, `>`, `<` and `==`. */
  datatype CmpOp = Ge | Le | Gt | Lt | Eq

  /** The operator table: the symbol each supported operator is written as in a rule. */
  const OperatorTable: map<string, CmpOp> :=
    map[">=" := Ge, "<=" := Le, ">" := Gt, "<" := Lt, "==" := Eq]

  /** The symbol an operator is written as. */
  function Symbol(op: CmpOp): string {
    match op
    case Ge => ">="
    case Le => "<="
    case Gt => ">"
    case Lt => "<"
    case Eq => "=="
  }

  /** Looks a condition's operator symbol up in the table; `None` for any
      symbol the engine does not support (`!=`, `in`, `=`, ...). */
  function LookupOp(sym: string): (r: Option<CmpOp>)
    ensures r.Some? <==> sym == ">=" || sym == "<=" || sym == ">" || sym == "<" || sym == "=="
    ensures r.Some? ==> Symbol(r.value) == sym
  {
    if sym in OperatorTable then Some(OperatorTable[sym]) else None
  }

  /** Every operator is found again under its own symbol. */
  lemma LookupSymbol(op: CmpOp)
    ensures LookupOp(Symbol(op)) == Some(op)
  {
  }

  /** Applies a relation given by the three-way result `c` of comparing the operands. */
  function FromOrder(op: CmpOp, c: int): bool {
    match op
    case Ge => c >= 0
    case Le => c <= 0
    case Gt => c > 0
    case Lt => c < 0
    case Eq => c == 0
  }

  /** Applies a relation to two numbers. */
  function NumRel(op: CmpOp, x: real, y: real): bool {
    match op
    case Ge => x >= y
    case Le => x <= y
    case Gt => x > y
    case Lt => x < y
    case Eq => x == y
  }

  /** `op(a, b)` as Python evaluates it: `Some(true)` or `Some(false)` when the
      comparison can be performed, `None` when it raises TypeError. */
  function Apply(op: CmpOp, a: Value, b: Value): (r: Option<bool>)
    ensures r.None? <==> op != Eq && !Orderable(a, b)
    ensures op == Eq ==> r == Some(Equal(a, b))
    ensures Numeric(a).Some? && Numeric(b).Some? ==>
      var x, y := Numeric(a).value, Numeric(b).value;
      (op == Ge ==> r == Some(x >= y)) && (op == Le ==> r == Some(x <= y)) &&
      (op == Gt ==> r == Some(x > y)) && (op == Lt ==> r == Some(x < y))
    ensures a.Str? && b.Str? ==>
      (op == Lt ==> r == Some(StrCmp(a.s, b.s) < 0)) && (op == Gt ==> r == Some(StrCmp(a.s, b.s) > 0))
  {
    if op == Eq then Some(Equal(a, b))
    else if Numeric(a).Some? && Numeric(b).Some? then Some(NumRel(op, Numeric(a).value, Numeric(b).value))
    else if a.Str? && b.Str? then Some(FromOrder(op, StrCmp(a.s, b.s)))
    else None
  }

  /** Negates a comparison outcome; a comparison that raises still raises. */
  function Not(r: Option<bool>): Option<bool> {
    match r
    case Some(b) => Some(!b)
    case None => None
  }

  /** The laws the five operators obey on every pair of values: `>=` and `<=`
      are the complements of `<` and `>`, swapping operands turns each ordering
      into its converse, and on orderable values `>=` is `>` or `==`. */
  lemma {:induction false} OrderLaws(a: Value, b: Value)
    ensures Apply(Ge, a, b) == Not(Apply(Lt, a, b))
    ensures Apply(Le, a, b) == Not(Apply(Gt, a, b))
    ensures Apply(Gt, a, b) == Apply(Lt, b, a)
    ensures Apply(Ge, a, b) == Apply(Le, b, a)
    ensures Apply(Eq, a, b) == Apply(Eq, b, a)
    ensures Orderable(a, b) ==> Apply(Ge, a, b) == Some(Apply(Gt, a, b).value || Apply(Eq, a, b).value)
    ensures Orderable(a, b) ==> Apply(Le, a, b) == Some(Apply(Lt, a, b).value || Apply(Eq, a, b).value)
  {
    if a.Str? && b.Str? {
      StrCmpAntisymmetric(a.s, b.s);
    }
  }

  /** `<` is transitive wherever both comparisons can be performed. */
  lemma LtTransitive(a: Value, b: Value, c: Value)
    requires Apply(Lt, a, b) == Some(true) && Apply(Lt, b, c) == Some(true)
    ensures Apply(Lt, a, c) == Some(true)
  {
    if a.Str? && b.Str? && c.Str? {
      StrCmpTransitive(a.s, b.s, c.s);
    }
  }
}

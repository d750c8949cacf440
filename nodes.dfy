/** The nodes of the calculator: numbers and binary operations, before and after tree building. */
module Nodes {
  import opened Results
  import opened MachineInt

  /** The four operations of the operation table, each with its priority and its combining function. */
  datatype OpKind = Add | Sub | Mul | Div {

    /** Additive operations bind weakest (1), multiplicative ones tighter (2). */
    function Priority(): (p: int)
      ensures p == 1 <==> (this == Add || this == Sub)
      ensures p == 2 <==> (this == Mul || this == Div)
    {
      match this
      case Add => 1
      case Sub => 1
      case Mul => 2
      case Div => 2
    }
  }

  /** The priority of a number: above every operation, so a number is picked only where no operation shares its depth. */
  const NumberPriority: int := 100

  /** A scanned node: a number or a childless operation, tagged with its parenthesis depth (`Scobes`). */
  datatype Token = Number(value: Int32, depth: int) | Operation(kind: OpKind, depth: int) {

    function Priority(): (p: int)
      ensures Number? ==> p == NumberPriority
      ensures Operation? ==> p < NumberPriority
    {
      match this
      case Number(_, _) => NumberPriority
      case Operation(kind, _) => kind.Priority()
    }

    /** The depth is increased by `scobes`; nothing else about the node changes. */
    function AddScobes(scobes: int): (t: Token)
      ensures t.depth == depth + scobes
      ensures t.Number? == Number? && (Number? ==> t.value == value) && (Operation? ==> t.kind == kind)
      ensures t.Priority() == Priority()
    {
      this.(depth := depth + scobes)
    }
  }

  /** A built expression: a number leaf or an operation owning its two subtrees. */
  datatype Tree = Leaf(value: Int32) | Node(kind: OpKind, left: Tree, right: Tree)

  /** Number of nodes, leaves included. */
  function Size(t: Tree): (n: nat)
    ensures n >= 1
  {
    match t
    case Leaf(_) => 1
    case Node(_, left, right) => Size(left) + 1 + Size(right)
  }

  /** The combining function on unbounded integers, division rounding toward zero. */
  function ExactApply(kind: OpKind, a: int, b: int): (r: Result<int>)
    ensures r.Failure? <==> (kind == Div && b == 0)
    ensures r.Failure? ==> r.error == DivideByZero
  {
    match kind
    case Add => Success(a + b)
    case Sub => Success(a - b)
    case Mul => Success(a * b)
    case Div => if b == 0 then Failure(DivideByZero) else Success(TruncDiv(a, b))
  }

  /**
   * The stored combining function of an operation, on 32-bit values: `+`, `-` and `*` wrap around,
   * `/` fails on a zero divisor and on the one quotient that does not fit.
   */
  function Apply(kind: OpKind, a: Int32, b: Int32): (r: Result<Int32>)
    ensures r.Failure? <==> kind == Div && (b == 0 || (a as int == MinInt32 && b == -1))
    ensures r.Failure? ==> r.error == (if b == 0 then DivideByZero else DivisionOverflow)
    ensures r.Success? ==> ExactApply(kind, a as int, b as int).Success?
    ensures r.Success? ==> (r.value as int - ExactApply(kind, a as int, b as int).value) % Modulus == 0
    ensures r.Success? && MinInt32 <= ExactApply(kind, a as int, b as int).value <= MaxInt32 ==>
              r.value as int == ExactApply(kind, a as int, b as int).value
  {
    match kind
    case Add => Success(Wrap(a as int + b as int))
    case Sub => Success(Wrap(a as int - b as int))
    case Mul => Success(Wrap(a as int * b as int))
    case Div =>
      if b == 0 then Failure(DivideByZero)
      else if a as int == MinInt32 && b == -1 then Failure(DivisionOverflow)
      else
        var q := TruncDiv(a as int, b as int);
        QuotientFits(a as int, b as int, q);
        Success(q as Int32)
  }

  lemma QuotientFits(a: int, b: int, q: int)
    requires MinInt32 <= a <= MaxInt32 && MinInt32 <= b <= MaxInt32 && b != 0
    requires !(a == MinInt32 && b == -1)
    requires q == TruncDiv(a, b)
    ensures MinInt32 <= q <= MaxInt32
  {
    var qa, ba := Abs(q), Abs(b);
    assert qa * ba <= Abs(a);
    if ba == 1 {
      assert qa <= Abs(a);
      if a == MinInt32 {
        assert b == 1;
        assert q < 0 || q == 0;
      }
    } else {
      MulMonotone(qa, 2, ba);
      assert qa * 2 <= Abs(a);
    }
  }

  lemma MulMonotone(x: nat, y: nat, z: nat)
    requires y <= z
    ensures x * y <= x * z
  {
  }

  /** A node's value: numbers evaluate to themselves, operations combine their children's values, left first. */
  function Evaluate(t: Tree): (r: Result<Int32>)
    ensures r.Failure? ==> r.error == DivideByZero || r.error == DivisionOverflow
    ensures t.Leaf? ==> r == Success(t.value)
  {
    match t
    case Leaf(v) => Success(v)
    case Node(kind, left, right) =>
      var x :- Evaluate(left);
      var y :- Evaluate(right);
      Apply(kind, x, y)
  }

  /** The value the tree denotes in unbounded integer arithmetic. */
  function Exact(t: Tree): Result<int> {
    match t
    case Leaf(v) => Success(v as int)
    case Node(kind, left, right) =>
      var x :- Exact(left);
      var y :- Exact(right);
      ExactApply(kind, x, y)
  }

  /** No subtree's exact value leaves the 32-bit range. */
  predicate Fits(t: Tree) {
    (Exact(t).Success? ==> MinInt32 <= Exact(t).value <= MaxInt32) &&
    match t
    case Leaf(_) => true
    case Node(_, left, right) => Fits(left) && Fits(right)
  }

  /** When nothing overflows, 32-bit evaluation agrees with exact arithmetic, failures included. */
  lemma {:induction false} EvaluateIsExact(t: Tree)
    requires Fits(t)
    ensures Evaluate(t).Success? <==> Exact(t).Success?
    ensures Evaluate(t).Success? ==> Evaluate(t).value as int == Exact(t).value
    ensures Evaluate(t).Failure? ==> Evaluate(t).error == Exact(t).error == DivideByZero
  {
    match t
    case Leaf(_) =>
    case Node(_, left, right) =>
      EvaluateIsExact(left);
      EvaluateIsExact(right);
  }
}

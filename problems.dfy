/**
 * The game's operators and the Problem object: a pair of factors, larger first, the operator
 * that computes the right answer for them, and the fields the page writes afterwards.
 */
module Problems {
  import opened Wrappers

  /** The table Operators: each entry has a display name, a sign and a function of two integers. */
  datatype Operator = Addition | Subtraction {

    function Name(): string {
      match this
      case Addition => "Addition"
      case Subtraction => "Subtraction"
    }

    /** Subtraction is shown with the minus sign U+2212. */
    function Sign(): string {
      match this
      case Addition => "+"
      case Subtraction => "\U{2212}"
    }

    /**
     * The entry's func. Each operator is undone by the other, and on ordered non-negative
     * arguments the result lies between 0 and twice the larger one.
     */
    function Apply(a: int, b: int): (r: int)
      ensures this == Addition ==> r - b == a
      ensures this == Subtraction ==> r + b == a
      ensures 0 <= b <= a ==> 0 <= r <= 2 * a
    {
      match this
      case Addition => a + b
      case Subtraction => a - b
    }
  }

  /** Operators[name]: the entry with that name, if the table has one. */
  function OperatorNamed(name: string): (r: Option<Operator>)
    ensures r.Some? ==> r.value.Name() == name
    ensures r.None? ==> forall op: Operator :: op.Name() != name
  {
    if name == "Addition" then Some(Addition)
    else if name == "Subtraction" then Some(Subtraction)
    else None
  }

  /** The CSS class of a problem: null until graded, then 'correct' or 'incorrect'. */
  datatype AnswerClass = Unset | Correct | Incorrect

  class Problem {
    /** The larger factor. */
    const facA: int
    /** The smaller factor. */
    const facB: int
    const op: Operator
    /** The text the user entered; null (None) until then. */
    var userAnswer: Option<string>
    var answerClass: AnswerClass

    /** The factors are stored larger first. */
    predicate Ordered() {
      facA >= facB
    }

    /** new Problem(fac1, fac2, op): the two factors are stored larger first. */
    constructor (fac1: int, fac2: int, op: Operator)
      ensures Ordered()
      ensures (facA == fac1 && facB == fac2) || (facA == fac2 && facB == fac1)
      ensures this.op == op
      ensures userAnswer == None && answerClass == Unset
    {
      facA := if fac1 > fac2 then fac1 else fac2;
      facB := if fac1 > fac2 then fac2 else fac1;
      this.op := op;
      userAnswer := None;
      answerClass := Unset;
    }

    /**
     * answer(): the operator applied to (facA, facB). With the factors in order, a difference
     * is never negative, and neither is a sum of non-negative factors.
     */
    function Answer(): (r: int)
      ensures op == Addition ==> r == facA + facB
      ensures op == Subtraction ==> r == facA - facB
      ensures Ordered() && op == Subtraction ==> r >= 0
      ensures Ordered() && facB >= 0 ==> 0 <= r <= 2 * facA
    {
      op.Apply(facA, facB)
    }
  }
}

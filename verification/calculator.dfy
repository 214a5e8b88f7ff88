/**
 * The scientific calculator's bookkeeping: the history log of the last ten
 * results together with `last_result`, and the conditions under which
 * division, modulus, percentage and the scientific functions answer with an
 * error message instead of a number. Numbers are exact reals; the values of
 * `log10`, `sqrt`, the trigonometric functions and `exp` come from the math
 * library and are passed in.
 */
module Calculator {
  import opened Base

  /** What an operation hands back: a number, or the error text the source returns as a string. */
  datatype Outcome = Value(value: real) | Failure(message: string)

  const DivisionByZero: string := "\U{274C} Error: Division by zero."
  const ModulusByZero: string := "\U{274C} Error: Modulus by zero."
  const LogUndefined: string := "\U{274C} Logarithm undefined"
  const NegativeRoot: string := "\U{274C} Square root of negative"
  const InvalidInput: string := "\U{274C} Invalid input"

  /** The product of a list of numbers (1 for the empty list). */
  function Product(s: seq<real>): real
  {
    if |s| == 0 then 1.0 else s[0] * Product(s[1..])
  }

  /** A list free of zeros has a non-zero product. */
  lemma {:induction false} ProductNonZero(s: seq<real>)
    requires forall k | 0 <= k < |s| :: s[k] != 0.0
    ensures Product(s) != 0.0
  {
    if |s| > 0 {
      ProductNonZero(s[1..]);
    }
  }

  /**
   * Dividing `acc` by each element of `rest` in turn, stopping with the
   * division error at the first zero.
   */
  function Quotient(acc: real, rest: seq<real>): Outcome
    decreases |rest|
  {
    if |rest| == 0 then Value(acc)
    else if rest[0] == 0.0 then Failure(DivisionByZero)
    else Quotient(acc / rest[0], rest[1..])
  }

  /** The fold fails exactly when a zero divisor occurs, and then with the division message. */
  lemma {:induction false} QuotientFails(acc: real, rest: seq<real>)
    ensures Quotient(acc, rest).Failure? <==> exists k | 0 <= k < |rest| :: rest[k] == 0.0
    ensures Quotient(acc, rest).Failure? ==> Quotient(acc, rest).message == DivisionByZero
    decreases |rest|
  {
    if |rest| > 0 && rest[0] != 0.0 {
      QuotientFails(acc / rest[0], rest[1..]);
      if exists k | 0 <= k < |rest| :: rest[k] == 0.0 {
        var k :| 0 <= k < |rest| && rest[k] == 0.0;
        assert rest[1..][k - 1] == 0.0;
      }
    }
  }

  /** Without a zero divisor, dividing step by step is dividing once by the product. */
  lemma {:induction false} QuotientIsProduct(acc: real, rest: seq<real>)
    requires forall k | 0 <= k < |rest| :: rest[k] != 0.0
    ensures Product(rest) != 0.0
    ensures Quotient(acc, rest) == Value(acc / Product(rest))
    decreases |rest|
  {
    ProductNonZero(rest);
    if |rest| > 0 {
      var d, p := rest[0], Product(rest[1..]);
      QuotientIsProduct(acc / d, rest[1..]);
      assert acc / d / p == acc / (d * p);
    }
  }

  /**
   * `divide(numbers)`: the first number divided by every later one. A zero
   * first number is allowed; a zero among the later ones gives the division
   * error.
   */
  method Divide(numbers: seq<real>) returns (r: Outcome)
    requires |numbers| > 0
    ensures r == Quotient(numbers[0], numbers[1..])
    ensures r.Failure? <==> exists k | 1 <= k < |numbers| :: numbers[k] == 0.0
    ensures r.Failure? ==> r.message == DivisionByZero
  {
    QuotientFails(numbers[0], numbers[1..]);
    assert forall k | 1 <= k < |numbers| :: numbers[k] == numbers[1..][k - 1];
    var result := numbers[0];
    var i := 1;
    while i < |numbers|
      invariant 1 <= i <= |numbers|
      invariant Quotient(result, numbers[i..]) == Quotient(numbers[0], numbers[1..])
    {
      var n := numbers[i];
      assert numbers[i..][1..] == numbers[i + 1..];
      if n == 0.0 {
        return Failure(DivisionByZero);
      }
      result := result / n;
      i := i + 1;
    }
    assert numbers[i..] == [];
    r := Value(result);
  }

  /** Python's `a % b` on floats: the remainder takes the sign of the divisor. */
  function FloorMod(a: real, b: real): real
    requires b != 0.0
  {
    a - b * ((a / b).Floor as real)
  }

  /** The floored remainder lies between zero and the divisor. */
  lemma FloorModRange(a: real, b: real)
    requires b != 0.0
    ensures b > 0.0 ==> 0.0 <= FloorMod(a, b) < b
    ensures b < 0.0 ==> b < FloorMod(a, b) <= 0.0
  {
    var q := a / b;
    var t := q - q.Floor as real;
    FloorModScaled(a, b);
    ScaleFraction(b, t, FloorMod(a, b));
  }

  /** The floored remainder is the divisor times the fractional part of the quotient. */
  lemma FloorModScaled(a: real, b: real)
    requires b != 0.0
    ensures FloorMod(a, b) == b * (a / b - (a / b).Floor as real)
  {
    var q := a / b;
    var f := q.Floor as real;
    assert b * q == a;
    assert b * (q - f) == b * q - b * f;
  }

  /** Scaling a fraction in [0, 1) by `b` lands between 0 and `b`. */
  lemma ScaleFraction(b: real, t: real, r: real)
    requires 0.0 <= t < 1.0 && r == b * t
    ensures b > 0.0 ==> 0.0 <= r < b
    ensures b < 0.0 ==> b < r <= 0.0
  {
    assert b - r == b * (1.0 - t);
  }

  /** `modulus(a, b)`. */
  function Modulus(a: real, b: real): (r: Outcome)
    ensures r.Failure? <==> b == 0.0
    ensures r.Failure? ==> r.message == ModulusByZero
  {
    if b == 0.0 then Failure(ModulusByZero) else Value(FloorMod(a, b))
  }

  /** `percentage(a, b)`: what percentage `a` is of `b`. */
  function Percentage(a: real, b: real): (r: Outcome)
    ensures r.Failure? <==> b == 0.0
    ensures r.Failure? ==> r.message == DivisionByZero
    ensures r.Value? ==> r.value * b == a * 100.0
  {
    if b == 0.0 then Failure(DivisionByZero) else Value((a / b) * 100.0)
  }

  /** The operations of the scientific menu. */
  datatype SciOp = Sin | Cos | Tan | Log | Sqrt | Fact | Exp

  /** The name the user types for each operation. */
  function OpName(op: SciOp): string
  {
    match op
    case Sin => "sin"
    case Cos => "cos"
    case Tan => "tan"
    case Log => "log"
    case Sqrt => "sqrt"
    case Fact => "fact"
    case Exp => "exp"
  }

  /** Reading the (already lower-cased) operation name; anything else is an invalid operation. */
  function ParseOp(name: string): (r: Option<SciOp>)
    ensures r.Some? ==> OpName(r.value) == name
  {
    if name == "sin" then Some(Sin)
    else if name == "cos" then Some(Cos)
    else if name == "tan" then Some(Tan)
    else if name == "log" then Some(Log)
    else if name == "sqrt" then Some(Sqrt)
    else if name == "fact" then Some(Fact)
    else if name == "exp" then Some(Exp)
    else None
  }

  /** Every operation is read back from its own name. */
  lemma ParseOpName(op: SciOp)
    ensures ParseOp(OpName(op)) == Some(op)
  {
  }

  /** `math.factorial(n)`. */
  function Factorial(n: nat): (r: nat)
    ensures r >= 1
  {
    if n == 0 then 1 else n * Factorial(n - 1)
  }

  /** `value == int(value)` for a real `value`: it has no fractional part. */
  predicate IsWhole(value: real)
  {
    value == value.Floor as real
  }

  /**
   * `scientific(op, value)`. `library` is what the math library computes
   * for `sin`, `cos`, `tan`, `log10`, `sqrt` and `exp`; the factorial is
   * computed here.
   */
  function Scientific(op: SciOp, value: real, library: real): Outcome
  {
    match op
    case Log => if value > 0.0 then Value(library) else Failure(LogUndefined)
    case Sqrt => if value >= 0.0 then Value(library) else Failure(NegativeRoot)
    case Fact =>
      if value >= 0.0 && IsWhole(value) then Value(Factorial(value.Floor) as real)
      else Failure(InvalidInput)
    case _ => Value(library)
  }

  /** Which inputs each scientific operation refuses, and with which message. */
  lemma ScientificFails(op: SciOp, value: real, library: real)
    ensures op == Log ==> (Scientific(op, value, library).Failure? <==> value <= 0.0)
    ensures op == Sqrt ==> (Scientific(op, value, library).Failure? <==> value < 0.0)
    ensures op == Fact ==>
              (Scientific(op, value, library).Failure? <==> value < 0.0 || !IsWhole(value))
    ensures op in {Sin, Cos, Tan, Exp} ==> Scientific(op, value, library) == Value(library)
    ensures Scientific(op, value, library).Failure? ==>
              Scientific(op, value, library).message ==
                (if op == Log then LogUndefined else if op == Sqrt then NegativeRoot else InvalidInput)
  {
  }

  /** A whole, non-negative input gives the factorial of its integer part. */
  lemma FactorialOfWhole(n: nat, library: real)
    ensures Scientific(Fact, n as real, library) == Value(Factorial(n) as real)
  {
    assert (n as real).Floor == n;
  }

  /** The requests of menu choices 4 to 7, whose result may be an error. */
  datatype Request =
    | DivideList(numbers: seq<real>)
    | ModulusOf(a: real, b: real)
    | PercentageOf(a: real, b: real)
    | ScientificOf(op: SciOp, x: real, library: real)

  /** A history entry: `{"operation": ..., "result": ...}`. */
  datatype Entry = Entry(operation: string, result: real)

  const HistoryLimit: nat := 10

  /** The history after `record_history`: append, then drop the oldest if there are more than ten. */
  function Recorded(history: seq<Entry>, e: Entry): seq<Entry>
  {
    var grown := history + [e];
    if |grown| > HistoryLimit then grown[1..] else grown
  }

  /**
   * Recording keeps at most ten entries, puts the new one last, drops the
   * oldest only when ten were already there, and keeps the order of the rest.
   */
  lemma RecordedSpec(history: seq<Entry>, e: Entry)
    requires |history| <= HistoryLimit
    ensures var r := Recorded(history, e);
            && |r| <= HistoryLimit
            && |r| > 0 && r[|r| - 1] == e
            && (|history| < HistoryLimit ==> r == history + [e])
            && (|history| == HistoryLimit ==> r == history[1..] + [e])
  {
    if |history| == HistoryLimit {
      assert (history + [e])[1..] == history[1..] + [e];
    }
  }

  /** The calculator's global `history` list and `last_result`. */
  class Calculator {
    var history: seq<Entry>
    var lastResult: Option<real>

    /** The history never holds more than ten entries. */
    predicate Valid()
      reads this
    {
      |history| <= HistoryLimit
    }

    constructor ()
      ensures Valid()
      ensures history == [] && lastResult == None
    {
      history := [];
      lastResult := None;
    }

    /** `record_history(operation, result)`. */
    method RecordHistory(operation: string, result: real)
      requires Valid()
      modifies this
      ensures Valid()
      ensures lastResult == Some(result)
      ensures history == Recorded(old(history), Entry(operation, result))
    {
      lastResult := Some(result);
      history := history + [Entry(operation, result)];
      if |history| > HistoryLimit {
        history := history[1..];
      }
    }

    /** Menu choice 9: the history is emptied and there is no previous result any more. */
    method ClearHistory()
      modifies this
      ensures Valid()
      ensures history == [] && lastResult == None
    {
      history := [];
      lastResult := None;
    }

    /**
     * Menu choices 4 to 7: the operation is carried out and only a numeric
     * result is recorded, under the given operation text.
     */
    method Perform(request: Request, operation: string) returns (r: Outcome)
      requires Valid()
      requires request.DivideList? ==> |request.numbers| > 0
      modifies this
      ensures Valid()
      ensures request.DivideList? ==> r == Quotient(request.numbers[0], request.numbers[1..])
      ensures request.ModulusOf? ==> r == Modulus(request.a, request.b)
      ensures request.PercentageOf? ==> r == Percentage(request.a, request.b)
      ensures request.ScientificOf? ==> r == Scientific(request.op, request.x, request.library)
      ensures r.Value? ==> history == Recorded(old(history), Entry(operation, r.value))
                             && lastResult == Some(r.value)
      ensures r.Failure? ==> history == old(history) && lastResult == old(lastResult)
    {
      match request {
        case DivideList(numbers) =>
          r := Divide(numbers);
        case ModulusOf(a, b) =>
          r := Modulus(a, b);
        case PercentageOf(a, b) =>
          r := Percentage(a, b);
        case ScientificOf(op, x, library) =>
          r := Scientific(op, x, library);
      }
      if r.Value? {
        RecordHistory(operation, r.value);
      }
    }
  }
}

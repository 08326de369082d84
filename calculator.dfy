/**
 * The state machine behind the calculator screen: two operand texts, a
 * pending operator and the text shown on the display, changed by the digit,
 * operator, clear and equals buttons.
 */
module Calculator {
  import opened Wrappers
  import opened KotlinInt

  /** What the Kotlin code throws from the equals button; the model returns it instead. */
  datatype EqualError =
    | NumberFormat(input: string)  // `toInt()` rejected this operand text
    | DivisionByZero               // integer division by zero

  /** What pressing equals did. */
  datatype EqualOutcome =
    | NotReady               // no operator, or no right operand yet: nothing happens
    | Evaluated(result: int) // the expression was computed and became the left operand
    | Failed(failure: EqualError)

  /** The labels of the number pad, row by row. */
  const NumberPad: seq<string> := ["1", "2", "3", "4", "5", "6", "7", "8", "9", "0", "C", "="]
  /** The labels of the operator row. */
  const OperatorPad: seq<string> := ["+", "-", "*", "/"]

  predicate IsArithmetic(op: char) {
    op == '+' || op == '-' || op == '*' || op == '/'
  }

  /** One arithmetic branch of the `when` on the operator, with Kotlin `Int` semantics. */
  function Apply(op: char, a: int, b: int): (r: Result<int, EqualError>)
    requires IsArithmetic(op)
    ensures r.Failure? <==> op == '/' && b == 0
    ensures r.Failure? ==> r.error == DivisionByZero
    ensures r.Success? ==> IsInt32(r.value)
    ensures op == '+' ==> (r.value - (a + b)) % Modulus == 0
    ensures op == '-' ==> (r.value - (a - b)) % Modulus == 0
    ensures op == '*' ==> (r.value - a * b) % Modulus == 0
    ensures op == '/' && b != 0 ==> (r.value - TruncDiv(a, b)) % Modulus == 0
  {
    match op
    case '+' => Success(Wrap32(a + b))
    case '-' => Success(Wrap32(a - b))
    case '*' => Success(Wrap32(a * b))
    case '/' => if b == 0 then Failure(DivisionByZero) else Success(Wrap32(TruncDiv(a, b)))
  }

  /**
   * The value computed when equals is pressed: an operator outside `+ - * /`
   * yields 0 without parsing anything; otherwise the left text is parsed,
   * then the right text, then the operator is applied.
   */
  function Evaluate(left: string, op: char, right: string): (r: Result<int, EqualError>)
    ensures r.Success? ==> IsInt32(r.value)
    ensures !IsArithmetic(op) ==> r == Success(0)
    ensures IsArithmetic(op) && ToInt(left).None? ==> r == Failure(NumberFormat(left))
    ensures IsArithmetic(op) && ToInt(left).Some? && ToInt(right).None? ==> r == Failure(NumberFormat(right))
    ensures IsArithmetic(op) && ToInt(left).Some? && ToInt(right).Some? ==>
              r == Apply(op, ToInt(left).value, ToInt(right).value)
  {
    if !IsArithmetic(op) then Success(0)
    else match ToInt(left)
      case None => Failure(NumberFormat(left))
      case Some(a) =>
        match ToInt(right)
        case None => Failure(NumberFormat(right))
        case Some(b) => Apply(op, a, b)
  }

  /**
   * In the states the buttons can reach, equals fails only for a left operand
   * that is empty or out of range, a right operand out of range, or a division
   * by zero; a division never wraps around.
   */
  lemma EvaluateReachable(left: string, op: char, right: string)
    requires IsArithmetic(op) && IsDigits(right) && right != ""
    ensures Evaluate(left, op, right).Failure? <==>
              ToInt(left).None? || DigitsValue(right) > IntMax || (op == '/' && DigitsValue(right) == 0)
    ensures op == '/' && ToInt(left).Some? && ToInt(right).Some? && DigitsValue(right) != 0 ==>
              Evaluate(left, op, right) == Success(TruncDiv(ToInt(left).value, DigitsValue(right)))
  {
  }

  /** The text shown while an expression is being typed. */
  function Expression(left: string, op: char, right: string): string {
    left + " " + [op] + " " + right
  }

  /** The state remembered by the calculator screen. */
  class CalculatorScreen {
    var display: string
    var operand1: string
    var operand2: string
    var operator: Option<char>

    /** Holds in every state the two button rows can lead to from the initial state. */
    ghost predicate Reachable()
      reads this
    {
      && IsDigits(operand2)
      && (operator.Some? ==> IsArithmetic(operator.value))
      && (operand2 != "" ==> operator.Some?)
      && (operand1 == "" || IsNumeral(operand1))
    }

    /** The state after clear, which is also the state the screen starts in. */
    ghost predicate IsCleared()
      reads this
    {
      display == "0" && operand1 == "" && operand2 == "" && operator == None
    }

    /** Whether equals will compute anything. */
    predicate Ready()
      reads this
    {
      operator.Some? && operand2 != ""
    }

    constructor ()
      ensures IsCleared() && Reachable()
    {
      display := "0";
      operand1 := "";
      operand2 := "";
      operator := None;
    }

    /**
     * The text goes to the left operand while no operator is pending and to
     * the right operand afterwards; the operator stays as it was.
     */
    twostate predicate NumberClicked(number: string)
      reads this
    {
      && operator == old(operator)
      && (old(operator).None? ==>
            operand1 == old(operand1) + number && operand2 == old(operand2) && display == operand1)
      && (old(operator).Some? ==>
            operand1 == old(operand1) && operand2 == old(operand2) + number &&
            display == Expression(operand1, operator.value, operand2))
    }

    method OnNumberClick(number: string)
      modifies this
      ensures NumberClicked(number)
      ensures old(Reachable()) && IsDigits(number) ==> Reachable()
    {
      if operator == None {
        operand1 := operand1 + number;
        display := operand1;
        if old(Reachable()) && IsDigits(number) {
          NumeralExtend(old(operand1), number);
        }
      } else {
        operand2 := operand2 + number;
        display := Expression(operand1, operator.value, operand2);
      }
    }

    /**
     * The new operator replaces any pending one; both operand texts are kept,
     * although a typed right operand is no longer shown.
     */
    twostate predicate OperatorClicked(newOperator: char)
      reads this
    {
      && operator == Some(newOperator)
      && operand1 == old(operand1)
      && operand2 == old(operand2)
      && display == operand1 + " " + [newOperator]
    }

    method OnOperatorClick(newOperator: char)
      modifies this
      ensures OperatorClicked(newOperator)
      ensures old(Reachable()) && IsArithmetic(newOperator) ==> Reachable()
    {
      if operator == None {
        operator := Some(newOperator);
        display := operand1 + " " + [newOperator];
      } else {
        operator := Some(newOperator);
        display := operand1 + " " + [newOperator];
      }
    }

    method OnClearClick()
      modifies this
      ensures IsCleared() && Reachable()
    {
      operand1 := "";
      operand2 := "";
      operator := None;
      display := "0";
    }

    /**
     * Equals does nothing until an operator and a right operand exist. Then
     * the expression is evaluated; on success the display shows the whole
     * equation and the result becomes the new left operand, and on failure
     * (where the app would crash) nothing changes.
     */
    twostate predicate EqualClicked(outcome: EqualOutcome)
      reads this
    {
      && (!old(Ready()) ==> outcome == NotReady)
      && (old(Ready()) ==>
            match Evaluate(old(operand1), old(operator).value, old(operand2))
            case Success(v) => outcome == Evaluated(v)
            case Failure(f) => outcome == Failed(f))
      && (!outcome.Evaluated? ==>
            display == old(display) && operand1 == old(operand1) &&
            operand2 == old(operand2) && operator == old(operator))
      && (outcome.Evaluated? ==>
            && display == Expression(old(operand1), old(operator).value, old(operand2)) + " = " + IntToString(outcome.result)
            && operand1 == IntToString(outcome.result)
            && operand2 == ""
            && operator == None)
    }

    method OnEqualClick() returns (outcome: EqualOutcome)
      modifies this
      ensures EqualClicked(outcome)
      ensures outcome.Evaluated? ==> ToInt(operand1) == Some(outcome.result)
      ensures old(Reachable()) ==> Reachable()
    {
      if operator != None && operand2 != "" {
        var evaluated := Evaluate(operand1, operator.value, operand2);
        match evaluated {
          case Success(result) =>
            display := Expression(operand1, operator.value, operand2) + " = " + IntToString(result);
            operand1 := IntToString(result);
            operand2 := "";
            operator := None;
            outcome := Evaluated(result);
            ToIntOfToString(result);
          case Failure(f) =>
            outcome := Failed(f);
        }
      } else {
        outcome := NotReady;
      }
    }

    /** The number-pad button `key`: "C" clears, "=" evaluates, any other key is typed. */
    method PressNumberPad(key: string) returns (failure: Option<EqualError>)
      modifies this
      ensures key == "C" ==> IsCleared() && failure == None
      ensures key == "=" ==>
                exists outcome :: (EqualClicked(outcome) &&
                                   failure == (if outcome.Failed? then Some(outcome.failure) else None))
      ensures key != "C" && key != "=" ==> NumberClicked(key) && failure == None
      ensures old(Reachable()) && key in NumberPad ==> Reachable()
    {
      failure := None;
      if key == "C" {
        OnClearClick();
      } else if key == "=" {
        var outcome := OnEqualClick();
        if outcome.Failed? {
          failure := Some(outcome.failure);
        }
      } else {
        OnNumberClick(key);
      }
    }

    /** A button of the operator row sends the first character of its label `key`. */
    method PressOperatorPad(key: string)
      requires |key| > 0
      modifies this
      ensures OperatorClicked(key[0])
      ensures old(Reachable()) && key in OperatorPad ==> Reachable()
    {
      OnOperatorClick(key[0]);
    }
  }
}

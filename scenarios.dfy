/** Button sequences on the calculator screen and what the contracts alone say about them. */
module Scenarios {
  import opened Wrappers
  import opened KotlinInt
  import opened Calculator

  /** 5 + 3 = 8, after which the 8 is the left operand of the next calculation. */
  method AddThenContinue() {
    var screen := new CalculatorScreen();
    var f := screen.PressNumberPad("5");
    screen.PressOperatorPad("+");
    f := screen.PressNumberPad("3");
    assert screen.display == "5 + 3";
    var outcome := screen.OnEqualClick();
    assert ToInt("5") == Some(5) && ToInt("3") == Some(3);
    assert outcome == Evaluated(8);
    assert IntToString(8) == "8";
    assert screen.display == "5 + 3 = 8";
    assert screen.operand1 == "8" && screen.operand2 == "" && screen.operator == None;
    f := screen.PressNumberPad("1");
    assert screen.display == "81";
  }

  /** 9 / 0 is refused and leaves the screen as it was. */
  method DivideByZero() {
    var screen := new CalculatorScreen();
    var f := screen.PressNumberPad("9");
    screen.PressOperatorPad("/");
    f := screen.PressNumberPad("0");
    assert ToInt("9") == Some(9) && ToInt("0") == Some(0);
    f := screen.PressNumberPad("=");
    assert f == Some(DivisionByZero);
    assert screen.display == "9 / 0";
    assert screen.operand1 == "9" && screen.operand2 == "0" && screen.operator == Some('/');
  }

  /** An operator before any digit leaves the left operand empty, which cannot be parsed. */
  method OperatorFirst() {
    var screen := new CalculatorScreen();
    screen.PressOperatorPad("-");
    var f := screen.PressNumberPad("4");
    assert screen.display == " - 4";
    var outcome := screen.OnEqualClick();
    assert outcome == Failed(NumberFormat(""));
  }

  /** Arithmetic wraps around as Kotlin `Int` does. */
  method Overflow() {
    assert Apply('+', IntMax, 1) == Success(IntMin);
    assert Apply('*', 65536, 65536) == Success(0);
    assert Apply('/', IntMin, -1) == Success(IntMin);
    assert Apply('/', -7, 2) == Success(-3);
  }

  /** Clear resets any state, and pressing it twice is the same as once. */
  method ClearTwice(screen: CalculatorScreen)
    modifies screen
  {
    screen.OnClearClick();
    var once := (screen.display, screen.operand1, screen.operand2, screen.operator);
    screen.OnClearClick();
    assert (screen.display, screen.operand1, screen.operand2, screen.operator) == once;
  }
}

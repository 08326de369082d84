# Calculator screen state machine

A Dafny model of the arithmetic core of the Kotlin/Compose calculator app:
the `CalculatorScreen` composable remembers four values (`display`,
`operand1`, `operand2` and the nullable `operator`) and four click handlers
change them — a digit is typed into the left or right operand, an operator
is chosen (the last one wins), clear resets everything, and equals parses
both operands with `String.toInt()`, applies `+ - * /` on Kotlin `Int` and
makes the result the new left operand.

Files:

- `wrappers.dfy` — `Option` (Kotlin's nullable values) and `Result` (a value
  or the exception the app would throw).
- `kotlin_int.dfy` — module `KotlinInt`: the Kotlin `Int` behaviour the
  handlers rely on. Addition, subtraction and multiplication wrap modulo 2^32
  (`Wrap32`). Division truncates toward zero (`TruncDiv`, then `Wrap32`, so
  `Int.MIN_VALUE / -1` wraps too). `String.toInt()` is `ToInt` and returns
  `None` where Kotlin throws `NumberFormatException`. `Int.toString()` is
  `IntToString`.
- `calculator.dfy` — module `Calculator`: the `when` expression of the
  equals handler as `Apply`/`Evaluate`, and the class `CalculatorScreen`
  with the four remembered values as fields, one method per click handler,
  and two dispatch methods for the number pad and the operator row.
  `Reachable()` is the invariant that every button of the two pads
  preserves.
- `scenarios.dfy` — client methods that follow button sequences
  (5 + 3 = 8 then typing on, 9 / 0, an operator before any digit,
  wrap-around, clear twice) and assert what the contracts imply.

Crash paths: where the app throws (`toInt()` on empty or out-of-range text,
division by zero) the equals handler of the model returns
`Failed(NumberFormat(text))` or `Failed(DivisionByZero)` and leaves all four
fields unchanged. The failure is checked in the same order as the Kotlin code
evaluates it: the left operand is parsed first, then the right one, and the
division comes last. An operator outside `+ - * /` takes the `else -> 0` branch
without parsing anything.

Two behaviours of the code are easy to miss:

- `display` is not a function of the other three fields. After an operator
  press it omits a right operand that is still kept in `operand2`. After
  equals it shows the whole equation `a op b = r`.
- `operand1` is not only digits: a negative result leaves `-` in front, and
  later digits are appended after it. `Reachable()` therefore says `operand1`
  is empty or a numeral with an optional sign, and `AppendDigit` gives its
  value after one more digit.

## Model

| member | source | states |
|---|---|---|
| `KotlinInt.Wrap32` | app/src/main/java/com/example/kotlin/MainActivity.kt:86-88 | the stored `Int` is in the 32-bit range and congruent to the exact value modulo 2^32; in-range values are kept exactly |
| `KotlinInt.Wrap32Unique` | app/src/main/java/com/example/kotlin/MainActivity.kt:86-88 | the range and the congruence determine the wrapped value: no other `Int` has both |
| `KotlinInt.TruncDiv` | app/src/main/java/com/example/kotlin/MainActivity.kt:89 | the quotient leaves a remainder smaller than the divisor with the sign of the dividend (truncation toward zero), and its magnitude is at most the dividend's |
| `KotlinInt.TruncDivUnique` | app/src/main/java/com/example/kotlin/MainActivity.kt:89 | any quotient with that remainder property is the truncated quotient |
| `KotlinInt.DivisionInRange` | app/src/main/java/com/example/kotlin/MainActivity.kt:89 | dividing an `Int` by a positive divisor never leaves the `Int` range, so division of reachable operands never wraps |
| `KotlinInt.ToInt` | app/src/main/java/com/example/kotlin/MainActivity.kt:86-89 | `toInt()` rejects empty text and accepts only an optional sign followed by digits; accepted values are in the `Int` range; digit-only text, with or without leading zeros or a `+`, parses to its decimal value when that is at most `Int.MAX_VALUE`, and `-` followed by digits to the negated value when that is at least `Int.MIN_VALUE`; signed or unsigned digit text outside the `Int` range is rejected |
| `KotlinInt.IntToString` | app/src/main/java/com/example/kotlin/MainActivity.kt:92-93 | `toString()` of an `Int` is a numeral without a plus sign that starts with `-` exactly for negative values and has no leading zero; 0 is `"0"` |
| `KotlinInt.ToIntOfToString` | app/src/main/java/com/example/kotlin/MainActivity.kt:93 | parsing the text of a result gives the result back, so the next calculation starts from it |
| `KotlinInt.NumeralExtend` | app/src/main/java/com/example/kotlin/MainActivity.kt:58 | typing digits after an empty or numeric left operand leaves it empty or numeric |
| `KotlinInt.AppendDigit` | app/src/main/java/com/example/kotlin/MainActivity.kt:58 | one more digit multiplies the operand's value by ten and adds the digit, on the side of its sign |
| `Calculator.Apply` | app/src/main/java/com/example/kotlin/MainActivity.kt:86-89 | division by zero is the only failure; otherwise the result is an `Int` congruent modulo 2^32 to `a+b`, `a-b`, `a*b` or the truncated `a/b` |
| `Calculator.Evaluate` | app/src/main/java/com/example/kotlin/MainActivity.kt:85-91 | any other operator yields 0; otherwise an unparsable left operand fails first, then an unparsable right one, then the arithmetic; every result is an `Int` |
| `Calculator.EvaluateReachable` | app/src/main/java/com/example/kotlin/MainActivity.kt:84-91 | with a non-empty digit-only right operand, equals fails exactly when the left operand does not parse, the right one exceeds `Int.MAX_VALUE`, or it divides by zero; a division then gives the exact truncated quotient |
| `Calculator.CalculatorScreen.constructor` | app/src/main/java/com/example/kotlin/MainActivity.kt:49-52 | the screen starts with display `"0"`, empty operands and no operator, in a reachable state |
| `Calculator.CalculatorScreen.OnNumberClick` | app/src/main/java/com/example/kotlin/MainActivity.kt:56-64 | without an operator the text is appended to `operand1` only and shown alone; with one it is appended to `operand2` only and `operand1 op operand2` is shown; the operator is unchanged; typing digits preserves `Reachable()` |
| `Calculator.CalculatorScreen.OnOperatorClick` | app/src/main/java/com/example/kotlin/MainActivity.kt:66-74 | in both branches the new operator replaces any pending one, the display becomes `operand1 op`, and both operands are kept; an arithmetic operator preserves `Reachable()` |
| `Calculator.CalculatorScreen.OnClearClick` | app/src/main/java/com/example/kotlin/MainActivity.kt:76-81 | from any state: empty operands, no operator, display `"0"`, a reachable state (so clearing twice equals clearing once) |
| `Calculator.CalculatorScreen.OnEqualClick` | app/src/main/java/com/example/kotlin/MainActivity.kt:83-97 | nothing changes without an operator or right operand; on success the display shows `a op b = r` from the old texts, `operand1` becomes the text of `r` and parses back to `r`, `operand2` is cleared and the operator dropped; a failure changes nothing; `Reachable()` is preserved |
| `Calculator.CalculatorScreen.PressNumberPad` | app/src/main/java/com/example/kotlin/MainActivity.kt:146-161 | "C" clears, "=" evaluates and reports a failure, any other label is typed as a number; every label of the pad preserves `Reachable()` |
| `Calculator.CalculatorScreen.PressOperatorPad` | app/src/main/java/com/example/kotlin/MainActivity.kt:176-177 | an operator button sends the first character of its label; the four labels preserve `Reachable()` |

## Left out

- Layout, styling, button composables and the preview (`MainActivity.onCreate`, `NumberButton`, `OperatorButton`, `DefaultPreview`): presentation only.
- The theme flags (`darkTheme` in `CalculatorTheme` and in the screen, toggled by the icon button): a UI-only boolean independent of the calculator state.
- The dialog (`showDialog`): it is never set to true and only presents text.
- `components/navbar.kt`: a top bar whose click handler is empty.
- The crash itself: where Kotlin throws `NumberFormatException` or `ArithmeticException`, the model returns a `Failed` outcome and keeps the state, instead of ending the process.
- `KotlinInt.ToInt`: accepts only the ASCII digits `0`-`9`; the JVM also accepts other Unicode decimal digits, which no button of the calculator can produce.
- Compose recomposition and the remembering of state across recompositions: the fields of one object stand for the remembered values.

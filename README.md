# Calculator state machine, modelled and verified in Dafny

This project models the `Calculator` component of a small on-screen calculator
(src/components/Calculator.tsx). It covers the component's four state cells
(`display`, `previousValue`, `operation`, `waitingForOperand`), its six event
handlers, the arithmetic helper `performOperation`, and the keyboard dispatch
of `handleKeyPress`. It then proves what these promise across any sequence of
key presses.

Layout:

- `wrappers.dfy`: `Option`, for the nullable cells.
- `numerals.dfy`: typed display text (digits and at most one `.`) and
  `NumeralValue`, the value `parseFloat` reads from such a text.
- `calc.dfy`: the state (`State`, `Display`, `Action`), `PerformOperation`,
  `Step` (one handler call as a pure transition), `Run` (a sequence of calls),
  and the class `Calculator`. The class holds the four cells as fields. Its
  handler methods update them in place and are proved to perform exactly `Step`.
- `properties.dfy`: lemmas about `Step` and `Run`. They cover the display
  invariant, Clear, the idempotent keys, Delete undoing a key, digit entry,
  and left-to-right chaining of operators.
- `keyboard.dfy`: the key-to-handler mapping and `HandleKeyPress` on a
  calculator object. The digit test uses code-point string order, which
  agrees with JavaScript's string comparison on that test.
- `sessions.dfy`: three sessions on a fresh calculator object, one driven by
  buttons and two by keys.

Modelling choices:

- Numbers are `real`. The display is `Entered(text)` while the user types, or
  `Shown(v)` after a result is written with `String(newValue)`. Printing is
  not modelled. Reading a shown value back with `parseFloat` gives `v`.
- `operation` is a `string | null`. The test `if (operation)` holds when it is
  set and not the empty string (`IsSet`).
- `previousValue || 0` (line 35) is `previousValue` for every real. Only NaN
  and -0 differ (`-0 || 0` is +0). Neither exists in this model, and
  `String(-0)` is "0" in any case.
- The invariant (`WellFormed`) says three things. In entry mode the display
  holds typed text. Every typed text is non-empty, starts with a digit, and
  has only digits and at most one `.`. A pending value comes with a pending
  operator. It needs every `handleNumber` argument to be one digit
  (`Admissible`). The buttons always pass one digit. So does every
  one-character key.
- Pressing two operators in a row does not just swap the pending operator:
  the second press reaches line 34 and applies the pending operator to the
  pending value and the display value. `DoubleOperatorApplies` shows that
  `5 + -` displays 10 with `-` pending.

## Model

| member | source | states |
|---|---|---|
| Calc.Calculator.constructor | src/components/Calculator.tsx:6-9 | the cells start as display "0", no pending value, no pending operator, entry mode |
| Calc.Calculator.HandleNumber | src/components/Calculator.tsx:11-18 | while waiting the display becomes exactly the digit and entry mode starts; in entry mode a display of "0" is replaced by the digit, any other display gets it appended; pending value and operator unchanged; equals `Step` |
| Calc.Calculator.HandleDecimal | src/components/Calculator.tsx:20-27 | while waiting the display becomes "0." and entry mode starts; in entry mode "." is appended only if absent, else nothing changes; pending value and operator unchanged; equals `Step` |
| Calc.Calculator.HandleOperation | src/components/Calculator.tsx:29-43 | with no pending value the parsed display is stored and the display kept; with a set pending operator the result of applying it is written to display and pending value; otherwise both kept; always ends with the new operator pending and waiting; equals `Step` |
| Calc.Calculator.HandleEquals | src/components/Calculator.tsx:60-70 | with a pending value and a set operator the result is shown, both are cleared and waiting starts; otherwise nothing changes; equals `Step` |
| Calc.Calculator.HandleClear | src/components/Calculator.tsx:72-77 | from any state the cells become exactly the state at mount |
| Calc.Calculator.HandleDelete | src/components/Calculator.tsx:79-83 | while waiting nothing changes; in entry mode the last character is dropped, or the display becomes "0" if it has one character; only the display changes |
| Calc.PerformOperationMeaning | src/components/Calculator.tsx:45-58 | sum, difference, product and quotient, each stated through its inverse; division by zero gives exactly 0; an unknown operator gives the current value |
| Calc.Step | src/components/Calculator.tsx:11-83 | one handler call keeps entry mode showing typed text |
| Calc.Run | src/components/Calculator.tsx:11-83 | any sequence of handler calls keeps entry mode showing typed text |
| CalcProperties.InitialWellFormed | src/components/Calculator.tsx:6-9 | the state at mount satisfies the display invariant |
| CalcProperties.StepPreservesWellFormed | src/components/Calculator.tsx:11-83 | every handler, given a one-digit number key, preserves the display invariant and the pairing of pending value and operator |
| CalcProperties.RunPreservesWellFormed | src/components/Calculator.tsx:11-83 | the invariant holds after any sequence of admissible handler calls |
| CalcProperties.EntryDisplayIsNumeral | src/components/Calculator.tsx:6-83 | from mount, whenever not waiting, the display is a non-empty string of digits with at most one "." |
| CalcProperties.ClearForgetsHistory | src/components/Calculator.tsx:72-77 | after any history Clear gives the state at mount, and clearing twice equals clearing once |
| CalcProperties.DecimalIdempotent | src/components/Calculator.tsx:20-27 | pressing "." twice equals pressing it once, in every state |
| CalcProperties.EqualsIdempotent | src/components/Calculator.tsx:60-70 | pressing "=" twice equals pressing it once |
| CalcProperties.DeleteUndoesDigit | src/components/Calculator.tsx:11-18 | in entry mode, a digit followed by Delete restores the state |
| CalcProperties.DeleteUndoesDecimal | src/components/Calculator.tsx:24-25 | in entry mode, adding "." and then Delete restores the state |
| CalcProperties.DeleteWhileWaiting | src/components/Calculator.tsx:79-83 | while waiting, Delete has no effect on any later history |
| CalcProperties.TypedAppend | src/components/Calculator.tsx:16 | typing a digit extends the leading-zero-suppressed text exactly as the "0"-replacing append does |
| CalcProperties.TypedValue | src/components/Calculator.tsx:30 | the typed text reads back as the number its digits spell |
| CalcProperties.TypeDigits | src/components/Calculator.tsx:11-18 | typing digits after "0" or while waiting shows them with leading zeros suppressed, in entry mode, pending cells untouched |
| CalcProperties.DigitEntry | src/components/Calculator.tsx:11-18 | from mount, typed digits are displayed with leading zeros suppressed and parse as the number they spell |
| CalcProperties.TypeOperand | src/components/Calculator.tsx:11-27 | typing digit and "." keys after "0" or while waiting shows exactly the text `EntryText` builds from the keys, in entry mode, pending cells untouched |
| CalcProperties.EntryTextOfDigits | src/components/Calculator.tsx:11-18 | on digit keys alone the operand text is the digits with leading zeros suppressed, and it reads as the number they spell |
| CalcProperties.FirstTerm | src/components/Calculator.tsx:32-33 | the first operator stores the typed operand (digits and at most one ".") as pending value, then the next operand is typed |
| CalcProperties.NextTerm | src/components/Calculator.tsx:34-39 | a later operator applies the pending operator to the pending value and the typed operand, digits and "." alike |
| CalcProperties.ChainState | src/components/Calculator.tsx:29-43 | after operands typed with digit and "." keys and operators, the pending value is the left-to-right value of all but the last term |
| CalcProperties.ChainEquals | src/components/Calculator.tsx:60-70 | after such operands and operators, "=" shows the left-to-right value of all terms and clears the pending cells |
| CalcProperties.Chaining | src/components/Calculator.tsx:29-70 | operands typed with any digit and "." keys and operators, followed by "=", display the strict left-to-right fold, with no precedence |
| CalcProperties.ChainedAdditionShowsTen | src/components/Calculator.tsx:29-70 | `5 + 3 + 2 =` shows 10 |
| CalcProperties.NoPrecedence | src/components/Calculator.tsx:29-70 | `2 + 3 × 4 =` shows 20 |
| CalcProperties.DivisionByZeroShowsZero | src/components/Calculator.tsx:53-54 | `8 ÷ 0 =` shows 0 |
| CalcProperties.DecimalOperandChain | src/components/Calculator.tsx:20-70 | `1.5 + 2 =` shows 3.5 |
| CalcProperties.DoubleOperatorApplies | src/components/Calculator.tsx:34-42 | `5 + -` shows 10, stores 10 and leaves "-" pending |
| CalcProperties.OperatorThenEquals | src/components/Calculator.tsx:32-33 | with nothing pending, an operator then "=" applies it to the display value and itself |
| CalcProperties.ChainedOperatorThenEquals | src/components/Calculator.tsx:34-39 | with an operator pending, an operator then "=" applies the pending one, then the new one to that result and itself |
| CalcProperties.DigitScalesOperand | src/components/Calculator.tsx:16 | in entry mode without a ".", typing a digit makes the operand read at lines 30 and 61 ten times the old one plus the digit |
| CalcProperties.DecimalKeepsOperand | src/components/Calculator.tsx:24-25 | in entry mode, "." never changes the operand read at lines 30 and 61 |
| Numerals.NumeralValueAppendDigit | src/components/Calculator.tsx:16 | appending a digit to an integer display multiplies its value by ten and adds the digit |
| Numerals.NumeralValueAppendPoint | src/components/Calculator.tsx:25 | appending "." to an integer display keeps its value |
| Keyboard.DigitRangeShape | src/components/Calculator.tsx:87 | the string-order test passes exactly the keys starting with 0 to 8, and "9"; for one-character keys exactly the digits |
| Keyboard.KeyboardMatchesButtons | src/components/Calculator.tsx:87-104 | every button's handler call has a key; every key's call is a button's, except multi-character keys passing the digit test |
| Keyboard.SingleCharKeysAdmissible | src/components/Calculator.tsx:87-88 | a one-character key only makes handler calls the invariant admits |
| Keyboard.HandleKeyPress | src/components/Calculator.tsx:86-105 | a key runs the one handler `KeyAction` selects, and any other key changes nothing |
| Sessions.ButtonsChainedAddition | src/components/Calculator.tsx:160-197 | pressing the buttons 5 + 3 + 2 = on a fresh calculator shows 10 |
| Sessions.KeysDivisionByZero | src/components/Calculator.tsx:86-105 | the keys 8 / 0 Enter on a fresh calculator show 0 |
| Sessions.KeysEscapeClears | src/components/Calculator.tsx:100-101 | the keys 7 * Escape on a fresh calculator restore the state at mount |

## Left out

- Rendering: the JSX, `CalcButton`, the CSS classes and the secondary line showing the pending value and operator (lines 111-206). These are presentation only. The handler arguments of the buttons are kept, as `IsButton`.
- Browser event plumbing: registering and removing the `keydown` listener, `preventDefault` for "/", and the `useEffect` dependency list (lines 85, 96, 107-109). These are I/O.
- React state semantics: each handler is one atomic transition on the four cells. Setter batching and closures are not modelled.
- Floating point: values are exact reals, so rounding, NaN, Infinity and `-0` are not modelled. The exact text of `String(newValue)` (exponent forms, long fractions) is kept abstract as `Shown(v)`.
- Calc.ParseFloat: reading computed text back is taken to return the value that was printed. For typed text, `NumeralValue` agrees with `parseFloat` only on numerals. The invariant shows that every typed display reachable with one-digit number keys is a numeral.
- Keyboard.KeyboardMatchesButtons: a key name of several characters that starts with 0 to 8 passes the digit test at line 87 and reaches `handleNumber` with its whole text. The model keeps this call. The display invariant is not claimed after such a call. Browsers do not report key names of that shape.
- String lengths and order: `display.length` counts UTF-16 code units, while Dafny counts characters; the two agree on the ASCII texts the display holds. `Keyboard.LexLe` orders strings by code point, while JavaScript compares UTF-16 code units; the orders differ only between characters above U+FFFF and U+E000-U+FFFF, never in the comparisons with "0" and "9" at line 87.

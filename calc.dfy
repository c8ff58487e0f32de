/**
 * The calculator state machine of `Calculator` (src/components/Calculator.tsx).
 * `Step` is the meaning of one handler call on the four state cells;
 * the class `Calculator` holds those cells and updates them in place, and
 * each of its handlers is proved to perform exactly that step.
 */
module Calc {
  import opened Wrappers
  import opened Numerals

  /** What the display cell holds: text typed with the entry keys, or the
      rendering `String(newValue)` of a computed value. */
  datatype Display = Entered(text: string) | Shown(value: real)

  /** The four state cells. */
  datatype State = State(
    display: Display,
    previousValue: Option<real>,
    operation: Option<string>,
    waitingForOperand: bool)

  /** One handler call, with its argument. */
  datatype Action =
    | Number(num: string)
    | Decimal
    | Operation(op: string)
    | Equals
    | Clear
    | Delete

  /** The state at mount. */
  const Initial := State(Entered("0"), None, None, false)

  /** `parseFloat(display)`: the value of typed text, or the computed value
      itself, since printing a number and parsing it back gives that number. */
  function ParseFloat(d: Display): (v: real) {
    match d
    case Entered(t) => NumeralValue(t)
    case Shown(v) => v
  }

  /** The truth value of a `string | null` in a condition: set and not empty. */
  predicate IsSet(op: Option<string>) {
    op.Some? && op.value != ""
  }

  /** `performOperation`: the pending operator applied to the pending value
      and the current value. Division by zero gives 0; an operator it does
      not know gives the current value. */
  function PerformOperation(prev: real, current: real, op: string): (r: real) {
    if op == "+" then prev + current
    else if op == "-" then prev - current
    else if op == "×" then prev * current
    else if op == "÷" then (if current != 0.0 then prev / current else 0.0)
    else current
  }

  /** What each operator means, stated through its inverse: the sum less the
      current value, the difference plus it, the product and the quotient
      divided and multiplied by it give back the pending value. Dividing by
      zero gives 0, and an unknown operator gives the current value. */
  lemma PerformOperationMeaning(prev: real, current: real, op: string)
    ensures var r := PerformOperation(prev, current, op);
            && (op == "+" ==> r - current == prev)
            && (op == "-" ==> r + current == prev)
            && (op == "×" ==> (current != 0.0 ==> r / current == prev) && (current == 0.0 ==> r == 0.0))
            && (op == "÷" ==> (current != 0.0 ==> r * current == prev) && (current == 0.0 ==> r == 0.0))
            && (op != "+" && op != "-" && op != "×" && op != "÷" ==> r == current)
  {
  }

  /** In entry mode the display holds typed text, never a computed value. */
  predicate Coherent(s: State) {
    !s.waitingForOperand ==> s.display.Entered?
  }

  /** The effect of one handler call. */
  function Step(s: State, a: Action): (r: State)
    requires Coherent(s)
    ensures Coherent(r)
  {
    match a
    case Number(num) =>
      if s.waitingForOperand then
        s.(display := Entered(num), waitingForOperand := false)
      else
        s.(display := Entered(if s.display.text == "0" then num else s.display.text + num))
    case Decimal =>
      if s.waitingForOperand then
        s.(display := Entered("0."), waitingForOperand := false)
      else if '.' !in s.display.text then
        s.(display := Entered(s.display.text + "."))
      else
        s
    case Operation(next) =>
      var input := ParseFloat(s.display);
      var s' :=
        if s.previousValue.None? then
          s.(previousValue := Some(input))
        else if IsSet(s.operation) then
          var v := PerformOperation(s.previousValue.value, input, s.operation.value);
          s.(display := Shown(v), previousValue := Some(v))
        else
          s;
      s'.(waitingForOperand := true, operation := Some(next))
    case Equals =>
      if s.previousValue.Some? && IsSet(s.operation) then
        var v := PerformOperation(s.previousValue.value, ParseFloat(s.display), s.operation.value);
        State(Shown(v), None, None, true)
      else
        s
    case Clear =>
      Initial
    case Delete =>
      if s.waitingForOperand then
        s
      else
        var t := s.display.text;
        s.(display := Entered(if |t| > 1 then t[..|t| - 1] else "0"))
  }

  /** The handler calls of `acts`, one after the other. */
  function Run(s: State, acts: seq<Action>): (r: State)
    requires Coherent(s)
    ensures Coherent(r)
    decreases |acts|
  {
    if acts == [] then s else Run(Step(s, acts[0]), acts[1..])
  }

  /** The component's four state cells, updated in place by its handlers. */
  class Calculator {
    var display: Display
    var previousValue: Option<real>
    var operation: Option<string>
    var waitingForOperand: bool

    function Current(): (s: State)
      reads this
    {
      State(display, previousValue, operation, waitingForOperand)
    }

    predicate Valid()
      reads this
    {
      Coherent(Current())
    }

    constructor ()
      ensures Valid()
      ensures Current() == Initial
      ensures display == Entered("0") && previousValue == None && operation == None && !waitingForOperand
    {
      display := Entered("0");
      previousValue := None;
      operation := None;
      waitingForOperand := false;
    }

    method HandleNumber(num: string)
      requires Valid()
      modifies this
      ensures Valid()
      ensures Current() == Step(old(Current()), Number(num))
      ensures old(waitingForOperand) ==> display == Entered(num)
      ensures !old(waitingForOperand) && old(display) == Entered("0") ==> display == Entered(num)
      ensures !old(waitingForOperand) && old(display) != Entered("0") ==> display == Entered(old(display).text + num)
      ensures !waitingForOperand
      ensures previousValue == old(previousValue) && operation == old(operation)
    {
      if waitingForOperand {
        display := Entered(num);
        waitingForOperand := false;
      } else {
        display := Entered(if display.text == "0" then num else display.text + num);
      }
    }

    method HandleDecimal()
      requires Valid()
      modifies this
      ensures Valid()
      ensures Current() == Step(old(Current()), Decimal)
      ensures old(waitingForOperand) ==> display == Entered("0.") && !waitingForOperand
      ensures !old(waitingForOperand) && '.' in old(display).text ==> Current() == old(Current())
      ensures !old(waitingForOperand) && '.' !in old(display).text ==>
                display == Entered(old(display).text + ".") && !waitingForOperand
      ensures previousValue == old(previousValue) && operation == old(operation)
    {
      if waitingForOperand {
        display := Entered("0.");
        waitingForOperand := false;
      } else if '.' !in display.text {
        display := Entered(display.text + ".");
      }
    }

    method HandleOperation(nextOperation: string)
      requires Valid()
      modifies this
      ensures Valid()
      ensures Current() == Step(old(Current()), Operation(nextOperation))
      ensures old(previousValue).None? ==>
                previousValue == Some(ParseFloat(old(display))) && display == old(display)
      ensures old(previousValue).Some? && IsSet(old(operation)) ==>
                var v := PerformOperation(old(previousValue).value, ParseFloat(old(display)), old(operation).value);
                display == Shown(v) && previousValue == Some(v)
      ensures old(previousValue).Some? && !IsSet(old(operation)) ==>
                display == old(display) && previousValue == old(previousValue)
      ensures operation == Some(nextOperation) && waitingForOperand
    {
      var inputValue := ParseFloat(display);
      if previousValue.None? {
        previousValue := Some(inputValue);
      } else if IsSet(operation) {
        // `previousValue || 0` is `previousValue` for every value a real can be
        var currentValue := previousValue.value;
        var newValue := PerformOperation(currentValue, inputValue, operation.value);
        display := Shown(newValue);
        previousValue := Some(newValue);
      }
      waitingForOperand := true;
      operation := Some(nextOperation);
    }

    method HandleEquals()
      requires Valid()
      modifies this
      ensures Valid()
      ensures Current() == Step(old(Current()), Equals)
      ensures old(previousValue).Some? && IsSet(old(operation)) ==>
                && display == Shown(PerformOperation(old(previousValue).value, ParseFloat(old(display)), old(operation).value))
                && previousValue == None && operation == None && waitingForOperand
      ensures !(old(previousValue).Some? && IsSet(old(operation))) ==> Current() == old(Current())
    {
      var inputValue := ParseFloat(display);
      if previousValue.Some? && IsSet(operation) {
        var newValue := PerformOperation(previousValue.value, inputValue, operation.value);
        display := Shown(newValue);
        previousValue := None;
        operation := None;
        waitingForOperand := true;
      }
    }

    method HandleClear()
      requires Valid()
      modifies this
      ensures Valid()
      ensures Current() == Step(old(Current()), Clear)
      ensures Current() == Initial
    {
      display := Entered("0");
      previousValue := None;
      operation := None;
      waitingForOperand := false;
    }

    method HandleDelete()
      requires Valid()
      modifies this
      ensures Valid()
      ensures Current() == Step(old(Current()), Delete)
      ensures old(waitingForOperand) ==> Current() == old(Current())
      ensures !old(waitingForOperand) ==>
                display == Entered(if |old(display).text| > 1 then old(display).text[..|old(display).text| - 1] else "0")
      ensures previousValue == old(previousValue) && operation == old(operation)
      ensures waitingForOperand == old(waitingForOperand)
    {
      if !waitingForOperand {
        display := Entered(if |display.text| > 1 then display.text[..|display.text| - 1] else "0");
      }
    }
  }
}

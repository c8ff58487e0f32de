/**
 * What the calculator promises across handler calls: the display invariant,
 * the resetting, idempotent and undoing keys, digit entry, and left-to-right
 * chaining of operators.
 */
module CalcProperties {
  import opened Wrappers
  import opened Numerals
  import opened Calc

  /** A reachable state: in entry mode a typed text is shown, every typed
      text is a numeral, and a pending value comes with a pending operator. */
  predicate WellFormed(s: State) {
    && Coherent(s)
    && (s.display.Entered? ==> IsNumeral(s.display.text))
    && (s.previousValue.Some? <==> s.operation.Some?)
  }

  /** The arguments the buttons and the keyboard pass: a digit key is one digit. */
  predicate Admissible(a: Action) {
    a.Number? ==> |a.num| == 1 && IsDigit(a.num[0])
  }

  lemma InitialWellFormed()
    ensures WellFormed(Initial)
  {
  }

  /** Every handler keeps the display well formed. */
  lemma StepPreservesWellFormed(s: State, a: Action)
    requires WellFormed(s) && Admissible(a)
    ensures WellFormed(Step(s, a))
  {
  }

  /** The invariant holds after any sequence of handler calls. */
  lemma {:induction false} RunPreservesWellFormed(s: State, acts: seq<Action>)
    requires WellFormed(s)
    requires forall i :: 0 <= i < |acts| ==> Admissible(acts[i])
    ensures WellFormed(Run(s, acts))
    decreases |acts|
  {
    if acts != [] {
      StepPreservesWellFormed(s, acts[0]);
      RunPreservesWellFormed(Step(s, acts[0]), acts[1..]);
    }
  }

  /** From mount, whatever is pressed, the entry-mode display is a non-empty
      string of digits with at most one '.'. */
  lemma EntryDisplayIsNumeral(acts: seq<Action>)
    requires forall i :: 0 <= i < |acts| ==> Admissible(acts[i])
    ensures var r := Run(Initial, acts);
            !r.waitingForOperand ==> r.display.Entered? && IsNumeral(r.display.text)
  {
    InitialWellFormed();
    RunPreservesWellFormed(Initial, acts);
  }

  /** Running two sequences one after the other is running their concatenation. */
  lemma {:induction false} RunAppend(s: State, xs: seq<Action>, ys: seq<Action>)
    requires Coherent(s)
    ensures Run(s, xs + ys) == Run(Run(s, xs), ys)
    decreases |xs|
  {
    if xs != [] {
      assert (xs + ys)[0] == xs[0];
      assert (xs + ys)[1..] == xs[1..] + ys;
      RunAppend(Step(s, xs[0]), xs[1..], ys);
    } else {
      assert xs + ys == ys;
    }
  }

  lemma RunOne(s: State, a: Action)
    requires Coherent(s)
    ensures Run(s, [a]) == Step(s, a)
  {
  }

  lemma RunTwo(s: State, a: Action, b: Action)
    requires Coherent(s)
    ensures Run(s, [a, b]) == Step(Step(s, a), b)
  {
    assert [a, b][1..] == [b];
    RunOne(Step(s, a), b);
  }

  /** Clear returns to the state at mount whatever was pressed before, and
      clearing twice is clearing once. */
  lemma ClearForgetsHistory(s: State, acts: seq<Action>)
    requires Coherent(s)
    ensures Run(s, acts + [Clear]) == Initial
    ensures Run(s, acts + [Clear, Clear]) == Run(s, acts + [Clear])
  {
    RunAppend(s, acts, [Clear]);
    RunAppend(s, acts, [Clear, Clear]);
  }

  /** Pressing '.' twice is pressing it once. */
  lemma DecimalIdempotent(s: State)
    requires Coherent(s)
    ensures Step(Step(s, Decimal), Decimal) == Step(s, Decimal)
  {
  }

  /** Pressing '=' twice is pressing it once. */
  lemma EqualsIdempotent(s: State)
    requires Coherent(s)
    ensures Step(Step(s, Equals), Equals) == Step(s, Equals)
  {
  }

  /** In entry mode, Delete undoes the digit just typed. */
  lemma DeleteUndoesDigit(s: State, num: string)
    requires WellFormed(s) && !s.waitingForOperand
    requires |num| == 1 && IsDigit(num[0])
    ensures Step(Step(s, Number(num)), Delete) == s
  {
  }

  /** In entry mode, Delete undoes a '.' that was added. */
  lemma DeleteUndoesDecimal(s: State)
    requires WellFormed(s) && !s.waitingForOperand && '.' !in s.display.text
    ensures Step(Step(s, Decimal), Delete) == s
  {
  }

  /** While an operand is awaited, Delete changes nothing. */
  lemma DeleteWhileWaiting(s: State, acts: seq<Action>)
    requires Coherent(s) && s.waitingForOperand
    ensures Run(s, [Delete] + acts) == Run(s, acts)
  {
  }

  // ---------------------------------------------------------------------
  // Digit entry

  /** The digit presses that type `ds`. */
  function Presses(ds: string): (acts: seq<Action>)
    ensures |acts| == |ds|
    ensures forall i :: 0 <= i < |ds| ==> acts[i] == Number([ds[i]])
  {
    seq(|ds|, i requires 0 <= i < |ds| => Number([ds[i]]))
  }

  function StripZeros(ds: string): (stripped: string) {
    if ds != [] && ds[0] == '0' then StripZeros(ds[1..]) else ds
  }

  /** The text the display shows after typing `ds`: its leading zeros are
      suppressed, and nothing but zeros shows as "0". */
  function Typed(ds: string): (shown: string) {
    var z := StripZeros(ds);
    if z == [] then "0" else z
  }

  lemma {:induction false} StripZerosShape(ds: string)
    ensures |StripZeros(ds)| <= |ds|
    ensures StripZeros(ds) != [] ==> StripZeros(ds)[0] != '0'
    ensures StripZeros(ds) == ds[|ds| - |StripZeros(ds)|..]
  {
    if ds != [] && ds[0] == '0' {
      StripZerosShape(ds[1..]);
    }
  }

  lemma {:induction false} StripZerosAppend(ds: string, c: char)
    ensures StripZeros(ds + [c]) == if StripZeros(ds) == [] then StripZeros([c]) else StripZeros(ds) + [c]
  {
    if ds != [] {
      assert (ds + [c])[0] == ds[0];
      assert (ds + [c])[1..] == ds[1..] + [c];
      if ds[0] == '0' {
        StripZerosAppend(ds[1..], c);
      }
    } else {
      assert ds + [c] == [c];
    }
  }

  /** Typing one more digit extends the typed text as `handleNumber` does. */
  lemma TypedAppend(ds: string, c: char)
    ensures Typed(ds + [c]) == if Typed(ds) == "0" then [c] else Typed(ds) + [c]
  {
    StripZerosAppend(ds, c);
    StripZerosShape(ds);
  }

  lemma {:induction false} StripZerosValue(ds: string)
    ensures NatValue(StripZeros(ds)) == NatValue(ds)
  {
    if ds != [] && ds[0] == '0' {
      StripZerosValue(ds[1..]);
      assert ds == ['0'] + ds[1..];
      NatValueLeadingZero(ds[1..]);
    }
  }

  /** The typed text reads back as the number the digits spell. */
  lemma TypedValue(ds: string)
    requires AllDigits(ds)
    ensures NumeralValue(Typed(ds)) == NatValue(ds) as real
  {
    StripZerosValue(ds);
    StripZerosShape(ds);
    var z := StripZeros(ds);
    if z == [] {
      assert NatValue("0") == 10 * NatValue("") + DigitValue('0');
    } else {
      assert forall i :: 0 <= i < |z| ==> z[i] == ds[|ds| - |z| + i];
      assert '.' !in z;
    }
  }

  /** Typing `ds` from a state that shows "0" in entry mode, or that awaits an
      operand, leaves the digits with leading zeros suppressed in entry mode;
      the pending value and operator are untouched. */
  lemma {:induction false} TypeDigits(s: State, ds: string)
    requires Coherent(s) && (s.waitingForOperand || s.display == Entered("0"))
    requires ds != []
    ensures Run(s, Presses(ds)) == s.(display := Entered(Typed(ds)), waitingForOperand := false)
    decreases |ds|
  {
    var n := |ds| - 1;
    var c := ds[n];
    assert ds == ds[..n] + [c];
    assert Presses(ds) == Presses(ds[..n]) + [Number([c])];
    RunAppend(s, Presses(ds[..n]), [Number([c])]);
    if n == 0 {
      assert Typed([c]) == [c];
    } else {
      TypeDigits(s, ds[..n]);
      TypedAppend(ds[..n], c);
    }
  }

  /** From mount, typing digits shows them with leading zeros suppressed, and
      the display reads back as the number they spell. */
  lemma DigitEntry(ds: string)
    requires ds != [] && AllDigits(ds)
    ensures Run(Initial, Presses(ds)).display == Entered(Typed(ds))
    ensures ParseFloat(Run(Initial, Presses(ds)).display) == NatValue(ds) as real
  {
    TypeDigits(Initial, ds);
    TypedValue(ds);
  }

  // ---------------------------------------------------------------------
  // Operand entry with digit keys and '.'

  predicate IsEntryKey(a: Action) {
    a.Number? || a.Decimal?
  }

  /** A non-empty run of digit and '.' presses: one operand as typed. */
  predicate EntryKeys(keys: seq<Action>) {
    keys != [] && forall i :: 0 <= i < |keys| ==> IsEntryKey(keys[i])
  }

  /** The text a fresh operand shows after `keys`, read on text alone: the
      first key gives its digit or "0."; then a digit replaces a lone "0" and
      is otherwise appended, and '.' is appended unless the text has one. */
  function EntryText(keys: seq<Action>): (t: string)
    requires EntryKeys(keys)
    decreases |keys|
  {
    var last := keys[|keys| - 1];
    if |keys| == 1 then
      (if last.Number? then last.num else "0.")
    else
      assert EntryKeys(keys[..|keys| - 1]) by {
        assert forall i :: 0 <= i < |keys| - 1 ==> keys[..|keys| - 1][i] == keys[i];
      }
      var prev := EntryText(keys[..|keys| - 1]);
      if last.Number? then (if prev == "0" then last.num else prev + last.num)
      else if '.' in prev then prev
      else prev + "."
  }

  /** The operand that `keys` types, as the next operator or '=' reads it. */
  function Operand(keys: seq<Action>): (v: real)
    requires EntryKeys(keys)
  {
    NumeralValue(EntryText(keys))
  }

  /** Typing an operand from a state that shows "0" in entry mode, or that
      awaits an operand, shows `EntryText` in entry mode; the pending value
      and operator are untouched. */
  lemma {:induction false} TypeOperand(s: State, keys: seq<Action>)
    requires Coherent(s) && (s.waitingForOperand || s.display == Entered("0"))
    requires EntryKeys(keys)
    ensures Run(s, keys) == s.(display := Entered(EntryText(keys)), waitingForOperand := false)
    decreases |keys|
  {
    var n := |keys| - 1;
    var init, last := keys[..n], keys[n];
    assert keys == init + [last];
    RunAppend(s, init, [last]);
    assert IsEntryKey(last);
    if n == 0 {
      assert init == [];
      RunOne(s, last);
      assert "0" + "." == "0.";
    } else {
      assert forall i :: 0 <= i < n ==> init[i] == keys[i];
      TypeOperand(s, init);
      RunOne(Run(s, init), last);
    }
  }

  /** On digit keys alone, `EntryText` is the digits with leading zeros suppressed. */
  lemma EntryTextOfDigits(ds: string)
    requires ds != [] && AllDigits(ds)
    ensures EntryKeys(Presses(ds)) && EntryText(Presses(ds)) == Typed(ds)
    ensures Operand(Presses(ds)) == NatValue(ds) as real
  {
    TypeOperand(Initial, Presses(ds));
    TypeDigits(Initial, ds);
    TypedValue(ds);
  }

  // ---------------------------------------------------------------------
  // Chaining: no precedence, a left-to-right fold

  /** An operator press followed by the presses that type its right operand. */
  datatype Term = Term(op: string, keys: seq<Action>)

  predicate GoodTerm(t: Term) {
    t.op != "" && EntryKeys(t.keys)
  }

  /** The presses of one term: its operator, then its operand. */
  function TermPresses(t: Term): (acts: seq<Action>) {
    [Operation(t.op)] + t.keys
  }

  function Chain(ts: seq<Term>): (acts: seq<Action>) {
    if ts == [] then [] else Chain(ts[..|ts| - 1]) + TermPresses(ts[|ts| - 1])
  }

  /** The value of `first ts[0] ts[1] ...` read strictly left to right. */
  function Fold(first: real, ts: seq<Term>): (v: real)
    requires forall i :: 0 <= i < |ts| ==> GoodTerm(ts[i])
  {
    if ts == [] then first
    else
      var last := ts[|ts| - 1];
      assert GoodTerm(last);
      PerformOperation(Fold(first, ts[..|ts| - 1]), Operand(last.keys), last.op)
  }

  /** The first term after the first operand: its operator stores the operand. */
  lemma FirstTerm(first: seq<Action>, t: Term)
    requires EntryKeys(first) && GoodTerm(t)
    ensures Run(State(Entered(EntryText(first)), None, None, false), TermPresses(t)) ==
              State(Entered(EntryText(t.keys)), Some(Operand(first)), Some(t.op), false)
  {
    var s := State(Entered(EntryText(first)), None, None, false);
    RunAppend(s, [Operation(t.op)], t.keys);
    RunOne(s, Operation(t.op));
    TypeOperand(Step(s, Operation(t.op)), t.keys);
  }

  /** A later term: its operator applies the pending one to the operand typed. */
  lemma NextTerm(x: real, prev: Term, t: Term)
    requires GoodTerm(prev) && GoodTerm(t)
    ensures Run(State(Entered(EntryText(prev.keys)), Some(x), Some(prev.op), false), TermPresses(t)) ==
              State(Entered(EntryText(t.keys)), Some(PerformOperation(x, Operand(prev.keys), prev.op)), Some(t.op), false)
  {
    var s := State(Entered(EntryText(prev.keys)), Some(x), Some(prev.op), false);
    RunAppend(s, [Operation(t.op)], t.keys);
    RunOne(s, Operation(t.op));
    TypeOperand(Step(s, Operation(t.op)), t.keys);
  }

  /** After the first operand and at least one term, each earlier operator
      has been applied in turn, and the last one waits for '='. */
  lemma {:induction false} ChainState(first: seq<Action>, ts: seq<Term>)
    requires EntryKeys(first)
    requires ts != [] && forall i :: 0 <= i < |ts| ==> GoodTerm(ts[i])
    ensures GoodTerm(ts[|ts| - 1])
    ensures Run(Initial, first + Chain(ts)) ==
              State(Entered(EntryText(ts[|ts| - 1].keys)), Some(Fold(Operand(first), ts[..|ts| - 1])), Some(ts[|ts| - 1].op), false)
    decreases |ts|
  {
    var n := |ts| - 1;
    ChainSplit(first, ts);
    assert GoodTerm(ts[n]);
    if n == 0 {
      ChainStart(first, ts[0]);
    } else {
      var init := ts[..n];
      var a := Operand(first);
      assert GoodTerm(ts[n - 1]);
      assert forall i :: 0 <= i < |init| ==> init[i] == ts[i];
      ChainState(first, init);
      assert init[n - 1] == ts[n - 1] && init[..n - 1] == ts[..n - 1];
      NextTerm(Fold(a, ts[..n - 1]), ts[n - 1], ts[n]);
      FoldLast(a, init);
    }
  }

  lemma ChainSplit(first: seq<Action>, ts: seq<Term>)
    requires ts != []
    ensures Run(Initial, first + Chain(ts)) ==
              Run(Run(Initial, first + Chain(ts[..|ts| - 1])), TermPresses(ts[|ts| - 1]))
  {
    var n := |ts| - 1;
    var pre := first + Chain(ts[..n]);
    assert first + Chain(ts) == pre + TermPresses(ts[n]);
    RunAppend(Initial, pre, TermPresses(ts[n]));
  }

  lemma ChainStart(first: seq<Action>, t: Term)
    requires EntryKeys(first) && GoodTerm(t)
    ensures Run(Run(Initial, first + Chain([t][..0])), TermPresses(t)) ==
              State(Entered(EntryText(t.keys)), Some(Fold(Operand(first), [t][..0])), Some(t.op), false)
  {
    assert [t][..0] == [];
    assert first + Chain([]) == first;
    TypeOperand(Initial, first);
    FirstTerm(first, t);
  }

  lemma FoldLast(a: real, ts: seq<Term>)
    requires ts != [] && forall i :: 0 <= i < |ts| ==> GoodTerm(ts[i])
    ensures GoodTerm(ts[|ts| - 1])
    ensures Fold(a, ts) == PerformOperation(Fold(a, ts[..|ts| - 1]), Operand(ts[|ts| - 1].keys), ts[|ts| - 1].op)
  {
  }

  /** Operands and operators pressed in turn and then '=' show the strict
      left-to-right value: no operator takes precedence. */
  lemma Chaining(first: seq<Action>, ts: seq<Term>)
    requires EntryKeys(first)
    requires forall i :: 0 <= i < |ts| ==> GoodTerm(ts[i])
    ensures ParseFloat(Run(Initial, first + Chain(ts) + [Equals]).display) == Fold(Operand(first), ts)
  {
    var acts := first + Chain(ts);
    RunAppend(Initial, acts, [Equals]);
    RunOne(Run(Initial, acts), Equals);
    if ts == [] {
      assert acts == first;
      TypeOperand(Initial, first);
    } else {
      ChainEquals(first, ts);
    }
  }

  lemma ChainEquals(first: seq<Action>, ts: seq<Term>)
    requires EntryKeys(first)
    requires ts != [] && forall i :: 0 <= i < |ts| ==> GoodTerm(ts[i])
    ensures Step(Run(Initial, first + Chain(ts)), Equals) == State(Shown(Fold(Operand(first), ts)), None, None, true)
  {
    var a, last := Operand(first), ts[|ts| - 1];
    ChainState(first, ts);
    FoldLast(a, ts);
    var pending := State(Entered(EntryText(last.keys)), Some(Fold(a, ts[..|ts| - 1])), Some(last.op), false);
    assert Step(pending, Equals) == State(Shown(Fold(a, ts)), None, None, true);
  }

  // ---------------------------------------------------------------------
  // Worked sequences

  /** `5 + 3 + 2 =` shows 10. */
  lemma ChainedAdditionShowsTen()
    ensures Run(Initial, [Number("5"), Operation("+"), Number("3"), Operation("+"), Number("2"), Equals]).display == Shown(10.0)
  {
  }

  /** `2 + 3 × 4 =` shows 20, not 14. */
  lemma NoPrecedence()
    ensures ParseFloat(Run(Initial, [Number("2"), Operation("+"), Number("3"), Operation("×"), Number("4"), Equals]).display) == 20.0
  {
  }

  /** `8 ÷ 0 =` shows 0. */
  lemma DivisionByZeroShowsZero()
    ensures Run(Initial, [Number("8"), Operation("÷"), Number("0"), Equals]).display == Shown(0.0)
  {
  }

  /** A second operator press with no digit between applies the pending
      operator to the display: `5 + -` shows 10 and leaves '-' pending. */
  /** `1.5 + 2 =` shows 3.5: operands may hold a decimal point. */
  lemma DecimalOperandChain()
    ensures ParseFloat(Run(Initial, [Number("1"), Decimal, Number("5"), Operation("+"), Number("2"), Equals]).display) == 3.5
  {
    assert NatValue("1") == 1 && NatValue("5") == 5;
  }

  lemma DoubleOperatorApplies()
    ensures Run(Initial, [Number("5"), Operation("+"), Operation("-")]) == State(Shown(10.0), Some(10.0), Some("-"), true)
  {
  }

  /** An operator pressed with nothing pending, then '=', applies that
      operator to the display value and itself. */
  lemma OperatorThenEquals(s: State, op: string)
    requires WellFormed(s) && s.previousValue.None? && op != ""
    ensures var v := ParseFloat(s.display);
            Run(s, [Operation(op), Equals]) == State(Shown(PerformOperation(v, v, op)), None, None, true)
  {
    RunTwo(s, Operation(op), Equals);
  }

  /** With an operator pending, another operator then '=' applies the pending
      one, then the new one to that result and itself. */
  lemma ChainedOperatorThenEquals(s: State, op: string)
    requires WellFormed(s) && IsSet(s.operation) && op != ""
    ensures var r := PerformOperation(s.previousValue.value, ParseFloat(s.display), s.operation.value);
            Run(s, [Operation(op), Equals]) == State(Shown(PerformOperation(r, r, op)), None, None, true)
  {
    RunTwo(s, Operation(op), Equals);
  }

  /** Typing a digit in entry mode, while the display holds no '.', makes
      the operand the next operator or '=' reads ten times the old one plus
      the digit; a display of "0" counts as the operand 0. */
  lemma DigitScalesOperand(s: State, num: string)
    requires WellFormed(s) && !s.waitingForOperand && '.' !in s.display.text
    requires |num| == 1 && IsDigit(num[0])
    ensures ParseFloat(Step(s, Number(num)).display) == 10.0 * ParseFloat(s.display) + DigitValue(num[0]) as real
  {
    var t := s.display.text;
    if t == "0" {
      NumeralValueAppendDigit("", num[0]);
      assert [] + [num[0]] == num;
      assert NatValue("0") == 10 * NatValue("") + DigitValue('0');
    } else {
      assert t + num == t + [num[0]];
      NumeralValueAppendDigit(t, num[0]);
    }
  }

  /** In entry mode '.' never changes the operand the next operator or '='
      reads. */
  lemma DecimalKeepsOperand(s: State)
    requires WellFormed(s) && !s.waitingForOperand
    ensures ParseFloat(Step(s, Decimal).display) == ParseFloat(s.display)
  {
    if '.' !in s.display.text {
      NumeralValueAppendPoint(s.display.text);
    }
  }
}

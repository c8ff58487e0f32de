/**
 * The keyboard dispatch of `handleKeyPress`: which handler call, if any,
 * a key value makes.
 */
module Keyboard {
  import opened Wrappers
  import opened Numerals
  import opened Calc
  import opened CalcProperties

  /** String order by code point, a prefix first. JavaScript's `<=` compares
      UTF-16 code units instead; the two orders agree on the comparisons with
      "0" and "9" that the digit test makes. */
  predicate LexLe(a: string, b: string)
    decreases |a|
  {
    a == [] || (b != [] && (a[0] < b[0] || (a[0] == b[0] && LexLe(a[1..], b[1..]))))
  }

  /** The digit test `key >= "0" && key <= "9"`. */
  predicate InDigitRange(key: string) {
    LexLe("0", key) && LexLe(key, "9")
  }

  function KeyAction(key: string): (r: Option<Action>) {
    if InDigitRange(key) then Some(Number(key))
    else if key == "." then Some(Decimal)
    else if key == "+" || key == "-" then Some(Operation(key))
    else if key == "*" then Some(Operation("×"))
    else if key == "/" then Some(Operation("÷"))
    else if key == "Enter" || key == "=" then Some(Equals)
    else if key == "Escape" then Some(Clear)
    else if key == "Backspace" then Some(Delete)
    else None
  }

  /** The range test lets through exactly the keys whose first character is
      0 to 8, and "9" itself: for a one-character key, exactly the digits. */
  lemma DigitRangeShape(key: string)
    ensures InDigitRange(key) <==> key != [] && ('0' <= key[0] < '9' || key == "9")
    ensures |key| == 1 ==> (InDigitRange(key) <==> IsDigit(key[0]))
  {
    assert "0"[1..] == [] && "9"[1..] == [];
    if key != [] && key[0] == '9' && |key| > 1 {
      assert !LexLe(key[1..], "");
    }
  }

  /** The handler calls the on-screen buttons make. */
  predicate IsButton(a: Action) {
    || (a.Number? && |a.num| == 1 && IsDigit(a.num[0]))
    || a == Decimal
    || a == Operation("÷") || a == Operation("×") || a == Operation("-") || a == Operation("+")
    || a == Equals || a == Clear || a == Delete
  }

  /** Every button has a key; every key does what some button does, except a
      key name of several characters that passes the digit range test. */
  lemma KeyboardMatchesButtons(a: Action, key: string)
    ensures IsButton(a) ==> exists k :: KeyAction(k) == Some(a)
    ensures KeyAction(key) == Some(a) ==> IsButton(a) || (a == Number(key) && |key| > 1)
  {
    DigitRangeShape(key);
    if IsButton(a) {
      match a
      case Number(num) =>
        DigitRangeShape(num);
        assert KeyAction(num) == Some(a);
      case Decimal =>
        assert KeyAction(".") == Some(a);
      case Operation(op) =>
        if op == "÷" {
          assert KeyAction("/") == Some(a);
        } else if op == "×" {
          assert KeyAction("*") == Some(a);
        } else {
          assert KeyAction(op) == Some(a);
        }
      case Equals =>
        assert KeyAction("=") == Some(a);
      case Clear =>
        assert KeyAction("Escape") == Some(a);
      case Delete =>
        assert KeyAction("Backspace") == Some(a);
    }
  }

  /** A one-character key only ever makes a call the invariant admits. */
  lemma SingleCharKeysAdmissible(key: string)
    requires |key| == 1
    ensures KeyAction(key).Some? ==> Admissible(KeyAction(key).value)
  {
  }

  /** `handleKeyPress`: the handler a key selects, called on the calculator;
      any other key leaves it unchanged. */
  method HandleKeyPress(c: Calculator, key: string)
    requires c.Valid()
    modifies c
    ensures c.Valid()
    ensures KeyAction(key).None? ==> c.Current() == old(c.Current())
    ensures KeyAction(key).Some? ==> c.Current() == Step(old(c.Current()), KeyAction(key).value)
  {
    if InDigitRange(key) {
      c.HandleNumber(key);
    } else if key == "." {
      c.HandleDecimal();
    } else if key == "+" || key == "-" {
      c.HandleOperation(key);
    } else if key == "*" {
      c.HandleOperation("×");
    } else if key == "/" {
      c.HandleOperation("÷");
    } else if key == "Enter" || key == "=" {
      c.HandleEquals();
    } else if key == "Escape" {
      c.HandleClear();
    } else if key == "Backspace" {
      c.HandleDelete();
    }
  }
}

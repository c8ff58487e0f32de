/**
 * Sessions on a freshly mounted calculator object, driven through its
 * handlers exactly as the buttons and the keyboard drive them.
 */
module Sessions {
  import opened Wrappers
  import opened Numerals
  import opened Calc
  import opened Keyboard

  /** The buttons 5 + 3 + 2 = show 10. */
  method ButtonsChainedAddition() returns (shown: Display)
    ensures shown == Shown(10.0)
  {
    var c := new Calculator();
    c.HandleNumber("5");
    c.HandleOperation("+");
    c.HandleNumber("3");
    c.HandleOperation("+");
    assert NatValue("5") == 5 && NatValue("3") == 3;
    assert c.display == Shown(8.0);
    c.HandleNumber("2");
    c.HandleEquals();
    assert NatValue("2") == 2;
    shown := c.display;
  }

  /** The keys 8 / 0 Enter show 0. */
  method KeysDivisionByZero() returns (shown: Display)
    ensures shown == Shown(0.0)
  {
    var c := new Calculator();
    DigitRangeShape("8");
    HandleKeyPress(c, "8");
    assert c.Current() == State(Entered("8"), None, None, false);
    DigitRangeShape("/");
    HandleKeyPress(c, "/");
    assert NatValue("8") == 8;
    assert c.Current() == State(Entered("8"), Some(8.0), Some("÷"), true);
    DigitRangeShape("0");
    HandleKeyPress(c, "0");
    assert c.Current() == State(Entered("0"), Some(8.0), Some("÷"), false);
    DigitRangeShape("Enter");
    HandleKeyPress(c, "Enter");
    shown := c.display;
  }

  /** The keys 7 * Escape bring back the state at mount. */
  method KeysEscapeClears() returns (cleared: State)
    ensures cleared == Initial
  {
    var c := new Calculator();
    DigitRangeShape("7");
    HandleKeyPress(c, "7");
    DigitRangeShape("*");
    HandleKeyPress(c, "*");
    assert c.operation == Some("×") && c.waitingForOperand;
    DigitRangeShape("Escape");
    HandleKeyPress(c, "Escape");
    cleared := c.Current();
  }
}

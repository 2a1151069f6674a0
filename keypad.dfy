/** The calculator's input state machine as values: each handler of App.tsx is a
    function from the old state to the new one. The class in module App runs these
    steps in place; the lemmas here state what the steps promise. */
module Keypad {
  import opened Wrappers
  import opened Types
  import Rewrite
  import HistoryLog

  const ErrorText: string := "Error"
  /** `Math.PI.toString()` and `Math.E.toString()` in JavaScript. */
  const PiText: string := "3.141592653589793"
  const EText: string := "2.718281828459045"

  /** The functions of the scientific panel that compute a floating-point value. */
  const FloatFunctions: set<string> := {"sin", "cos", "tan", "log", "ln", "sqrt"}

  datatype CalcState = CalcState(display: string, expression: string, history: seq<HistoryItem>)

  const Initial: CalcState := CalcState("0", "", [])

  /** The invariant every handler keeps: something is always shown, and the history
      holds at most `Capacity` entries. */
  predicate Valid(s: CalcState) {
    s.display != "" && |s.history| <= HistoryLog.Capacity
  }

  /** A display that the next key replaces instead of extending. */
  predicate Replaceable(d: string) {
    d == "0" || d == ErrorText
  }

  /** handleNumber: the key replaces a `0` or `Error` display and is appended to any other. */
  function Digit(s: CalcState, key: string): (r: CalcState)
    ensures r.expression == s.expression && r.history == s.history
    ensures |key| <= |r.display| && r.display[|r.display| - |key|..] == key
    ensures Replaceable(s.display) ==> |r.display| == |key|
    ensures !Replaceable(s.display) ==> |r.display| == |s.display| + |key| && r.display[..|s.display|] == s.display
    ensures Valid(s) && key != "" ==> Valid(r)
  {
    s.(display := if Replaceable(s.display) then key else s.display + key)
  }

  /** handleOperator: ignored on `Error`; otherwise the operand and the operator, each
      followed by a space, move into the expression and the display resets. */
  function Operator(s: CalcState, op: string): (r: CalcState)
    ensures s.display == ErrorText ==> r == s
    ensures s.display != ErrorText ==>
      r.display == "0" && r.history == s.history &&
      |r.expression| == |s.expression| + |s.display| + |op| + 2 &&
      r.expression[..|s.expression|] == s.expression &&
      r.expression[|s.expression|..] == s.display + " " + op + " "
    ensures Valid(s) ==> Valid(r)
  {
    if s.display == ErrorText then s
    else s.(expression := s.expression + s.display + " " + op + " ", display := "0")
  }

  /** handleClear: back to the initial display and expression; the history stays. */
  function Clear(s: CalcState): (r: CalcState)
    ensures r.display == Initial.display && r.expression == Initial.expression
    ensures r.history == s.history
    ensures Valid(s) ==> Valid(r)
  {
    s.(display := "0", expression := "")
  }

  /** handleBackspace: `Error` becomes `0`; otherwise the last character goes, and a
      display of one character (or none) becomes `0`. Never leaves the display empty. */
  function Backspace(s: CalcState): (r: CalcState)
    ensures r.display != ""
    ensures r.expression == s.expression && r.history == s.history
    ensures s.display == ErrorText ==> r.display == "0"
    ensures s.display != ErrorText && |s.display| > 1 ==> r.display == s.display[..|s.display| - 1]
    ensures s.display != ErrorText && |s.display| <= 1 ==> r.display == "0"
  {
    if s.display == ErrorText then s.(display := "0")
    else s.(display := if |s.display| > 1 then s.display[..|s.display| - 1] else "0")
  }

  /** handleSciFunction. `pow` defers the power to evaluation time like an operator but
      without the `Error` guard; `pi` and `e` show the constants; the six float functions
      show `floatText`, the text of the floating-point result (not modelled here); any
      other name changes nothing. */
  function Sci(s: CalcState, func: string, floatText: string): (r: CalcState)
    ensures r.history == s.history
    ensures func == "pow" ==> r.display == "0" && r.expression == s.expression + s.display + " ^ "
    ensures func == "pi" ==> r.display == PiText && r.expression == s.expression
    ensures func == "e" ==> r.display == EText && r.expression == s.expression
    ensures func in FloatFunctions ==> r.display == floatText && r.expression == s.expression
    ensures func !in FloatFunctions && func !in {"pow", "pi", "e"} ==> r == s
    ensures Valid(s) && floatText != "" ==> Valid(r)
  {
    if func in FloatFunctions then s.(display := floatText)
    else if func == "pow" then s.(expression := s.expression + s.display + " ^ ", display := "0")
    else if func == "pi" then s.(display := PiText)
    else if func == "e" then s.(display := EText)
    else s
  }

  /** calculate. The expression as typed is `expression + display`; the evaluator gets
      its glyph rewrite. On a result, the item is recorded newest-first in the bounded
      history, the result is shown and the expression is emptied; when the evaluator
      fails, only the display changes, to `Error`. */
  function Calculate(s: CalcState, eval: string -> Option<string>, id: string, timestamp: int): (r: CalcState)
    ensures eval(Rewrite.Normalize(s.expression + s.display)).None? ==>
      r == s.(display := ErrorText)
    ensures eval(Rewrite.Normalize(s.expression + s.display)).Some? ==>
      var result := eval(Rewrite.Normalize(s.expression + s.display)).value;
      r.display == result && r.expression == "" &&
      1 <= |r.history| <= HistoryLog.Capacity &&
      r.history[0] == HistoryItem(id, s.expression + s.display, result, timestamp) &&
      r.history[1..] == HistoryLog.Take(s.history, HistoryLog.Capacity - 1)
  {
    var full := s.expression + s.display;
    match eval(Rewrite.Normalize(full))
    case None => s.(display := ErrorText)
    case Some(result) =>
      CalcState(result, "", HistoryLog.Record(HistoryItem(id, full, result, timestamp), s.history))
  }

  // ---------------------------------------------------------------------------
  // Typing numbers

  /** The characters on the number keys: the digits and the point. */
  predicate KeyChar(c: char) {
    '0' <= c <= '9' || c == '.'
  }

  /** The keys of the keypad that `handleNumber` receives: one digit or the point. */
  predicate IsKey(k: string) {
    |k| == 1 && KeyChar(k[0])
  }

  /** Press the keys one after another. */
  function Type(s: CalcState, keys: seq<string>): CalcState
    decreases |keys|
  {
    if keys == [] then s else Type(Digit(s, keys[0]), keys[1..])
  }

  function Concat(keys: seq<string>): string
    decreases |keys|
  {
    if keys == [] then "" else keys[0] + Concat(keys[1..])
  }

  /** The keys after the leading `0` keys, which a `0` display swallows. */
  function DropZeros(keys: seq<string>): seq<string>
    decreases |keys|
  {
    if keys != [] && keys[0] == "0" then DropZeros(keys[1..]) else keys
  }

  /** A display that the next key extends stays one after a number key. */
  lemma ExtendedStaysExtended(d: string, k: string)
    requires d != "" && !Replaceable(d) && IsKey(k)
    ensures d + k != "" && !Replaceable(d + k)
  {
    assert (d + k)[|d + k| - 1] == k[0];
  }

  lemma AppendAssoc(a: string, b: string, c: string)
    ensures (a + b) + c == a + (b + c)
  {
  }

  /** Once the display is neither `0` nor `Error` (a number being typed, or a shown
      result), every number key is appended to it. */
  lemma {:induction false} TypingAppends(s: CalcState, keys: seq<string>)
    requires s.display != "" && !Replaceable(s.display)
    requires forall k :: k in keys ==> IsKey(k)
    ensures Type(s, keys) == s.(display := s.display + Concat(keys))
    decreases |keys|
  {
    if keys == [] {
      assert s.display + Concat(keys) == s.display;
    } else {
      var k, rest := keys[0], keys[1..];
      assert IsKey(k) by { assert k in keys; }
      var t := s.(display := s.display + k);
      ExtendedStaysExtended(s.display, k);
      assert Type(s, keys) == Type(t, rest);
      assert forall j :: j in rest ==> IsKey(j) by {
        forall j | j in rest ensures IsKey(j) { assert j in keys; }
      }
      TypingAppends(t, rest);
      assert Concat(keys) == k + Concat(rest);
      AppendAssoc(s.display, k, Concat(rest));
    }
  }

  /** From `0` or `Error`, typing shows the keys with their leading zeros dropped
      (`0` when all keys were zeros), and nothing but the display changes. */
  lemma {:induction false} TypingFromReplaceable(s: CalcState, keys: seq<string>)
    requires Replaceable(s.display)
    requires forall k :: k in keys ==> IsKey(k)
    ensures Type(s, keys).expression == s.expression && Type(s, keys).history == s.history
    ensures Type(s, keys).display ==
      if keys == [] then s.display
      else if DropZeros(keys) == [] then "0"
      else Concat(DropZeros(keys))
    decreases |keys|
  {
    if keys != [] {
      var t := Digit(s, keys[0]);
      assert forall k :: k in keys[1..] ==> k in keys;
      assert IsKey(keys[0]);
      if keys[0] == "0" {
        TypingFromReplaceable(t, keys[1..]);
      } else {
        assert t.display == keys[0];
        assert !Replaceable(t.display);
        TypingAppends(t, keys[1..]);
      }
    }
  }

  /** No display starts with a redundant `0` followed by another digit. */
  predicate NoLeadingZero(d: string) {
    !(|d| >= 2 && d[0] == '0' && '0' <= d[1] <= '9')
  }

  /** Typing single characters never produces a redundant leading zero (`0` then `5`
      shows `5`, not `05`). */
  lemma {:induction false} TypingNoLeadingZero(s: CalcState, keys: seq<string>)
    requires NoLeadingZero(s.display)
    requires forall k :: k in keys ==> |k| == 1
    ensures NoLeadingZero(Type(s, keys).display)
    decreases |keys|
  {
    if keys != [] {
      assert keys[0] in keys;
      DigitNoLeadingZero(s, keys[0]);
      assert Type(s, keys) == Type(Digit(s, keys[0]), keys[1..]);
      assert forall k :: k in keys[1..] ==> k in keys;
      TypingNoLeadingZero(Digit(s, keys[0]), keys[1..]);
    }
  }

  lemma DigitNoLeadingZero(s: CalcState, k: string)
    requires NoLeadingZero(s.display) && |k| == 1
    ensures NoLeadingZero(Digit(s, k).display)
  {
  }

  /** Backspace undoes a key press; after a key that replaced `0` or `Error` it
      comes back to `0`. */
  lemma BackspaceUndoesDigit(s: CalcState, c: char)
    requires s.display != "" && KeyChar(c)
    ensures Backspace(Digit(s, [c])) == if Replaceable(s.display) then s.(display := "0") else s
  {
    if !Replaceable(s.display) {
      var d := s.display + [c];
      assert d[..|d| - 1] == s.display;
    }
  }

  // ---------------------------------------------------------------------------
  // Operators, clearing and the power key

  /** `pow` is the `^` operator wherever the display is not `Error`; on `Error` the
      operator is ignored, but `pow` moves the text `Error` into the expression. */
  lemma PowVersusOperator(s: CalcState, floatText: string)
    ensures s.display != ErrorText ==> Sci(s, "pow", floatText) == Operator(s, "^")
    ensures s.display == ErrorText ==>
      Operator(s, "^") == s &&
      Sci(s, "pow", floatText).expression == s.expression + "Error ^ "
  {
  }

  /** The display that typing `keys` shows from `0`: the keys without their leading
      zeros, or `0` when every key was a zero. */
  function TypedNumber(keys: seq<string>): string {
    if DropZeros(keys) == [] then "0" else Concat(DropZeros(keys))
  }

  /** A binary operation: after an operator key and a typed number, `=` evaluates the
      rewritten text of the old expression, the operand, the operator and the number as
      shown, and records that text as typed. */
  lemma OperationEvaluates(s: CalcState, op: string, keys: seq<string>,
                           eval: string -> Option<string>, id: string, timestamp: int)
    requires s.display != ErrorText
    requires forall k :: k in keys ==> IsKey(k)
    ensures var typed := s.expression + s.display + " " + op + " " + TypedNumber(keys);
      var r := Calculate(Type(Operator(s, op), keys), eval, id, timestamp);
      match eval(Rewrite.Normalize(typed))
      case None =>
        r.display == ErrorText && r.expression == s.expression + s.display + " " + op + " "
      case Some(v) =>
        (r.display == v && r.expression == "" &&
         r.history == HistoryLog.Record(HistoryItem(id, typed, v, timestamp), s.history))
  {
    var t := Operator(s, op);
    TypingFromReplaceable(t, keys);
  }

  /** Clearing twice is clearing once, and clearing erases whatever the input keys did. */
  lemma ClearForgetsInput(s: CalcState, key: string, op: string, func: string, floatText: string)
    ensures Clear(Clear(s)) == Clear(s)
    ensures Clear(Digit(s, key)) == Clear(s)
    ensures Clear(Operator(s, op)) == Clear(s)
    ensures Clear(Backspace(s)) == Clear(s)
    ensures Clear(Sci(s, func, floatText)) == Clear(s)
  {
  }

  // ---------------------------------------------------------------------------
  // Whole sessions

  /** One user action on the keypad. */
  datatype Action =
    | Number(key: string)
    | Op(op: string)
    | ClearKey
    | BackspaceKey
    | SciKey(func: string, floatText: string)
    | Equals(id: string, timestamp: int)

  /** The keys and texts that reach the handlers are never empty. */
  predicate WellFormed(a: Action) {
    match a
    case Number(key) => key != ""
    case SciKey(_, floatText) => floatText != ""
    case _ => true
  }

  /** The evaluator's result text, when it has one, is not empty (`toString` of a value). */
  ghost predicate NonEmptyResults(eval: string -> Option<string>) {
    forall t :: eval(t).Some? ==> eval(t).value != ""
  }

  function Step(s: CalcState, a: Action, eval: string -> Option<string>): CalcState {
    match a
    case Number(key) => Digit(s, key)
    case Op(op) => Operator(s, op)
    case ClearKey => Clear(s)
    case BackspaceKey => Backspace(s)
    case SciKey(func, floatText) => Sci(s, func, floatText)
    case Equals(id, timestamp) => Calculate(s, eval, id, timestamp)
  }

  function Run(s: CalcState, actions: seq<Action>, eval: string -> Option<string>): CalcState
    decreases |actions|
  {
    if actions == [] then s else Run(Step(s, actions[0], eval), actions[1..], eval)
  }

  /** Every session that starts in a valid state (the initial one, say) stays valid:
      the display is never empty and the history never exceeds its cap. */
  lemma {:induction false} RunKeepsValid(s: CalcState, actions: seq<Action>, eval: string -> Option<string>)
    requires Valid(s)
    requires forall a :: a in actions ==> WellFormed(a)
    requires NonEmptyResults(eval)
    ensures Valid(Run(s, actions, eval))
    decreases |actions|
  {
    if actions != [] {
      var a := actions[0];
      assert WellFormed(a);
      var t := Step(s, a, eval);
      if a.Equals? {
        var o := eval(Rewrite.Normalize(s.expression + s.display));
        assert o.Some? ==> o.value != "";
      }
      assert Valid(t);
      assert forall b :: b in actions[1..] ==> b in actions;
      RunKeepsValid(t, actions[1..], eval);
    }
  }
}

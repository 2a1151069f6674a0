/** The calculator component: three pieces of state that the handlers update in place.
    Each keypad handler's new state is the matching step of module Keypad applied to the
    old one; the history drawer's clear button only empties the history. */
module App {
  import opened Wrappers
  import opened Types
  import Rewrite
  import HistoryLog
  import Keypad

  class Calculator {
    var display: string
    var expression: string
    var history: seq<HistoryItem>

    /** The state as a value, for the lemmas of module Keypad. */
    function State(): Keypad.CalcState
      reads this
    {
      Keypad.CalcState(display, expression, history)
    }

    ghost predicate Valid()
      reads this
    {
      Keypad.Valid(State())
    }

    /** The initial state: display `0`, no expression, empty history. */
    constructor ()
      ensures display == "0" && expression == "" && history == []
      ensures State() == Keypad.Initial && Valid()
    {
      display := "0";
      expression := "";
      history := [];
    }

    method Number(key: string)
      modifies this
      ensures display == if old(display) == "0" || old(display) == "Error" then key else old(display) + key
      ensures expression == old(expression) && history == old(history)
      ensures State() == Keypad.Digit(old(State()), key)
      ensures old(Valid()) && key != "" ==> Valid()
    {
      if display == "0" || display == "Error" {
        display := key;
      } else {
        display := display + key;
      }
    }

    method Operator(op: string)
      modifies this
      ensures old(display) == "Error" ==> display == old(display) && expression == old(expression)
      ensures old(display) != "Error" ==> display == "0" && expression == old(expression) + old(display) + " " + op + " "
      ensures history == old(history)
      ensures State() == Keypad.Operator(old(State()), op)
      ensures old(Valid()) ==> Valid()
    {
      if display == "Error" {
        return;
      }
      expression := expression + display + " " + op + " ";
      display := "0";
    }

    method Clear()
      modifies this
      ensures display == "0" && expression == "" && history == old(history)
      ensures State() == Keypad.Clear(old(State()))
      ensures old(Valid()) ==> Valid()
    {
      display := "0";
      expression := "";
    }

    method Backspace()
      modifies this
      ensures display != ""
      ensures old(display) == "Error" ==> display == "0"
      ensures old(display) != "Error" && |old(display)| > 1 ==> display == old(display)[..|old(display)| - 1]
      ensures old(display) != "Error" && |old(display)| <= 1 ==> display == "0"
      ensures expression == old(expression) && history == old(history)
      ensures State() == Keypad.Backspace(old(State()))
      ensures old(Valid()) ==> Valid()
    {
      if display == "Error" {
        display := "0";
        return;
      }
      display := if |display| > 1 then display[..|display| - 1] else "0";
    }

    /** `floatText` is the text of the floating-point result of `sin`, `cos`, `tan`,
        `log`, `ln` or `sqrt` on the display, which this model does not compute. */
    method SciFunction(func: string, floatText: string)
      modifies this
      ensures func == "pow" ==> display == "0" && expression == old(expression) + old(display) + " ^ "
      ensures func != "pow" ==> expression == old(expression)
      ensures func !in Keypad.FloatFunctions && func !in {"pow", "pi", "e"} ==> display == old(display)
      ensures history == old(history)
      ensures State() == Keypad.Sci(old(State()), func, floatText)
      ensures old(Valid()) && floatText != "" ==> Valid()
    {
      if func in Keypad.FloatFunctions {
        display := floatText;
      } else if func == "pow" {
        expression := expression + display + " ^ ";
        display := "0";
      } else if func == "pi" {
        display := Keypad.PiText;
      } else if func == "e" {
        display := Keypad.EText;
      }
    }

    /** The "Clear Memory" button of the history drawer. */
    method ClearHistory()
      modifies this
      ensures history == [] && display == old(display) && expression == old(expression)
      ensures old(Valid()) ==> Valid()
    {
      history := [];
    }

    /** `eval` stands for evaluating the rewritten text and taking `toString` of the
        value (`None` when that throws); `id` and `timestamp` are the random id and the
        clock reading of the new history item. */
    method Calculate(eval: string -> Option<string>, id: string, timestamp: int)
      modifies this
      ensures eval(Rewrite.Normalize(old(expression) + old(display))).None? ==>
        display == "Error" && expression == old(expression) && history == old(history)
      ensures eval(Rewrite.Normalize(old(expression) + old(display))).Some? ==>
        display == eval(Rewrite.Normalize(old(expression) + old(display))).value && expression == "" &&
        history == HistoryLog.Record(HistoryItem(id, old(expression) + old(display), display, timestamp), old(history))
      ensures State() == Keypad.Calculate(old(State()), eval, id, timestamp)
      ensures old(Valid()) && display != "" ==> Valid()
    {
      var fullExpression := expression + display;
      var cleanExpression := Rewrite.Normalize(fullExpression);
      match eval(cleanExpression) {
        case None =>
          display := "Error";
        case Some(result) =>
          var newItem := HistoryItem(id, fullExpression, result, timestamp);
          history := HistoryLog.Record(newItem, history);
          display := result;
          expression := "";
      }
    }
  }
}

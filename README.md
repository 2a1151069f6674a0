# Calculator input state machine

A Dafny model of the calculator component of a small browser calculator. It covers the
keypad's state machine in `App.tsx`. Three pieces of state are updated in place by the
handlers:

- `display` is the operand being typed. It starts as `0` and becomes `Error` after a failed evaluation.
- `expression` is the accumulated left-hand side. It starts empty.
- `history` holds the evaluated calculations, newest first, at most 20 of them.

The model has these modules:

- `Types` holds the record shapes of `types.ts`: `HistoryItem` and `AIResponse`.
- `Rewrite` is the glyph rewrite `calculate` applies before evaluating: `×` to `*`, `÷` to `/`, `^` to `**`.
- `HistoryLog` is the bounded, newest-first history update `[newItem, ...history].slice(0, 20)`.
- `Keypad` is the state machine as values. Each handler is a function from the old
  `CalcState` to the new one. Its lemmas cover typing numbers, backspace, clearing, the
  power key and whole sessions of key presses.
- `App` has class `Calculator` with the three fields and one method per handler. For
  every keypad handler the method's new state is the matching `Keypad` step applied to
  the old state. `ClearHistory`, the history drawer's button, only empties the history.
- `AIQuery` is the submit rule of the AI panel. Class `AIPanel` splits `handleAIQuery`
  at its `await` into `Submit` and `Resolve`.

The expression evaluator (`eval` of the rewritten text, then `toString`) is a parameter
of type `string -> Option<string>`. `None` stands for a thrown exception. The random id
and the clock reading of a new history item are parameters too. The text of a
floating-point result of `sin`, `cos`, `tan`, `log`, `ln` and `sqrt` is a parameter
`floatText`. The constants `pi` and `e` are shown as the exact JavaScript texts
`3.141592653589793` and `2.718281828459045`.

Three behaviours of the code are stated as they are:

- `pow` has no `Error` guard. On an `Error` display it moves the word `Error` into the
  expression (`Keypad.PowVersusOperator`).
- On a `0` display the point key replaces the `0`, so the display shows `.` and not `0.`.
- After a calculation whose result is not `0`, digit keys are appended to the shown
  result (`Keypad.TypingAppends`). A `0` result or an `Error` is replaced like the
  initial display.

## Model

| member | source | states |
|---|---|---|
| `Rewrite.ReplaceAll` | App.tsx:109-111 | one global replacement: every character of the result is either a character of the input other than the replaced one, or comes from the replacement text; input without that character is unchanged |
| `Rewrite.Normalize` | App.tsx:106-111 | the text handed to the evaluator contains no `×`, `÷` or `^`; text without these glyphs is passed through unchanged |
| `Rewrite.NormalizeIsPerChar` | App.tsx:108-111 | the three passes equal the per-character translation `×`→`*`, `÷`→`/`, `^`→`**`, every other character kept in place and order |
| `Rewrite.NormalizeAppend` | App.tsx:106-111 | rewriting `expression + display` rewrites the two parts separately |
| `Rewrite.NormalizeLength` | App.tsx:111 | the rewritten text is longer than the input by exactly the number of `^` in it (each `^` becomes exactly `**`) |
| `HistoryLog.Take` | App.tsx:122 | `slice(0, n)`: the first `n` elements in order, or all when there are fewer |
| `HistoryLog.Record` | App.tsx:122 | the new item is at index 0, the following entries are the old history in order, and the length is the old length plus one, capped at 20 |
| `HistoryLog.RecordEvicts` | App.tsx:122 | below 20 entries nothing is lost; at 20 or more exactly the oldest entries beyond position 19 are dropped |
| `HistoryLog.RecordAllNewestFirst` | App.tsx:122 | after any run of calculations the history is the newest 20 items, newest first, then the older history |
| `Keypad.Digit` | App.tsx:58-60 | the key ends the new display; a `0` or `Error` display is replaced by the key, any other keeps its text in front of it; expression and history unchanged; a non-empty key keeps the display non-empty |
| `Keypad.TypingAppends` | App.tsx:58-60 | once the display is neither `0` nor `Error` (a number being typed or a shown result), every further number key is appended |
| `Keypad.TypingFromReplaceable` | App.tsx:58-60 | from `0` or `Error`, typing keys shows them with their leading `0` keys dropped (`0` if all were zeros); nothing but the display changes |
| `Keypad.TypingNoLeadingZero` | App.tsx:58-60 | typing one-character keys never produces a redundant leading zero such as `05` |
| `Keypad.Operator` | App.tsx:62-66 | on `Error` nothing changes; otherwise the old expression is kept as a prefix, followed by the display, a space, the operator and a space, and the display resets to `0`; history unchanged |
| `Keypad.Clear` | App.tsx:68-71 | display `0` and empty expression from any state; history unchanged |
| `Keypad.ClearForgetsInput` | App.tsx:68-71 | clearing twice equals clearing once, and clearing after a digit, operator, backspace or scientific key equals clearing before it |
| `Keypad.Backspace` | App.tsx:73-79 | `Error` becomes `0`; a display longer than one character loses exactly its last one; a shorter one becomes `0`; the result is never empty; expression and history unchanged |
| `Keypad.BackspaceUndoesDigit` | App.tsx:58-79 | backspace after a digit key restores the display before it, or `0` when the key had replaced `0` or `Error` |
| `Keypad.Sci` | App.tsx:81-102 | `pow` appends the display and ` ^ ` to the expression and resets the display without an `Error` guard; `pi` and `e` show the constants; the float functions show their result; an unknown name changes nothing; history never changes |
| `Keypad.PowVersusOperator` | App.tsx:62-93 | `pow` equals the `^` operator whenever the display is not `Error`; on `Error` the operator is a no-op while `pow` puts `Error ^ ` into the expression |
| `Keypad.Calculate` | App.tsx:104-128 | the evaluator sees the rewritten `expression + display`; on a result, the display shows it, the expression empties and the history starts with an item holding the unrewritten text and the result, followed by the first 19 old entries; on failure only the display changes, to `Error` |
| `Keypad.OperationEvaluates` | App.tsx:62-128 | after an operator key and any typed number keys (none at all included), `=` hands the evaluator the rewritten `expression + operand + " op " + number`, the number being the keys without leading zeros (or `0`); a result is shown and recorded with that text as typed, a failure shows `Error` and keeps the expression |
| `Keypad.RunKeepsValid` | App.tsx:23-128 | every session of key presses from a valid state keeps the display non-empty and the history within 20 entries, given non-empty keys and results |
| `App.Calculator.constructor` | App.tsx:23-27 | initial state: display `0`, empty expression, empty history |
| `App.Calculator.Number` | App.tsx:58-60 | new display as `Keypad.Digit`; expression and history untouched |
| `App.Calculator.Operator` | App.tsx:62-66 | new state as `Keypad.Operator`; complete no-op on `Error` |
| `App.Calculator.Clear` | App.tsx:68-71 | display `0`, expression empty, history untouched |
| `App.Calculator.Backspace` | App.tsx:73-79 | new display as `Keypad.Backspace`, never empty; expression and history untouched |
| `App.Calculator.SciFunction` | App.tsx:81-102 | new state as `Keypad.Sci`; only `pow` touches the expression; unknown names change nothing |
| `App.Calculator.ClearHistory` | App.tsx:233 | the history drawer's clear button empties the history and nothing else |
| `App.Calculator.Calculate` | App.tsx:104-128 | new state as `Keypad.Calculate`: success records the item with `HistoryLog.Record` and resets the expression; failure sets `Error` and leaves expression and history |
| `AIQuery.SubmitRequest` | App.tsx:131-135 | no request exactly when the text is empty and there is no image; otherwise the typed text, or the default prompt when only an image is present, and the image only when present and non-empty |
| `AIQuery.Settle` | App.tsx:134-138 | a reply is shown as it is; a failed call shows the fixed fallback: answer `Error`, the fixed connection message and no steps |
| `AIQuery.AIPanel.constructor` | App.tsx:31-34 | empty input, no image, not loading, no result |
| `AIQuery.AIPanel.Submit` | App.tsx:130-135 | returns `SubmitRequest` of the current input and image; without one nothing changes; with one the panel is loading and the old result is gone |
| `AIQuery.AIPanel.Resolve` | App.tsx:134-141 | the settled reply or the fallback is shown, and loading is off in both cases |

## Left out

- The floating-point branches of `handleSciFunction` (`sin`, `cos`, `tan`, `log`, `ln`, `sqrt` on `parseFloat(display)`) are not computed. Their result text is the parameter `floatText`. None of these calls throws, so the `catch` at App.tsx:99-101 is never reached and is not modelled. NaN and Infinity are shown as their texts, not as `Error`.
- The `%` button (App.tsx:279) divides by 100 in floating point. It is not modelled.
- The `eval` call (App.tsx:113) is a general JavaScript evaluator. It is the parameter `eval`, and JavaScript expression semantics are not modelled.
- `Math.random()` ids and `Date.now()` timestamps (App.tsx:116-119) are parameters. Their uniqueness is not modelled.
- Loading and saving history and theme in local storage (App.tsx:38-55) is I/O and is left out. A history loaded from storage is not checked against the 20-entry cap, so the invariant `Keypad.Valid` holds from the initial state, not from an arbitrary stored list.
- React state batching and the closures over `display` and `history` are not modelled. Each handler runs as one atomic step on the current state, which is how the handlers behave for sequential clicks.
- App.Calculator.Number: keeps the display non-empty only for a non-empty key, and `Keypad.RunKeepsValid` assumes non-empty keys, float texts and evaluator results. Every button passes a one-character key, and `toString` of a number is never empty.
- App.Calculator.Calculate: keeps the display non-empty only when the evaluator's text is non-empty, for the same reason.
- The solver call of `handleAIQuery` (services/geminiService.ts) is a network call. `Submit` returns the request it would send, and `Resolve` takes its reply or `None` for a thrown error. The JSON parsing of the reply and its schema are not modelled.
- The AI panel's dismiss button (App.tsx:355), text editing (App.tsx:366), image removal (App.tsx:391) and image upload through `FileReader` (App.tsx:144-153) are not modelled. They are browser I/O and presentation.
- Mode tabs, theme toggle, history drawer rendering and `components/CalcButton.tsx` are presentation and are left out.

/** The record shapes the calculator shares between its parts (types.ts). */
module Types {
  import opened Wrappers

  /** One evaluated calculation in the history drawer: an opaque id, the expression as
      the user typed it, the evaluator's result text and a millisecond timestamp. */
  datatype HistoryItem = HistoryItem(id: string, expression: string, result: string, timestamp: int)

  /** The structured answer of the AI solver; `steps` is optional. */
  datatype AIResponse = AIResponse(answer: string, explanation: string, steps: Option<seq<string>>)
}

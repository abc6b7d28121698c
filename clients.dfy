/** The two external collaborators, reduced to what they hand back: the graph store answers a
    statement with rows of values or an error, the LLM answers a prompt with a list of
    completions or an error. Both are functions from the text sent to the outcome received. */
module Clients {
  import opened Strings
  import opened Decimal

  datatype Option<T> = None | Some(value: T)

  datatype Result<T> = Ok(value: T) | Err(msg: string)

  /** A value in a result row as the Neo4j driver returns it. Values whose %v rendering is not
      modelled (floats, maps, nodes, paths) carry that rendering as text. */
  datatype Value =
    | NullVal
    | BoolVal(b: bool)
    | IntVal(i: int)
    | StrVal(s: string)
    | ListVal(items: seq<Value>)
    | OtherVal(text: string)

  /** fmt's %v of a row value. */
  function Show(v: Value): string {
    match v
    case NullVal => "<nil>"
    case BoolVal(b) => if b then "true" else "false"
    case IntVal(i) => IntToString(i)
    case StrVal(s) => s
    case ListVal(items) => "[" + Join(seq(|items|, k requires 0 <= k < |items| => Show(items[k])), " ") + "]"
    case OtherVal(text) => text
  }

  /** What session.Run and the record cursor deliver: the error, or every record's values. */
  datatype StoreOutcome = StoreFailed(msg: string) | Rows(rows: seq<seq<Value>>)

  /** What GenerateContent delivers: the error, or the contents of its choices in order. */
  datatype LlmOutcome = LlmFailed(msg: string) | Choices(contents: seq<string>)

  type Store = string -> StoreOutcome

  type Llm = string -> LlmOutcome
}

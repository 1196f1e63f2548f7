/** The values that flow through the filter pipeline: decoded JSON records,
    the (record, error) pairs the stages hand each other, the errors they
    pass on, and the two collaborators the pipeline only calls (the CEL
    program and the cancellation context), modelled as oracles. */
module Values {

  datatype Option<+T> = None | Some(value: T)

  datatype Result<+T, +E> = Ok(value: T) | Err(error: E)

  /** A dynamically typed JSON value as `encoding/json` decodes it into `any`.
      Numbers keep their literal text: the pipeline never computes with them. */
  datatype Json =
    | JNull
    | JBool(b: bool)
    | JNumber(literal: string)
    | JString(s: string)
    | JArray(elems: seq<Json>)
    | JObject(fields: map<string, Json>)

  /** One decoded JSON object (`map[string]any`). */
  type Record = map<string, Json>

  /** What `ctx.Err()` reports once the context is done. */
  datatype CtxErr = Canceled | DeadlineExceeded

  /** The errors the stages produce or pass on unchanged. */
  datatype Error =
    | NotBool                       // ErrNotBool, "not bool type"
    | CtxError(cause: CtxErr)       // ctx.Err()
    | DecodeError(msg: string)      // from the JSON decoder
    | EvalError(msg: string)        // from CEL evaluation (cost limit, runtime error, interrupt)
    | EncodeError(msg: string)      // from the JSON encoder or the buffered writer under it
    | FlushError(msg: string)       // from the final Flush

  /** One `(map[string]any, error)` pair of an `iter.Seq2`; `None` is Go's nil. */
  datatype Elem = Elem(obj: Option<Record>, err: Option<Error>)

  /** The CEL activation `map[string]any` handed to the program. */
  type Binding = map<string, Option<Record>>

  /** The native Go value behind a CEL result (`ref.Val.Value()`). Only the
      distinction between `bool` and everything else matters to the pipeline;
      doubles, maps, timestamps and the like are `COther`. */
  datatype CelValue =
    | CBool(b: bool)
    | CInt(i: int)
    | CUint(u: nat)
    | CString(s: string)
    | CBytes(bytes: seq<bv8>)
    | CNull
    | CList(elems: seq<CelValue>)
    | COther(typeName: string)

  /** The cancellation context, as observed by the filter stage: `errAt(i)` is
      what `ctx.Err()` reports when the i-th upstream element arrives (`None`
      while the context is not done). */
  datatype Context = Context(errAt: nat -> Option<CtxErr>)

  /** A compiled, checked CEL program. `eval(i, b)` is the outcome of
      `ContextEval` on the activation `b` while the i-th upstream element is
      being filtered: the step index lets cost-limit aborts and cancellation
      observed inside the evaluation depend on when the evaluation runs. */
  datatype Program = Program(eval: (nat, Binding) -> Result<CelValue, Error>)
}

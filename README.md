# json2cel2filtered in Dafny

A model of the streaming core of `go-json-filter-cel`: a command-line filter
that reads a stream of JSON objects, evaluates a CEL predicate on each one
bound as `item`, and writes the objects for which the predicate is `true`
as JSON lines. There are three stages, each a Go push iterator (`iter.Seq2`)
or a consumer of one:

- the decoder, `JsonReader.ToMaps` over a byte stream or `JsonLines.ToMap`
  over a sequence of lines, yields `(map, error)` pairs;
- the filter, `JsonMaps.ToFiltered`, passes errors on, checks the
  cancellation context and runs the predicate (`CelProgram.Filter`, which
  relies on `CelValue.ToBool`);
- the writer, `JsonWriter.WriteAll`, encodes the accepted records through
  a buffered writer.

The filter and the writer stop at the first error they see. The decoders
pass decode errors on as pairs and go on decoding; they stop only at EOF
(or, for `ToMap`, at the last line) or when their `yield` is answered
false. Every producer stops once its `yield` is answered false.

How the model is built:

- **Producers** are methods over the sequence of elements they would offer.
- **Consumers** are modelled by their answers to `yield`: a function
  `more: nat -> bool` that gives the answer to the element received after n
  others. `Stream.Take` is the prefix such a consumer receives.
- **Pull counts** are real out-parameters. They show that no stage pulls
  past the element it stops on.
- **Collaborators** are oracles in `Values`:
  - the JSON decoder is a script of outcomes (`Decode.Outcome`) or a
    function of a line;
  - the CEL program is `Program.eval`, indexed by the step at which it runs;
  - the context is `Context.errAt`, the value of `ctx.Err()` when the i-th
    upstream pair arrives;
  - the JSON encoder and the underlying writer are `Encode.Sink`.
- **Specification functions** (`Offered`, `Filtered`, `Pulls`, `WriteErr`,
  `EncodeCalls`, `WritePulls`) state what each stage does for its whole
  input. The methods are proved equal to them, and the laws of the stages
  and of their composition are lemmas about them.

## Model

| member | source | states |
|---|---|---|
| Predicate.ToBool | json2cel2filtered.go:97-105 | no error exactly when the native value is a bool, and then `keep` is that bool; any other value gives `(false, ErrNotBool)`, never a silent false |
| Predicate.Filter | json2cel2filtered.go:85-93 | an evaluation error is returned unchanged with `keep == false`; otherwise the result is `ToBool` of the value; no error iff evaluation succeeded with a bool, which is then `keep` |
| Stream.Take | json2cel2filtered.go:117-119 | what a consumer receives under the yield protocol: a prefix of the offered elements, at least one if any is offered, every element but the last answered true, and the last answered false unless everything was received |
| Stream.TakeUnique | json2cel2filtered.go:140-142 | any prefix meeting those four facts is the one `Take` gives, so a producer loop that stops when `yield` returns false delivers exactly `Take` |
| Stream.TakeAll | json2cel2filtered.go:114-120 | a consumer that answers true to every element receives all of them |
| Decode.Offered | json2cel2filtered.go:132-143 | the decoder offers one pair per decode result before the first EOF, errors included, each holding exactly what that decode produced; the result after the last offered one is EOF |
| Decode.Into | json2cel2filtered.go:135 | decoding stores entries into the map without removing any; a `null` document makes it nil; after `clear` the map holds exactly the decoded entries |
| Decode.NextDecode | json2cel2filtered.go:135-138 | the decode after all offered pairs reports EOF, and any earlier decode is the source of the next offered pair |
| Decode.ToMapsEnds | json2cel2filtered.go:136-142 | the two exits, EOF after everything was taken or a declined `yield`, both deliver exactly `Take` of the offered pairs, with `DecodeCalls` decode calls |
| Decode.ToMaps | json2cel2filtered.go:126-145 | the consumer receives `Take(Offered(script), more, 0)`: EOF ends the stream without a pair, every other outcome is yielded, and it stops at the first declined pair; the decode count is the number of pairs yielded, plus one for the EOF when it is reached |
| Decode.ToMapsYieldsUntilEof | json2cel2filtered.go:132-143 | a consumer that takes everything receives every decode result before EOF, and the EOF call is the last decode |
| Decode.ToMap | json2cel2filtered.go:111-122 | the k-th pair received is the unmarshal result of line k, with its error; the consumer receives `Take` of one pair per line; the number of lines pulled and unmarshalled equals the number of pairs received, so no line is pulled after a declined pair |
| Decode.ToMapOnePerLine | json2cel2filtered.go:114-120 | a consumer that takes everything receives exactly one pair per line, in line order |
| FilterStage.Filtered | json2cel2filtered.go:153-184 | at most one error pair is offered, always the last and always with a nil map; no more pairs are offered than were pulled |
| FilterStage.YieldsIsTake | json2cel2filtered.go:176-182 | stepping through the loop yields what a consumer takes of `Filtered`, so the filter obeys the yield protocol |
| FilterStage.StopStep | json2cel2filtered.go:157-174 | an upstream error, a done context or a predicate error yields `(nil, err)` as the last pair and ends the loop right after the pair it came from |
| FilterStage.RejectStep | json2cel2filtered.go:176-178 | a rejected record is dropped and the loop goes on |
| FilterStage.AcceptStep | json2cel2filtered.go:180-182 | an accepted record is yielded as `(obj, nil)`; the loop goes on exactly when `yield` answers true |
| FilterStage.ToFiltered | json2cel2filtered.go:149-185 | the consumer receives `Take(Filtered(...))`; the number of upstream pairs pulled is `Pulls`; the predicate is called with `{"item": obj}` for each pulled pair in order, except a pair stopped by an upstream error or a done context |
| FilterLaws.FirstStop | json2cel2filtered.go:157-174 | the first upstream pair at which the filter stops, or the end: no earlier pair stops it |
| FilterLaws.AcceptedIndices | json2cel2filtered.go:176-182 | only accepted pairs are listed, strictly ascending, within the range |
| FilterLaws.AcceptedIndicesComplete | json2cel2filtered.go:176-182 | no accepted pair in the range is left out |
| FilterLaws.KeptCons | json2cel2filtered.go:180 | keeping one more record in front adds its `(obj, nil)` pair in front |
| FilterLaws.FilteredIsKeptThenStop | json2cel2filtered.go:155-183 | the filter offers exactly the accepted records before the first stopping pair, in upstream order, then that pair's error if there is one |
| FilterLaws.FirstStopAt | json2cel2filtered.go:155-174 | a stopping pair with no stopping pair before it is the first stop |
| FilterLaws.UpstreamErrorEnds | json2cel2filtered.go:157-160 | an upstream error is passed on unchanged as `(nil, err)` after the records accepted before it, and ends the output |
| FilterLaws.CancellationEnds | json2cel2filtered.go:162-167 | a done context at a record's arrival ends the output with `(nil, ctx.Err())`; the predicate is not consulted |
| FilterLaws.PredicateErrorEnds | json2cel2filtered.go:169-174 | a failed evaluation ends the output with its error unchanged, and a non-bool result ends it with `ErrNotBool` |
| FilterLaws.CleanRunKeepsExactlyTrue | json2cel2filtered.go:169-182 | without errors or cancellation, the output is the accepted records in order, and a record is accepted iff its predicate evaluated to `true` |
| FilterLaws.TautologyKeepsAll | json2cel2filtered.go:169-182 | a predicate that is always true passes every record through unchanged, in order |
| FilterLaws.ContradictionKeepsNone | json2cel2filtered.go:176-178 | a predicate that is always false passes nothing through |
| FilterLaws.ContextSeenOnlyOnArrival | json2cel2filtered.go:162-167 | the context matters only when a pair arrives: two contexts that agree at every arrival give the same output |
| FilterLaws.PullsUntilStop | json2cel2filtered.go:155-183 | when the consumer takes every accepted record, the filter pulls up to and including the first stopping pair and no further, or the whole upstream |
| FilterLaws.PullsUntilDecline | json2cel2filtered.go:180-182 | when the consumer declines an accepted record, nothing after it is pulled |
| FilterLaws.DeclineEndsWithoutError | json2cel2filtered.go:180-182 | a consumer that declines the d-th accepted record has received exactly the first d+1 accepted records and no error pair |
| Encode.FirstHalt | json2cel2filtered.go:192-200 | the first pair that makes the writer return, an error pair or a failed encode, or the end |
| Encode.WriteAll | json2cel2filtered.go:189-203 | returns the error of the first pair that halts it (its own error if it is an error pair, else its encode error), or `Flush`'s result when none does; flushes only when the input is exhausted; pulls up to and including the pair it returns on; writes the encodings of the records before it in order; hands `Encode` each record once, in order |
| Encode.WriterTakes | json2cel2filtered.go:192-200 | the writer's pulls are exactly what a consumer that declines on the halting pair takes |
| Encode.ErrorPairReturned | json2cel2filtered.go:193-195 | an error pair is returned unchanged and is not encoded, and nothing after it is pulled |
| Encode.EncodeErrorReturned | json2cel2filtered.go:197-200 | an encode error is returned at once and nothing after that record is pulled |
| Encode.CleanWriteEncodesAll | json2cel2filtered.go:192-202 | without failures every record is encoded once in order and the result is `Flush`'s |
| Encode.EncodeCallsArePrefix | json2cel2filtered.go:192-200 | in any case the records handed to `Encode` are a prefix of the input made of record pairs only |
| Encode.EncodeCallsBefore | json2cel2filtered.go:192-195 | an error pair at position n bounds what is encoded: at most the records before it, in order |
| Encode.BufferedOutputLostOnError | json2cel2filtered.go:193-195 | as written: a record encoded into the buffer followed by an error pair makes `WriteAll` return with those bytes buffered and `Flush` never called |
| Encode.WriteAllFlushing | json2cel2filtered.go:189-203 | corrected writer: same error, pulls, bytes and `Encode` calls as `WriteAll`, and the buffer is flushed on every return path |
| Pipeline.KeptNeverHalts | json2cel2filtered.go:176-200 | when encoding succeeds, no accepted record offered by the filter makes the writer return |
| Pipeline.PipelineEncodesAccepted | json2cel2filtered.go:155-202 | decoder, filter and writer together hand `Encode` exactly the accepted records before the first decode error, cancellation or predicate failure, in input order, and return that failure or `Flush`'s result; the writer halts right after the last accepted record, and reaches `Flush` exactly when nothing stops the filter |
| Pipeline.PipelineEncodesAcceptedPrefix | json2cel2filtered.go:176-200 | whatever the encoder does, the records encoded are the first accepted records, in order |
| Pipeline.PipelineFilterPulls | json2cel2filtered.go:155-200 | driven by the writer, the filter pulls up to and including its stopping pair and no further |
| Pipeline.PipelineDecodes | json2cel2filtered.go:132-183 | driven by the filter, the decoder decodes up to and including the stopping pair and no further, or until EOF when nothing stops the filter |
| Pipeline.FailingFirstEvaluationWritesNothing | json2cel2filtered.go:169-174 | a failing first evaluation ends the run with its error before anything is encoded |

## Left out

- The CEL wrappers (`EnvOpts`, `AstValidators`, `CelEnv`, `CelAst`, `EvalOpts`, `CostLimit`, `CheckFrequency` and `CelProgram.Eval`, json2cel2filtered.go:19-83) only forward to cel-go. Compilation, checking and evaluation are foreign code. The compiled program is the oracle `Program.eval`: a cost-limit abort or an interrupt observed during evaluation is an `Err` outcome at that step.
- JSON syntax (RFC 8259) is not modelled. Parsing by `Decoder.Decode` and `json.Unmarshal` is an oracle for the entries decoded and the error. Serialisation by `Encoder.Encode` is an oracle for the bytes written and the error.
- `bufio.Reader` and `bufio.Writer` buffering is not modelled, nor is a buffer spilling to the underlying writer during `Encode`. Both are folded into the encode oracle's error. The model records the bytes handed to the buffer and whether `Flush` was called, not how many of those bytes had already spilled to the underlying writer.
- `ctx.Done()` as a channel and the `select` are modelled by `Context.errAt`, the value of `ctx.Err()` when each upstream pair arrives. Cancellation during evaluation is part of the program oracle.
- `cmd/json-filter-cel/main.go` (flags, stdin and stdout, exit codes) is not part of this model. Its wiring, ToMaps then ToFiltered then WriteAll, is what `Pipeline` composes.
- The scratch maps `buf` and `item` are reused across iterations. A yielded map aliases the decoder's buffer, and the next decode overwrites it. The model yields a value per pair instead. This is sound for the pipeline because each record is encoded before the next pull, but the model cannot show what a consumer that keeps a map past its turn would see.
- Decode.ToMaps: a decoder whose input is malformed keeps returning the same error forever. Such a script is infinite, and the model takes a finite script that ends in EOF, so an endless stream of error pairs to a consumer that always asks for more is not represented.
- Encode.WriteAll: the `ctx` parameter is accepted and never read, as in the source. The model takes it and does not use it.
- Pipeline.PipelineEncodesAccepted, Pipeline.PipelineFilterPulls: stated under the assumption that every accepted record encodes successfully. Pipeline.PipelineEncodesAcceptedPrefix covers encode failures, but only up to "a prefix of the accepted records".
- Pipeline.PipelineDecodes: the filter's answers to the decoder are given as `FilterAnswers`, false exactly on the stopping pair. That holds while the writer asks for every accepted record. An encode failure that makes the filter return on an accepted record is covered by `FilterLaws.PullsUntilDecline`, not composed with the decoder.
- JSON numbers keep their literal text. The pipeline never computes with them, and float64 rounding in the decoder is not modelled.

## Findings

| source | as written | input that shows it | evidently intended | confidence | as-written member | corrected member |
|---|---|---|---|---|---|---|
| json2cel2filtered.go:193-202 | `WriteAll` returns an error pair's error or an encode error straight from the loop, and `bwtr.Flush()` runs only after the loop ends, so records already encoded into the `bufio.Writer` before the error never reach the output unless the buffer spilled | `[({} , nil), (nil, decode error)]`: `{}` and a newline are encoded into the buffer, then the error is returned without a flush | flush the buffer on every return path, so the records accepted before a failure are written, and still return the failure | medium, not executed | Encode.BufferedOutputLostOnError | Encode.WriteAllFlushing |

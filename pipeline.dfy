/** The three stages composed as `main` wires them: decoder, filter,
    writer. The decoder offers `Offered(script)`, the filter turns that into
    `Filtered`, and the writer consumes what the filter offers. */
module Pipeline {
  import opened Values
  import opened Stream
  import opened Decode
  import opened FilterStage
  import opened FilterLaws
  import opened Encode

  /** The filter's answers to the decoder's `yield` while the writer asks for
      every accepted record: it returns, answering false, exactly on the
      pair that stops it. */
  function FilterAnswers(up: seq<Elem>, ctx: Context, prog: Program): nat -> bool
  {
    (k: nat) => !(k < |up| && Judge(up[k], k, ctx, prog).Stop?)
  }

  /** The encoder accepts every accepted record it is handed. */
  ghost predicate EncodesAccepted(up: seq<Elem>, ctx: Context, prog: Program, sink: Sink)
  {
    var a := AcceptedIndices(up, ctx, prog, 0, FirstStop(up, ctx, prog, 0));
    forall k :: 0 <= k < |a| ==> sink.encode(k, up[a[k]].obj).Ok?
  }

  /** The pairs the filter offers to the writer never make it return before
      the accepted records are used up, when every encode succeeds. */
  lemma KeptNeverHalts(up: seq<Elem>, ctx: Context, prog: Program, sink: Sink)
    requires EncodesAccepted(up, ctx, prog, sink)
    ensures forall k :: 0 <= k < |AcceptedIndices(up, ctx, prog, 0, FirstStop(up, ctx, prog, 0))| ==>
      k < |Filtered(up, ctx, prog, 0)| && !Halts(Filtered(up, ctx, prog, 0), sink, k)
  {
    FilteredIsKeptThenStop(up, ctx, prog, 0);
  }

  /** The composed pipeline hands `Encode` exactly the accepted records that
      come before the first decode error, cancellation or predicate failure,
      in input order, and returns that failure, or `Flush`'s result when
      there is none. The writer halts right after the last accepted record,
      and it reaches `Flush` (`WriteAll`'s `flushed`) exactly when nothing
      stops the filter: after a failure the encoded records are left in the
      buffer unless the writer flushes on every path (`WriteAllFlushing`). */
  lemma PipelineEncodesAccepted(script: seq<Outcome>, ctx: Context, prog: Program, sink: Sink)
    requires EncodesAccepted(Offered(script), ctx, prog, sink)
    ensures var up := Offered(script);
      var t := FirstStop(up, ctx, prog, 0);
      var f := Filtered(up, ctx, prog, 0);
      && EncodeCalls(f, sink) == Objs(Kept(up, AcceptedIndices(up, ctx, prog, 0, t)))
      && WriteErr(f, sink) == (if t < |up| then Some(Judge(up[t], t, ctx, prog).err) else sink.flush)
      && WritePulls(f, sink) == |f|
      && FirstHalt(f, sink, 0) == |AcceptedIndices(up, ctx, prog, 0, t)|
      && (FirstHalt(f, sink, 0) == |f| <==> t == |up|)
  {
    var up := Offered(script);
    var t := FirstStop(up, ctx, prog, 0);
    var a := AcceptedIndices(up, ctx, prog, 0, t);
    var f := Filtered(up, ctx, prog, 0);
    FilteredIsKeptThenStop(up, ctx, prog, 0);
    KeptNeverHalts(up, ctx, prog, sink);
    assert f[..|a|] == Kept(up, a);
    if t < |up| {
      ErrorPairReturned(f, sink, |a|);
    } else {
      CleanWriteEncodesAll(f, sink);
    }
  }

  /** Whatever the encoder does, the records handed to it are the first
      accepted records, in input order. */
  lemma PipelineEncodesAcceptedPrefix(script: seq<Outcome>, ctx: Context, prog: Program, sink: Sink)
    ensures var up := Offered(script);
      var kept := Objs(Kept(up, AcceptedIndices(up, ctx, prog, 0, FirstStop(up, ctx, prog, 0))));
      var calls := EncodeCalls(Filtered(up, ctx, prog, 0), sink);
      |calls| <= |kept| && calls == kept[..|calls|]
  {
    var up := Offered(script);
    var a := AcceptedIndices(up, ctx, prog, 0, FirstStop(up, ctx, prog, 0));
    var f := Filtered(up, ctx, prog, 0);
    FilteredIsKeptThenStop(up, ctx, prog, 0);
    EncodeCallsBefore(f, sink, |a|);
    assert f[..|a|] == Kept(up, a);
  }

  /** Driven by the writer, the filter pulls up to and including the pair
      that stops it, and no further. */
  lemma PipelineFilterPulls(script: seq<Outcome>, ctx: Context, prog: Program, sink: Sink)
    requires EncodesAccepted(Offered(script), ctx, prog, sink)
    ensures var up := Offered(script);
      var t := FirstStop(up, ctx, prog, 0);
      Pulls(up, ctx, prog, Wants(Filtered(up, ctx, prog, 0), sink), 0, 0) == if t < |up| then t + 1 else |up|
  {
    var up := Offered(script);
    KeptNeverHalts(up, ctx, prog, sink);
    PullsUntilStop(up, ctx, prog, Wants(Filtered(up, ctx, prog, 0), sink), 0, 0);
  }

  /** Driven by the filter, the decoder decodes up to and including the pair
      that stops the filter and nothing after it; when nothing stops the
      filter it decodes until EOF. */
  lemma PipelineDecodes(script: seq<Outcome>, ctx: Context, prog: Program)
    ensures var up := Offered(script);
      var t := FirstStop(up, ctx, prog, 0);
      && Take(up, FilterAnswers(up, ctx, prog), 0) == up[..if t < |up| then t + 1 else |up|]
      && DecodeCalls(script, FilterAnswers(up, ctx, prog)) == if t < |up| then t + 1 else |up| + 1
  {
    var up := Offered(script);
    var t := FirstStop(up, ctx, prog, 0);
    var r := up[..if t < |up| then t + 1 else |up|];
    TakeUnique(up, FilterAnswers(up, ctx, prog), 0, r);
  }

  /** A first evaluation that fails ends the run before anything is
      written, with the evaluation's error. */
  lemma FailingFirstEvaluationWritesNothing(script: seq<Outcome>, ctx: Context, prog: Program, sink: Sink)
    requires |Offered(script)| > 0
    requires Offered(script)[0].err == None && ctx.errAt(0) == None
    requires prog.eval(0, Bind(Offered(script)[0].obj)).Err?
    ensures EncodeCalls(Filtered(Offered(script), ctx, prog, 0), sink) == []
    ensures WriteErr(Filtered(Offered(script), ctx, prog, 0), sink) == Some(prog.eval(0, Bind(Offered(script)[0].obj)).error)
  {
    var f := Filtered(Offered(script), ctx, prog, 0);
    ErrorPairReturned(f, sink, 0);
  }
}

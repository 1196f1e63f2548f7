/** The encoder stage, `JsonWriter.WriteAll`: the consumer at the end of the
    pipeline. It encodes every record in arrival order into a buffered
    writer and returns on the first pair that halts it: an error pair,
    returned without writing anything for it, or a record whose encode
    fails. It flushes only when its input is exhausted. */
module Encode {
  import opened Values
  import opened Stream

  /** The output side, as `WriteAll` sees it. `encode(k, obj)` is what the
      k-th `Encoder.Encode` call does with `obj`: the bytes of one JSON
      document and its newline handed to the buffered writer, or an error
      (from the encoder itself, or from the underlying writer when the
      buffer spills). `flush` is the result of the final `Flush`. */
  datatype Sink = Sink(encode: (nat, Option<Record>) -> Result<seq<bv8>, Error>, flush: Option<Error>)

  /** `WriteAll` returns while holding pair k: it is an error pair, or
      encoding its record fails. */
  predicate Halts(src: seq<Elem>, sink: Sink, k: nat)
    requires k < |src|
  {
    src[k].err.Some? || sink.encode(k, src[k].obj).Err?
  }

  /** The writer's answers to `yield`: it asks for more after every pair
      it did not return on. */
  function Wants(src: seq<Elem>, sink: Sink): nat -> bool
  {
    (k: nat) => !(k < |src| && Halts(src, sink, k))
  }

  /** The first pair in `src[i..]` that makes `WriteAll` return, or `|src|`. */
  function FirstHalt(src: seq<Elem>, sink: Sink, i: nat): (t: nat)
    requires i <= |src|
    ensures i <= t <= |src|
    ensures forall k :: i <= k < t ==> !Halts(src, sink, k)
    ensures t < |src| ==> Halts(src, sink, t)
    decreases |src| - i
  {
    if i == |src| then |src|
    else if Halts(src, sink, i) then i
    else FirstHalt(src, sink, i + 1)
  }

  /** The records of a sequence of pairs, in order. */
  function Objs(s: seq<Elem>): (r: seq<Option<Record>>)
    ensures |r| == |s| && forall k :: 0 <= k < |s| ==> r[k] == s[k].obj
  {
    seq(|s|, k requires 0 <= k < |s| => s[k].obj)
  }

  /** The bytes the first n records of `src` are encoded to, in order. */
  function Output(src: seq<Elem>, sink: Sink, n: nat): seq<bv8>
    requires n <= |src|
    requires forall k :: 0 <= k < n ==> !Halts(src, sink, k)
  {
    if n == 0 then []
    else
      assert !Halts(src, sink, n - 1);
      Output(src, sink, n - 1) + sink.encode(n - 1, src[n - 1].obj).value
  }

  /** The records handed to `Encode`: every record before the pair that
      ends the loop, and that pair's record too when it is the encode that
      fails. */
  function EncodeCalls(src: seq<Elem>, sink: Sink): seq<Option<Record>>
  {
    var t := FirstHalt(src, sink, 0);
    Objs(src[..t]) + (if t < |src| && src[t].err.None? then [src[t].obj] else [])
  }

  /** What `WriteAll` returns: the error of the first pair that halts it
      (the pair's own error, or the error of encoding its record), or what
      `Flush` returns when no pair halts it. */
  function WriteErr(src: seq<Elem>, sink: Sink): Option<Error>
  {
    var t := FirstHalt(src, sink, 0);
    if t == |src| then sink.flush
    else if src[t].err.Some? then src[t].err
    else Some(sink.encode(t, src[t].obj).error)
  }

  /** How many pairs `WriteAll` pulls: up to and including the one it
      returns on, or all of them. */
  function WritePulls(src: seq<Elem>, sink: Sink): nat
  {
    var t := FirstHalt(src, sink, 0);
    if t < |src| then t + 1 else |src|
  }

  /** `JsonWriter.WriteAll`. `src` is what the upstream iterator offers.
      Returns the error, the bytes written into the buffered writer, whether
      `Flush` was called, how many pairs were pulled, and (ghost) every
      record handed to `Encode`. The context is not consulted. */
  method WriteAll(ctx: Context, src: seq<Elem>, sink: Sink)
    returns (err: Option<Error>, out: seq<bv8>, flushed: bool, pulled: nat, ghost calls: seq<Option<Record>>)
    ensures err == WriteErr(src, sink)
    ensures pulled == WritePulls(src, sink)
    ensures flushed <==> FirstHalt(src, sink, 0) == |src|
    ensures out == Output(src, sink, FirstHalt(src, sink, 0))
    ensures calls == EncodeCalls(src, sink)
  {
    out := [];
    flushed := false;
    pulled := 0;
    calls := [];
    while pulled < |src|
      invariant pulled <= FirstHalt(src, sink, 0)
      invariant out == Output(src, sink, pulled)
      invariant calls == Objs(src[..pulled])
    {
      var obj, e := src[pulled].obj, src[pulled].err;
      var k := pulled;
      pulled := pulled + 1;
      if e.Some? {
        assert Halts(src, sink, k);
        err := e;
        return;
      }
      var r := sink.encode(k, obj);
      calls := calls + [obj];
      if r.Err? {
        assert Halts(src, sink, k);
        err := Some(r.error);
        return;
      }
      assert src[..pulled] == src[..k] + [src[k]];
      out := out + r.value;
    }
    err := sink.flush;
    flushed := true;
  }

  /** The writer's pulls follow the yield protocol: it receives exactly the
      prefix a consumer answering `Wants` takes. */
  lemma WriterTakes(src: seq<Elem>, sink: Sink)
    ensures Take(src, Wants(src, sink), 0) == src[..WritePulls(src, sink)]
  {
    TakeUnique(src, Wants(src, sink), 0, src[..WritePulls(src, sink)]);
  }

  /** An error pair is returned unchanged and nothing is encoded for it or
      after it. */
  lemma ErrorPairReturned(src: seq<Elem>, sink: Sink, j: nat)
    requires j < |src| && src[j].err.Some?
    requires forall k :: 0 <= k < j ==> !Halts(src, sink, k)
    ensures WriteErr(src, sink) == src[j].err
    ensures EncodeCalls(src, sink) == Objs(src[..j])
    ensures WritePulls(src, sink) == j + 1
  {
    assert Halts(src, sink, j);
  }

  /** An encode error is returned at once; no later pair is pulled. */
  lemma EncodeErrorReturned(src: seq<Elem>, sink: Sink, j: nat)
    requires j < |src| && src[j].err.None? && sink.encode(j, src[j].obj).Err?
    requires forall k :: 0 <= k < j ==> !Halts(src, sink, k)
    ensures WriteErr(src, sink) == Some(sink.encode(j, src[j].obj).error)
    ensures EncodeCalls(src, sink) == Objs(src[..j + 1])
    ensures WritePulls(src, sink) == j + 1
  {
    assert Halts(src, sink, j);
    assert src[..j + 1] == src[..j] + [src[j]];
  }

  /** With no error pair and no encode error, every record is encoded once,
      in order, and the result is `Flush`'s. */
  lemma CleanWriteEncodesAll(src: seq<Elem>, sink: Sink)
    requires forall k :: 0 <= k < |src| ==> !Halts(src, sink, k)
    ensures WriteErr(src, sink) == sink.flush
    ensures EncodeCalls(src, sink) == Objs(src)
    ensures WritePulls(src, sink) == |src|
  {
    assert src[..|src|] == src;
  }

  /** Whatever fails, the records handed to `Encode` are those of a prefix
      of the input made of record pairs only. */
  lemma EncodeCallsArePrefix(src: seq<Elem>, sink: Sink)
    ensures |EncodeCalls(src, sink)| <= |src|
    ensures EncodeCalls(src, sink) == Objs(src[..|EncodeCalls(src, sink)|])
    ensures forall k :: 0 <= k < |EncodeCalls(src, sink)| ==> src[k].err.None?
  {
    var t := FirstHalt(src, sink, 0);
    if t < |src| && src[t].err.None? {
      assert src[..t + 1] == src[..t] + [src[t]];
    }
    forall k | 0 <= k < |EncodeCalls(src, sink)|
      ensures src[k].err.None?
    {
      if k < t {
        assert !Halts(src, sink, k);
      }
    }
  }

  /** An error pair at n bounds what is handed to `Encode`: at most the
      records of `src[..n]`, in order. */
  lemma EncodeCallsBefore(src: seq<Elem>, sink: Sink, n: nat)
    requires n <= |src| && (n < |src| ==> src[n].err.Some?)
    ensures |EncodeCalls(src, sink)| <= n
    ensures EncodeCalls(src, sink) == Objs(src[..n])[..|EncodeCalls(src, sink)|]
  {
    EncodeCallsArePrefix(src, sink);
    var c := |EncodeCalls(src, sink)|;
    assert src[..c] == src[..n][..c];
  }

  /** On the error paths `WriteAll` returns without flushing, so what was
      encoded before the error stays in the buffer: here a record is encoded
      to `{}` and a newline, then a decode error arrives; `WriteAll` returns
      with those bytes written to the buffer and `Flush` never called. */
  lemma BufferedOutputLostOnError()
    ensures var src := [Elem(Some(map[]), None), Elem(None, Some(DecodeError("bad")))];
      var sink := Sink((k: nat, o: Option<Record>) => Ok([0x7b, 0x7d, 0x0a]), None);
      && FirstHalt(src, sink, 0) != |src|
      && Output(src, sink, FirstHalt(src, sink, 0)) == [0x7b, 0x7d, 0x0a]
  {
    var src := [Elem(Some(map[]), None), Elem(None, Some(DecodeError("bad")))];
    var sink := Sink((k: nat, o: Option<Record>) => Ok([0x7b, 0x7d, 0x0a]), None);
    assert !Halts(src, sink, 0) && Halts(src, sink, 1);
    assert Output(src, sink, 1) == Output(src, sink, 0) + [0x7b, 0x7d, 0x0a];
  }

  /** `WriteAll` as evidently intended: the buffered writer is flushed on
      every return path, so the bytes of every record encoded before the
      pair that halts it reach the underlying writer; the error returned is
      still that pair's error, or `Flush`'s when nothing halts it. */
  method WriteAllFlushing(ctx: Context, src: seq<Elem>, sink: Sink)
    returns (err: Option<Error>, out: seq<bv8>, flushed: bool, pulled: nat, ghost calls: seq<Option<Record>>)
    ensures err == WriteErr(src, sink)
    ensures pulled == WritePulls(src, sink)
    ensures flushed
    ensures out == Output(src, sink, FirstHalt(src, sink, 0))
    ensures calls == EncodeCalls(src, sink)
  {
    out := [];
    flushed := false;
    pulled := 0;
    calls := [];
    while pulled < |src|
      invariant pulled <= FirstHalt(src, sink, 0)
      invariant out == Output(src, sink, pulled)
      invariant calls == Objs(src[..pulled])
    {
      var obj, e := src[pulled].obj, src[pulled].err;
      var k := pulled;
      pulled := pulled + 1;
      if e.Some? {
        assert Halts(src, sink, k);
        err := e;
        flushed := true;
        return;
      }
      var r := sink.encode(k, obj);
      calls := calls + [obj];
      if r.Err? {
        assert Halts(src, sink, k);
        err := Some(r.error);
        flushed := true;
        return;
      }
      assert src[..pulled] == src[..k] + [src[k]];
      out := out + r.value;
    }
    err := sink.flush;
    flushed := true;
  }
}

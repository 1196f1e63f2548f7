/** The filter stage, `JsonMaps.ToFiltered`: passes upstream errors on,
    checks for cancellation before every evaluation, binds each record under
    "item", runs the predicate, drops rejected records and yields accepted
    ones in order, ending at the first error or when its consumer declines. */
module FilterStage {
  import opened Values
  import opened Predicate
  import opened Stream

  /** What the stage does with one upstream pair. */
  datatype Verdict = Stop(err: Error) | Reject | Accept

  /** The one-entry activation `{"item": obj}`. */
  function Bind(obj: Option<Record>): Binding
  {
    map["item" := obj]
  }

  /** The stage's decision for the pair it receives as its i-th upstream
      element: an upstream error first, then a done context, then the
      predicate's error or verdict. */
  function Judge(e: Elem, i: nat, ctx: Context, prog: Program): Verdict
  {
    if e.err.Some? then Stop(e.err.value)
    else if ctx.errAt(i).Some? then Stop(CtxError(ctx.errAt(i).value))
    else
      var k := Filter(prog, i, Bind(e.obj));
      if k.err.Some? then Stop(k.err.value)
      else if k.keep then Accept
      else Reject
  }

  /** The pairs the stage offers for the upstream pairs `up[i..]` to a consumer
      that never declines: accepted records as `(obj, nil)`, and at most one
      `(nil, err)`, always the last. */
  function Filtered(up: seq<Elem>, ctx: Context, prog: Program, i: nat): (r: seq<Elem>)
    ensures |r| <= |up| - i || (i >= |up| && r == [])
    ensures forall k :: 0 <= k < |r| && r[k].err.Some? ==> r[k].obj == None
    ensures forall k :: 0 <= k < |r| - 1 ==> r[k].err == None
    decreases |up| - i
  {
    if i >= |up| then []
    else match Judge(up[i], i, ctx, prog)
      case Stop(e) => [Elem(None, Some(e))]
      case Reject => Filtered(up, ctx, prog, i + 1)
      case Accept => [Elem(up[i].obj, None)] + Filtered(up, ctx, prog, i + 1)
  }

  /** How many upstream pairs the stage pulls from `up[i..]` when it has
      already yielded `n` pairs to a consumer that answers `more`. */
  function Pulls(up: seq<Elem>, ctx: Context, prog: Program, more: nat -> bool, i: nat, n: nat): nat
    decreases |up| - i
  {
    if i >= |up| then |up|
    else match Judge(up[i], i, ctx, prog)
      case Stop(_) => i + 1
      case Reject => Pulls(up, ctx, prog, more, i + 1, n)
      case Accept => if more(n) then Pulls(up, ctx, prog, more, i + 1, n + 1) else i + 1
  }

  /** What the stage yields from `up[i..]` on when it has already yielded
      `n` pairs to a consumer that answers `more`, step by step. */
  function Yields(up: seq<Elem>, ctx: Context, prog: Program, more: nat -> bool, i: nat, n: nat): seq<Elem>
    decreases |up| - i
  {
    if i >= |up| then []
    else match Judge(up[i], i, ctx, prog)
      case Stop(e) => [Elem(None, Some(e))]
      case Reject => Yields(up, ctx, prog, more, i + 1, n)
      case Accept =>
        if more(n) then [Elem(up[i].obj, None)] + Yields(up, ctx, prog, more, i + 1, n + 1)
        else [Elem(up[i].obj, None)]
  }

  /** Stepping through the stage delivers what a consumer takes of `Filtered`. */
  lemma {:induction false} YieldsIsTake(up: seq<Elem>, ctx: Context, prog: Program, more: nat -> bool, i: nat, n: nat)
    ensures Yields(up, ctx, prog, more, i, n) == Take(Filtered(up, ctx, prog, i), more, n)
    decreases |up| - i
  {
    if i < |up| {
      YieldsIsTake(up, ctx, prog, more, i + 1, n);
      YieldsIsTake(up, ctx, prog, more, i + 1, n + 1);
      match Judge(up[i], i, ctx, prog)
      case Stop(e) =>
      case Reject =>
      case Accept =>
        TakeCons(Elem(up[i].obj, None), Filtered(up, ctx, prog, i + 1), more, n);
    }
  }

  /** After pulling `up[..i]` and yielding `ys`, what remains to be yielded
      and pulled is what `Yields` and `Pulls` say of `up[i..]`. */
  ghost predicate Progress(up: seq<Elem>, ctx: Context, prog: Program, more: nat -> bool, i: nat, ys: seq<Elem>)
  {
    && i <= |up|
    && ys + Yields(up, ctx, prog, more, i, |ys|) == Yields(up, ctx, prog, more, 0, 0)
    && Pulls(up, ctx, prog, more, i, |ys|) == Pulls(up, ctx, prog, more, 0, 0)
  }

  /** A pair that stops the stage: it yields `(nil, err)` and returns. */
  lemma StopStep(up: seq<Elem>, ctx: Context, prog: Program, more: nat -> bool, i: nat, ys: seq<Elem>, e: Error)
    requires i < |up| && Progress(up, ctx, prog, more, i, ys)
    requires Judge(up[i], i, ctx, prog) == Stop(e)
    ensures ys + [Elem(None, Some(e))] == Yields(up, ctx, prog, more, 0, 0)
    ensures Pulls(up, ctx, prog, more, 0, 0) == i + 1
  {
  }

  /** A rejected record: nothing is yielded and the loop goes on. */
  lemma RejectStep(up: seq<Elem>, ctx: Context, prog: Program, more: nat -> bool, i: nat, ys: seq<Elem>)
    requires i < |up| && Progress(up, ctx, prog, more, i, ys)
    requires Judge(up[i], i, ctx, prog) == Reject
    ensures Progress(up, ctx, prog, more, i + 1, ys)
  {
  }

  /** An accepted record is yielded; the loop goes on only if the consumer
      asks for more. */
  lemma AcceptStep(up: seq<Elem>, ctx: Context, prog: Program, more: nat -> bool, i: nat, ys: seq<Elem>)
    requires i < |up| && Progress(up, ctx, prog, more, i, ys)
    requires Judge(up[i], i, ctx, prog) == Accept
    ensures more(|ys|) ==> Progress(up, ctx, prog, more, i + 1, ys + [Elem(up[i].obj, None)])
    ensures !more(|ys|) ==>
      ys + [Elem(up[i].obj, None)] == Yields(up, ctx, prog, more, 0, 0)
      && Pulls(up, ctx, prog, more, 0, 0) == i + 1
  {
    var x := Elem(up[i].obj, None);
    if more(|ys|) {
      var t2 := Yields(up, ctx, prog, more, i + 1, |ys| + 1);
      assert Yields(up, ctx, prog, more, i, |ys|) == [x] + t2;
      assert (ys + [x]) + t2 == ys + ([x] + t2);
    }
  }

  /** The activations for the first `n` upstream pairs, in order. */
  ghost function Bindings(up: seq<Elem>, n: nat): seq<Binding>
    requires n <= |up|
  {
    seq(n, k requires 0 <= k < n => Bind(up[k].obj))
  }

  /** `JsonMaps.ToFiltered`. `up` is what the upstream iterator offers; `more`
      is how the consumer answers `yield`. Returns what the consumer receives,
      how many upstream pairs were pulled, and (ghost) every activation the
      predicate was called with. */
  method ToFiltered(up: seq<Elem>, ctx: Context, prog: Program, more: nat -> bool)
    returns (ys: seq<Elem>, pulled: nat, ghost bindings: seq<Binding>)
    ensures ys == Take(Filtered(up, ctx, prog, 0), more, 0)
    ensures pulled == Pulls(up, ctx, prog, more, 0, 0) && pulled <= |up|
    ensures bindings == Bindings(up,
      if 0 < pulled && (up[pulled - 1].err.Some? || ctx.errAt(pulled - 1).Some?) then pulled - 1 else pulled)
  {
    var item: Binding := map[];
    ys := [];
    pulled := 0;
    bindings := [];
    while pulled < |up|
      invariant Progress(up, ctx, prog, more, pulled, ys)
      invariant 0 < pulled ==> up[pulled - 1].err.None? && ctx.errAt(pulled - 1).None?
      invariant bindings == Bindings(up, pulled)
    {
      var obj, err := up[pulled].obj, up[pulled].err;
      var i := pulled;
      pulled := pulled + 1;
      item := map[];
      if err.Some? {
        StopStep(up, ctx, prog, more, i, ys, err.value);
        ys := ys + [Elem(None, err)];
        break;
      }
      var done := ctx.errAt(i);
      if done.Some? {
        StopStep(up, ctx, prog, more, i, ys, CtxError(done.value));
        ys := ys + [Elem(None, Some(CtxError(done.value)))];
        break;
      }
      item := item["item" := obj];
      assert item == Bind(obj);
      assert Bindings(up, pulled) == Bindings(up, i) + [item];
      bindings := bindings + [item];
      var r := Filter(prog, i, item);
      if r.err.Some? {
        StopStep(up, ctx, prog, more, i, ys, r.err.value);
        ys := ys + [Elem(None, r.err)];
        break;
      }
      if !r.keep {
        RejectStep(up, ctx, prog, more, i, ys);
        continue;
      }
      AcceptStep(up, ctx, prog, more, i, ys);
      ys := ys + [Elem(obj, None)];
      if !more(|ys| - 1) {
        break;
      }
    }
    YieldsIsTake(up, ctx, prog, more, 0, 0);
  }
}

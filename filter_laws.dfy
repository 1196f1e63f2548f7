/** What the filter stage promises, proved of its specification `Filtered`
    and `Pulls`: it ends at the first upstream error, cancellation or
    predicate failure; before that it passes on exactly the accepted
    records, in order; it pulls nothing after the pair that ends it. */
module FilterLaws {
  import opened Values
  import opened Predicate
  import opened Stream
  import opened FilterStage

  /** The index of the first pair in `up[i..]` that stops the stage, or `|up|`. */
  function FirstStop(up: seq<Elem>, ctx: Context, prog: Program, i: nat): (t: nat)
    requires i <= |up|
    ensures i <= t <= |up|
    ensures forall x :: i <= x < t ==> !Judge(up[x], x, ctx, prog).Stop?
    ensures t < |up| ==> Judge(up[t], t, ctx, prog).Stop?
    decreases |up| - i
  {
    if i == |up| then |up|
    else if Judge(up[i], i, ctx, prog).Stop? then i
    else FirstStop(up, ctx, prog, i + 1)
  }

  /** The indices in `[i, j)` whose record the stage accepts, ascending. */
  function AcceptedIndices(up: seq<Elem>, ctx: Context, prog: Program, i: nat, j: nat): (r: seq<nat>)
    requires i <= j <= |up|
    ensures forall k :: 0 <= k < |r| ==> i <= r[k] < j && Judge(up[r[k]], r[k], ctx, prog) == Accept
    ensures forall k, l :: 0 <= k < l < |r| ==> r[k] < r[l]
    decreases j - i
  {
    if i == j then []
    else (if Judge(up[i], i, ctx, prog) == Accept then [i] else []) + AcceptedIndices(up, ctx, prog, i + 1, j)
  }

  /** No accepted index is missing. */
  lemma {:induction false} AcceptedIndicesComplete(up: seq<Elem>, ctx: Context, prog: Program, i: nat, j: nat, x: nat)
    requires i <= x < j <= |up| && Judge(up[x], x, ctx, prog) == Accept
    ensures x in AcceptedIndices(up, ctx, prog, i, j)
    decreases j - i
  {
    if i < x {
      AcceptedIndicesComplete(up, ctx, prog, i + 1, j, x);
    }
  }

  /** The `(obj, nil)` pairs for the upstream pairs at indices `idx`. */
  function Kept(up: seq<Elem>, idx: seq<nat>): (r: seq<Elem>)
    requires forall k :: 0 <= k < |idx| ==> idx[k] < |up|
  {
    seq(|idx|, k requires 0 <= k < |idx| => Elem(up[idx[k]].obj, None))
  }

  /** Keeping one more record in front. */
  lemma KeptCons(up: seq<Elem>, i: nat, rest: seq<nat>)
    requires i < |up| && forall k :: 0 <= k < |rest| ==> rest[k] < |up|
    ensures Kept(up, [i] + rest) == [Elem(up[i].obj, None)] + Kept(up, rest)
  {
  }

  /** The `(nil, err)` pair for the stopping pair at `t`, if there is one. */
  function StopTail(up: seq<Elem>, ctx: Context, prog: Program, t: nat): seq<Elem>
    requires t <= |up|
    requires t < |up| ==> Judge(up[t], t, ctx, prog).Stop?
  {
    if t < |up| then [Elem(None, Some(Judge(up[t], t, ctx, prog).err))] else []
  }

  /** The stage offers the accepted records before the first stopping pair,
      in upstream order, followed by that pair's error, if any. */
  lemma {:induction false} FilteredIsKeptThenStop(up: seq<Elem>, ctx: Context, prog: Program, i: nat)
    requires i <= |up|
    ensures Filtered(up, ctx, prog, i) ==
      Kept(up, AcceptedIndices(up, ctx, prog, i, FirstStop(up, ctx, prog, i)))
      + StopTail(up, ctx, prog, FirstStop(up, ctx, prog, i))
    decreases |up| - i
  {
    if i < |up| {
      var t := FirstStop(up, ctx, prog, i);
      match Judge(up[i], i, ctx, prog)
      case Stop(e) =>
        assert t == i;
      case Reject =>
        FilteredIsKeptThenStop(up, ctx, prog, i + 1);
        assert AcceptedIndices(up, ctx, prog, i, t) == AcceptedIndices(up, ctx, prog, i + 1, t);
      case Accept =>
        FilteredIsKeptThenStop(up, ctx, prog, i + 1);
        var rest := AcceptedIndices(up, ctx, prog, i + 1, t);
        assert AcceptedIndices(up, ctx, prog, i, t) == [i] + rest;
        KeptCons(up, i, rest);
    }
  }

  /** The stopping index is determined by its two defining facts. */
  lemma FirstStopAt(up: seq<Elem>, ctx: Context, prog: Program, j: nat)
    requires j < |up| && Judge(up[j], j, ctx, prog).Stop?
    requires forall x :: 0 <= x < j ==> !Judge(up[x], x, ctx, prog).Stop?
    ensures FirstStop(up, ctx, prog, 0) == j
  {
  }

  /** An upstream error is passed on as `(nil, err)`, unchanged, as the last
      pair; the accepted records before it come first. */
  lemma UpstreamErrorEnds(up: seq<Elem>, ctx: Context, prog: Program, j: nat)
    requires j < |up| && up[j].err.Some?
    requires forall x :: 0 <= x < j ==> !Judge(up[x], x, ctx, prog).Stop?
    ensures Filtered(up, ctx, prog, 0) == Kept(up, AcceptedIndices(up, ctx, prog, 0, j)) + [Elem(None, up[j].err)]
  {
    FirstStopAt(up, ctx, prog, j);
    FilteredIsKeptThenStop(up, ctx, prog, 0);
  }

  /** A context found done when a record arrives ends the stage with
      `(nil, ctx.Err())`, without the predicate having a say. */
  lemma CancellationEnds(up: seq<Elem>, ctx: Context, prog: Program, j: nat, c: CtxErr)
    requires j < |up| && up[j].err == None && ctx.errAt(j) == Some(c)
    requires forall x :: 0 <= x < j ==> !Judge(up[x], x, ctx, prog).Stop?
    ensures Filtered(up, ctx, prog, 0) ==
      Kept(up, AcceptedIndices(up, ctx, prog, 0, j)) + [Elem(None, Some(CtxError(c)))]
  {
    FirstStopAt(up, ctx, prog, j);
    FilteredIsKeptThenStop(up, ctx, prog, 0);
  }

  /** A failed evaluation ends the stage with its error, passed on as is; a
      result that is not a bool ends it with `ErrNotBool`. */
  lemma PredicateErrorEnds(up: seq<Elem>, ctx: Context, prog: Program, j: nat)
    requires j < |up| && up[j].err == None && ctx.errAt(j) == None
    requires !(prog.eval(j, Bind(up[j].obj)).Ok? && prog.eval(j, Bind(up[j].obj)).value.CBool?)
    requires forall x :: 0 <= x < j ==> !Judge(up[x], x, ctx, prog).Stop?
    ensures Filtered(up, ctx, prog, 0) ==
      Kept(up, AcceptedIndices(up, ctx, prog, 0, j)) +
      [Elem(None, Some(if prog.eval(j, Bind(up[j].obj)).Err? then prog.eval(j, Bind(up[j].obj)).error else NotBool))]
  {
    FirstStopAt(up, ctx, prog, j);
    FilteredIsKeptThenStop(up, ctx, prog, 0);
  }

  /** Without errors or cancellation, the stage offers exactly the records
      whose predicate evaluated to `true`, each once, in upstream order
      (`AcceptedIndices` is strictly ascending). */
  lemma CleanRunKeepsExactlyTrue(up: seq<Elem>, ctx: Context, prog: Program)
    requires forall x :: 0 <= x < |up| ==>
      up[x].err == None && ctx.errAt(x) == None &&
      prog.eval(x, Bind(up[x].obj)).Ok? && prog.eval(x, Bind(up[x].obj)).value.CBool?
    ensures Filtered(up, ctx, prog, 0) == Kept(up, AcceptedIndices(up, ctx, prog, 0, |up|))
    ensures forall x :: 0 <= x < |up| ==>
      (x in AcceptedIndices(up, ctx, prog, 0, |up|) <==> prog.eval(x, Bind(up[x].obj)) == Ok(CBool(true)))
  {
    FilteredIsKeptThenStop(up, ctx, prog, 0);
    forall x | 0 <= x < |up| && prog.eval(x, Bind(up[x].obj)) == Ok(CBool(true))
      ensures x in AcceptedIndices(up, ctx, prog, 0, |up|)
    {
      AcceptedIndicesComplete(up, ctx, prog, 0, |up|, x);
    }
  }

  /** A predicate that is always `true` passes every record through. */
  lemma {:induction false} TautologyKeepsAll(up: seq<Elem>, ctx: Context, prog: Program, i: nat)
    requires i <= |up|
    requires forall x :: i <= x < |up| ==>
      up[x].err == None && ctx.errAt(x) == None && prog.eval(x, Bind(up[x].obj)) == Ok(CBool(true))
    ensures Filtered(up, ctx, prog, i) == seq(|up| - i, k requires 0 <= k < |up| - i => Elem(up[i + k].obj, None))
    decreases |up| - i
  {
    if i < |up| {
      TautologyKeepsAll(up, ctx, prog, i + 1);
      assert Judge(up[i], i, ctx, prog) == Accept;
    }
  }

  /** A predicate that is always `false` passes nothing through. */
  lemma {:induction false} ContradictionKeepsNone(up: seq<Elem>, ctx: Context, prog: Program, i: nat)
    requires forall x :: i <= x < |up| ==>
      up[x].err == None && ctx.errAt(x) == None && prog.eval(x, Bind(up[x].obj)) == Ok(CBool(false))
    ensures Filtered(up, ctx, prog, i) == []
    decreases |up| - i
  {
    if i < |up| {
      ContradictionKeepsNone(up, ctx, prog, i + 1);
      assert Judge(up[i], i, ctx, prog) == Reject;
    }
  }

  /** The context is consulted only when a pair arrives: two contexts that
      agree at every arrival give the same output, so a cancellation that
      comes after the last record is never reported. */
  lemma {:induction false} ContextSeenOnlyOnArrival(up: seq<Elem>, ctx1: Context, ctx2: Context, prog: Program, i: nat)
    requires forall x :: i <= x < |up| ==> ctx1.errAt(x) == ctx2.errAt(x)
    ensures Filtered(up, ctx1, prog, i) == Filtered(up, ctx2, prog, i)
    decreases |up| - i
  {
    if i < |up| {
      ContextSeenOnlyOnArrival(up, ctx1, ctx2, prog, i + 1);
      assert Judge(up[i], i, ctx1, prog) == Judge(up[i], i, ctx2, prog);
    }
  }

  /** When the consumer takes every accepted record, the stage pulls up to
      and including the first stopping pair and nothing after it, or the
      whole upstream when nothing stops it. */
  lemma {:induction false} PullsUntilStop(up: seq<Elem>, ctx: Context, prog: Program, more: nat -> bool, i: nat, n: nat)
    requires i <= |up|
    requires forall m :: n <= m < n + |AcceptedIndices(up, ctx, prog, i, FirstStop(up, ctx, prog, i))| ==> more(m)
    ensures Pulls(up, ctx, prog, more, i, n) ==
      if FirstStop(up, ctx, prog, i) < |up| then FirstStop(up, ctx, prog, i) + 1 else |up|
    decreases |up| - i
  {
    if i < |up| {
      var t := FirstStop(up, ctx, prog, i);
      match Judge(up[i], i, ctx, prog)
      case Stop(_) =>
      case Reject =>
        assert AcceptedIndices(up, ctx, prog, i, t) == AcceptedIndices(up, ctx, prog, i + 1, t);
        PullsUntilStop(up, ctx, prog, more, i + 1, n);
      case Accept =>
        assert AcceptedIndices(up, ctx, prog, i, t) == [i] + AcceptedIndices(up, ctx, prog, i + 1, t);
        assert more(n);
        PullsUntilStop(up, ctx, prog, more, i + 1, n + 1);
    }
  }

  /** When the consumer declines the accepted record at `j`, the d-th one the
      stage yields from `i` on, the stage pulls nothing after that record. */
  lemma {:induction false} PullsUntilDecline(up: seq<Elem>, ctx: Context, prog: Program, more: nat -> bool, i: nat, n: nat, j: nat, d: nat)
    requires i <= j < |up| && j < FirstStop(up, ctx, prog, i) && Judge(up[j], j, ctx, prog) == Accept
    requires d == |AcceptedIndices(up, ctx, prog, i, j)|
    requires !more(n + d) && forall m :: n <= m < n + d ==> more(m)
    ensures Pulls(up, ctx, prog, more, i, n) == j + 1
    decreases j - i
  {
    if i < j {
      var rest := AcceptedIndices(up, ctx, prog, i + 1, j);
      assert FirstStop(up, ctx, prog, i) == FirstStop(up, ctx, prog, i + 1);
      if Judge(up[i], i, ctx, prog) == Reject {
        PullsUntilDecline(up, ctx, prog, more, i + 1, n, j, d);
      } else {
        assert d == 1 + |rest|;
        assert more(n);
        PullsUntilDecline(up, ctx, prog, more, i + 1, n + 1, j, d - 1);
      }
    }
  }

  /** When the consumer declines the d-th accepted record, it has received
      exactly the first d + 1 accepted records and no error pair. */
  lemma DeclineEndsWithoutError(up: seq<Elem>, ctx: Context, prog: Program, more: nat -> bool, d: nat)
    requires d < |AcceptedIndices(up, ctx, prog, 0, FirstStop(up, ctx, prog, 0))|
    requires !more(d) && forall m :: 0 <= m < d ==> more(m)
    ensures Take(Filtered(up, ctx, prog, 0), more, 0) ==
      Kept(up, AcceptedIndices(up, ctx, prog, 0, FirstStop(up, ctx, prog, 0))[..d + 1])
  {
    var t := FirstStop(up, ctx, prog, 0);
    var a := AcceptedIndices(up, ctx, prog, 0, t);
    FilteredIsKeptThenStop(up, ctx, prog, 0);
    var s := Filtered(up, ctx, prog, 0);
    var r := Kept(up, a[..d + 1]);
    assert r == s[..|r|];
    TakeUnique(s, more, 0, r);
  }
}

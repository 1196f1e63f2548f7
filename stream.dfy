/** The yield protocol of Go's push iterators. A producer hands its elements
    one at a time to the consumer's `yield`; when `yield` answers false the
    producer stops. A consumer is modelled by its answers: `more(n)` is what
    `yield` returns for the element the consumer receives after having
    received `n` elements already. */
module Stream {

  /** The part of `s` a consumer receives when a producer offers the elements
      of `s` in order, the consumer has already received `n` elements, and the
      producer stops after the first element the consumer declines. */
  function Take<T>(s: seq<T>, more: nat -> bool, n: nat): (r: seq<T>)
    ensures |r| <= |s| && r == s[..|r|]
    ensures s != [] ==> r != []
    ensures forall k :: n <= k < n + |r| - 1 ==> more(k)
    ensures |r| < |s| ==> !more(n + |r| - 1)
    decreases |s|
  {
    if s == [] then []
    else if !more(n) then [s[0]]
    else [s[0]] + Take(s[1..], more, n + 1)
  }

  /** The four facts `Take` ensures determine its result: whatever prefix a
      producer delivers under the yield protocol is exactly `Take`. */
  lemma {:induction false} TakeUnique<T>(s: seq<T>, more: nat -> bool, n: nat, r: seq<T>)
    requires |r| <= |s| && r == s[..|r|]
    requires s != [] ==> r != []
    requires forall k :: n <= k < n + |r| - 1 ==> more(k)
    requires |r| < |s| ==> !more(n + |r| - 1)
    ensures r == Take(s, more, n)
    decreases |s|
  {
    if s != [] && more(n) {
      if |r| > 1 {
        TakeUnique(s[1..], more, n + 1, r[1..]);
        assert r == [s[0]] + r[1..];
      }
    }
  }

  /** A consumer that never declines receives everything. */
  lemma {:induction false} TakeAll<T>(s: seq<T>, more: nat -> bool, n: nat)
    requires forall k :: n <= k < n + |s| ==> more(k)
    ensures Take(s, more, n) == s
    decreases |s|
  {
    if s != [] {
      TakeAll(s[1..], more, n + 1);
    }
  }

  /** Receiving one element, then the rest if the consumer asked for more. */
  lemma TakeCons<T>(x: T, s: seq<T>, more: nat -> bool, n: nat)
    ensures Take([x] + s, more, n) == [x] + (if more(n) then Take(s, more, n + 1) else [])
  {
    assert ([x] + s)[1..] == s;
  }
}

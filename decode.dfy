/** The decoder stage: `JsonReader.ToMaps` over a stream of JSON values and
    `JsonLines.ToMap` over a sequence of lines, each producing `(map, error)`
    pairs into one reused scratch map. */
module Decode {
  import opened Values
  import opened Stream

  /** What one call of the JSON decoder (`Decoder.Decode` or `json.Unmarshal`)
      does to the map variable it is handed: the entries it stores into the
      map, or `None` when the document is `null` and the variable is set to
      a nil map; and the error it returns. */
  datatype Decoded = Decoded(fields: Option<Record>, err: Option<Error>)

  /** The result of one `Decoder.Decode` call: `io.EOF`, or a decode attempt. */
  datatype Outcome = Eof | Got(d: Decoded)

  /** One line of input bytes for `JsonLines.ToMap`. */
  type Line = seq<bv8>

  /** The k-th `Decode` call of a decoder whose successive results are
      `script`; once the script is used up the decoder keeps reporting EOF. */
  function DecodeAt(script: seq<Outcome>, k: nat): Outcome
  {
    if k < |script| then script[k] else Eof
  }

  /** The pair yielded for a decode into a freshly cleared map. */
  function Fresh(d: Decoded): Elem
  {
    Elem(d.fields, d.err)
  }

  /** `clear(buf)`: empties the map; a nil map stays nil. */
  function Clear(buf: Option<Record>): (r: Option<Record>)
    ensures r.Some? <==> buf.Some?
    ensures r.Some? ==> r.value == map[]
  {
    if buf.Some? then Some(map[]) else None
  }

  /** Decoding into the map variable: a `null` document sets it to nil;
      otherwise the decoded entries are stored into the map, which is
      allocated first when it is nil. Entries already present are kept. */
  function Into(buf: Option<Record>, d: Decoded): (r: Option<Record>)
    ensures d.fields == None ==> r == None
    ensures d.fields.Some? && buf.Some? ==> r == Some(buf.value + d.fields.value)
    ensures buf == None || buf == Some(map[]) ==> r == d.fields
  {
    match d.fields
    case None => None
    case Some(f) =>
      assert map[] + f == f;
      Some((if buf.Some? then buf.value else map[]) + f)
  }

  /** The pairs `ToMaps` offers: one per decode result before the first EOF,
      successes and errors alike, each holding exactly the decoded entries. */
  function Offered(script: seq<Outcome>): (r: seq<Elem>)
    ensures |r| <= |script|
    ensures forall k :: 0 <= k < |r| ==> script[k].Got? && r[k] == Fresh(script[k].d)
    ensures |r| < |script| ==> script[|r|].Eof?
    decreases |script|
  {
    if script == [] || script[0].Eof? then []
    else [Fresh(script[0].d)] + Offered(script[1..])
  }

  /** How many times `ToMaps` calls `Decode` when its consumer answers `more`:
      once per pair it yields, plus the call that reports EOF when the consumer
      has not stopped it first. */
  function DecodeCalls(script: seq<Outcome>, more: nat -> bool): nat
  {
    var ys := Take(Offered(script), more, 0);
    |ys| + (if |ys| == |Offered(script)| && (ys == [] || more(|ys| - 1)) then 1 else 0)
  }

  /** Where `ToMaps` can end: at EOF after every offered pair was taken, or
      right after the consumer declined a pair. Either way it has delivered
      exactly what `Take` says and made `DecodeCalls` decode calls. */
  lemma ToMapsEnds(script: seq<Outcome>, more: nat -> bool, ys: seq<Elem>, decodes: nat)
    requires |ys| <= |Offered(script)|
    requires forall k :: 0 <= k < |ys| ==> ys[k] == Offered(script)[k]
    requires forall k :: 0 <= k < |ys| - 1 ==> more(k)
    requires || (|ys| == |Offered(script)| && (ys == [] || more(|ys| - 1)) && decodes == |ys| + 1)
             || (ys != [] && !more(|ys| - 1) && decodes == |ys|)
    ensures ys == Take(Offered(script), more, 0)
    ensures decodes == DecodeCalls(script, more)
  {
    assert ys == Offered(script)[..|ys|];
    TakeUnique(Offered(script), more, 0, ys);
  }

  /** The decode after n pairs were offered: EOF exactly when all pairs have
      been offered, and otherwise the source of the next pair. */
  lemma NextDecode(script: seq<Outcome>, n: nat)
    requires n <= |Offered(script)|
    ensures DecodeAt(script, n).Eof? <==> n == |Offered(script)|
    ensures DecodeAt(script, n).Got? ==> Offered(script)[n] == Fresh(DecodeAt(script, n).d)
  {
  }

  /** `JsonReader.ToMaps`: clears the scratch map, decodes into it, ends
      quietly on EOF and yields every other outcome; it stops only on EOF or
      when `yield` answers false. */
  method ToMaps(script: seq<Outcome>, more: nat -> bool) returns (ys: seq<Elem>, decodes: nat)
    ensures ys == Take(Offered(script), more, 0)
    ensures decodes == DecodeCalls(script, more)
  {
    var buf: Option<Record> := Some(map[]);
    ys := [];
    decodes := 0;
    while true
      invariant decodes == |ys| <= |Offered(script)|
      invariant forall k :: 0 <= k < |ys| ==> ys[k] == Offered(script)[k]
      invariant forall k :: 0 <= k < |ys| ==> more(k)
      decreases |script| - decodes
    {
      buf := Clear(buf);
      var o := DecodeAt(script, decodes);
      NextDecode(script, decodes);
      decodes := decodes + 1;
      if o.Eof? {
        ToMapsEnds(script, more, ys, decodes);
        return;
      }
      buf := Into(buf, o.d);
      assert buf == o.d.fields;
      ys := ys + [Elem(buf, o.d.err)];
      if !more(|ys| - 1) {
        ToMapsEnds(script, more, ys, decodes);
        return;
      }
    }
  }

  /** The pairs `ToMap` offers: exactly one per line, in line order. */
  function Unmarshalled(lines: seq<Line>, unmarshal: Line -> Decoded): (r: seq<Elem>)
  {
    seq(|lines|, i requires 0 <= i < |lines| => Fresh(unmarshal(lines[i])))
  }

  /** `JsonLines.ToMap`: for each line, clears the scratch map, unmarshals the
      line into it and yields the pair; it stops as soon as `yield` answers
      false, and then pulls no further line. Returns what the consumer
      receives and how many lines were pulled (each one unmarshalled once). */
  method ToMap(lines: seq<Line>, unmarshal: Line -> Decoded, more: nat -> bool)
    returns (ys: seq<Elem>, pulled: nat)
    ensures |ys| <= |lines|
    ensures forall k :: 0 <= k < |ys| ==> ys[k] == Fresh(unmarshal(lines[k]))
    ensures ys == Take(Unmarshalled(lines, unmarshal), more, 0)
    ensures pulled == |ys|
  {
    var buf: Option<Record> := Some(map[]);
    ys := [];
    pulled := 0;
    for i := 0 to |lines|
      invariant ys == Unmarshalled(lines, unmarshal)[..i]
      invariant forall k :: 0 <= k < i ==> more(k)
      invariant pulled == i
    {
      pulled := pulled + 1;
      buf := Clear(buf);
      var d := unmarshal(lines[i]);
      buf := Into(buf, d);
      assert Unmarshalled(lines, unmarshal)[..i + 1] == Unmarshalled(lines, unmarshal)[..i] + [Fresh(d)];
      ys := ys + [Elem(buf, d.err)];
      if !more(i) {
        TakeUnique(Unmarshalled(lines, unmarshal), more, 0, ys);
        return;
      }
    }
    TakeUnique(Unmarshalled(lines, unmarshal), more, 0, ys);
  }

  /** A consumer that asks for every pair receives one pair per line, in
      line order. */
  lemma ToMapOnePerLine(lines: seq<Line>, unmarshal: Line -> Decoded, more: nat -> bool)
    requires forall k :: 0 <= k < |lines| ==> more(k)
    ensures Take(Unmarshalled(lines, unmarshal), more, 0) == Unmarshalled(lines, unmarshal)
    ensures |Take(Unmarshalled(lines, unmarshal), more, 0)| == |lines|
  {
    TakeAll(Unmarshalled(lines, unmarshal), more, 0);
  }

  /** A consumer that asks for every pair receives every decode result up to
      the first EOF, errors included, and the EOF call is the last decode. */
  lemma ToMapsYieldsUntilEof(script: seq<Outcome>, more: nat -> bool)
    requires forall k :: 0 <= k < |script| ==> more(k)
    ensures Take(Offered(script), more, 0) == Offered(script)
    ensures DecodeCalls(script, more) == |Offered(script)| + 1
  {
    TakeAll(Offered(script), more, 0);
  }
}

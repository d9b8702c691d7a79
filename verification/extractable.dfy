/** The `Extractable` trait over frunk's heterogeneous lists: a chain of
    extractors built with `with_extractor` and run by recursion over its
    `HNil`/`HCons` structure. */
module Extractable {
  import opened Wrappers
  import opened Request
  import Extractors

  /** A chain of extractor references, `HCons<&E, R>` or `HNil`. */
  datatype Chain = Nil | Cons(head: Extractors.Extractor, tail: Chain)

  /** The result of running a chain: an `HList` of extracted values. */
  datatype HList = HNil | HCons(head: Value, tail: HList)

  function Length(c: Chain): nat {
    match c
    case Nil => 0
    case Cons(_, tail) => 1 + Length(tail)
  }

  /** The extractors of a chain, head first. */
  function Elements(c: Chain): (es: seq<Extractors.Extractor>)
    ensures |es| == Length(c)
  {
    match c
    case Nil => []
    case Cons(e, tail) => [e] + Elements(tail)
  }

  /** The values of a result, head first. */
  function Values(h: HList): seq<Value> {
    match h
    case HNil => []
    case HCons(v, tail) => [v] + Values(tail)
  }

  function ValuesOf(r: Option<HList>): Option<seq<Value>> {
    match r
    case None => None
    case Some(h) => Some(Values(h))
  }

  /** `empty_endpoint()`: the chain with no extractor. */
  function EmptyEndpoint(): (c: Chain)
    ensures Length(c) == 0 && Elements(c) == []
    ensures OutputTypes(c) == []
  {
    Nil
  }

  /** `chain.with_extractor(&e)`: the new extractor becomes the head and the
      old chain, unchanged, the tail. */
  function WithExtractor(c: Chain, e: Extractors.Extractor): (r: Chain)
    ensures Length(r) == Length(c) + 1
    ensures r.Cons? && r.head == e && r.tail == c
    ensures Elements(r) == [e] + Elements(c)
    ensures OutputTypes(r) == [e.output] + OutputTypes(c)
  {
    Cons(e, c)
  }

  /** `Extractable::extract` for `HNil` and `HCons<&E, R>`: the head extractor
      runs first, then the tail runs on the same request head and body; a
      panic in either ends the run (`None`). */
  function Extract(c: Chain, json: Decoder, parts: Parts, body: Bytes): (r: Option<HList>)
    ensures r.Some? ==> |Values(r.value)| == Length(c)
  {
    match c
    case Nil => Some(HNil)
    case Cons(e, tail) =>
      match Extractors.Extract(e, json, parts, body)
      case None => None
      case Some(v) =>
        match Extract(tail, json, parts, body)
        case None => None
        case Some(rest) => Some(HCons(v, rest))
  }

  /** How many extractors a run of `Extract` calls before it ends: it stops
      right after the first one that panics. */
  function Invoked(c: Chain, json: Decoder, parts: Parts, body: Bytes): (n: nat)
    ensures n <= Length(c)
    ensures Extract(c, json, parts, body).Some? ==> n == Length(c)
    ensures Extract(c, json, parts, body).None? ==> 0 < n
  {
    match c
    case Nil => 0
    case Cons(e, tail) =>
      if Extractors.Extract(e, json, parts, body).None? then 1
      else 1 + Invoked(tail, json, parts, body)
  }

  /** The associated `Output` type of a chain: `HNil` for `HNil`, and
      `HCons<E::Output, R::Output>` for `HCons<&E, R>`. */
  function OutputTypes(c: Chain): (ts: seq<Ty>)
    ensures |ts| == Length(c)
    ensures forall i :: 0 <= i < |ts| ==> ts[i] == Elements(c)[i].output
  {
    match c
    case Nil => []
    case Cons(e, tail) => [e.output] + OutputTypes(tail)
  }

  /** Builds `empty_endpoint().with_extractor(&es[0]) ... .with_extractor(&es[|es| - 1])`. */
  function Build(es: seq<Extractors.Extractor>): (c: Chain)
    ensures Length(c) == |es|
  {
    if es == [] then EmptyEndpoint()
    else WithExtractor(Build(es[..|es| - 1]), es[|es| - 1])
  }

  // ---------------------------------------------------------------------
  // Reference definition on sequences

  predicate AllSucceed(es: seq<Extractors.Extractor>, json: Decoder, parts: Parts, body: Bytes) {
    forall i :: 0 <= i < |es| ==> Extractors.Extract(es[i], json, parts, body).Some?
  }

  /** Every extractor applied to the same request head and body, position by
      position; no result at all if any of them panics. */
  function ExtractSpec(es: seq<Extractors.Extractor>, json: Decoder, parts: Parts, body: Bytes)
    : Option<seq<Value>>
  {
    if AllSucceed(es, json, parts, body)
    then Some(seq(|es|, i requires 0 <= i < |es| => Extractors.Extract(es[i], json, parts, body).value))
    else None
  }

  // ---------------------------------------------------------------------
  // Properties

  /** The empty chain yields the empty `HList` for every request and body. */
  lemma EmptyEndpointExtractsNothing(json: Decoder, parts: Parts, body: Bytes)
    ensures Extract(EmptyEndpoint(), json, parts, body) == Some(HNil)
    ensures Invoked(EmptyEndpoint(), json, parts, body) == 0
  {
  }

  /** Running `with_extractor(c, e)` is running `e` and then `c` on the same
      request, and consing the two outputs. */
  lemma ExtractWithExtractor(c: Chain, e: Extractors.Extractor, json: Decoder, parts: Parts, body: Bytes)
    ensures ValuesOf(Extract(WithExtractor(c, e), json, parts, body)) ==
            match (Extractors.Extract(e, json, parts, body), ValuesOf(Extract(c, json, parts, body)))
            case (Some(v), Some(vs)) => Some([v] + vs)
            case _ => None
  {
  }

  /** The recursive extraction agrees with the sequence-level reference:
      it succeeds exactly when every extractor does, and position i of the
      result is extractor i's output on the shared request. */
  lemma {:induction false} ExtractMatchesSpec(c: Chain, json: Decoder, parts: Parts, body: Bytes)
    ensures ValuesOf(Extract(c, json, parts, body)) == ExtractSpec(Elements(c), json, parts, body)
  {
    var es := Elements(c);
    match c
    case Nil =>
      assert es == [];
    case Cons(e, tail) =>
      ExtractMatchesSpec(tail, json, parts, body);
      var ts := Elements(tail);
      assert es == [e] + ts;
      if Extractors.Extract(e, json, parts, body).None? {
        assert es[0] == e;
      } else if Extract(tail, json, parts, body).None? {
        var j :| 0 <= j < |ts| && Extractors.Extract(ts[j], json, parts, body).None?;
        assert es[j + 1] == ts[j];
      } else {
        assert AllSucceed(es, json, parts, body) by {
          forall i | 0 <= i < |es|
            ensures Extractors.Extract(es[i], json, parts, body).Some?
          {
            if i > 0 { assert es[i] == ts[i - 1]; }
          }
        }
        var vs := ExtractSpec(es, json, parts, body).value;
        var rest := ExtractSpec(ts, json, parts, body).value;
        assert vs == [Extractors.Extract(e, json, parts, body).value] + rest by {
          forall i | 0 <= i < |vs|
            ensures vs[i] == ([Extractors.Extract(e, json, parts, body).value] + rest)[i]
          {
            if i > 0 { assert es[i] == ts[i - 1]; }
          }
        }
      }
  }

  /** Result position i holds the output of the extractor at chain position i
      on the same request head and body, and there are as many results as
      extractors. */
  lemma ResultAt(c: Chain, json: Decoder, parts: Parts, body: Bytes, i: nat)
    requires Extract(c, json, parts, body).Some?
    requires i < Length(c)
    ensures |Values(Extract(c, json, parts, body).value)| == Length(c)
    ensures Extractors.Extract(Elements(c)[i], json, parts, body).Some?
    ensures Values(Extract(c, json, parts, body).value)[i] ==
            Extractors.Extract(Elements(c)[i], json, parts, body).value
  {
    ExtractMatchesSpec(c, json, parts, body);
  }

  /** The run calls the extractors head first and stops at the first panic:
      every extractor before position `Invoked - 1` succeeded, and in a
      failed run the one at that position panicked; none after it was
      called. */
  lemma {:induction false} HeadRunsFirst(c: Chain, json: Decoder, parts: Parts, body: Bytes)
    ensures var n := Invoked(c, json, parts, body);
            forall i :: 0 <= i < n - 1 ==> Extractors.Extract(Elements(c)[i], json, parts, body).Some?
    ensures var n := Invoked(c, json, parts, body);
            Extract(c, json, parts, body).None? ==>
              0 < n && Extractors.Extract(Elements(c)[n - 1], json, parts, body).None?
  {
    match c
    case Nil =>
    case Cons(e, tail) =>
      HeadRunsFirst(tail, json, parts, body);
      var es, ts := Elements(c), Elements(tail);
      assert es == [e] + ts;
      forall i | 0 < i < |es| ensures es[i] == ts[i - 1] { }
  }

  /** With well-typed extractors and a decoder that respects its target, the
      `i`-th value of a result has the `i`-th type of the chain's output
      type: the `HCons<E::Output, R::Output>` shape. */
  lemma {:induction false} ExtractConformsToOutputTypes(c: Chain, json: Decoder, parts: Parts, body: Bytes)
    requires forall e | e in Elements(c) :: Extractors.WellTyped(e)
    requires DecoderRespectsTarget(json)
    ensures Extract(c, json, parts, body).Some? ==>
              forall i :: 0 <= i < Length(c) ==>
                TypeOf(Values(Extract(c, json, parts, body).value)[i]) == OutputTypes(c)[i]
  {
    match c
    case Nil =>
    case Cons(e, tail) =>
      assert Elements(c) == [e] + Elements(tail);
      ExtractConformsToOutputTypes(tail, json, parts, body);
  }

  /** Appending reverses order: the extractor appended last sits at
      position 0, the one appended first at the end. */
  lemma {:induction false} BuildReversesOrder(es: seq<Extractors.Extractor>)
    ensures Length(Build(es)) == |es|
    ensures forall i :: 0 <= i < |es| ==> Elements(Build(es))[i] == es[|es| - 1 - i]
  {
    if es != [] {
      var init := es[..|es| - 1];
      BuildReversesOrder(init);
      var c := Build(es);
      assert Elements(c) == [es[|es| - 1]] + Elements(Build(init));
    }
  }

  /** Running a chain built by appending `es` in order yields their outputs in
      the reverse order: result position i comes from `es[|es| - 1 - i]`. */
  lemma AppendOrderReversed(es: seq<Extractors.Extractor>, json: Decoder, parts: Parts, body: Bytes, i: nat)
    requires Extract(Build(es), json, parts, body).Some?
    requires i < |es|
    ensures |Values(Extract(Build(es), json, parts, body).value)| == |es|
    ensures Extractors.Extract(es[|es| - 1 - i], json, parts, body).Some?
    ensures Values(Extract(Build(es), json, parts, body).value)[i] ==
            Extractors.Extract(es[|es| - 1 - i], json, parts, body).value
  {
    BuildReversesOrder(es);
    ResultAt(Build(es), json, parts, body, i);
  }
}

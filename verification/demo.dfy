/** The example endpoint of `main`: two path extractors and a body extractor
    appended to the empty endpoint, run on the request `/hello/1337` whose
    body is a JSON-encoded `Contact`. */
module Demo {
  import opened Wrappers
  import opened Request
  import opened PathSegments
  import Extractors
  import opened Extractable

  /** `request.uri.path().split("/").nth(1).unwrap().to_string()` */
  function FirstPart(parts: Parts): (r: Option<Value>)
    ensures r.Some? <==> 1 <= Count(parts.path, '/')
    ensures r.Some? ==> TypeOf(r.value) == StringTy && '/' !in r.value.s
  {
    match Segment(parts.path, 1)
    case None => None
    case Some(seg) => Some(Str(seg))
  }

  /** `request.uri.path().split("/").nth(2).unwrap().parse::<u64>().unwrap()` */
  function SecondPart(parts: Parts): (r: Option<Value>)
    ensures Count(parts.path, '/') < 2 ==> r.None?
    ensures r.Some? ==> TypeOf(r.value) == U64Ty
  {
    match Segment(parts.path, 2)
    case None => None
    case Some(seg) =>
      match ParseU64(seg)
      case None => None
      case Some(n) => Some(U64(n))
  }

  const ExtractFirstPart: Extractors.Extractor := Extractors.PathExtractor(StringTy, FirstPart)
  const ExtractSecondPart: Extractors.Extractor := Extractors.PathExtractor(U64Ty, SecondPart)

  /** `BodyExtractor(|body| serde_json::from_slice(body).unwrap())`; the
      closure is kept but, like the Rust code, extraction does not call it. */
  function ExtractContact(json: Decoder): (e: Extractors.Extractor)
    ensures e.output == ContactTy
    ensures forall parts, body :: Extractors.Extract(e, json, parts, body) == json(ContactTy, body)
  {
    Extractors.BodyExtractor(ContactTy, b => json(ContactTy, b))
  }

  /** `endpoint.with_extractor(&extract_first_part)
                .with_extractor(&extract_second_part)
                .with_extractor(&extract_contact_from_body)` */
  function Endpoint2(json: Decoder): (c: Chain)
    ensures Elements(c) == [ExtractContact(json), ExtractSecondPart, ExtractFirstPart]
  {
    WithExtractor(WithExtractor(WithExtractor(EmptyEndpoint(), ExtractFirstPart), ExtractSecondPart),
                  ExtractContact(json))
  }

  const John := Contact("John Doe", "foo@john.com", 42)

  // ---------------------------------------------------------------------
  // Properties

  /** The endpoint's output type is `HCons<Contact, HCons<u64, HCons<String, HNil>>>`:
      the extractor appended last comes first. */
  lemma Endpoint2OutputType(json: Decoder)
    ensures OutputTypes(Endpoint2(json)) == [ContactTy, U64Ty, StringTy]
  {
  }

  /** The example's extractors produce values of their declared types. */
  lemma Endpoint2WellTyped(json: Decoder)
    ensures forall e | e in Elements(Endpoint2(json)) :: Extractors.WellTyped(e)
  {
    assert Elements(Endpoint2(json)) == [ExtractContact(json), ExtractSecondPart, ExtractFirstPart];
  }

  /** Every successful run of the example endpoint, under a decoder that
      returns its target type, yields a `Contact`, then a `u64`, then a
      `String`: the values fit the declared output type. */
  lemma Endpoint2ResultTypes(json: Decoder, parts: Parts, body: Bytes)
    requires DecoderRespectsTarget(json)
    ensures Extract(Endpoint2(json), json, parts, body).Some? ==>
              var vs := Values(Extract(Endpoint2(json), json, parts, body).value);
              |vs| == 3 && TypeOf(vs[0]) == ContactTy && TypeOf(vs[1]) == U64Ty && TypeOf(vs[2]) == StringTy
  {
    Endpoint2WellTyped(json);
    Endpoint2OutputType(json);
    ExtractConformsToOutputTypes(Endpoint2(json), json, parts, body);
  }

  /** For any path made of '/'-free segments, the first path closure yields
      segment 1 as a string, and panics when there is no segment 1. */
  lemma FirstPartOfJoin(parts: Parts, segs: seq<string>)
    requires |segs| >= 1
    requires forall i :: 0 <= i < |segs| ==> '/' !in segs[i]
    requires parts.path == Join(segs, '/')
    ensures FirstPart(parts) == if 1 < |segs| then Some(Str(segs[1])) else None
  {
    SegmentOfJoin(segs, 1);
  }

  /** For any path made of '/'-free segments whose segment 2 is the decimal
      notation of n, the second path closure yields n when it fits in 64
      bits and panics otherwise. */
  lemma SecondPartOfJoin(parts: Parts, segs: seq<string>, n: nat)
    requires |segs| > 2
    requires forall i :: 0 <= i < |segs| ==> '/' !in segs[i]
    requires parts.path == Join(segs, '/')
    requires segs[2] == DecimalString(n)
    ensures SecondPart(parts) == if n < 0x1_0000_0000_0000_0000 then Some(U64(n as u64)) else None
  {
    SegmentOfJoin(segs, 2);
    ParseDecimal(n);
  }

  /** The second path closure panics when segment 2 holds a character that
      is neither a digit nor a leading '+', and when there is no segment 2. */
  lemma SecondPartRejects(parts: Parts, segs: seq<string>, k: nat)
    requires |segs| >= 1
    requires forall i :: 0 <= i < |segs| ==> '/' !in segs[i]
    requires parts.path == Join(segs, '/')
    requires 2 < |segs| ==> k < |segs[2]| && !IsDigit(segs[2][k]) && !(k == 0 && segs[2][k] == '+')
    ensures SecondPart(parts) == None
  {
    SegmentOfJoin(segs, 2);
  }

  /** "/hello/1337" splits into "", "hello" and "1337". */
  lemma HelloPathSegments()
    ensures Segment("/hello/1337", 1) == Some("hello")
    ensures Segment("/hello/1337", 2) == Some("1337")
  {
    var segments := ["", "hello", "1337"];
    assert Join(segments, '/') == "/hello/1337" by {
      assert segments[1..] == ["hello", "1337"];
      assert segments[1..][1..] == ["1337"];
    }
    SegmentOfJoin(segments, 1);
    SegmentOfJoin(segments, 2);
  }

  /** "1337" parses to 1337. */
  lemma Parse1337()
    ensures ParseU64("1337") == Some(1337)
  {
    assert DecimalString(1337) == "1337" by {
      assert DecimalString(1) == "1";
      assert DecimalString(13) == "13";
      assert DecimalString(133) == "133";
    }
    ParseDecimal(1337);
  }

  /** On `/hello/1337` the path extractors produce "hello" and 1337. */
  lemma PathPartsOfHello(parts: Parts)
    requires parts.path == "/hello/1337"
    ensures FirstPart(parts) == Some(Str("hello"))
    ensures SecondPart(parts) == Some(U64(1337))
  {
    var path := parts.path;
    assert Segment(path, 1) == Some("hello") && Segment(path, 2) == Some("1337") by {
      HelloPathSegments();
    }
    assert ParseU64("1337") == Some(1337) by {
      Parse1337();
    }
  }

  /** The worked request: with a decoder that reads back the JSON encoding of
      John's contact, the run yields the contact, then 1337, then "hello". */
  lemma Endpoint2OnHelloRequest(json: Decoder, toJson: Contact -> Bytes, parts: Parts)
    requires json(ContactTy, toJson(John)) == Some(ContactValue(John))
    requires parts.path == "/hello/1337"
    ensures Extract(Endpoint2(json), json, parts, toJson(John)) ==
            Some(HCons(ContactValue(John), HCons(U64(1337), HCons(Str("hello"), HNil))))
  {
    PathPartsOfHello(parts);
    var body := toJson(John);
    var c1 := WithExtractor(EmptyEndpoint(), ExtractFirstPart);
    var c2 := WithExtractor(c1, ExtractSecondPart);
    assert Extract(c1, json, parts, body) == Some(HCons(Str("hello"), HNil));
    assert Extract(c2, json, parts, body) == Some(HCons(U64(1337), HCons(Str("hello"), HNil)));
  }

  /** On the worked request every extractor of the endpoint is called. */
  lemma Endpoint2OnHelloRequestCallsAll(json: Decoder, toJson: Contact -> Bytes, parts: Parts)
    requires json(ContactTy, toJson(John)) == Some(ContactValue(John))
    requires parts.path == "/hello/1337"
    ensures Invoked(Endpoint2(json), json, parts, toJson(John)) == 3
  {
    Endpoint2OnHelloRequest(json, toJson, parts);
    HeadRunsFirst(Endpoint2(json), json, parts, toJson(John));
  }

  /** A body the decoder rejects panics in the first extractor to run, the
      body extractor, and no path extractor is called. */
  lemma Endpoint2OnMalformedBody(json: Decoder, parts: Parts, body: Bytes)
    requires json(ContactTy, body).None?
    ensures Extract(Endpoint2(json), json, parts, body).None?
    ensures Invoked(Endpoint2(json), json, parts, body) == 1
  {
  }

  /** With the second path segment missing (`/hello`), the body extractor
      runs, the second-segment extractor panics and the first-segment
      extractor is never called. */
  lemma Endpoint2OnMissingSegment(json: Decoder, parts: Parts, body: Bytes)
    requires json(ContactTy, body).Some?
    requires parts.path == "/hello"
    ensures Extract(Endpoint2(json), json, parts, body).None?
    ensures Invoked(Endpoint2(json), json, parts, body) == 2
  {
    SegmentOfJoin(["", "hello"], 2);
    assert Join(["", "hello"], '/') == "/hello";
  }

  /** A second segment that is not a number panics in `parse::<u64>`. */
  lemma Endpoint2OnNonNumericSegment(json: Decoder, parts: Parts, body: Bytes)
    requires json(ContactTy, body).Some?
    requires parts.path == "/hello/world"
    ensures Extract(Endpoint2(json), json, parts, body).None?
    ensures Invoked(Endpoint2(json), json, parts, body) == 2
  {
    SegmentOfJoin(["", "hello", "world"], 2);
    assert Join(["", "hello", "world"], '/') == "/hello/world";
    assert !IsDigit("world"[0]);
  }
}

/** The `Extractor` trait and its two implementations, `PathExtractor<T>` and
    `BodyExtractor<T>`. */
module Extractors {
  import opened Wrappers
  import opened Request

  /** An extractor holds a function pointer and produces one value of type
      `output`. A `BodyExtractor` keeps its function in `stored` but never
      calls it: its extraction always goes through the JSON decoder. */
  datatype Extractor =
    | PathExtractor(output: Ty, read: Parts -> Option<Value>)
    | BodyExtractor(output: Ty, stored: Bytes -> Option<Value>)

  /** `Extractor::extract(&self, request, body)`; `None` is a panic. With a
      well-typed function pointer and a decoder that returns its target type,
      what it produces has the extractor's `Output` type. */
  function Extract(e: Extractor, json: Decoder, parts: Parts, body: Bytes): (r: Option<Value>)
    ensures WellTyped(e) && DecoderRespectsTarget(json) && r.Some? ==> TypeOf(r.value) == e.output
  {
    match e
    case PathExtractor(_, read) => read(parts)
    case BodyExtractor(target, _) => json(target, body)
  }

  /** The function pointer of a path extractor returns values of its output
      type (what `fn(&Parts) -> T` guarantees in Rust). */
  ghost predicate WellTyped(e: Extractor) {
    match e
    case PathExtractor(output, read) =>
      forall p :: read(p).Some? ==> TypeOf(read(p).value) == output
    case BodyExtractor(_, _) => true
  }

  /** A path extractor reads the request head only: neither the body nor the
      decoder can change what it produces. */
  lemma PathExtractorIgnoresBody(e: Extractor, json1: Decoder, json2: Decoder,
                                 parts: Parts, body1: Bytes, body2: Bytes)
    requires e.PathExtractor?
    ensures Extract(e, json1, parts, body1) == Extract(e, json2, parts, body2)
    ensures Extract(e, json1, parts, body1) == e.read(parts)
  {
  }

  /** A body extractor decodes the body into its output type: the request
      head and its own stored function make no difference. */
  lemma BodyExtractorIgnoresParts(e: Extractor, stored: Bytes -> Option<Value>, json: Decoder,
                                  parts1: Parts, parts2: Parts, body: Bytes)
    requires e.BodyExtractor?
    ensures Extract(e, json, parts1, body) == Extract(e.(stored := stored), json, parts2, body)
    ensures Extract(e, json, parts1, body) == json(e.output, body)
  {
  }
}

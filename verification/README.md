# Extractor chains of tapi.rs, modelled in Dafny

tapi.rs composes request extractors into a heterogeneous list (frunk's
`HNil`/`HCons`). `empty_endpoint()` gives the empty list. `with_extractor`
puts a new extractor at the head, with the old list as its tail. Running the
list (`Extractable::extract`) runs the head extractor, then the tail, on the
same request head (`Parts`) and body (`Bytes`), and conses the two outputs.
A `PathExtractor` applies its function pointer to the request head. A
`BodyExtractor` decodes the body with `serde_json::from_slice`. The example
in `main` builds a chain of three extractors: path segment 1 as a string,
path segment 2 as a `u64`, and a JSON `Contact` from the body. It runs the
chain on `/hello/1337`.

The model, one module per concern:

- `Wrappers` (request.dfy): `Option`. `None` stands for the panic an `unwrap` raises.
- `Request` (request.dfy): `Parts`, `Bytes`, `Contact` and the extracted
  `Value`. It also has the output type tags `Ty` and the JSON decoder type
  `Decoder`. `Decoder` stands for `serde_json::from_slice::<T>` for each
  target type `T`.
- `Extractors` (extractors.dfy): the `Extractor` trait with its two
  implementations, as one datatype with two variants.
- `Extractable` (extractable.dfy): the chain (`Chain = Nil | Cons`), its
  result (`HList = HNil | HCons`), `EmptyEndpoint`, `WithExtractor` and the
  recursive `Extract`. Beside them are a sequence-level reference definition
  (`ExtractSpec`) and the lemmas tying them together. `Invoked` counts the
  extractors a run calls before it ends, which makes the head-before-tail
  order observable.
- `PathSegments` (path_segments.dfy): `str::split`, `Iterator::nth` and
  `str::parse::<u64>` as the path closures use them.
- `Demo` (demo.dfy): the example endpoint and the three request scenarios.

Result order follows the code: the most recently appended extractor's output
comes first, so the example yields `HCons<Contact, HCons<u64, HCons<String,
HNil>>>` (src/main.rs:145). The code has no typed failures: it panics through
`unwrap`. The model writes such a panic as `None`, and `Invoked` says which
extractor raised it.

## Model

| member | source | states |
|---|---|---|
| `Extractors.PathExtractorIgnoresBody` | src/main.rs:21-27 | a path extractor's output is its function applied to the request head; neither the body nor the decoder changes it |
| `Extractors.BodyExtractorIgnoresParts` | src/main.rs:29-39 | a body extractor's output is the JSON decoding of the body into its output type; the request head and its own stored function make no difference |
| `Extractors.Extract` | src/main.rs:21-39 | with a well-typed function pointer and a decoder that returns its target type, what an extractor produces has the extractor's `Output` type; what it reads is stated by the two lemmas above |
| `Extractable.EmptyEndpoint` | src/main.rs:41-43 | the empty endpoint is a chain of length 0 with no extractors and the empty output type |
| `Extractable.EmptyEndpointExtractsNothing` | src/main.rs:71-79 | extracting from `HNil` gives `HNil` for every request head, body and decoder, and calls no extractor |
| `Extractable.WithExtractor` | src/main.rs:51-59 | appending makes the new extractor the head and leaves the previous chain unchanged as the tail; the chain grows by exactly one, its extractors are the new one followed by the old ones, and its output type gains the new extractor's type at the front |
| `Extractable.Extract` | src/main.rs:81-93 | a successful run of a chain yields exactly as many values as the chain has extractors |
| `Extractable.ExtractWithExtractor` | src/main.rs:81-93 | running `with_extractor(c, e)` yields `e`'s output consed onto the run of `c` on the same head and body, and fails when either fails |
| `Extractable.ExtractMatchesSpec` | src/main.rs:81-93 | the recursive run agrees with the sequence definition: it succeeds exactly when every extractor succeeds on the shared request, and then its values are the extractors' outputs position by position |
| `Extractable.ResultAt` | src/main.rs:86-91 | in a successful run, result position i holds the output of chain position i on the same head and body, and the result has the chain's length |
| `Extractable.Invoked` | src/main.rs:88-91 | a run calls at most as many extractors as the chain has; a successful run calls every one of them, and a failed run calls at least one |
| `Extractable.HeadRunsFirst` | src/main.rs:88-91 | extractors are called head first and the run stops at the first panic: all before the last one called succeeded, and a failed run ends with a panicking extractor |
| `Extractable.OutputTypes` | src/main.rs:72-86 | the output type of a chain lists one type per extractor, position i being the `Output` type of extractor i (`HNil`, `HCons<E::Output, R::Output>`) |
| `Extractable.ExtractConformsToOutputTypes` | src/main.rs:72-86 | every value of a successful run has the output type at its position |
| `Extractable.Build` | src/main.rs:138-141 | a chain built by appending n extractors to the empty endpoint has length n |
| `Extractable.BuildReversesOrder` | src/main.rs:51-59 | appending reverses order: the extractor appended last is at position 0, the one appended first at the end |
| `Extractable.AppendOrderReversed` | src/main.rs:138-146 | running a chain built by appending `es` yields at position i the output of `es[n-1-i]` |
| `PathSegments.Split` | src/main.rs:122 | splitting gives one more piece than there are separators, and no piece contains the separator |
| `PathSegments.JoinSplit` | src/main.rs:122 | joining the pieces of a split with the separator gives back the string |
| `PathSegments.SplitJoin` | src/main.rs:122 | splitting a join of one or more separator-free pieces gives back the pieces |
| `PathSegments.Segment` | src/main.rs:122 | `split("/").nth(n)` finds a piece exactly when the path has at least n '/' characters, and the piece contains no '/' |
| `PathSegments.SegmentOfJoin` | src/main.rs:121-130 | in a path of '/'-free segments, `split("/").nth(n)` is segment n when there are more than n, and `None` otherwise |
| `PathSegments.ParseU64` | src/main.rs:131-132 | `parse::<u64>` accepts only a non-empty string of decimal digits, optionally after one leading '+' (and not '+' alone) |
| `PathSegments.ParseDecimal` | src/main.rs:131-132 | `parse::<u64>` of a decimal notation, with or without a leading '+', gives the number when it is below 2^64 and fails otherwise |
| `Demo.FirstPart` | src/main.rs:121-122 | the first path closure succeeds exactly when the path has at least one '/', and then yields a string without '/' |
| `Demo.SecondPart` | src/main.rs:124-133 | the second path closure panics when the path has fewer than two '/', and otherwise yields a `u64` if anything |
| `Demo.ExtractContact` | src/main.rs:135-136 | the body extractor has output type `Contact` and, on any request head and body, yields the decoding of the body as a `Contact` |
| `Demo.Endpoint2` | src/main.rs:138-141 | the example endpoint holds the body extractor, then the second-segment extractor, then the first-segment extractor: reverse append order |
| `Demo.HelloPathSegments` | src/main.rs:114-130 | "/hello/1337" has "hello" as segment 1 and "1337" as segment 2 |
| `Demo.Parse1337` | src/main.rs:131 | "1337" parses to 1337 |
| `Demo.PathPartsOfHello` | src/main.rs:121-133 | on path "/hello/1337" the first path closure gives "hello" and the second gives 1337 |
| `Demo.Endpoint2WellTyped` | src/main.rs:121-136 | the example's extractors produce values of their declared types |
| `Demo.Endpoint2ResultTypes` | src/main.rs:135-145 | every successful run of the example endpoint, under a decoder that returns its target type, yields a `Contact`, then a `u64`, then a `String` |
| `Demo.FirstPartOfJoin` | src/main.rs:121-122 | for any path made of '/'-free segments, the first path closure yields segment 1 as a string, and panics when there is no segment 1 |
| `Demo.SecondPartOfJoin` | src/main.rs:124-133 | for any path made of '/'-free segments whose segment 2 is the decimal notation of n, the second path closure yields n when n < 2^64 and panics otherwise |
| `Demo.SecondPartRejects` | src/main.rs:124-133 | the second path closure panics when there is no segment 2, and when segment 2 holds a character that is neither a digit nor a leading '+' |
| `Demo.Endpoint2OutputType` | src/main.rs:145 | the example endpoint's output type is Contact, then u64, then String |
| `Demo.Endpoint2OnHelloRequest` | src/main.rs:138-146 | on "/hello/1337", with a decoder that reads back John's JSON encoding, the run yields John's contact, then 1337, then "hello" |
| `Demo.Endpoint2OnHelloRequestCallsAll` | src/main.rs:138-146 | on that request all three extractors are called |
| `Demo.Endpoint2OnMalformedBody` | src/main.rs:35-38 | a body the decoder rejects panics in the body extractor, which runs first; no path extractor is called |
| `Demo.Endpoint2OnMissingSegment` | src/main.rs:124-130 | on "/hello" the `nth(2).unwrap()` panics; only the body extractor ran before it, and the first-segment extractor is never called |
| `Demo.Endpoint2OnNonNumericSegment` | src/main.rs:124-133 | on "/hello/world" the `parse::<u64>().unwrap()` panics in the second extractor; the first-segment extractor is never called |

## Left out

- JSON decoding and encoding (`serde_json::from_slice`, `serde_json::to_string`) are foreign code. Decoding is the parameter `json: Decoder`, keyed by the target type. The example's encoding is the parameter `toJson`, and the worked request assumes that the decoder reads back John's encoding.
- `BodyExtractor` keeps its function pointer but never calls it; the model keeps it as `stored` and ignores it too.
- Building the request with axum/hyper, `into_parts` and `hyper::body::to_bytes` are transport plumbing. The model receives `Parts` and `Bytes` directly. The URI is reduced to its path component, and `verb` and `headers` are carried but never read.
- `async`/`await`, `#[async_trait]` and the tokio runtime are left out. Extraction is modelled as ordinary functions, because each extractor is awaited before the next starts.
- The final `print!` of the result is I/O and is not modelled.
- `Ty` and `Value` cover only the example's three output types (`String`, `u64`, `Contact`), so a modelled chain can hold only extractors whose output is one of these. Rust's `PathExtractor<T>` works for any `T`, and `BodyExtractor<T>` for any `T: DeserializeOwned` (src/main.rs:17-19, 30-32); no chain lemma looks inside a value, so the chain properties do not depend on this restriction.
- Rust's compile-time `Output` types are approximated by the `Ty` tags, `OutputTypes` and `ExtractConformsToOutputTypes`. They are not reproduced by trait resolution.
- The blanket impl that makes every `Extractor` an `Extractable` (src/main.rs:62-69) would allow a chain whose innermost tail is a bare extractor rather than `HNil`. The model's chains always end in `Nil`.
- A panic aborts the task. The model writes it as `None` and does not model the panic message or the unwinding.
- `str::split`, `Iterator::nth` and `str::parse::<u64>` come from Rust's standard library, which is not part of this model. They are written out from their documented behaviour: an optional leading '+', then one or more ASCII digits, and overflow is an error.

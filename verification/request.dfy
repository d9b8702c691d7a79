/** Option, used for every operation whose Rust counterpart ends in `unwrap`:
    `None` is the panic that the `unwrap` would raise. */
module Wrappers {
  datatype Option<+T> = None | Some(value: T)
}

/** The request as the extractors see it, the values they produce and the
    JSON decoder they rely on. */
module Request {
  import opened Wrappers

  newtype u8 = x: int | 0 <= x < 0x100
  newtype u64 = x: int | 0 <= x < 0x1_0000_0000_0000_0000

  /** The fully buffered request body (hyper's `Bytes`). */
  type Bytes = seq<u8>

  /** The head of an HTTP request (axum's `http::request::Parts`): `verb` is
      its method, `path` the path component of its URI, `headers` its header
      map; the example extractors read only `path`. */
  datatype Parts = Parts(verb: string, path: string, headers: map<string, string>)

  /** The record that the example endpoint decodes from its JSON body. */
  datatype Contact = Contact(name: string, email: string, age: u8)

  /** The Rust output types an extractor of the example can have. */
  datatype Ty = StringTy | U64Ty | ContactTy

  /** One extracted value; the Rust code keeps each in its own static type,
      here they share one sum type whose tag `TypeOf` recovers. */
  datatype Value = Str(s: string) | U64(n: u64) | ContactValue(contact: Contact)

  function TypeOf(v: Value): Ty {
    match v
    case Str(_) => StringTy
    case U64(_) => U64Ty
    case ContactValue(_) => ContactTy
  }

  /** `serde_json::from_slice::<T>(body).unwrap()` for the target type `T`:
      `None` where the bytes are not JSON of that shape and `unwrap` panics. */
  type Decoder = (Ty, Bytes) -> Option<Value>

  /** A decoder that only ever produces values of the type it was asked for,
      as `from_slice::<T>` returns a `T`. */
  ghost predicate DecoderRespectsTarget(json: Decoder) {
    forall t, b :: json(t, b).Some? ==> TypeOf(json(t, b).value) == t
  }
}

/**
 * The JSON helper of the package. `json_encode` and `json_decode` are not
 * modelled; they are passed in. `Strings::isJson` is defined from them, as
 * the helper does: it decodes the string and checks the result.
 */
module Strings {
  import opened Values

  /**
   * `encode` is `json_encode`; `decode` is `json_decode($s, true)`, null for
   * a string that is not JSON; `parses` says that `$s` is JSON text
   * (`json_decode` reports no error); `emptyObject` says that `$s` decodes,
   * as an object, to an empty `stdClass` (`{}`), which PHP counts as true
   * although its array form `[]` is false.
   */
  datatype JsonCodec = JsonCodec(
    encode: Value -> string,
    decode: string -> Value,
    parses: string -> bool,
    emptyObject: string -> bool)

  /**
   * `Strings::isJson($str)`: a string whose decoded value is truthy and not
   * the string itself. JSON text for a falsy value (`[]`, `0`, `false`,
   * `null`, `""`, `"0"`) is not JSON to it.
   */
  predicate IsJson(codec: JsonCodec, v: Value) {
    && v.Str?
    && (Truthy(codec.decode(v.s)) || codec.emptyObject(v.s))
    && codec.decode(v.s) != v
  }

  /** What the helper's name promises: any JSON text. */
  predicate IsJsonText(codec: JsonCodec, v: Value) {
    v.Str? && codec.parses(v.s)
  }

  /** The check in use: the helper as written, or any JSON text. */
  predicate JsonDetected(codec: JsonCodec, asWritten: bool, v: Value) {
    if asWritten then IsJson(codec, v) else IsJsonText(codec, v)
  }

  /**
   * What `json_encode` and `json_decode` do on the values a JSON field
   * holds: an encoding is JSON text (never `{}`) and decodes back to the
   * value; a string that is not JSON decodes to null; `{}` decodes to `[]`;
   * and no JSON text decodes to itself (a JSON string literal has quotes).
   */
  ghost predicate Lawful(codec: JsonCodec) {
    && (forall v :: codec.decode(codec.encode(v)) == v)
    && (forall v :: codec.parses(codec.encode(v)) && !codec.emptyObject(codec.encode(v)))
    && (forall s :: codec.decode(s) != Str(s))
    && (forall s :: !codec.parses(s) ==> codec.decode(s) == Null)
    && (forall s :: codec.emptyObject(s) ==> codec.parses(s) && codec.decode(s) == Arr([]))
  }

  /** Whatever the helper calls JSON is JSON text: the helper is stricter than its name. */
  lemma IsJsonIsText(codec: JsonCodec, v: Value)
    requires Lawful(codec)
    ensures IsJson(codec, v) ==> IsJsonText(codec, v)
  {
  }

  /** The helper rejects the encoding of every falsy value, and accepts that of every truthy one. */
  lemma EncodingIsJson(codec: JsonCodec, v: Value)
    requires Lawful(codec)
    ensures IsJson(codec, Str(codec.encode(v))) <==> Truthy(v)
    ensures IsJsonText(codec, Str(codec.encode(v)))
  {
    assert codec.decode(codec.encode(v)) == v;
    assert codec.decode(codec.encode(v)) != Str(codec.encode(v));
    assert !codec.emptyObject(codec.encode(v));
  }
}

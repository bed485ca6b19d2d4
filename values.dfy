/**
 * Values exchanged with the collaborators the model leaves abstract: the
 * external normaliser process and the JSON decoding of stored documents.
 */
module Values {

  datatype Option<T> = None | Some(value: T)

  /** How a run of the external normaliser (`python cmd/standardize.py`) ended:
      the process could not be run or exited non-zero; it printed something that
      is not a JSON list of strings; or it printed one. */
  datatype Normalised = ProcessFailed | Unparsable | Tokens(tokens: seq<string>)

  /** A Go value of static type `any`. `json.Unmarshal` into `any` produces only
      the first six forms; `GoStrings` is a `[]string` held in an `any`, which the
      decoder never produces but which the type assertion `.([]string)` asks for. */
  datatype Value =
    | Null
    | Bool(b: bool)
    | Num(x: real)
    | Str(s: string)
    | Arr(elems: seq<Value>)
    | Obj(fields: map<string, Value>)
    | GoStrings(strs: seq<string>)

  /** The string under `key` of a decoded object, as `m[key].(string)` reads it. */
  function StringField(v: Value, key: string): (r: Option<string>)
    ensures r.Some? <==> v.Obj? && key in v.fields && v.fields[key].Str?
    ensures r.Some? ==> v.fields[key] == Str(r.value)
  {
    if v.Obj? && key in v.fields && v.fields[key].Str? then Some(v.fields[key].s) else None
  }
}

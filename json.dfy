/** JavaScript values as they occur in the frame payloads: the JSON subset of
    JavaScript values, the property reads the core performs on them, their
    truthiness and their `String(...)` rendering. The text form (JSON.parse and
    JSON.stringify) is not implemented here: it is a parameter, `JsonCodec`,
    constrained by `Lawful`. */
module Json {
  import opened Wrappers
  import Strings

  /** A JSON value. Objects keep their keys in insertion order, the order in
      which JavaScript enumerates (non-numeric) keys. */
  datatype Json =
    | JNull
    | JBool(b: bool)
    | JNum(n: int)
    | JStr(s: string)
    | JArr(items: seq<Json>)
    | JObj(fields: seq<Field>)

  datatype Field = Field(key: string, value: Json)

  /** The only exception the modelled code raises implicitly: reading a
      property of `null`/`undefined`, or calling a string method on a value
      that has none. */
  datatype JsError = TypeError

  /** Largest integer a JavaScript number holds exactly. */
  const MaxSafeInteger: int := 9007199254740991

  predicate DistinctKeys(fields: seq<Field>)
  {
    forall i, j :: 0 <= i < j < |fields| ==> fields[i].key != fields[j].key
  }

  /** The values JSON.parse can produce and JSON.stringify writes faithfully:
      objects without repeated keys, numbers that are safe integers. */
  predicate WellFormed(v: Json)
    decreases v
  {
    match v
    case JNum(n) => -MaxSafeInteger <= n <= MaxSafeInteger
    case JArr(items) => forall i :: 0 <= i < |items| ==> WellFormed(items[i])
    case JObj(fields) =>
      DistinctKeys(fields) && forall i :: 0 <= i < |fields| ==> WellFormed(fields[i].value)
    case _ => true
  }

  /** JavaScript truthiness (`if (v)`); objects and arrays, even empty ones,
      are truthy. */
  predicate Truthy(v: Json)
  {
    match v
    case JNull => false
    case JBool(b) => b
    case JNum(n) => n != 0
    case JStr(s) => s != ""
    case _ => true
  }

  /** The value of the first field named `key`, or `undefined`. */
  function Lookup(fields: seq<Field>, key: string): (r: Option<Json>)
    ensures r.None? <==> forall i :: 0 <= i < |fields| ==> fields[i].key != key
    ensures r.Some? ==> exists i :: 0 <= i < |fields| && fields[i] == Field(key, r.value)
  {
    if |fields| == 0 then None
    else if fields[0].key == key then Some(fields[0].value)
    else Lookup(fields[1..], key)
  }

  /** Looking up in two field lists one after the other: the first list
      decides when it holds the key. */
  lemma {:induction false} LookupAppend(a: seq<Field>, b: seq<Field>, key: string)
    ensures Lookup(a + b, key) == if Lookup(a, key).Some? then Lookup(a, key) else Lookup(b, key)
  {
    if |a| > 0 {
      assert (a + b)[1..] == a[1..] + b;
      LookupAppend(a[1..], b, key);
    } else {
      assert a + b == b;
    }
  }

  /** `v[key]`: a TypeError on `null`, the field on an object, `undefined` on
      any other value (none of the keys the core reads is a property that
      strings, numbers, booleans or arrays carry). */
  function Get(v: Json, key: string): (r: Result<Option<Json>, JsError>)
    ensures r.Failure? <==> v.JNull?
    ensures v.JObj? ==> r == Success(Lookup(v.fields, key))
    ensures !v.JNull? && !v.JObj? ==> r == Success(None)
  {
    match v
    case JNull => Failure(TypeError)
    case JObj(fields) => Success(Lookup(fields, key))
    case _ => Success(None)
  }

  /** The receiver of a `String.prototype` method call (`trim`, `match`): only
      a string has them; anything else, `undefined` included, throws. */
  function AsString(v: Option<Json>): (r: Result<string, JsError>)
    ensures r.Success? <==> v.Some? && v.value.JStr?
    ensures r.Success? ==> r.value == v.value.s
  {
    match v
    case Some(JStr(s)) => Success(s)
    case _ => Failure(TypeError)
  }

  /** `String(v)`, the conversion a template literal applies; `None` is
      `undefined`. */
  function ToJsString(v: Option<Json>): string
  {
    match v
    case None => "undefined"
    case Some(j) => JsonToString(j)
  }

  function JsonToString(j: Json): string
    decreases j
  {
    match j
    case JNull => "null"
    case JBool(b) => if b then "true" else "false"
    case JNum(n) => Strings.IntToString(n)
    case JStr(s) => s
    case JArr(items) =>
      // Array.prototype.join: null elements become empty text
      if |items| == 0 then ""
      else Strings.Join(seq(|items|, i requires 0 <= i < |items| =>
                               if items[i].JNull? then "" else JsonToString(items[i])), ',')
    case JObj(_) => "[object Object]"
  }

  /** JSON.parse and JSON.stringify, supplied from outside. */
  datatype JsonCodec = JsonCodec(stringify: Json -> string, parse: string -> Option<Json>)

  /** What the model assumes of the supplied codec: parsing what was
      stringified gives the value back, and the text is one non-empty line. */
  ghost predicate Lawful(c: JsonCodec)
  {
    && (forall v :: WellFormed(v) ==> c.parse(c.stringify(v)) == Some(v))
    && (forall v :: c.stringify(v) != [] && '\n' !in c.stringify(v))
  }
}

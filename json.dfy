/** Parsed JSON values, the JavaScript views of them the core uses (truthiness, `typeof`,
    property access), and the foreign JSON.parse / JSON.stringify pair. */
module Json {
  import opened Common

  /** A value JSON.parse can produce (numbers as reals: the core never looks at them). */
  datatype Json =
    | Null
    | Bool(b: bool)
    | Number(n: real)
    | Str(s: string)
    | Array(items: seq<Json>)
    | Object(fields: map<string, Json>)

  /** `Boolean(v)`: null, false, 0 and "" are falsy; every array and object is truthy. */
  predicate Truthy(j: Json)
  {
    match j
    case Null => false
    case Bool(b) => b
    case Number(n) => n != 0.0
    case Str(s) => s != ""
    case Array(_) => true
    case Object(_) => true
  }

  /** `typeof v === "object"`: true of objects, of arrays and of null. */
  predicate IsObjectType(j: Json)
  {
    j.Null? || j.Array? || j.Object?
  }

  /** `v[key]`, with None for `undefined`; only objects carry the keys the core reads. */
  function Property(j: Json, key: string): Option<Json>
  {
    if j.Object? && key in j.fields then Some(j.fields[key]) else None
  }

  /** `typeof v[key] === "string" ? v[key] : null`. */
  function StringProperty(j: Json, key: string): (r: Option<string>)
    ensures r.Some? <==> Property(j, key).Some? && Property(j, key).value.Str?
    ensures r.Some? ==> Property(j, key) == Some(Str(r.value))
  {
    match Property(j, key)
    case Some(Str(s)) => Some(s)
    case _ => None
  }

  /** The object whose properties are exactly the given string-valued ones. */
  function StringObject(props: map<string, string>): (j: Json)
    ensures forall k :: StringProperty(j, k) == (if k in props then Some(props[k]) else None)
  {
    Object(map k | k in props :: Str(props[k]))
  }

  /** JSON.parse and JSON.stringify are foreign functions, taken here as a pair. `parse`
      answers None where JSON.parse throws a SyntaxError. */
  datatype Codec = Codec(parse: string -> Option<Json>, stringify: Json -> string)

  /** What the model relies on about the pair, for objects with string properties (the only
      values the core stringifies): parsing the text gives the object back, and the text
      starts with the opening brace `{`. */
  ghost predicate Lawful(c: Codec)
  {
    forall props: map<string, string> {:trigger StringObject(props)} ::
      var text := c.stringify(StringObject(props));
      c.parse(text) == Some(StringObject(props)) && text != [] && text[0] == '{'
  }
}

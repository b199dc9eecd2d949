/** The decoded JSON tree the adapter works on, with the accessors of the JSON
    library that it uses (`jsonObject`, `jsonArray`, `jsonPrimitive`, `content`,
    `contentOrNull`, `booleanOrNull`, and `object[key]!!`). */
module JsonTree {
  import opened Results
  import Text

  /** A number keeps the literal text it was written with, as the library does. */
  datatype Json =
    | JNull
    | JBool(b: bool)
    | JNumber(literal: string)
    | JString(s: string)
    | JArray(elems: seq<Json>)
    | JObject(fields: map<string, Json>)
  {
    /** The JSON null token is a primitive too: only arrays and objects are not. */
    predicate IsPrimitive() {
      !JArray? && !JObject?
    }
  }

  /** `element.jsonObject` */
  function AsObject(j: Json): (r: Result<map<string, Json>>)
    ensures r.Ok? <==> j.JObject?
    ensures r.Ok? ==> r.value == j.fields
    ensures r.Err? ==> r.error == NotAnObject
  {
    if j.JObject? then Ok(j.fields) else Err(NotAnObject)
  }

  /** `element.jsonArray` */
  function AsArray(j: Json): (r: Result<seq<Json>>)
    ensures r.Ok? <==> j.JArray?
    ensures r.Ok? ==> r.value == j.elems
    ensures r.Err? ==> r.error == NotAnArray
  {
    if j.JArray? then Ok(j.elems) else Err(NotAnArray)
  }

  /** `element.jsonPrimitive` */
  function AsPrimitive(j: Json): (r: Result<Json>)
    ensures r.Ok? <==> j.IsPrimitive()
    ensures r.Ok? ==> r.value == j
    ensures r.Err? ==> r.error == NotAPrimitive
  {
    if j.IsPrimitive() then Ok(j) else Err(NotAPrimitive)
  }

  /** `object[key]!!` */
  function Get(o: map<string, Json>, key: string): (r: Result<Json>)
    ensures r.Ok? <==> key in o
    ensures r.Ok? ==> r.value == o[key]
    ensures r.Err? ==> r.error == MissingKey(key)
  {
    if key in o then Ok(o[key]) else Err(MissingKey(key))
  }

  /** `primitive.content`: the text of a string, the literal of a number or a
      boolean, and "null" for the null token. */
  function Content(p: Json): (r: string)
    requires p.IsPrimitive()
    ensures p.JNull? ==> r == "null"
    ensures p.JBool? ==> r == (if p.b then "true" else "false")
    ensures p.JNumber? ==> r == p.literal
    ensures p.JString? ==> r == p.s
  {
    match p
    case JNull => "null"
    case JBool(b) => if b then "true" else "false"
    case JNumber(literal) => literal
    case JString(s) => s
  }

  /** `primitive.contentOrNull`: the content, except for the null token. */
  function ContentOrNull(p: Json): (r: Option<string>)
    requires p.IsPrimitive()
    ensures r.None? <==> p.JNull?
    ensures r.Some? ==> r.value == Content(p)
  {
    if p.JNull? then None else Some(Content(p))
  }

  /** `primitive.booleanOrNull`: the content read as a boolean, without regard
      to case; anything else is no boolean. */
  function BooleanOrNull(p: Json): (r: Option<bool>)
    requires p.IsPrimitive()
    ensures r == Some(true) <==> Text.Lower(Content(p)) == "true"
    ensures r == Some(false) <==> Text.Lower(Content(p)) == "false"
  {
    var t := Text.Lower(Content(p));
    if t == "true" then Some(true)
    else if t == "false" then Some(false)
    else None
  }

  /** `element.jsonPrimitive.content` */
  function PrimitiveContent(j: Json): (r: Result<string>)
    ensures r.Ok? <==> j.IsPrimitive()
    ensures r.Ok? ==> r.value == Content(j)
    ensures r.Err? ==> r.error == NotAPrimitive
  {
    var p :- AsPrimitive(j);
    Ok(Content(p))
  }

  /** `element.jsonObject[key]!!.jsonPrimitive.content` */
  function FieldContent(j: Json, key: string): (r: Result<string>)
    ensures r.Ok? <==> HasPrimitive(j, key)
    ensures r.Ok? ==> r.value == Content(j.fields[key])
  {
    var o :- AsObject(j);
    var v :- Get(o, key);
    PrimitiveContent(v)
  }

  /** `j` is an object whose `key` holds a primitive (possibly the null token). */
  predicate HasPrimitive(j: Json, key: string) {
    j.JObject? && key in j.fields && j.fields[key].IsPrimitive()
  }

  /** `j` is an object whose `key` holds an array. */
  predicate HasArray(j: Json, key: string) {
    j.JObject? && key in j.fields && j.fields[key].JArray?
  }

  predicate AllPrimitive(xs: seq<Json>) {
    forall i :: 0 <= i < |xs| ==> xs[i].IsPrimitive()
  }

  /** The contents of a list of primitives, in order. */
  function Contents(xs: seq<Json>): (r: seq<string>)
    requires AllPrimitive(xs)
    ensures |r| == |xs| && forall i :: 0 <= i < |xs| ==> r[i] == Content(xs[i])
  {
    seq(|xs|, i requires 0 <= i < |xs| => Content(xs[i]))
  }
}

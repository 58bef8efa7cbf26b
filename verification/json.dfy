/**
  The JSON tree the handler receives, as Gson represents it once parsed, and
  the two Gson accessors the handler uses on it: `getAsJsonObject` and
  `getAsString`.
 */
module Json {

  datatype Option<+T> = None | Some(value: T)

  /**
    A parsed JSON value. A number keeps the text it was written with, which is
    what Gson's lazily parsed numbers render back as a string.
   */
  datatype Json =
    | Null
    | Bool(b: bool)
    | Num(lexeme: string)
    | Str(s: string)
    | Arr(items: seq<Json>)
    | Obj(fields: map<string, Json>)

  /** A primitive: the only values `getAsString` renders in this model. */
  predicate IsPrimitive(j: Json)
  {
    j.Bool? || j.Num? || j.Str?
  }

  /**
    `getAsString`: a string is itself, a number its written text, a boolean
    "true" or "false"; null, objects and arrays throw, which is `None` here.
   */
  function AsString(j: Json): (r: Option<string>)
    ensures r.Some? <==> IsPrimitive(j)
    ensures j.Str? ==> r == Some(j.s)
    ensures j.Num? ==> r == Some(j.lexeme)
    ensures j.Bool? ==> r == Some(if j.b then "true" else "false")
  {
    match j
    case Str(s) => Some(s)
    case Num(lexeme) => Some(lexeme)
    case Bool(b) => Some(if b then "true" else "false")
    case _ => None
  }

  /**
    The value reached from `j` by following `path` one member name at a time,
    each step requiring an object that has that member; `None` when a step
    meets a missing member or a value that is not an object.
   */
  function Resolve(path: seq<string>, j: Json): Option<Json>
  {
    if |path| == 0 then Some(j)
    else if j.Obj? && path[0] in j.fields then Resolve(path[1..], j.fields[path[0]])
    else None
  }

  /** Resolving a concatenated path resolves the first part, then the second from there. */
  lemma {:induction false} ResolveAppend(p: seq<string>, q: seq<string>, j: Json)
    ensures Resolve(p + q, j) == match Resolve(p, j) case None => None case Some(k) => Resolve(q, k)
  {
    if |p| > 0 {
      assert (p + q)[0] == p[0];
      assert (p + q)[1..] == p[1..] + q;
      if j.Obj? && p[0] in j.fields {
        ResolveAppend(p[1..], q, j.fields[p[0]]);
      }
    } else {
      assert p + q == q;
    }
  }

  /**
    The payload in which `path` leads through single-member objects to `leaf`:
    the shape of a webhook body that carries exactly that one field.
   */
  function Nest(path: seq<string>, leaf: Json): Json
  {
    if |path| == 0 then leaf else Obj(map[path[0] := Nest(path[1..], leaf)])
  }

  /** Following a path through the payload built from it arrives at the leaf. */
  lemma {:induction false} ResolveNest(path: seq<string>, leaf: Json)
    ensures Resolve(path, Nest(path, leaf)) == Some(leaf)
  {
    if |path| > 0 {
      ResolveNest(path[1..], leaf);
    }
  }
}

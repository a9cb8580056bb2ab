/**
 * The three reads the session logic makes through gjson: `Get` with a path of
 * array indices (the paths "1.0", "1.1" and "4"), `Result.String()` and
 * `Result.Array()`. A missing value is None, gjson's zero `Result`.
 */
module GJson {
  import opened Base
  import opened Json

  /**
   * A document as gjson sees it. gjson reads a text without first checking that
   * it is JSON; the model reads a text that is not JSON as a document that
   * holds no value at any index path.
   */
  function Load(text: string): (doc: Json)
    ensures Parse(text).Some? ==> doc == Parse(text).value
    ensures Parse(text).None? ==> doc == Null
  {
    match Parse(text)
    case Some(d) => d
    case None => Null
  }

  /** `gjson.Get(doc, "i.j.k")` for the path [i, j, k]; None when a step is missing. */
  function Get(doc: Json, path: seq<nat>): (r: Option<Json>)
    ensures path == [] ==> r == Some(doc)
    ensures path != [] && !(doc.Arr? && path[0] < |doc.items|) ==> r == None
    decreases path
  {
    if path == [] then Some(doc)
    else
      match doc
      case Arr(items) => if path[0] < |items| then Get(items[path[0]], path[1..]) else None
      case _ => None
  }

  /** Following a path in two parts is following the whole path. */
  lemma {:induction false} GetConcat(doc: Json, p: seq<nat>, q: seq<nat>)
    ensures Get(doc, p + q) == match Get(doc, p) case None => None case Some(d) => Get(d, q)
    decreases p
  {
    if p != [] {
      assert (p + q)[0] == p[0] && (p + q)[1..] == p[1..] + q;
      if doc.Arr? && p[0] < |doc.items| {
        GetConcat(doc.items[p[0]], p[1..], q);
      }
    } else {
      assert p + q == q;
    }
  }

  /**
   * `Result.String()`: a string's contents; "" for a missing value and for
   * null; the literal text of a boolean or a number; the JSON text of an array.
   */
  function StringOf(r: Option<Json>): (s: string)
    ensures r.None? || r == Some(Null) ==> s == ""
    ensures r.Some? && r.value.Str? ==> s == r.value.s
  {
    match r
    case None => ""
    case Some(Null) => ""
    case Some(Bool(b)) => if b then "true" else "false"
    case Some(Num(t)) => t
    case Some(Str(s)) => s
    case Some(Arr(items)) => Serialize(Arr(items))
  }

  /**
   * `Result.Array()`: the elements of an array; no elements for a missing
   * value and for null; any other value as a one-element list.
   */
  function ArrayOf(r: Option<Json>): (a: seq<Json>)
    ensures r.None? || r == Some(Null) ==> a == []
    ensures r.Some? && r.value.Arr? ==> a == r.value.items
    ensures r.Some? && !r.value.Arr? && !r.value.Null? ==> a == [r.value]
  {
    match r
    case None => []
    case Some(Null) => []
    case Some(Arr(items)) => items
    case Some(v) => [v]
  }
}

/** The JSON values that the language model's structured replies decode to,
    with Python's truthiness and iteration rules for them. */
module JsonValue {
  import opened Text

  /** A decoded JSON value. Numbers are integers; an object is its entries
      in the order the reply lists them, as a Python `dict` keeps them. */
  datatype Json =
    | JNull
    | JBool(b: bool)
    | JInt(i: int)
    | JStr(s: string)
    | JList(items: seq<Json>)
    | JObj(entries: seq<(string, Json)>)

  /** A decoded reply object (`json.loads` of the reply text). */
  type Reply = map<string, Json>

  /** Python's `bool(v)`. */
  predicate Truthy(v: Json)
  {
    match v
    case JNull => false
    case JBool(b) => b
    case JInt(i) => i != 0
    case JStr(s) => s != []
    case JList(items) => items != []
    case JObj(entries) => entries != []
  }

  /** `d.get(key, default)` */
  function Get(d: Reply, key: string, default: Json): (r: Json)
    ensures key in d ==> r == d[key]
    ensures key !in d ==> r == default
  {
    if key in d then d[key] else default
  }

  /** What `for x in v` visits: list items, the one-character strings of a
      string, the keys of an object; `None` when Python raises TypeError. */
  function Iterate(v: Json): (r: Option<seq<Json>>)
    ensures v.JList? ==> r == Some(v.items)
    ensures v.JStr? ==>
      && r.Some? && |r.value| == |v.s|
      && forall i :: 0 <= i < |v.s| ==> r.value[i] == JStr([v.s[i]])
    ensures v.JObj? ==>
      && r.Some? && |r.value| == |v.entries|
      && forall i :: 0 <= i < |v.entries| ==> r.value[i] == JStr(v.entries[i].0)
    ensures (v.JNull? || v.JBool? || v.JInt?) ==> r.None?
  {
    match v
    case JList(items) => Some(items)
    case JStr(s) => Some(seq(|s|, i requires 0 <= i < |s| => JStr([s[i]])))
    case JObj(entries) => Some(seq(|entries|, i requires 0 <= i < |entries| => JStr(entries[i].0)))
    case _ => None
  }

  /** A string, list or object is true exactly when a `for` loop over it
      visits something; null, false and zero are false. */
  lemma TruthyIsNonEmpty(v: Json)
    ensures Iterate(v).Some? ==> (Truthy(v) <==> Iterate(v).value != [])
    ensures Iterate(v).None? ==> (Truthy(v) <==> v == JBool(true) || (v.JInt? && v.i != 0))
  {
  }
}

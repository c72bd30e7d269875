/**
  JSON as Go's encoding/json.Marshal produces it for script values: an int
  is a number, a string a string, a parameter bag an object keyed by the
  bag's keys, a nil bag `null`. Other kinds are rendered (or refused) by the
  encoder as the value itself says. The text form with its escaping is not
  modelled; a document is its tree.
 */
module Json {

  import opened Wrappers
  import opened Bytes
  import opened Values

  datatype Json =
    | JNull
    | JNumber(n: int)
    | JString(s: Bytes)
    | JObject(fields: map<Bytes, Json>)
    | JRaw(text: Bytes)

  /** json.Marshal of one value: None when the encoder returns an error. */
  function Marshal(v: Value): Option<Json> {
    match v
    case Int(n) => Some(JNumber(n))
    case Str(s) => Some(JString(s))
    case Other(_, json) => if json.Some? then Some(JRaw(json.value)) else None
    case Dict(m) =>
      if forall k | k in m :: Marshal(m[k]).Some? then
        Some(JObject(map k | k in m :: Marshal(m[k]).value))
      else None
  }

  /** A value built only from ints, strings and bags. */
  predicate Plain(v: Value) {
    match v
    case Int(_) => true
    case Str(_) => true
    case Dict(m) => forall k | k in m :: Plain(m[k])
    case Other(_, _) => false
  }

  /** Somewhere inside v is a kind the encoder refuses. */
  predicate Refused(v: Value) {
    match v
    case Int(_) => false
    case Str(_) => false
    case Dict(m) => exists k | k in m :: Refused(m[k])
    case Other(_, json) => json.None?
  }

  /** The model's reader of a document tree: numbers, strings and objects, with integers read back exactly. */
  function FromJson(j: Json): Option<Value> {
    match j
    case JNumber(n) => Some(Int(n))
    case JString(s) => Some(Str(s))
    case JObject(f) =>
      if forall k | k in f :: FromJson(f[k]).Some? then
        Some(Dict(map k | k in f :: FromJson(f[k]).value))
      else None
    case _ => None
  }

  /** Marshalling fails exactly when some nested value is of a refused kind. */
  lemma {:induction false} MarshalFailsIffRefused(v: Value)
    ensures Marshal(v).None? <==> Refused(v)
  {
    match v
    case Dict(m) =>
      forall k | k in m
        ensures Marshal(m[k]).None? <==> Refused(m[k])
      {
        MarshalFailsIffRefused(m[k]);
      }
    case _ =>
  }

  /** A plain value survives marshalling and reading back unchanged. */
  lemma {:induction false} MarshalRoundTrip(v: Value)
    requires Plain(v)
    ensures Marshal(v).Some? && FromJson(Marshal(v).value) == Some(v)
  {
    match v
    case Dict(m) =>
      forall k | k in m
        ensures Marshal(m[k]).Some? && FromJson(Marshal(m[k]).value) == Some(m[k])
      {
        MarshalRoundTrip(m[k]);
      }
      var f := map k | k in m :: Marshal(m[k]).value;
      assert Marshal(v) == Some(JObject(f));
      assert forall k | k in f :: FromJson(f[k]) == Some(m[k]);
      var g := map k | k in f :: FromJson(f[k]).value;
      assert g == m;
      assert FromJson(JObject(f)) == Some(Dict(g));
    case _ =>
  }

  /** A bag marshals to one object with exactly the bag's keys; ints become numbers and strings strings. */
  lemma {:induction false} MarshalBagShape(m: map<Bytes, Value>)
    requires Marshal(Dict(m)).Some?
    ensures Marshal(Dict(m)).value.JObject?
    ensures Marshal(Dict(m)).value.fields.Keys == m.Keys
    ensures forall k | k in m && m[k].Int? :: Marshal(Dict(m)).value.fields[k] == JNumber(m[k].n)
    ensures forall k | k in m && m[k].Str? :: Marshal(Dict(m)).value.fields[k] == JString(m[k].s)
  {
  }
}

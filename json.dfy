/**
 * The values a JSON decoder produces, as Python's json.loads builds them:
 * str, int, float, bool, None, list and dict. Only what the translator can
 * observe about them is modelled: equality, the Python type name, whether
 * the value can be hashed (used as a dict key), and what iterating over it
 * yields.
 */
module JsonValue {

  datatype Json =
    | JString(s: string)
    | JInt(i: int)
    | JFloat(literal: string)
    | JBool(b: bool)
    | JNull
    | JArray(items: seq<Json>)
    | JObject(members: seq<(string, Json)>)   // in the decoder's key order

  /** The name Python gives the type of the decoded value. */
  function TypeName(v: Json): (r: string)
    ensures r in {"str", "int", "float", "bool", "NoneType", "list", "dict"}
  {
    match v
    case JString(_) => "str"
    case JInt(_) => "int"
    case JFloat(_) => "float"
    case JBool(_) => "bool"
    case JNull => "NoneType"
    case JArray(_) => "list"
    case JObject(_) => "dict"
  }

  /** Lists and dicts cannot be looked up as dict keys; every other value can. */
  predicate Hashable(v: Json)
    ensures Hashable(v) <==> TypeName(v) != "list" && TypeName(v) != "dict"
  {
    !v.JArray? && !v.JObject?
  }

  /** Two decoded values have the same type name exactly when they are of the same kind. */
  lemma TypeNamesTellKindsApart(a: Json, b: Json)
    ensures TypeName(a) == TypeName(b) <==>
            || (a.JString? && b.JString?) || (a.JInt? && b.JInt?) || (a.JFloat? && b.JFloat?)
            || (a.JBool? && b.JBool?) || (a.JNull? && b.JNull?) || (a.JArray? && b.JArray?)
            || (a.JObject? && b.JObject?)
  {
  }

  /** A list of names, as the JSON strings that stand for them. */
  function Strings(names: seq<string>): (r: seq<Json>)
    ensures |r| == |names|
    ensures forall i :: 0 <= i < |names| ==> r[i] == JString(names[i])
  {
    seq(|names|, i requires 0 <= i < |names| => JString(names[i]))
  }

  /** A map between names, as a map between the JSON strings that stand for them. */
  function StringMap(m: map<string, string>): (r: map<Json, Json>)
    ensures forall v :: v in r <==> v.JString? && v.s in m
    ensures forall k :: k in m ==> r[JString(k)] == JString(m[k])
  {
    map k | k in m :: JString(k) := JString(m[k])
  }

  /** Membership in a lifted list is membership of the name; nothing else is a member. */
  lemma {:induction false} StringsMembership(names: seq<string>, v: Json)
    ensures v in Strings(names) <==> v.JString? && v.s in names
  {
    if v in Strings(names) {
      var i :| 0 <= i < |names| && Strings(names)[i] == v;
      assert names[i] == v.s;
    }
    if v.JString? && v.s in names {
      var i :| 0 <= i < |names| && names[i] == v.s;
      assert Strings(names)[i] == v;
    }
  }
}

/**
 * JSON values and the part of JSON Schema draft-07 Validation that the request
 * schemas use: `type` (section 6.1.1), `items` with a single schema (section
 * 6.4.1), `required` (section 6.5.3), `properties` (section 6.5.4),
 * `additionalProperties: false` (section 6.5.6) and `anyOf` (section 6.7.2).
 * Numbers are integers here; no request schema distinguishes them further.
 */
module Json {
  import opened Common

  datatype Json =
    | JNull
    | JBool(b: bool)
    | JNumber(n: int)
    | JString(s: string)
    | JArray(elems: seq<Json>)
    | JObject(fields: map<string, Json>)

  /** The primitive types of section 6.1.1. */
  datatype JsonType = TNull | TBoolean | TNumber | TInteger | TString | TArray | TObject

  predicate HasType(v: Json, t: JsonType) {
    match t
    case TNull => v.JNull?
    case TBoolean => v.JBool?
    case TNumber => v.JNumber?
    case TInteger => v.JNumber?
    case TString => v.JString?
    case TArray => v.JArray?
    case TObject => v.JObject?
  }

  /**
   * A schema object restricted to the supported keywords. An absent keyword is
   * `None`, an empty list or `true` (for `additionalProperties`), which is what
   * the specification says an absent keyword means.
   */
  datatype Schema = Schema(
    typ: Option<JsonType>,
    properties: seq<(string, Schema)>,
    required: seq<string>,
    additionalProperties: bool,
    items: Option<Schema>,
    anyOf: seq<Schema>)

  /** A schema with no keywords: it accepts every instance. */
  const Empty: Schema := Schema(None, [], [], true, None, [])

  /** `{ type: 'string' }` */
  const StringSchema: Schema := Schema(Some(TString), [], [], true, None, [])

  /** A schema with only `required`, as the `anyOf` branches of the request schemas are written. */
  function RequiredOnly(names: seq<string>): Schema {
    Schema(None, [], names, true, None, [])
  }

  /** Every member of an object is a string. */
  predicate AllStrings(fields: map<string, Json>) {
    forall k :: k in fields ==> fields[k].JString?
  }

  function PropertyNames(props: seq<(string, Schema)>): set<string> {
    set i | 0 <= i < |props| :: props[i].0
  }

  /** Whether an instance satisfies a schema. */
  predicate Valid(v: Json, s: Schema)
    decreases s
  {
    && (s.typ.Some? ==> HasType(v, s.typ.value))
    // required: every listed name is a member of an object instance
    && (v.JObject? ==> forall i :: 0 <= i < |s.required| ==> s.required[i] in v.fields)
    // properties: a member named in `properties` satisfies its subschema
    && (v.JObject? ==> forall i :: 0 <= i < |s.properties| ==>
          (s.properties[i].0 in v.fields ==> Valid(v.fields[s.properties[i].0], s.properties[i].1)))
    // additionalProperties: false admits only the names listed in `properties`
    && (v.JObject? && !s.additionalProperties ==> forall k :: k in v.fields ==> k in PropertyNames(s.properties))
    // items: every element of an array instance satisfies the item schema
    && (v.JArray? && s.items.Some? ==> forall i :: 0 <= i < |v.elems| ==> Valid(v.elems[i], s.items.value))
    // anyOf: at least one subschema accepts the instance
    && (|s.anyOf| > 0 ==> exists k :: 0 <= k < |s.anyOf| && Valid(v, s.anyOf[k]))
  }

  /**
   * An instance valid against an object schema with `additionalProperties:
   * false` and only string-typed properties is an object that holds every
   * required name, only listed names, and only strings.
   */
  lemma ClosedObject(v: Json, s: Schema)
    requires Valid(v, s) && s.typ == Some(TObject) && !s.additionalProperties
    requires forall i :: 0 <= i < |s.properties| ==> s.properties[i].1 == StringSchema
    ensures v.JObject?
    ensures forall i :: 0 <= i < |s.required| ==> s.required[i] in v.fields
    ensures v.fields.Keys <= PropertyNames(s.properties)
    ensures AllStrings(v.fields)
  {
    forall n | n in v.fields
      ensures v.fields[n].JString?
    {
      var i :| 0 <= i < |s.properties| && s.properties[i].0 == n;
      assert Valid(v.fields[n], s.properties[i].1);
    }
  }

  /** An object valid against a schema with `anyOf` holds every name that some branch requires. */
  lemma AnyOfBranch(v: Json, s: Schema) returns (k: nat)
    requires v.JObject? && Valid(v, s) && |s.anyOf| > 0
    ensures k < |s.anyOf|
    ensures forall j :: 0 <= j < |s.anyOf[k].required| ==> s.anyOf[k].required[j] in v.fields
  {
    k :| 0 <= k < |s.anyOf| && Valid(v, s.anyOf[k]);
  }

  /** The schema with no keywords accepts everything. */
  lemma EmptyAcceptsAll(v: Json)
    ensures Valid(v, Empty)
  {
  }

  /** A keyword only ever adds a condition: `type` rejects every instance of another type. */
  lemma TypeRejects(v: Json, s: Schema)
    requires s.typ.Some? && !HasType(v, s.typ.value)
    ensures !Valid(v, s)
  {
  }
}

/**
 * The user entity: the stored user record, the update-body schema, and
 * `userTypeData`, the public projection of a user that access tokens carry.
 */
module UsersEntity {
  import opened Common
  import opened Json

  /**
   * A user row as the repository returns it. `createdAt` and `deletedAt` are
   * dates, kept in their serialised ISO form; `summarizes` is present only when
   * a lookup asked the ORM to include the user's summaries (their ids).
   */
  datatype User = User(
    id: string,
    username: string,
    firstName: string,
    lastName: string,
    email: string,
    password: string,
    createdAt: string,
    deletedAt: Option<string>,
    summarizes: Option<seq<int>>)

  const UpdateUserSchema: Schema := Schema(
    Some(TObject),
    [("username", StringSchema), ("firstName", StringSchema), ("lastName", StringSchema)],
    [],
    false, None,
    [RequiredOnly(["username"]), RequiredOnly(["firstName"]), RequiredOnly(["lastName"])])

  const UpdateKeys: set<string> := {"username", "firstName", "lastName"}

  predicate UpdateShape(v: Json) {
    v.JObject? && v.fields.Keys <= UpdateKeys && v.fields.Keys != {} && AllStrings(v.fields)
  }

  lemma UpdatePropertyNames()
    ensures PropertyNames(UpdateUserSchema.properties) == UpdateKeys
    ensures forall i :: 0 <= i < |UpdateUserSchema.properties| ==> UpdateUserSchema.properties[i].1 == StringSchema
  {
    var p := UpdateUserSchema.properties;
    assert p[0].0 == "username" && p[1].0 == "firstName" && p[2].0 == "lastName";
  }

  lemma UpdateAcceptsShape(v: Json)
    requires UpdateShape(v)
    ensures Valid(v, UpdateUserSchema)
  {
    var s := UpdateUserSchema;
    UpdatePropertyNames();
    var k :| k in v.fields;
    if k == "username" {
      assert Valid(v, s.anyOf[0]);
    } else if k == "firstName" {
      assert Valid(v, s.anyOf[1]);
    } else {
      assert Valid(v, s.anyOf[2]);
    }
  }

  lemma UpdateValidShape(v: Json)
    requires Valid(v, UpdateUserSchema)
    ensures UpdateShape(v)
  {
    var s := UpdateUserSchema;
    UpdatePropertyNames();
    ClosedObject(v, s);
    var k := AnyOfBranch(v, s);
    assert s.anyOf[k].required[0] in v.fields;
  }

  /**
   * An update body is accepted exactly when it is a non-empty object whose
   * names are among username, firstName and lastName and whose values are
   * strings; in particular `{}`, an email or a password is refused.
   */
  lemma UpdateUserSchemaAccepts(v: Json)
    ensures Valid(v, UpdateUserSchema) <==> UpdateShape(v)
  {
    if Valid(v, UpdateUserSchema) {
      UpdateValidShape(v);
    }
    if UpdateShape(v) {
      UpdateAcceptsShape(v);
    }
  }

  const PublicKeys: set<string> := {"id", "username", "firstName", "lastName", "createdAt"}

  /**
   * `userTypeData`: the object with the five public fields, plus `nbSummarizes`
   * (the number of included summaries) when summaries were included.
   */
  function UserTypeData(u: User): (r: map<string, Json>)
    ensures r.Keys == PublicKeys + (if u.summarizes.Some? then {"nbSummarizes"} else {})
    ensures "email" !in r && "password" !in r && "deletedAt" !in r
    ensures r["id"] == JString(u.id) && r["username"] == JString(u.username)
    ensures r["firstName"] == JString(u.firstName) && r["lastName"] == JString(u.lastName)
    ensures r["createdAt"] == JString(u.createdAt)
    ensures "nbSummarizes" in r ==> r["nbSummarizes"] == JNumber(|u.summarizes.value|)
  {
    var base := map[
      "id" := JString(u.id),
      "username" := JString(u.username),
      "firstName" := JString(u.firstName),
      "lastName" := JString(u.lastName),
      "createdAt" := JString(u.createdAt)];
    match u.summarizes
    case None => base
    case Some(list) => base["nbSummarizes" := JNumber(|list|)]
  }
}

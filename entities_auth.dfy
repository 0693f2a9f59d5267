/** The request-body schemas of the authentication routes, as schema constants. */
module AuthEntity {
  import opened Common
  import opened Json

  const RegisterSchema: Schema := Schema(
    Some(TObject),
    [("username", StringSchema), ("firstName", StringSchema), ("lastName", StringSchema),
     ("email", StringSchema), ("password", StringSchema)],
    ["username", "firstName", "lastName", "email", "password"],
    false, None, [])

  const LoginSchema: Schema := Schema(
    Some(TObject),
    [("username", StringSchema), ("email", StringSchema), ("password", StringSchema)],
    [],
    false, None,
    [RequiredOnly(["username", "password"]), RequiredOnly(["email", "password"])])

  const RegisterKeys: set<string> := {"username", "firstName", "lastName", "email", "password"}
  const LoginKeys: set<string> := {"username", "email", "password"}

  lemma RegisterPropertyNames()
    ensures PropertyNames(RegisterSchema.properties) == RegisterKeys
    ensures forall i :: 0 <= i < |RegisterSchema.properties| ==> RegisterSchema.properties[i].1 == StringSchema
  {
    var p := RegisterSchema.properties;
    assert p[0].0 == "username" && p[1].0 == "firstName" && p[2].0 == "lastName";
    assert p[3].0 == "email" && p[4].0 == "password";
  }

  lemma RegisterAcceptsShape(v: Json)
    requires v.JObject? && v.fields.Keys == RegisterKeys && AllStrings(v.fields)
    ensures Valid(v, RegisterSchema)
  {
    RegisterPropertyNames();
    var r := RegisterSchema.required;
    assert forall i :: 0 <= i < |r| ==> r[i] in RegisterKeys;
  }

  lemma RegisterValidShape(v: Json)
    requires Valid(v, RegisterSchema)
    ensures v.JObject? && v.fields.Keys == RegisterKeys && AllStrings(v.fields)
  {
    var s := RegisterSchema;
    RegisterPropertyNames();
    ClosedObject(v, s);
    assert RegisterKeys <= v.fields.Keys by {
      assert s.required[0] in v.fields && s.required[1] in v.fields && s.required[2] in v.fields;
      assert s.required[3] in v.fields && s.required[4] in v.fields;
    }
  }

  /** A register body is accepted exactly when it holds the five names, all strings, and nothing else. */
  lemma RegisterSchemaAccepts(v: Json)
    ensures Valid(v, RegisterSchema) <==> v.JObject? && v.fields.Keys == RegisterKeys && AllStrings(v.fields)
  {
    if Valid(v, RegisterSchema) {
      RegisterValidShape(v);
    }
    if v.JObject? && v.fields.Keys == RegisterKeys && AllStrings(v.fields) {
      RegisterAcceptsShape(v);
    }
  }

  predicate LoginShape(v: Json) {
    && v.JObject?
    && v.fields.Keys <= LoginKeys
    && "password" in v.fields
    && ("username" in v.fields || "email" in v.fields)
    && AllStrings(v.fields)
  }

  lemma LoginPropertyNames()
    ensures PropertyNames(LoginSchema.properties) == LoginKeys
    ensures forall i :: 0 <= i < |LoginSchema.properties| ==> LoginSchema.properties[i].1 == StringSchema
  {
    var p := LoginSchema.properties;
    assert p[0].0 == "username" && p[1].0 == "email" && p[2].0 == "password";
  }

  lemma LoginAcceptsShape(v: Json)
    requires LoginShape(v)
    ensures Valid(v, LoginSchema)
  {
    var s := LoginSchema;
    LoginPropertyNames();
    if "username" in v.fields {
      assert Valid(v, s.anyOf[0]);
    } else {
      assert Valid(v, s.anyOf[1]);
    }
  }

  lemma LoginValidShape(v: Json)
    requires Valid(v, LoginSchema)
    ensures LoginShape(v)
  {
    var s := LoginSchema;
    LoginPropertyNames();
    ClosedObject(v, s);
    var k := AnyOfBranch(v, s);
    var g := s.anyOf[k].required;
    assert |g| == 2 && g[1] == "password" && (g[0] == "username" || g[0] == "email");
  }

  /** A login body needs a password, one of username and email, only those names, and only strings. */
  lemma LoginSchemaAccepts(v: Json)
    ensures Valid(v, LoginSchema) <==> LoginShape(v)
  {
    if Valid(v, LoginSchema) {
      LoginValidShape(v);
    }
    if LoginShape(v) {
      LoginAcceptsShape(v);
    }
  }

  /** The two documented login forms and their union are accepted. */
  lemma LoginFormsAccepted(u: string, e: string, p: string)
    ensures Valid(JObject(map["email" := JString(e), "password" := JString(p)]), LoginSchema)
    ensures Valid(JObject(map["username" := JString(u), "password" := JString(p)]), LoginSchema)
    ensures Valid(JObject(map["username" := JString(u), "email" := JString(e), "password" := JString(p)]), LoginSchema)
  {
    LoginAcceptsShape(JObject(map["email" := JString(e), "password" := JString(p)]));
    LoginAcceptsShape(JObject(map["username" := JString(u), "password" := JString(p)]));
    LoginAcceptsShape(JObject(map["username" := JString(u), "email" := JString(e), "password" := JString(p)]));
  }

  /** A login body without a password is refused, whatever else it holds. */
  lemma LoginWithoutPasswordRefused(v: Json)
    ensures !v.JObject? || "password" !in v.fields ==> !Valid(v, LoginSchema)
  {
    if Valid(v, LoginSchema) {
      LoginValidShape(v);
    }
  }
}

/** The request-body schemas of the summary routes, as schema constants. */
module SummarizeEntity {
  import opened Common
  import opened Json

  /** `{ type: 'array', items: { type: 'string' } }` */
  const StringArraySchema: Schema := Schema(Some(TArray), [], [], true, Some(StringSchema), [])

  const CreateSummarizeSchema: Schema := Schema(
    Some(TObject),
    [("content", StringArraySchema), ("pdf_file", StringSchema)],
    ["content", "pdf_file"],
    false, None, [])

  const PollSummarizeSchema: Schema := Schema(
    Some(TObject), [("requestId", StringSchema)], ["requestId"], false, None, [])

  const UpdateSummarizeSchema: Schema := Schema(
    Some(TObject), [("content", StringArraySchema)], ["content"], false, None, [])

  /** An array whose every element is a string. */
  predicate IsStringArray(v: Json) {
    v.JArray? && forall i :: 0 <= i < |v.elems| ==> v.elems[i].JString?
  }

  lemma StringArrayAccepts(v: Json)
    ensures Valid(v, StringArraySchema) <==> IsStringArray(v)
  {
    if IsStringArray(v) {
      assert forall i :: 0 <= i < |v.elems| ==> Valid(v.elems[i], StringSchema);
    }
  }

  /** A poll body is accepted exactly when it is `{requestId: <string>}`. */
  lemma PollSummarizeSchemaAccepts(v: Json)
    ensures Valid(v, PollSummarizeSchema) <==>
      v.JObject? && v.fields.Keys == {"requestId"} && v.fields["requestId"].JString?
  {
    var s := PollSummarizeSchema;
    assert PropertyNames(s.properties) == {"requestId"} by { assert s.properties[0].0 == "requestId"; }
    if Valid(v, s) {
      assert s.required[0] in v.fields;
    }
  }

  /** An update body is accepted exactly when it is `{content: <array of strings>}`. */
  lemma UpdateSummarizeSchemaAccepts(v: Json)
    ensures Valid(v, UpdateSummarizeSchema) <==>
      v.JObject? && v.fields.Keys == {"content"} && IsStringArray(v.fields["content"])
  {
    var s := UpdateSummarizeSchema;
    assert PropertyNames(s.properties) == {"content"} by { assert s.properties[0].0 == "content"; }
    if v.JObject? && "content" in v.fields {
      StringArrayAccepts(v.fields["content"]);
    }
    if Valid(v, s) {
      assert s.required[0] in v.fields;
    }
  }

  /** A create body is accepted exactly when it holds an array of strings `content`, a string `pdf_file`, and nothing else. */
  lemma CreateSummarizeSchemaAccepts(v: Json)
    ensures Valid(v, CreateSummarizeSchema) <==>
      && v.JObject? && v.fields.Keys == {"content", "pdf_file"}
      && IsStringArray(v.fields["content"]) && v.fields["pdf_file"].JString?
  {
    var s := CreateSummarizeSchema;
    assert PropertyNames(s.properties) == {"content", "pdf_file"} by {
      assert s.properties[0].0 == "content" && s.properties[1].0 == "pdf_file";
    }
    if v.JObject? && "content" in v.fields {
      StringArrayAccepts(v.fields["content"]);
    }
    if Valid(v, s) {
      assert s.required[0] in v.fields && s.required[1] in v.fields;
      assert Valid(v.fields["content"], s.properties[0].1);
      assert Valid(v.fields["pdf_file"], s.properties[1].1);
    }
  }

  /** Example: an array holding a number is refused as update content. */
  lemma UpdateSummarizeRejectsNonString(x: int)
    ensures !Valid(JObject(map["content" := JArray([JString("a"), JNumber(x)])]), UpdateSummarizeSchema)
  {
    var v := JObject(map["content" := JArray([JString("a"), JNumber(x)])]);
    UpdateSummarizeSchemaAccepts(v);
    assert !v.fields["content"].elems[1].JString?;
  }
}

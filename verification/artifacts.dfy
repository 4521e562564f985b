/** How a component output is typed in the job document
    (`_map_output_spec_to_artifact_spec_dict`): an artifact kind guessed
    from the output's type name, plus custom properties. */
module Artifacts {
  import opened Results
  import opened Text

  /** The JSON values the artifact description is made of. */
  datatype Json = JString(s: string) | JBool(b: bool) | JObject(fields: map<string, Json>)

  /** A declared output of a component: its name and its type name, where
      `None` and `Some("")` are both an untyped output. */
  datatype OutputDecl = OutputDecl(name: string, outputType: Option<string>)

  predicate IsTyped(t: Option<string>) {
    t.Some? && t.value != ""
  }

  /** The kinds the artifact schema knows. */
  const KnownKinds: set<string> := {"file", "dataset", "statistics", "schema", "model", "metrics"}

  /** The kind as the source computes it: start from `file`, then each later
      suffix test overrides the earlier ones. The metrics kind is written
      with a trailing space. */
  function ArtifactKind(t: Option<string>): (kind: string)
    ensures !IsTyped(t) ==> kind == "file"
    ensures IsTyped(t) ==>
      var lt := Lower(t.value);
      // read as a first match, most specific suffix first
      if EndsWith(lt, "metrics") then kind == "metrics "
      else if EndsWith(lt, "model") then kind == "model"
      else if EndsWith(lt, "schema") then kind == "schema"
      else if EndsWith(lt, "statistics") then kind == "statistics"
      else if EndsWith(lt, "examples") || lt == "csv" || lt == "tsv" then kind == "dataset"
      else kind == "file"
  {
    if !IsTyped(t) then "file"
    else
      var lt := Lower(t.value);
      var k0 := "file";
      var k1 := if EndsWith(lt, "examples") || lt in ["csv", "tsv"] then "dataset" else k0;
      var k2 := if EndsWith(lt, "statistics") then "statistics" else k1;
      var k3 := if EndsWith(lt, "schema") then "schema" else k2;
      var k4 := if EndsWith(lt, "model") then "model" else k3;
      if EndsWith(lt, "metrics") then "metrics " else k4
  }

  /** The kind with the metrics spelling corrected. */
  function ArtifactKindIntended(t: Option<string>): (kind: string)
    ensures kind in KnownKinds
    ensures ArtifactKind(t) != "metrics " ==> kind == ArtifactKind(t)
  {
    var k := ArtifactKind(t);
    if k == "metrics " then "metrics" else k
  }

  /** As written, a metrics output gets a kind the schema does not know. */
  lemma MetricsKindUnknown()
    ensures ArtifactKind(Some("Metrics")) == "metrics "
    ensures ArtifactKind(Some("Metrics")) !in KnownKinds
  {
    var lt := Lower("Metrics");
    assert lt == "metrics";
    assert EndsWith(lt, "metrics");
  }

  /** Every kind the source can produce is a known kind, except metrics. */
  lemma ArtifactKindRange(t: Option<string>)
    ensures ArtifactKind(t) in KnownKinds - {"metrics"} + {"metrics "}
  {
  }

  const CustomProperties: string := "custom_properties"

  /** `{'string_value': s}` */
  function StringValue(s: string): Json {
    JObject(map["string_value" := JString(s)])
  }

  /** The artifact description of one output: exactly two keys, the kind
      (mapped to an empty object) and the custom properties, which always
      name the output and carry the original type name iff it has one. */
  function ArtifactSpec(output: OutputDecl): (r: map<string, Json>)
    ensures r.Keys == {ArtifactKind(output.outputType), CustomProperties}
    ensures |r| == 2
    ensures r[ArtifactKind(output.outputType)] == JObject(map[])
    ensures r[CustomProperties].JObject?
    ensures var props := r[CustomProperties].fields;
      && "custom:name" in props && props["custom:name"] == StringValue(output.name)
      && ("type_name" in props <==> IsTyped(output.outputType))
      && (IsTyped(output.outputType) ==> props["type_name"] == StringValue(output.outputType.value))
      && props.Keys <= {"custom:name", "type_name"}
  {
    var kind := ArtifactKind(output.outputType);
    var named := map["custom:name" := StringValue(output.name)];
    var props := if IsTyped(output.outputType) then named["type_name" := StringValue(output.outputType.value)] else named;
    assert kind != CustomProperties;
    map[kind := JObject(map[]), CustomProperties := JObject(props)]
  }
}

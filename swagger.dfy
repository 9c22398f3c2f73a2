/** The OpenAPI document served by the application: once generated, the security schemes of the
    current mode are registered under `components`, every operation except `OPTIONS` is given the
    mode's security requirements after the ones it already has, and the result is cached on the
    application so that later requests get the same document. */
module Swagger {
  import opened Wrappers
  import opened Text

  /** A security requirement object: scheme names to scope lists. */
  type Requirement = map<string, seq<string>>

  /** An operation object: its `security` list (`None` when absent or null) and the rest of it,
      abstracted to text. */
  datatype Operation = Operation(security: Option<seq<Requirement>>, details: string)

  /** A path item: its HTTP methods and their operations, in document order. */
  type PathItem = seq<(string, Operation)>

  /** A security scheme object, reduced to its string fields. */
  type Scheme = map<string, string>

  /** The components object: `securitySchemes` (`None` when absent) and its other sections by
      name, their content abstracted to text. */
  datatype Components = Components(securitySchemes: Option<map<string, Scheme>>, sections: map<string, string>)

  /** A generated document: the top-level fields other than `components` and `paths` abstracted
      to text, `components` when present, and the paths in document order. */
  datatype Schema = Schema(info: string, components: Option<Components>, paths: seq<(string, PathItem)>)

  const FIREBASE_UID := "X-Firebase-UID"
  const BEARER_AUTH := "BearerAuth"

  const UID_SCHEME: Scheme := map["type" := "apiKey", "in" := "header", "name" := "X-Firebase-UID",
                                  "description" := "테스트 모드에서만 사용: 테스트용 Firebase UID를 직접 전달"]
  const TEST_BEARER_SCHEME: Scheme := map["type" := "http", "scheme" := "bearer", "bearerFormat" := "JWT",
                                          "description" := "프로덕션 모드에서 사용: Firebase ID 토큰"]
  const BEARER_SCHEME: Scheme := map["type" := "http", "scheme" := "bearer", "bearerFormat" := "JWT",
                                     "description" := "Firebase ID 토큰"]

  /** The schemes registered in each mode. */
  function AddedSchemes(testMode: bool): map<string, Scheme> {
    if testMode then map[FIREBASE_UID := UID_SCHEME, BEARER_AUTH := TEST_BEARER_SCHEME]
    else map[BEARER_AUTH := BEARER_SCHEME]
  }

  /** The requirements appended to each operation in each mode, in order. */
  function AddedRequirements(testMode: bool): seq<Requirement> {
    if testMode then [map[FIREBASE_UID := []], map[BEARER_AUTH := []]] else [map[BEARER_AUTH := []]]
  }

  /** `verb.lower() == "options"`. */
  predicate IsOptions(verb: string) {
    Lower(verb) == "options"
  }

  function ExistingSchemes(components: Option<Components>): map<string, Scheme> {
    if components.None? || components.value.securitySchemes.None? then map[] else components.value.securitySchemes.value
  }

  /** The components with the schemes registered: the missing levels are created, and a scheme of
      the same name is replaced. */
  function WithSchemes(components: Option<Components>, added: map<string, Scheme>): Components {
    var c := if components.None? then Components(None, map[]) else components.value;
    c.(securitySchemes := Some(ExistingSchemes(components) + added))
  }

  /** The requirements an operation already has; `None` counts as the empty list. */
  function ExistingSecurity(op: Operation): seq<Requirement> {
    if op.security.None? then [] else op.security.value
  }

  function Secured(op: Operation, reqs: seq<Requirement>): Operation {
    op.(security := Some(ExistingSecurity(op) + reqs))
  }

  function SecuredItem(item: PathItem, reqs: seq<Requirement>): (r: PathItem)
    ensures |r| == |item|
  {
    seq(|item|, j requires 0 <= j < |item| =>
      if IsOptions(item[j].0) then item[j] else (item[j].0, Secured(item[j].1, reqs)))
  }

  function SecuredPaths(paths: seq<(string, PathItem)>, reqs: seq<Requirement>): (r: seq<(string, PathItem)>)
    ensures |r| == |paths|
  {
    seq(|paths|, i requires 0 <= i < |paths| => (paths[i].0, SecuredItem(paths[i].1, reqs)))
  }

  /** The document once the mode's schemes and requirements are added. */
  function Augmented(schema: Schema, testMode: bool): Schema {
    schema.(components := Some(WithSchemes(schema.components, AddedSchemes(testMode))),
            paths := SecuredPaths(schema.paths, AddedRequirements(testMode)))
  }

  /** Paths and methods keep their names and order; an `OPTIONS` operation in any case is left
      alone; every other operation keeps its requirements and the rest of its content, and gets
      `{"X-Firebase-UID": []}` then `{"BearerAuth": []}` in test mode, or `{"BearerAuth": []}`
      alone in production, at the end. */
  lemma AugmentedOperations(schema: Schema, testMode: bool, i: nat, j: nat)
    requires i < |schema.paths| && j < |schema.paths[i].1|
    ensures var after := Augmented(schema, testMode);
      var verb := schema.paths[i].1[j].0; var op := schema.paths[i].1[j].1;
      |after.paths| == |schema.paths| && after.paths[i].0 == schema.paths[i].0
      && |after.paths[i].1| == |schema.paths[i].1| && after.paths[i].1[j].0 == verb
      && (IsOptions(verb) ==> after.paths[i].1[j].1 == op)
      && (!IsOptions(verb) ==>
            after.paths[i].1[j].1.details == op.details
            && after.paths[i].1[j].1.security.Some?
            && after.paths[i].1[j].1.security.value[..|ExistingSecurity(op)|] == ExistingSecurity(op)
            && after.paths[i].1[j].1.security.value[|ExistingSecurity(op)|..]
               == (if testMode then [map[FIREBASE_UID := []], map[BEARER_AUTH := []]] else [map[BEARER_AUTH := []]]))
  {
    var op := schema.paths[i].1[j].1;
    var s := ExistingSecurity(op) + AddedRequirements(testMode);
    assert s[..|ExistingSecurity(op)|] == ExistingSecurity(op);
    assert s[|ExistingSecurity(op)|..] == AddedRequirements(testMode);
  }

  /** `OPTIONS` is recognised in any case. */
  lemma OptionsInAnyCase(verb: string)
    requires verb == "OPTIONS" || verb == "Options" || verb == "options"
    ensures IsOptions(verb)
  {
    assert Lower(verb) == [LowerChar(verb[0]), LowerChar(verb[1]), LowerChar(verb[2]), LowerChar(verb[3]),
                           LowerChar(verb[4]), LowerChar(verb[5]), LowerChar(verb[6])];
  }

  /** The schemes already registered are kept unless the mode registers one of the same name; the
      mode's schemes are present; the other sections of `components` and of the document are
      unchanged. */
  lemma AugmentedSchemes(schema: Schema, testMode: bool)
    ensures var after := Augmented(schema, testMode);
      var schemes := after.components.value.securitySchemes.value; var before := ExistingSchemes(schema.components);
      after.components.Some? && after.components.value.securitySchemes.Some?
      && schemes.Keys == before.Keys + AddedSchemes(testMode).Keys
      && (forall k :: k in AddedSchemes(testMode) ==> schemes[k] == AddedSchemes(testMode)[k])
      && (forall k :: k in before && k !in AddedSchemes(testMode) ==> schemes[k] == before[k])
      && (schema.components.Some? ==> after.components.value.sections == schema.components.value.sections)
      && after.info == schema.info
  {
  }

  /** Test mode registers both schemes; production registers only the bearer scheme. */
  lemma SchemesByMode(testMode: bool)
    ensures testMode ==> AddedSchemes(testMode).Keys == {FIREBASE_UID, BEARER_AUTH}
    ensures !testMode ==> AddedSchemes(testMode).Keys == {BEARER_AUTH}
  {
  }

  /** The application object: it caches the document it served. */
  class App {
    var openapiSchema: Option<Schema>

    constructor ()
      ensures openapiSchema.None?
    {
      openapiSchema := None;
    }

    /** `custom_openapi`: `generated` is what `get_openapi` returns for the routes and `testMode`
        the current `is_test_mode()`. A cached document is returned as it is; otherwise the
        generated one is augmented in place, cached and returned. */
    method CustomOpenapi(generated: Schema, testMode: bool) returns (schema: Schema)
      modifies this
      ensures old(openapiSchema).Some? ==> schema == old(openapiSchema).value && openapiSchema == old(openapiSchema)
      ensures old(openapiSchema).None? ==> schema == Augmented(generated, testMode) && openapiSchema == Some(schema)
    {
      if openapiSchema.Some? {
        return openapiSchema.value;
      }
      var components := WithSchemes(generated.components, AddedSchemes(testMode));
      var reqs := AddedRequirements(testMode);
      var paths := generated.paths;
      var i := 0;
      while i < |paths|
        invariant 0 <= i <= |paths| == |generated.paths|
        invariant forall k :: 0 <= k < i ==> paths[k] == SecuredPaths(generated.paths, reqs)[k]
        invariant forall k :: i <= k < |paths| ==> paths[k] == generated.paths[k]
      {
        var item := paths[i].1;
        var j := 0;
        while j < |item|
          invariant 0 <= j <= |item| == |generated.paths[i].1|
          invariant forall k :: 0 <= k < j ==> item[k] == SecuredItem(generated.paths[i].1, reqs)[k]
          invariant forall k :: j <= k < |item| ==> item[k] == generated.paths[i].1[k]
        {
          var verb := item[j].0;
          var op := item[j].1;
          if Lower(verb) != "options" {
            var security := if op.security.None? then [] else op.security.value;
            if testMode {
              security := security + [map[FIREBASE_UID := []]];
            }
            security := security + [map[BEARER_AUTH := []]];
            assert security == ExistingSecurity(op) + reqs;
            item := item[j := (verb, op.(security := Some(security)))];
          }
          j := j + 1;
        }
        assert item == SecuredItem(generated.paths[i].1, reqs);
        paths := paths[i := (paths[i].0, item)];
        i := i + 1;
      }
      assert paths == SecuredPaths(generated.paths, reqs);
      schema := generated.(components := Some(components), paths := paths);
      openapiSchema := Some(schema);
    }
  }

  /** Once a document is served, every later request gets the same document. */
  method ServeTwice(app: App, generated: Schema, regenerated: Schema, testMode: bool, laterMode: bool)
    returns (first: Schema, second: Schema)
    modifies app
    ensures first == second
    ensures old(app.openapiSchema).None? ==> first == Augmented(generated, testMode)
  {
    first := app.CustomOpenapi(generated, testMode);
    second := app.CustomOpenapi(regenerated, laterMode);
  }
}

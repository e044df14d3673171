/**
 * `formatValidationError`: turns the validator's error list into the structured
 * payload returned to an agent whose tool arguments do not match the input schema.
 */
module FormatError {
  import opened Prelude
  import opened Text
  import opened Js
  import opened Schema
  import opened Tools

  /** One entry of `fieldErrors`; `expected` is `Undefined` where the source leaves it out. */
  datatype FieldError = FieldError(path: string, issue: string, expected: Value, details: Value)

  /** The payload; the example fields are `None` where the source does not set them. */
  datatype Payload = Payload(
    error: string,
    tool: string,
    message: string,
    allowedProperties: seq<string>,
    missingRequired: seq<string>,
    unexpectedProperties: seq<string>,
    fieldErrors: seq<FieldError>,
    exampleArgumentsMinimal: Option<Value>,
    exampleArgumentsTypical: Option<Value>)

  const ValidationErrorCode: string := "VALIDATION_ERROR"
  const RetryMessage: string :=
    "Arguments do not match inputSchema. Fix arguments and retry the same tool call. Do not add keys outside allowedProperties."

  // ---------------------------------------------------------------- one error

  /** `e.instancePath || "/"`. */
  function PathOf(e: ErrorObject): (p: string)
    ensures p != []
    ensures e.instancePath != [] ==> p == e.instancePath
  {
    if e.instancePath == "" then "/" else e.instancePath
  }

  /** The `expected` text of an `additionalProperties` error. */
  function AllowedText(allowed: seq<string>): (t: string)
    ensures allowed == [] <==> t == "no extra properties"
  {
    if |allowed| > 0 then
      var t := "only: " + Join(allowed, ", ");
      assert t[0] == 'o' && "no extra properties"[0] == 'n';
      t
    else "no extra properties"
  }

  /** The entry of `fieldErrors` for one validator error. */
  function FieldErrorFor(allowed: seq<string>, e: ErrorObject): FieldError
  {
    if e.keyword == "required" then
      var mp := Get(e.params, "missingProperty");
      FieldError(PathOf(e), "missing_required",
                 if Truthy(mp) then Str("property '" + ToStr(mp) + "'") else Undefined, e.params)
    else if e.keyword == "additionalProperties" then
      FieldError(PathOf(e), "unexpected_property", Str(AllowedText(allowed)), e.params)
    else if e.keyword == "type" then
      FieldError(PathOf(e), "wrong_type", Get(e.params, "type"), e.params)
    else
      FieldError(PathOf(e), e.keyword, Undefined,
                 Obj([("message", if e.message.Some? then Str(e.message.value) else Undefined), ("params", e.params)]))
  }

  /** The four keyword cases each get their issue; no other keyword is renamed. */
  lemma IssueClassification(allowed: seq<string>, e: ErrorObject)
    ensures var f := FieldErrorFor(allowed, e);
            && f.path == PathOf(e)
            && (e.keyword == "required" ==> f.issue == "missing_required" && f.details == e.params)
            && (e.keyword == "additionalProperties" ==> f.issue == "unexpected_property" && f.expected == Str(AllowedText(allowed)))
            && (e.keyword == "type" ==> f.issue == "wrong_type" && f.expected == Get(e.params, "type"))
            && (e.keyword !in {"required", "additionalProperties", "type"} ==> f.issue == e.keyword && f.expected == Undefined)
  {
  }

  // ---------------------------------------------------------------- collected names

  /** Whether `e` is a `keyword` error whose `params[param]` is truthy, and so pushes a name. */
  predicate Names(e: ErrorObject, keyword: string, param: string)
  {
    e.keyword == keyword && Truthy(Get(e.params, param))
  }

  /** The names pushed, in order, by the errors of `keyword` carrying `params[param]`. */
  function NamesFor(errors: seq<ErrorObject>, keyword: string, param: string): seq<string>
  {
    if errors == [] then []
    else
      var e := errors[|errors| - 1];
      NamesFor(errors[..|errors| - 1], keyword, param)
      + (if Names(e, keyword, param) then [ToStr(Get(e.params, param))] else [])
  }

  /** A name is collected exactly when some error of that keyword carries it. */
  lemma {:induction false} NamesForExact(errors: seq<ErrorObject>, keyword: string, param: string, x: string)
    ensures x in NamesFor(errors, keyword, param)
        <==> exists i | 0 <= i < |errors| :: Names(errors[i], keyword, param) && ToStr(Get(errors[i].params, param)) == x
  {
    if errors != [] {
      var init := errors[..|errors| - 1];
      NamesForExact(init, keyword, param, x);
      assert forall i | 0 <= i < |init| :: init[i] == errors[i];
    }
  }

  // ---------------------------------------------------------------- the payload

  function ExampleOf(examples: Option<Examples>, typical: bool): (r: Option<Value>)
    ensures r.Some? ==> Truthy(r.value)
  {
    if examples.None? then None
    else
      var v := if typical then examples.value.typical else examples.value.minimal;
      if Truthy(v) then Some(v) else None
  }

  /** `formatValidationError(spec, errors)`; `None` stands for a `null` or `undefined` error list. */
  method FormatValidationError(spec: ToolSpec, errors: Option<seq<ErrorObject>>) returns (payload: Payload)
    ensures var errs := if errors.Some? then errors.value else [];
            && payload.error == ValidationErrorCode && payload.message == RetryMessage
            && payload.tool == spec.name
            && payload.allowedProperties == PropertyNames(spec.inputSchema)
            && |payload.fieldErrors| == |errs|
            && (forall i | 0 <= i < |errs| :: payload.fieldErrors[i] == FieldErrorFor(payload.allowedProperties, errs[i]))
            && payload.missingRequired == Uniq(NamesFor(errs, "required", "missingProperty"))
            && payload.unexpectedProperties == Uniq(NamesFor(errs, "additionalProperties", "additionalProperty"))
    ensures payload.exampleArgumentsMinimal.Some?
        <==> spec.examples.Some? && Truthy(spec.examples.value.minimal)
    ensures payload.exampleArgumentsMinimal.Some? ==> payload.exampleArgumentsMinimal.value == spec.examples.value.minimal
    ensures payload.exampleArgumentsTypical.Some?
        <==> spec.examples.Some? && Truthy(spec.examples.value.typical)
    ensures payload.exampleArgumentsTypical.Some? ==> payload.exampleArgumentsTypical.value == spec.examples.value.typical
  {
    var allowed := PropertyNames(spec.inputSchema);
    var errs := if errors.Some? then errors.value else [];
    var fieldErrors, missing, unexpected := CollectErrors(allowed, errs);
    payload := Payload(ValidationErrorCode, spec.name, RetryMessage, allowed, Uniq(missing), Uniq(unexpected), fieldErrors,
                       ExampleOf(spec.examples, false), ExampleOf(spec.examples, true));
  }

  /** The loop of `formatValidationError` over the error list. */
  method CollectErrors(allowed: seq<string>, errs: seq<ErrorObject>)
    returns (fieldErrors: seq<FieldError>, missing: seq<string>, unexpected: seq<string>)
    ensures |fieldErrors| == |errs|
    ensures forall i | 0 <= i < |errs| :: fieldErrors[i] == FieldErrorFor(allowed, errs[i])
    ensures missing == NamesFor(errs, "required", "missingProperty")
    ensures unexpected == NamesFor(errs, "additionalProperties", "additionalProperty")
  {
    missing, unexpected, fieldErrors := [], [], [];
    var i := 0;
    while i < |errs|
      invariant 0 <= i <= |errs|
      invariant |fieldErrors| == i
      invariant forall k | 0 <= k < i :: fieldErrors[k] == FieldErrorFor(allowed, errs[k])
      invariant missing == NamesFor(errs[..i], "required", "missingProperty")
      invariant unexpected == NamesFor(errs[..i], "additionalProperties", "additionalProperty")
    {
      var e := errs[i];
      NamesForSnoc(errs, i, "required", "missingProperty");
      NamesForSnoc(errs, i, "additionalProperties", "additionalProperty");
      if e.keyword == "required" {
        var mp := Get(e.params, "missingProperty");
        if Truthy(mp) {
          missing := missing + [ToStr(mp)];
        }
        fieldErrors := fieldErrors + [FieldError(PathOf(e), "missing_required",
                                                 if Truthy(mp) then Str("property '" + ToStr(mp) + "'") else Undefined,
                                                 e.params)];
      } else if e.keyword == "additionalProperties" {
        var ap := Get(e.params, "additionalProperty");
        if Truthy(ap) {
          unexpected := unexpected + [ToStr(ap)];
        }
        fieldErrors := fieldErrors + [FieldError(PathOf(e), "unexpected_property", Str(AllowedText(allowed)), e.params)];
      } else if e.keyword == "type" {
        fieldErrors := fieldErrors + [FieldError(PathOf(e), "wrong_type", Get(e.params, "type"), e.params)];
      } else {
        var message := if e.message.Some? then Str(e.message.value) else Undefined;
        fieldErrors := fieldErrors + [FieldError(PathOf(e), e.keyword, Undefined, Obj([("message", message), ("params", e.params)]))];
      }
      i := i + 1;
    }
    assert errs[..i] == errs;
  }

  /** Extending the error list by one error adds at most that error's name. */
  lemma NamesForSnoc(errs: seq<ErrorObject>, i: nat, keyword: string, param: string)
    requires i < |errs|
    ensures NamesFor(errs[..i + 1], keyword, param)
         == NamesFor(errs[..i], keyword, param)
            + (if Names(errs[i], keyword, param) then [ToStr(Get(errs[i].params, param))] else [])
  {
    assert errs[..i + 1][..i] == errs[..i];
  }

  // ---------------------------------------------------------------- what reaches the agent

  /** Every name the payload lists as missing was reported missing by some `required` error, and conversely. */
  lemma MissingRequiredExact(errs: seq<ErrorObject>, x: string)
    ensures x in Uniq(NamesFor(errs, "required", "missingProperty"))
        <==> exists i | 0 <= i < |errs| ::
               Names(errs[i], "required", "missingProperty") && ToStr(Get(errs[i].params, "missingProperty")) == x
  {
    NamesForExact(errs, "required", "missingProperty", x);
  }

  lemma {:induction false} ConcatContains<T>(xss: seq<seq<T>>, i: nat, x: T)
    requires i < |xss| && x in xss[i]
    ensures x in Concat(xss)
  {
    if i < |xss| - 1 {
      ConcatContains(xss[..|xss| - 1], i, x);
    }
  }

  /** The `required` error the validator reports at the top level for a required name `k` that the arguments lack. */
  lemma TopLevelRequiredError(s: Schema, v: Value, k: nat, isEmail: string -> bool)
    requires v.Obj? && k < |s.required| && Get(v, s.required[k]) == Undefined
    ensures Err("required", "", [("missingProperty", Str(s.required[k]))],
                "must have required property '" + s.required[k] + "'") in Errors(s, v, "", isEmail)
  {
    var parts := seq(|s.required|, i requires 0 <= i < |s.required| =>
      if Get(v, s.required[i]) == Undefined then
        [Err("required", "", [("missingProperty", Str(s.required[i]))],
             "must have required property '" + s.required[i] + "'")]
      else []);
    ConcatContains(parts, k, parts[k][0]);
    assert RequiredErrors(s, v, "") == Concat(parts);
  }

  /**
   * End to end: validating the arguments of a tool and formatting the errors lists each
   * top-level required property the arguments lack (any non-empty name) in `missingRequired`.
   */
  lemma MissingPropertyReachesPayload(spec: ToolSpec, v: Value, k: nat, isEmail: string -> bool)
    requires v.Obj? && k < |spec.inputSchema.required| && Get(v, spec.inputSchema.required[k]) == Undefined
    requires spec.inputSchema.required[k] != ""
    ensures var errs := ValidateSchema(spec.inputSchema, v, isEmail).1;
            errs.Some? && spec.inputSchema.required[k] in Uniq(NamesFor(errs.value, "required", "missingProperty"))
  {
    var s := spec.inputSchema;
    var name := s.required[k];
    var e := Err("required", "", [("missingProperty", Str(name))], "must have required property '" + name + "'");
    TopLevelRequiredError(s, v, k, isEmail);
    var errs := Errors(s, v, "", isEmail);
    ValidateSchemaReports(s, v, isEmail);
    assert Names(e, "required", "missingProperty") && ToStr(Get(e.params, "missingProperty")) == name;
    ReportedNameCollected(errs, e, name);
  }

  /** A `required` error carrying a name puts that name among the collected names. */
  lemma ReportedNameCollected(errs: seq<ErrorObject>, e: ErrorObject, name: string)
    requires e in errs && Names(e, "required", "missingProperty") && ToStr(Get(e.params, "missingProperty")) == name
    ensures name in Uniq(NamesFor(errs, "required", "missingProperty"))
  {
    var i :| 0 <= i < |errs| && errs[i] == e;
    NamesForExact(errs, "required", "missingProperty", name);
  }
}

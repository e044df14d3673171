/**
 * The JSON Schema (draft-07) keywords the tool schemas use, as a value type, with
 * a validity predicate and an error reporter in the style of ajv with `allErrors`.
 * Keywords: type (6.1.1), enum (6.1.2), maxLength/minLength/pattern (6.3.1-6.3.3),
 * items (6.4.1), minItems (6.4.4), required (6.5.3), properties (6.5.4),
 * additionalProperties: false (6.5.6), anyOf (6.7.2), format "email" (7.3.2).
 */
module Schema {
  import opened Prelude
  import opened Text
  import opened Js

  datatype JsonType = TString | TNumber | TInteger | TBoolean | TArray | TObject

  function TypeName(t: JsonType): string
  {
    match t
    case TString => "string"
    case TNumber => "number"
    case TInteger => "integer"
    case TBoolean => "boolean"
    case TArray => "array"
    case TObject => "object"
  }

  /**
   * Instance types of draft-07 section 4.2.1: an "object" is neither an array nor null.
   * Numbers are integers in this model, so "integer" and "number" accept the same values.
   */
  predicate HasType(v: Value, t: JsonType)
  {
    match t
    case TString => v.Str?
    case TNumber => v.Num?
    case TInteger => v.Num?
    case TBoolean => v.Bool?
    case TArray => v.Arr?
    case TObject => v.Obj?
  }

  /** The one regular expression the schemas use: `^\S+$`. */
  datatype Pattern = NonWhitespace

  function PatternSource(p: Pattern): string
  {
    "^\\S+$"
  }

  predicate Matches(p: Pattern, s: string)
  {
    |s| >= 1 && forall i | 0 <= i < |s| :: !IsJsWhitespace(s[i])
  }

  datatype Property = Property(name: string, schema: Schema)

  /**
   * A schema built from the supported keywords. An empty `properties` or `anyOf` list
   * stands for the keyword's absence (draft-07 requires `anyOf` to be non-empty, and
   * `properties: {}` constrains nothing).
   */
  datatype Schema = Schema(
    typ: Option<JsonType>,
    properties: seq<Property>,
    required: seq<string>,
    noAdditionalProperties: bool,
    items: Option<Schema>,
    minItems: Option<nat>,
    minLength: Option<nat>,
    maxLength: Option<nat>,
    pattern: Option<Pattern>,
    emailFormat: bool,
    enumNums: Option<seq<int>>,
    anyOf: seq<Schema>)

  /** The schema `{}`, which every value satisfies. */
  const Any: Schema := Schema(None, [], [], false, None, None, None, None, None, false, None, [])

  function OfType(t: JsonType): Schema
  {
    Any.(typ := Some(t))
  }

  function PropertyNames(s: Schema): seq<string>
  {
    seq(|s.properties|, i requires 0 <= i < |s.properties| => s.properties[i].name)
  }

  // ---------------------------------------------------------------- validity

  predicate StringValid(s: Schema, str: string, isEmail: string -> bool)
  {
    && (s.minLength.Some? ==> |str| >= s.minLength.value)
    && (s.maxLength.Some? ==> |str| <= s.maxLength.value)
    && (s.pattern.Some? ==> Matches(s.pattern.value, str))
    && (s.emailFormat ==> isEmail(str))
  }

  predicate RequiredPresent(s: Schema, v: Value)
  {
    forall i | 0 <= i < |s.required| :: Get(v, s.required[i]) != Undefined
  }

  predicate NoExtraProperties(s: Schema, v: Value)
  {
    v.Obj? && s.noAdditionalProperties ==>
      forall i | 0 <= i < |v.members| :: v.members[i].0 in PropertyNames(s)
  }

  /** `v` satisfies every keyword of `s`; `isEmail` is the "email" format predicate. */
  predicate Valid(s: Schema, v: Value, isEmail: string -> bool)
    decreases s, 1
  {
    && (s.typ.Some? ==> HasType(v, s.typ.value))
    && (s.enumNums.Some? ==> v.Num? && v.n in s.enumNums.value)
    && (v.Str? ==> StringValid(s, v.s, isEmail))
    && ArrayValid(s, v, isEmail)
    && ObjectValid(s, v, isEmail)
    && AnyOfValid(s, v, isEmail)
  }

  predicate ArrayValid(s: Schema, v: Value, isEmail: string -> bool)
    decreases s, 0
  {
    v.Arr? ==>
      && (s.minItems.Some? ==> |v.items| >= s.minItems.value)
      && (s.items.Some? ==> forall i | 0 <= i < |v.items| :: Valid(s.items.value, v.items[i], isEmail))
  }

  predicate ObjectValid(s: Schema, v: Value, isEmail: string -> bool)
    decreases s, 0
  {
    v.Obj? ==>
      && RequiredPresent(s, v)
      && NoExtraProperties(s, v)
      && forall j | 0 <= j < |s.properties| ::
           Get(v, s.properties[j].name) != Undefined ==>
             Valid(s.properties[j].schema, Get(v, s.properties[j].name), isEmail)
  }

  predicate AnyOfValid(s: Schema, v: Value, isEmail: string -> bool)
    decreases s, 0
  {
    s.anyOf != [] ==> exists j | 0 <= j < |s.anyOf| :: Valid(s.anyOf[j], v, isEmail)
  }

  // ---------------------------------------------------------------- errors

  /** An ajv `ErrorObject`: keyword, JSON-pointer instance path, params object and message. */
  datatype ErrorObject = ErrorObject(keyword: string, instancePath: string, params: Value, message: Option<string>)

  function Concat<T>(xss: seq<seq<T>>): (r: seq<T>)
    ensures r == [] <==> forall i | 0 <= i < |xss| :: xss[i] == []
  {
    if xss == [] then [] else Concat(xss[..|xss| - 1]) + xss[|xss| - 1]
  }

  /** JSON Pointer escaping of one reference token (RFC 6901 section 3). */
  function EscapeToken(key: string): string
  {
    if key == [] then []
    else
      (if key[0] == '~' then "~0" else if key[0] == '/' then "~1" else [key[0]])
      + EscapeToken(key[1..])
  }

  function Err(keyword: string, path: string, params: seq<(string, Value)>, message: string): ErrorObject
  {
    ErrorObject(keyword, path, Obj(params), Some(message))
  }

  function TypeErrors(s: Schema, v: Value, path: string): (r: seq<ErrorObject>)
    ensures r == [] <==> (s.typ.Some? ==> HasType(v, s.typ.value))
  {
    if s.typ.Some? && !HasType(v, s.typ.value) then
      [Err("type", path, [("type", Str(TypeName(s.typ.value)))], "must be " + TypeName(s.typ.value))]
    else []
  }

  function EnumErrors(s: Schema, v: Value, path: string): (r: seq<ErrorObject>)
    ensures r == [] <==> (s.enumNums.Some? ==> v.Num? && v.n in s.enumNums.value)
  {
    if s.enumNums.Some? && !(v.Num? && v.n in s.enumNums.value) then
      [Err("enum", path,
           [("allowedValues", Arr(seq(|s.enumNums.value|, i requires 0 <= i < |s.enumNums.value| => Num(s.enumNums.value[i]))))],
           "must be equal to one of the allowed values")]
    else []
  }

  function StringErrors(s: Schema, str: string, path: string, isEmail: string -> bool): (r: seq<ErrorObject>)
    ensures r == [] <==> StringValid(s, str, isEmail)
  {
    (if s.maxLength.Some? && |str| > s.maxLength.value then
       [Err("maxLength", path, [("limit", Num(s.maxLength.value))],
            "must NOT have more than " + NatToString(s.maxLength.value) + " characters")]
     else [])
    + (if s.minLength.Some? && |str| < s.minLength.value then
         [Err("minLength", path, [("limit", Num(s.minLength.value))],
              "must NOT have fewer than " + NatToString(s.minLength.value) + " characters")]
       else [])
    + (if s.pattern.Some? && !Matches(s.pattern.value, str) then
         [Err("pattern", path, [("pattern", Str(PatternSource(s.pattern.value)))],
              "must match pattern \"" + PatternSource(s.pattern.value) + "\"")]
       else [])
    + (if s.emailFormat && !isEmail(str) then
         [Err("format", path, [("format", Str("email"))], "must match format \"email\"")]
       else [])
  }

  function RequiredErrors(s: Schema, v: Value, path: string): (r: seq<ErrorObject>)
    ensures r == [] <==> RequiredPresent(s, v)
  {
    var parts := seq(|s.required|, i requires 0 <= i < |s.required| =>
      if Get(v, s.required[i]) == Undefined then
        [Err("required", path, [("missingProperty", Str(s.required[i]))],
             "must have required property '" + s.required[i] + "'")]
      else []);
    assert forall i | 0 <= i < |s.required| :: parts[i] == [] <==> Get(v, s.required[i]) != Undefined;
    Concat(parts)
  }

  function AdditionalErrors(s: Schema, v: Value, path: string): (r: seq<ErrorObject>)
    requires v.Obj?
    ensures r == [] <==> NoExtraProperties(s, v)
  {
    if !s.noAdditionalProperties then []
    else
      var names := PropertyNames(s);
      var parts := seq(|v.members|, i requires 0 <= i < |v.members| =>
        if v.members[i].0 in names then []
        else [Err("additionalProperties", path, [("additionalProperty", Str(v.members[i].0))],
                  "must NOT have additional properties")]);
      assert forall i | 0 <= i < |v.members| :: parts[i] == [] <==> v.members[i].0 in names;
      Concat(parts)
  }

  /** Every violation of `s` by `v` found at `path`, keyword group by keyword group. */
  function Errors(s: Schema, v: Value, path: string, isEmail: string -> bool): seq<ErrorObject>
    decreases s, 2
  {
    TypeErrors(s, v, path)
    + EnumErrors(s, v, path)
    + (if v.Str? then StringErrors(s, v.s, path, isEmail) else [])
    + ArrayErrors(s, v, path, isEmail)
    + ObjectErrors(s, v, path, isEmail)
    + AnyOfErrors(s, v, path, isEmail)
  }

  function ItemErrors(s: Schema, v: Value, path: string, isEmail: string -> bool): seq<seq<ErrorObject>>
    requires v.Arr? && s.items.Some?
    decreases s, 0
  {
    seq(|v.items|, i requires 0 <= i < |v.items| =>
      Errors(s.items.value, v.items[i], path + "/" + NatToString(i), isEmail))
  }

  function ArrayErrors(s: Schema, v: Value, path: string, isEmail: string -> bool): seq<ErrorObject>
    decreases s, 1
  {
    if !v.Arr? then []
    else
      (if s.minItems.Some? && |v.items| < s.minItems.value then
         [Err("minItems", path, [("limit", Num(s.minItems.value))],
              "must NOT have fewer than " + NatToString(s.minItems.value) + " items")]
       else [])
      + (if s.items.Some? then Concat(ItemErrors(s, v, path, isEmail)) else [])
  }

  function PropertyErrors(s: Schema, v: Value, path: string, isEmail: string -> bool): seq<seq<ErrorObject>>
    decreases s, 0
  {
    seq(|s.properties|, j requires 0 <= j < |s.properties| =>
      if Get(v, s.properties[j].name) == Undefined then []
      else Errors(s.properties[j].schema, Get(v, s.properties[j].name),
                  path + "/" + EscapeToken(s.properties[j].name), isEmail))
  }

  function ObjectErrors(s: Schema, v: Value, path: string, isEmail: string -> bool): seq<ErrorObject>
    decreases s, 1
  {
    if !v.Obj? then []
    else RequiredErrors(s, v, path) + AdditionalErrors(s, v, path) + Concat(PropertyErrors(s, v, path, isEmail))
  }

  function BranchErrors(s: Schema, v: Value, path: string, isEmail: string -> bool): seq<seq<ErrorObject>>
    decreases s, 0
  {
    seq(|s.anyOf|, j requires 0 <= j < |s.anyOf| => Errors(s.anyOf[j], v, path, isEmail))
  }

  /** ajv reports every branch's errors and then the `anyOf` error, unless some branch passes. */
  function AnyOfErrors(s: Schema, v: Value, path: string, isEmail: string -> bool): seq<ErrorObject>
    decreases s, 1
  {
    if s.anyOf == [] then []
    else
      var branches := BranchErrors(s, v, path, isEmail);
      if exists j | 0 <= j < |branches| :: branches[j] == [] then []
      else Concat(branches) + [Err("anyOf", path, [], "must match a schema in anyOf")]
  }

  /** The error reporter and the validity predicate agree: no errors exactly when valid. */
  lemma {:induction false} ErrorsEmptyIffValid(s: Schema, v: Value, path: string, isEmail: string -> bool)
    ensures Errors(s, v, path, isEmail) == [] <==> Valid(s, v, isEmail)
    decreases s, 2
  {
    ArrayErrorsEmptyIff(s, v, path, isEmail);
    ObjectErrorsEmptyIff(s, v, path, isEmail);
    AnyOfErrorsEmptyIff(s, v, path, isEmail);
  }

  lemma {:induction false} ArrayErrorsEmptyIff(s: Schema, v: Value, path: string, isEmail: string -> bool)
    ensures ArrayErrors(s, v, path, isEmail) == [] <==> ArrayValid(s, v, isEmail)
    decreases s, 1
  {
    if v.Arr? && s.items.Some? {
      var parts := ItemErrors(s, v, path, isEmail);
      forall i | 0 <= i < |v.items|
        ensures parts[i] == [] <==> Valid(s.items.value, v.items[i], isEmail)
      {
        ErrorsEmptyIffValid(s.items.value, v.items[i], path + "/" + NatToString(i), isEmail);
      }
    }
  }

  lemma {:induction false} ObjectErrorsEmptyIff(s: Schema, v: Value, path: string, isEmail: string -> bool)
    ensures ObjectErrors(s, v, path, isEmail) == [] <==> ObjectValid(s, v, isEmail)
    decreases s, 1
  {
    if v.Obj? {
      var parts := PropertyErrors(s, v, path, isEmail);
      forall j | 0 <= j < |s.properties|
        ensures parts[j] == [] <==>
          (Get(v, s.properties[j].name) != Undefined ==>
             Valid(s.properties[j].schema, Get(v, s.properties[j].name), isEmail))
      {
        ErrorsEmptyIffValid(s.properties[j].schema, Get(v, s.properties[j].name),
                            path + "/" + EscapeToken(s.properties[j].name), isEmail);
      }
    }
  }

  lemma {:induction false} AnyOfErrorsEmptyIff(s: Schema, v: Value, path: string, isEmail: string -> bool)
    ensures AnyOfErrors(s, v, path, isEmail) == [] <==> AnyOfValid(s, v, isEmail)
    decreases s, 1
  {
    if s.anyOf != [] {
      var branches := BranchErrors(s, v, path, isEmail);
      forall j | 0 <= j < |s.anyOf|
        ensures branches[j] == [] <==> Valid(s.anyOf[j], v, isEmail)
      {
        ErrorsEmptyIffValid(s.anyOf[j], v, path, isEmail);
      }
    }
  }

  /** When the reporter finds errors, they are the list `validateSchema` returns. */
  lemma ValidateSchemaReports(s: Schema, v: Value, isEmail: string -> bool)
    ensures Errors(s, v, "", isEmail) != [] ==> ValidateSchema(s, v, isEmail) == (false, Some(Errors(s, v, "", isEmail)))
  {
  }

  /** `validateSchema(schema, value)`: the boolean verdict and, when invalid, ajv's error list. */
  function ValidateSchema(s: Schema, v: Value, isEmail: string -> bool): (r: (bool, Option<seq<ErrorObject>>))
    ensures r.0 <==> Valid(s, v, isEmail)
    ensures r.0 <==> r.1.None?
    ensures r.1.Some? ==> r.1.value != []
  {
    ErrorsEmptyIffValid(s, v, "", isEmail);
    var errs := Errors(s, v, "", isEmail);
    if errs == [] then (true, None) else (false, Some(errs))
  }
}

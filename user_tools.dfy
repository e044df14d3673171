/**
 * The `core_user` tools: the schemas of `core_user_create_users` and
 * `core_user_delete_users`, the tool descriptions, and the two helpers that validate
 * their arguments, call Moodle and validate the reply.
 */
module UserTools {
  import opened Prelude
  import opened Text
  import opened Js
  import opened Schema
  import opened Tools
  import opened MoodleClient
  import opened FormatError
  import opened Auth

  const CreateUsersFunction: string := "core_user_create_users"
  const DeleteUsersFunction: string := "core_user_delete_users"

  // ---------------------------------------------------------------- schemas

  /** `{id: number, username: string}`, both required, nothing else. */
  const CreatedUserSchema: Schema :=
    Any.(typ := Some(TObject),
         properties := [Property("id", OfType(TNumber)), Property("username", OfType(TString))],
         required := ["id", "username"],
         noAdditionalProperties := true)

  const CreateUsersResponseSchema: Schema := Any.(typ := Some(TArray), items := Some(CreatedUserSchema))

  /** Moodle answers a deletion with `true` or with an (empty) object. */
  const DeleteUsersResponseSchema: Schema := Any.(anyOf := [OfType(TBoolean), OfType(TObject)])

  /** A custom field or a preference: `{type: string, value: string}`, both required, nothing else. */
  const KeyValueSchema: Schema :=
    Any.(typ := Some(TObject),
         properties := [Property("type", OfType(TString)), Property("value", OfType(TString))],
         required := ["type", "value"],
         noAdditionalProperties := true)

  /** The fields a new user may carry, in the order the schema lists them. */
  const UserFieldNames: seq<string> :=
    ["createpassword", "username", "auth", "password", "firstname", "lastname", "email",
     "maildisplay", "city", "country", "timezone", "description", "firstnamephonetic",
     "lastnamephonetic", "middlename", "alternatename", "interests", "idnumber", "institution",
     "department", "phone1", "phone2", "address", "lang", "calendartype", "theme", "mailformat",
     "customfields", "preferences"]

  /** One element of `users`. */
  const UserSchema: Schema :=
    Any.(typ := Some(TObject),
         properties := [
           Property("createpassword", OfType(TNumber)),
           Property("username", OfType(TString).(minLength := Some(1), pattern := Some(NonWhitespace))),
           Property("auth", OfType(TString)),
           Property("password", OfType(TString)),
           Property("firstname", OfType(TString).(minLength := Some(1))),
           Property("lastname", OfType(TString).(minLength := Some(1))),
           Property("email", OfType(TString).(emailFormat := true)),
           Property("maildisplay", OfType(TNumber).(enumNums := Some([0, 1]))),
           Property("city", OfType(TString)),
           Property("country", OfType(TString).(minLength := Some(2), maxLength := Some(2))),
           Property("timezone", OfType(TString)),
           Property("description", OfType(TString)),
           Property("firstnamephonetic", OfType(TString)),
           Property("lastnamephonetic", OfType(TString)),
           Property("middlename", OfType(TString)),
           Property("alternatename", OfType(TString)),
           Property("interests", OfType(TString)),
           Property("idnumber", OfType(TString)),
           Property("institution", OfType(TString)),
           Property("department", OfType(TString)),
           Property("phone1", OfType(TString)),
           Property("phone2", OfType(TString)),
           Property("address", OfType(TString)),
           Property("lang", OfType(TString).(minLength := Some(2))),
           Property("calendartype", OfType(TString)),
           Property("theme", OfType(TString)),
           Property("mailformat", OfType(TNumber)),
           Property("customfields", Any.(typ := Some(TArray), items := Some(KeyValueSchema))),
           Property("preferences", Any.(typ := Some(TArray), items := Some(KeyValueSchema)))],
         required := ["username", "firstname", "lastname", "email"],
         noAdditionalProperties := true)

  const CreateUsersInputSchema: Schema :=
    Any.(typ := Some(TObject),
         properties := [Property("users", Any.(typ := Some(TArray), items := Some(UserSchema)))],
         required := ["users"],
         noAdditionalProperties := true)

  const DeleteUsersInputSchema: Schema :=
    Any.(typ := Some(TObject),
         properties := [Property("userids", Any.(typ := Some(TArray), items := Some(OfType(TNumber)), minItems := Some(1)))],
         required := ["userids"],
         noAdditionalProperties := true)

  /** The user of the create tool's minimal example. */
  const JdoeUser: Value :=
    Obj([("username", Str("jdoe")), ("firstname", Str("John")), ("lastname", Str("Doe")), ("email", Str("jdoe@example.org"))])

  /** `core_user_tools`. The examples give only `minimal`. */
  const CoreUserTools: seq<ToolSpec> := [
    ToolSpec(CreateUsersFunction, CreateUsersFunction, "Create one or more users in Moodle.",
             CreateUsersInputSchema, [Admin, Manager],
             Some(Examples(Obj([("users", Arr([JdoeUser]))]),
                           Undefined))),
    ToolSpec(DeleteUsersFunction, DeleteUsersFunction, "Delete one or more users by id.",
             DeleteUsersInputSchema, [Admin, Manager],
             Some(Examples(Obj([("userids", Arr([Num(42)]))]), Undefined)))]

  // ---------------------------------------------------------------- what the schemas accept

  /** A single-type schema accepts exactly the values of that type. */
  lemma OfTypeValid(t: JsonType, v: Value, isEmail: string -> bool)
    ensures Valid(OfType(t), v, isEmail) <==> HasType(v, t)
  {
  }

  /** What `createdUserSchema` accepts, in plain terms. */
  predicate IsCreatedUser(v: Value)
  {
    && v.Obj?
    && Get(v, "id").Num?
    && Get(v, "username").Str?
    && forall i | 0 <= i < |v.members| :: v.members[i].0 == "id" || v.members[i].0 == "username"
  }

  /** A valid object's present properties satisfy their schemas. */
  lemma PropertyValidAt(s: Schema, v: Value, j: nat, isEmail: string -> bool)
    requires Valid(s, v, isEmail) && v.Obj? && j < |s.properties| && Get(v, s.properties[j].name) != Undefined
    ensures Valid(s.properties[j].schema, Get(v, s.properties[j].name), isEmail)
  {
  }

  /** A valid object carries each required property. */
  lemma RequiredAt(s: Schema, v: Value, i: nat, isEmail: string -> bool)
    requires Valid(s, v, isEmail) && v.Obj? && i < |s.required|
    ensures Get(v, s.required[i]) != Undefined
  {
  }

  lemma CreatedUserValid(v: Value, isEmail: string -> bool)
    ensures Valid(CreatedUserSchema, v, isEmail) <==> IsCreatedUser(v)
  {
    var s := CreatedUserSchema;
    assert PropertyNames(s) == ["id", "username"];
    assert s.properties[0].name == "id" && s.properties[1].name == "username";
    assert s.properties[0].schema == OfType(TNumber) && s.properties[1].schema == OfType(TString);
    assert s.required[0] == "id" && s.required[1] == "username";
    OfTypeValid(TNumber, Get(v, "id"), isEmail);
    OfTypeValid(TString, Get(v, "username"), isEmail);
    if Valid(s, v, isEmail) {
      RequiredAt(s, v, 0, isEmail);
      RequiredAt(s, v, 1, isEmail);
      PropertyValidAt(s, v, 0, isEmail);
      PropertyValidAt(s, v, 1, isEmail);
    }
    if IsCreatedUser(v) {
      assert RequiredPresent(s, v);
      assert NoExtraProperties(s, v);
      assert ObjectValid(s, v, isEmail);
    }
  }

  /** The create reply is valid exactly when it is an array of created users. */
  lemma CreateUsersResponseValid(v: Value, isEmail: string -> bool)
    ensures Valid(CreateUsersResponseSchema, v, isEmail)
        <==> v.Arr? && forall i | 0 <= i < |v.items| :: IsCreatedUser(v.items[i])
  {
    if v.Arr? {
      forall i | 0 <= i < |v.items|
        ensures Valid(CreatedUserSchema, v.items[i], isEmail) <==> IsCreatedUser(v.items[i])
      {
        CreatedUserValid(v.items[i], isEmail);
      }
    }
  }

  /** The delete reply is valid exactly when it is a boolean or an object. */
  lemma DeleteUsersResponseValid(v: Value, isEmail: string -> bool)
    ensures Valid(DeleteUsersResponseSchema, v, isEmail) <==> v.Bool? || v.Obj?
  {
    var s := DeleteUsersResponseSchema;
    OfTypeValid(TBoolean, v, isEmail);
    OfTypeValid(TObject, v, isEmail);
    assert s.anyOf[0] == OfType(TBoolean) && s.anyOf[1] == OfType(TObject);
  }

  function CreateUsersArgs(users: seq<Value>): Value
  {
    Obj([("users", Arr(users))])
  }

  function DeleteUsersArgs(userids: seq<Value>): Value
  {
    Obj([("userids", Arr(userids))])
  }

  /** The delete arguments are valid exactly when there is at least one id and every id is a number. */
  lemma DeleteUsersInputValid(userids: seq<Value>, isEmail: string -> bool)
    ensures Valid(DeleteUsersInputSchema, DeleteUsersArgs(userids), isEmail)
        <==> |userids| >= 1 && forall i | 0 <= i < |userids| :: userids[i].Num?
  {
    var s := DeleteUsersInputSchema;
    var ids := s.properties[0].schema;
    var v := DeleteUsersArgs(userids);
    assert Get(v, "userids") == Arr(userids);
    assert PropertyNames(s) == ["userids"];
    assert s.properties[0].name == "userids" && s.required[0] == "userids";
    assert ids.items == Some(OfType(TNumber)) && ids.minItems == Some(1);
    forall i | 0 <= i < |userids|
      ensures Valid(OfType(TNumber), userids[i], isEmail) <==> userids[i].Num?
    {
      OfTypeValid(TNumber, userids[i], isEmail);
    }
    if Valid(s, v, isEmail) {
      PropertyValidAt(s, v, 0, isEmail);
      assert Valid(ids, Arr(userids), isEmail);
    }
    if |userids| >= 1 && forall i | 0 <= i < |userids| :: userids[i].Num? {
      assert Valid(ids, Arr(userids), isEmail);
      assert ObjectValid(s, v, isEmail);
    }
  }

  /** A custom field or a preference in plain terms: string `type` and `value`, nothing else. */
  predicate IsKeyValue(v: Value)
  {
    && v.Obj?
    && Get(v, "type").Str?
    && Get(v, "value").Str?
    && forall i | 0 <= i < |v.members| :: v.members[i].0 == "type" || v.members[i].0 == "value"
  }

  /** The constraint on one field of a new user, by field name. */
  predicate UserFieldOk(name: string, v: Value, isEmail: string -> bool)
  {
    if name == "username" then v.Str? && Matches(NonWhitespace, v.s)
    else if name == "firstname" || name == "lastname" then v.Str? && |v.s| >= 1
    else if name == "email" then v.Str? && isEmail(v.s)
    else if name == "maildisplay" then v == Num(0) || v == Num(1)
    else if name == "country" then v.Str? && |v.s| == 2
    else if name == "lang" then v.Str? && |v.s| >= 2
    else if name == "createpassword" || name == "mailformat" then v.Num?
    else if name == "customfields" || name == "preferences" then
      v.Arr? && forall i | 0 <= i < |v.items| :: IsKeyValue(v.items[i])
    else v.Str?
  }

  /** The constraints a user must meet for the create call to be made. */
  predicate UserAcceptable(u: Value, isEmail: string -> bool)
  {
    && u.Obj?
    && Get(u, "username") != Undefined
    && Get(u, "firstname") != Undefined
    && Get(u, "lastname") != Undefined
    && Get(u, "email") != Undefined
    && (forall i | 0 <= i < |u.members| :: u.members[i].0 in UserFieldNames)
    && forall j | 0 <= j < |UserFieldNames| ::
         Get(u, UserFieldNames[j]) != Undefined ==> UserFieldOk(UserFieldNames[j], Get(u, UserFieldNames[j]), isEmail)
  }

  lemma KeyValueValid(v: Value, isEmail: string -> bool)
    ensures Valid(KeyValueSchema, v, isEmail) <==> IsKeyValue(v)
  {
    var s := KeyValueSchema;
    assert PropertyNames(s) == ["type", "value"];
    assert s.properties[0].name == "type" && s.properties[1].name == "value";
    assert s.properties[0].schema == OfType(TString) && s.properties[1].schema == OfType(TString);
    assert s.required[0] == "type" && s.required[1] == "value";
    OfTypeValid(TString, Get(v, "type"), isEmail);
    OfTypeValid(TString, Get(v, "value"), isEmail);
    if Valid(s, v, isEmail) {
      RequiredAt(s, v, 0, isEmail);
      RequiredAt(s, v, 1, isEmail);
      PropertyValidAt(s, v, 0, isEmail);
      PropertyValidAt(s, v, 1, isEmail);
    }
    if IsKeyValue(v) {
      assert RequiredPresent(s, v);
      assert NoExtraProperties(s, v);
      assert ObjectValid(s, v, isEmail);
    }
  }

  /** `customfields` and `preferences` accept exactly arrays of key-value objects. */
  lemma KeyValueListValid(v: Value, isEmail: string -> bool)
    ensures Valid(Any.(typ := Some(TArray), items := Some(KeyValueSchema)), v, isEmail)
        <==> v.Arr? && forall i | 0 <= i < |v.items| :: IsKeyValue(v.items[i])
  {
    if v.Arr? {
      forall i | 0 <= i < |v.items| ensures Valid(KeyValueSchema, v.items[i], isEmail) <==> IsKeyValue(v.items[i]) {
        KeyValueValid(v.items[i], isEmail);
      }
    }
  }

  lemma UserSchemaNames()
    ensures PropertyNames(UserSchema) == UserFieldNames
  {
  }

  /** Where the four required names sit in the user schema's property list, and that no other property has one of them. */
  lemma UserFieldAt(j: nat)
    requires j < |UserFieldNames|
    ensures UserFieldNames[j] == "username" <==> j == 1
    ensures UserFieldNames[j] == "firstname" <==> j == 4
    ensures UserFieldNames[j] == "lastname" <==> j == 5
    ensures UserFieldNames[j] == "email" <==> j == 6
  {
    if j == 0 {} else if j == 1 {} else if j == 2 {} else if j == 3 {} else if j == 4 {}
    else if j == 5 {} else if j == 6 {} else if j == 7 {} else if j == 8 {} else if j == 9 {}
    else if j == 10 {} else if j == 11 {} else if j == 12 {} else if j == 13 {} else if j == 14 {}
    else if j == 15 {} else if j == 16 {} else if j == 17 {} else if j == 18 {} else if j == 19 {}
    else if j == 20 {} else if j == 21 {} else if j == 22 {} else if j == 23 {} else if j == 24 {}
    else if j == 25 {} else if j == 26 {} else if j == 27 {} else {}
  }

  /** The entries of the user schema the acceptance lemmas use. */
  lemma UserSchemaFacts()
    ensures UserSchema.required == ["username", "firstname", "lastname", "email"]
    ensures UserSchema.properties[1] == Property("username", OfType(TString).(minLength := Some(1), pattern := Some(NonWhitespace)))
    ensures UserSchema.properties[4] == Property("firstname", OfType(TString).(minLength := Some(1)))
    ensures UserSchema.properties[5] == Property("lastname", OfType(TString).(minLength := Some(1)))
    ensures UserSchema.properties[6] == Property("email", OfType(TString).(emailFormat := true))
  {
  }

  /** The entries of the user schema for the optional fields the acceptance lemmas use. */
  lemma UserSchemaOptionalFacts()
    ensures UserSchema.properties[7] == Property("maildisplay", OfType(TNumber).(enumNums := Some([0, 1])))
    ensures UserSchema.properties[9] == Property("country", OfType(TString).(minLength := Some(2), maxLength := Some(2)))
    ensures UserSchema.properties[23] == Property("lang", OfType(TString).(minLength := Some(2)))
  {
  }

  lemma UserRequiredFields(u: Value, isEmail: string -> bool)
    requires u.Obj? && Valid(UserSchema, u, isEmail)
    ensures Get(u, "username").Str? && Matches(NonWhitespace, Get(u, "username").s)
    ensures Get(u, "firstname").Str? && |Get(u, "firstname").s| >= 1
    ensures Get(u, "lastname").Str? && |Get(u, "lastname").s| >= 1
    ensures Get(u, "email").Str? && isEmail(Get(u, "email").s)
  {
    UserSchemaFacts();
    RequiredAt(UserSchema, u, 0, isEmail);
    RequiredAt(UserSchema, u, 1, isEmail);
    RequiredAt(UserSchema, u, 2, isEmail);
    RequiredAt(UserSchema, u, 3, isEmail);
    PropertyValidAt(UserSchema, u, 1, isEmail);
    PropertyValidAt(UserSchema, u, 4, isEmail);
    PropertyValidAt(UserSchema, u, 5, isEmail);
    PropertyValidAt(UserSchema, u, 6, isEmail);
  }

  lemma UserOptionalFields(u: Value, isEmail: string -> bool)
    requires u.Obj? && Valid(UserSchema, u, isEmail)
    ensures Get(u, "maildisplay") != Undefined ==> Get(u, "maildisplay") in {Num(0), Num(1)}
    ensures Get(u, "country") != Undefined ==> Get(u, "country").Str? && |Get(u, "country").s| == 2
    ensures Get(u, "lang") != Undefined ==> Get(u, "lang").Str? && |Get(u, "lang").s| >= 2
  {
    UserSchemaOptionalFacts();
    if Get(u, "maildisplay") != Undefined {
      PropertyValidAt(UserSchema, u, 7, isEmail);
    }
    if Get(u, "country") != Undefined {
      PropertyValidAt(UserSchema, u, 9, isEmail);
    }
    if Get(u, "lang") != Undefined {
      PropertyValidAt(UserSchema, u, 23, isEmail);
    }
  }

  /** Each property schema of the user schema accepts exactly what `UserFieldOk` allows for its name. */
  lemma UserPropertyIff(j: nat, v: Value, isEmail: string -> bool)
    requires j < |UserSchema.properties|
    ensures Valid(UserSchema.properties[j].schema, v, isEmail) <==> UserFieldOk(UserSchema.properties[j].name, v, isEmail)
  {
    if j < 10 {
      UserPropertyIffLow(j, v, isEmail);
    } else {
      UserPropertyIffHigh(j, v, isEmail);
    }
  }

  lemma UserPropertyIffLow(j: nat, v: Value, isEmail: string -> bool)
    requires j < 10
    ensures Valid(UserSchema.properties[j].schema, v, isEmail) <==> UserFieldOk(UserSchema.properties[j].name, v, isEmail)
  {
    if j < 3 {
      UserPropertyIff0(j, v, isEmail);
    } else if j < 6 {
      UserPropertyIff3(j, v, isEmail);
    } else if j < 8 {
      UserPropertyIff6(j, v, isEmail);
    } else {
      UserPropertyIff8(j, v, isEmail);
    }
  }

  lemma UserPropertyIff0(j: nat, v: Value, isEmail: string -> bool)
    requires 0 <= j < 3
    ensures Valid(UserSchema.properties[j].schema, v, isEmail) <==> UserFieldOk(UserSchema.properties[j].name, v, isEmail)
  {
    var p := UserSchema.properties[j];
    if j == 0 {
      assert p == Property("createpassword", OfType(TNumber));
      OfTypeValid(TNumber, v, isEmail);
    } else if j == 1 {
      assert p == Property("username", OfType(TString).(minLength := Some(1), pattern := Some(NonWhitespace)));
    } else {
      assert p == Property("auth", OfType(TString));
      OfTypeValid(TString, v, isEmail);
    }
  }

  lemma UserPropertyIff3(j: nat, v: Value, isEmail: string -> bool)
    requires 3 <= j < 6
    ensures Valid(UserSchema.properties[j].schema, v, isEmail) <==> UserFieldOk(UserSchema.properties[j].name, v, isEmail)
  {
    var p := UserSchema.properties[j];
    if j == 3 {
      assert p == Property("password", OfType(TString));
      OfTypeValid(TString, v, isEmail);
    } else if j == 4 {
      assert p == Property("firstname", OfType(TString).(minLength := Some(1)));
    } else {
      assert p == Property("lastname", OfType(TString).(minLength := Some(1)));
    }
  }

  lemma UserPropertyIff6(j: nat, v: Value, isEmail: string -> bool)
    requires 6 <= j < 8
    ensures Valid(UserSchema.properties[j].schema, v, isEmail) <==> UserFieldOk(UserSchema.properties[j].name, v, isEmail)
  {
    var p := UserSchema.properties[j];
    if j == 6 {
      assert p == Property("email", OfType(TString).(emailFormat := true));
    } else {
      assert p == Property("maildisplay", OfType(TNumber).(enumNums := Some([0, 1])));
    }
  }

  lemma UserPropertyIff8(j: nat, v: Value, isEmail: string -> bool)
    requires 8 <= j < 10
    ensures Valid(UserSchema.properties[j].schema, v, isEmail) <==> UserFieldOk(UserSchema.properties[j].name, v, isEmail)
  {
    var p := UserSchema.properties[j];
    if j == 8 {
      assert p == Property("city", OfType(TString));
      OfTypeValid(TString, v, isEmail);
    } else {
      assert p == Property("country", OfType(TString).(minLength := Some(2), maxLength := Some(2)));
    }
  }

  lemma UserPropertyIffHigh(j: nat, v: Value, isEmail: string -> bool)
    requires 10 <= j < |UserSchema.properties|
    ensures Valid(UserSchema.properties[j].schema, v, isEmail) <==> UserFieldOk(UserSchema.properties[j].name, v, isEmail)
  {
    var p := UserSchema.properties[j];
    if j == 23 {
      assert p == Property("lang", OfType(TString).(minLength := Some(2)));
    } else if j == 26 {
      assert p == Property("mailformat", OfType(TNumber));
      OfTypeValid(TNumber, v, isEmail);
    } else if j == 27 {
      assert p == Property("customfields", Any.(typ := Some(TArray), items := Some(KeyValueSchema)));
      KeyValueListValid(v, isEmail);
    } else if j == 28 {
      assert p == Property("preferences", Any.(typ := Some(TArray), items := Some(KeyValueSchema)));
      KeyValueListValid(v, isEmail);
    } else {
      UserPlainStringField(j);
      OfTypeValid(TString, v, isEmail);
    }
  }

  /** The remaining fields are plain strings, under names `UserFieldOk` gives no special rule. */
  lemma UserPlainStringField(j: nat)
    requires 10 <= j < |UserSchema.properties| && j !in {23, 26, 27, 28}
    ensures UserSchema.properties[j].schema == OfType(TString)
    ensures UserSchema.properties[j].name !in
              {"username", "firstname", "lastname", "email", "maildisplay", "country", "lang",
               "createpassword", "mailformat", "customfields", "preferences"}
  {
    if j == 10 {} else if j == 11 {} else if j == 12 {} else if j == 13 {} else if j == 14 {}
    else if j == 15 {} else if j == 16 {} else if j == 17 {} else if j == 18 {} else if j == 19 {}
    else if j == 20 {} else if j == 21 {} else if j == 22 {} else if j == 24 {} else {}
  }

  /** The keywords of the user schema other than its property schemas. */
  lemma UserSchemaShape()
    ensures UserSchema.typ == Some(TObject) && UserSchema.enumNums.None? && UserSchema.anyOf == []
    ensures UserSchema.noAdditionalProperties
    ensures UserSchema.required == ["username", "firstname", "lastname", "email"]
  {
  }

  /**
   * An object schema with no other keywords accepts exactly the objects that have its
   * required properties, no others, and whose present properties satisfy their schemas.
   */
  lemma ClosedObjectValid(s: Schema, u: Value, isEmail: string -> bool)
    requires s.typ == Some(TObject) && s.enumNums.None? && s.anyOf == [] && s.noAdditionalProperties
    ensures Valid(s, u, isEmail)
        <==> && u.Obj?
             && RequiredPresent(s, u)
             && (forall i | 0 <= i < |u.members| :: u.members[i].0 in PropertyNames(s))
             && forall j | 0 <= j < |s.properties| ::
                  Get(u, s.properties[j].name) != Undefined ==> Valid(s.properties[j].schema, Get(u, s.properties[j].name), isEmail)
  {
  }

  /** The property clause of an object schema, read through the field rule for each name. */
  lemma PropertiesOkIff(s: Schema, names: seq<string>, u: Value, isEmail: string -> bool)
    requires PropertyNames(s) == names
    requires forall j, v | 0 <= j < |s.properties| ::
               Valid(s.properties[j].schema, v, isEmail) <==> UserFieldOk(s.properties[j].name, v, isEmail)
    ensures (forall j | 0 <= j < |s.properties| ::
               Get(u, s.properties[j].name) != Undefined ==> Valid(s.properties[j].schema, Get(u, s.properties[j].name), isEmail))
        <==> (forall j | 0 <= j < |names| ::
               Get(u, names[j]) != Undefined ==> UserFieldOk(names[j], Get(u, names[j]), isEmail))
  {
    assert |s.properties| == |names|;
    forall j | 0 <= j < |s.properties| ensures s.properties[j].name == names[j] {
      assert PropertyNames(s)[j] == s.properties[j].name;
    }
  }

  lemma RequiredUserFieldsPresent(s: Schema, u: Value)
    requires s.required == ["username", "firstname", "lastname", "email"]
    ensures RequiredPresent(s, u)
        <==> Get(u, "username") != Undefined && Get(u, "firstname") != Undefined
             && Get(u, "lastname") != Undefined && Get(u, "email") != Undefined
  {
    assert s.required[0] == "username" && s.required[1] == "firstname";
    assert s.required[2] == "lastname" && s.required[3] == "email";
  }

  /** The acceptance rule, for any schema with the user schema's shape. */
  lemma AcceptableIffValid(s: Schema, u: Value, isEmail: string -> bool)
    requires s.typ == Some(TObject) && s.enumNums.None? && s.anyOf == [] && s.noAdditionalProperties
    requires s.required == ["username", "firstname", "lastname", "email"]
    requires PropertyNames(s) == UserFieldNames
    requires forall j, v | 0 <= j < |s.properties| ::
               Valid(s.properties[j].schema, v, isEmail) <==> UserFieldOk(s.properties[j].name, v, isEmail)
    ensures Valid(s, u, isEmail) <==> UserAcceptable(u, isEmail)
  {
    ClosedObjectValid(s, u, isEmail);
    PropertiesOkIff(s, UserFieldNames, u, isEmail);
    RequiredUserFieldsPresent(s, u);
  }

  /** The user schema accepts exactly the acceptable users. */
  lemma UserValidAcceptable(u: Value, isEmail: string -> bool)
    ensures Valid(UserSchema, u, isEmail) <==> UserAcceptable(u, isEmail)
  {
    UserSchemaShape();
    UserSchemaNames();
    forall j, v | 0 <= j < |UserSchema.properties|
      ensures Valid(UserSchema.properties[j].schema, v, isEmail) <==> UserFieldOk(UserSchema.properties[j].name, v, isEmail)
    {
      UserPropertyIff(j, v, isEmail);
    }
    AcceptableIffValid(UserSchema, u, isEmail);
  }

  /** `{key: [...]}` against `{type: object, properties: {key: {type: array, items}}, required: [key], additionalProperties: false}`. */
  lemma SingleArrayArgsValid(s: Schema, key: string, item: Schema, xs: seq<Value>, isEmail: string -> bool)
    requires s == Any.(typ := Some(TObject), properties := [Property(key, Any.(typ := Some(TArray), items := Some(item)))],
                       required := [key], noAdditionalProperties := true)
    ensures Valid(s, Obj([(key, Arr(xs))]), isEmail) <==> forall i | 0 <= i < |xs| :: Valid(item, xs[i], isEmail)
  {
    var v := Obj([(key, Arr(xs))]);
    var items := Any.(typ := Some(TArray), items := Some(item));
    assert Get(v, key) == Arr(xs);
    assert PropertyNames(s) == [key];
    assert Valid(items, Arr(xs), isEmail) <==> forall i | 0 <= i < |xs| :: Valid(item, xs[i], isEmail);
    if Valid(s, v, isEmail) {
      PropertyValidAt(s, v, 0, isEmail);
    }
    if Valid(items, Arr(xs), isEmail) {
      assert ObjectValid(s, v, isEmail);
    }
  }

  /** Arguments pass input validation exactly when they hold only acceptable users. */
  lemma CreateUsersInputAccepted(users: seq<Value>, isEmail: string -> bool)
    ensures Valid(CreateUsersInputSchema, CreateUsersArgs(users), isEmail)
        <==> forall i | 0 <= i < |users| :: UserAcceptable(users[i], isEmail)
  {
    SingleArrayArgsValid(CreateUsersInputSchema, "users", UserSchema, users, isEmail);
    forall i | 0 <= i < |users|
      ensures Valid(UserSchema, users[i], isEmail) <==> UserAcceptable(users[i], isEmail)
    {
      UserValidAcceptable(users[i], isEmail);
    }
  }

  /** A user without a username, or with an empty one, is refused before any call. */
  lemma MissingUsernameRefused(users: seq<Value>, i: nat, isEmail: string -> bool)
    requires i < |users| && (Get(users[i], "username") == Undefined || Get(users[i], "username") == Str(""))
    ensures !Valid(CreateUsersInputSchema, CreateUsersArgs(users), isEmail)
  {
    assert UserFieldNames[1] == "username";
    assert !UserAcceptable(users[i], isEmail);
    CreateUsersInputAccepted(users, isEmail);
  }

  lemma JdoeFieldsValid(isEmail: string -> bool)
    requires isEmail("jdoe@example.org")
    ensures Valid(OfType(TString).(minLength := Some(1), pattern := Some(NonWhitespace)), Str("jdoe"), isEmail)
    ensures Valid(OfType(TString).(minLength := Some(1)), Str("John"), isEmail)
    ensures Valid(OfType(TString).(minLength := Some(1)), Str("Doe"), isEmail)
    ensures Valid(OfType(TString).(emailFormat := true), Str("jdoe@example.org"), isEmail)
  {
    assert Matches(NonWhitespace, "jdoe");
  }

  lemma JdoeLookups()
    ensures Get(JdoeUser, "username") == Str("jdoe")
    ensures Get(JdoeUser, "firstname") == Str("John")
    ensures Get(JdoeUser, "lastname") == Str("Doe")
    ensures Get(JdoeUser, "email") == Str("jdoe@example.org")
    ensures forall n :: Get(JdoeUser, n) != Undefined ==> n in {"username", "firstname", "lastname", "email"}
  {
    var members := JdoeUser.members;
    assert members[..3] == [("username", Str("jdoe")), ("firstname", Str("John")), ("lastname", Str("Doe"))];
    assert members[..3][..2] == [("username", Str("jdoe")), ("firstname", Str("John"))];
    assert members[..3][..2][..1] == [("username", Str("jdoe"))];
    assert Lookup(members[..3][..2][..1], "username") == Str("jdoe");
    assert Lookup(members[..3][..2], "username") == Str("jdoe");
    assert Lookup(members[..3][..2], "firstname") == Str("John");
    assert Lookup(members[..3], "username") == Str("jdoe");
    assert Lookup(members[..3], "firstname") == Str("John");
    assert Lookup(members[..3], "lastname") == Str("Doe");
    forall n | Get(JdoeUser, n) != Undefined
      ensures n in {"username", "firstname", "lastname", "email"}
    {
      var i :| 0 <= i < |members| && members[i] == (n, Get(JdoeUser, n));
    }
  }

  lemma JdoePropertyValid(j: nat, isEmail: string -> bool)
    requires isEmail("jdoe@example.org")
    requires j < |UserSchema.properties| && Get(JdoeUser, UserSchema.properties[j].name) != Undefined
    ensures Valid(UserSchema.properties[j].schema, Get(JdoeUser, UserSchema.properties[j].name), isEmail)
  {
    JdoeLookups();
    UserSchemaNames();
    assert UserSchema.properties[j].name == UserFieldNames[j];
    UserFieldAt(j);
    UserSchemaFacts();
    JdoeFieldsValid(isEmail);
    if j == 1 {
    } else if j == 4 {
    } else if j == 5 {
    } else {
      assert j == 6;
    }
  }

  /** The advertised example user satisfies the user schema. */
  lemma JdoeValid(isEmail: string -> bool)
    requires isEmail("jdoe@example.org")
    ensures Valid(UserSchema, JdoeUser, isEmail)
  {
    var s := UserSchema;
    assert RequiredPresent(s, JdoeUser) by {
      JdoeLookups();
      UserSchemaFacts();
    }
    assert NoExtraProperties(s, JdoeUser) by {
      UserSchemaNames();
    }
    forall j | 0 <= j < |s.properties| && Get(JdoeUser, s.properties[j].name) != Undefined
      ensures Valid(s.properties[j].schema, Get(JdoeUser, s.properties[j].name), isEmail)
    {
      JdoePropertyValid(j, isEmail);
    }
  }

  /** The examples the tools advertise satisfy their own input schemas. */
  lemma ExamplesValid(isEmail: string -> bool)
    requires isEmail("jdoe@example.org")
    ensures forall t | 0 <= t < |CoreUserTools| ::
              Valid(CoreUserTools[t].inputSchema, CoreUserTools[t].examples.value.minimal, isEmail)
  {
    DeleteUsersInputValid([Num(42)], isEmail);
    JdoeValid(isEmail);
    var v := CreateUsersArgs([JdoeUser]);
    var s := CreateUsersInputSchema;
    var items := Any.(typ := Some(TArray), items := Some(UserSchema));
    assert Get(v, "users") == Arr([JdoeUser]);
    assert s.properties[0] == Property("users", items);
    assert PropertyNames(s) == ["users"];
    assert [JdoeUser][0] == JdoeUser;
    assert ArrayValid(items, Arr([JdoeUser]), isEmail);
    assert items.typ == Some(TArray) && items.enumNums.None? && items.anyOf == [];
    assert HasType(Arr([JdoeUser]), TArray);
    assert ObjectValid(items, Arr([JdoeUser]), isEmail);
    assert AnyOfValid(items, Arr([JdoeUser]), isEmail);
    assert Valid(items, Arr([JdoeUser]), isEmail);
    assert ObjectValid(s, v, isEmail);
    assert CoreUserTools[0].examples.value.minimal == v;
    assert CoreUserTools[1].examples.value.minimal == DeleteUsersArgs([Num(42)]);
  }

  // ---------------------------------------------------------------- the helpers

  /**
   * What a helper throws: the validation error (code `VALIDATION_ERROR`), the invalid-reply
   * error naming the Moodle function, or the client's error passed through. Each message is
   * its prefix followed by `JSON.stringify(payload)`. A tenant URL that is not a string has
   * no `replace`, so the client throws a `TypeError` on its first line.
   */
  datatype ToolError =
    | ValidationFailure(payload: Payload)
    | InvalidResponse(functionName: string, payload: Payload)
    | ApiFailure(error: CallError)
    | UrlTypeError(message: string)

  const UrlReplaceMessage := "moodleUrl.replace is not a function"

  /** `options?: {signal?, timeoutMs?}` of the helpers. */
  datatype CallOptions = CallOptions(signal: Option<Signal>, timeoutMs: Option<int>)

  /** The helpers always POST and forward the caller's signal and timeout. */
  function PostOptions(options: CallOptions): (o: Options)
    ensures EffectiveMethod(o) == POST
    ensures o.signal == options.signal && TimeoutMs(o) == TimeoutMs(Options(None, None, options.timeoutMs))
  {
    Options(Some(POST), options.signal, options.timeoutMs)
  }

  /** The request the create helper sends. */
  function CreateUsersRequest(tenant: Tenant, users: seq<Value>, options: CallOptions): Request
  {
    BuildRequest(ToStr(tenant.moodleUrl), ToStr(tenant.moodleToken), CreateUsersFunction,
                 [("users", Arr(users))], PostOptions(options))
  }

  function DeleteUsersRequest(tenant: Tenant, userids: seq<Value>, options: CallOptions): Request
  {
    BuildRequest(ToStr(tenant.moodleUrl), ToStr(tenant.moodleToken), DeleteUsersFunction,
                 [("userids", Arr(userids))], PostOptions(options))
  }

  /** A helper's request names its Moodle function, carries the token and goes out as a POST. */
  lemma HelperRequestShape(tenant: Tenant, users: seq<Value>, userids: seq<Value>, options: CallOptions)
    ensures var r := CreateUsersRequest(tenant, users, options);
            && r.httpMethod == POST
            && r.params["wsfunction"] == CreateUsersFunction
            && r.params["wstoken"] == ToStr(tenant.moodleToken)
            && r.params["moodlewsrestformat"] == "json"
    ensures var r := DeleteUsersRequest(tenant, userids, options);
            && r.httpMethod == POST
            && r.params["wsfunction"] == DeleteUsersFunction
            && r.params["wstoken"] == ToStr(tenant.moodleToken)
            && r.params["moodlewsrestformat"] == "json"
  {
    FlattenKeysOfArray("users", users);
    FlattenKeysOfArray("userids", userids);
  }

  /** The helpers' only parameter name shares no prefix with a base parameter, so none is overridden. */
  lemma FlattenKeysOfArray(key: string, xs: seq<Value>)
    requires key == "users" || key == "userids"
    ensures "wsfunction" !in Flatten([(key, Arr(xs))])
    ensures "wstoken" !in Flatten([(key, Arr(xs))])
    ensures "moodlewsrestformat" !in Flatten([(key, Arr(xs))])
  {
    var params := [(key, Arr(xs))];
    forall k | k in {"wsfunction", "wstoken", "moodlewsrestformat"}
      ensures k !in Flatten(params)
    {
      FlattenKeysUnderParamNames(params, k);
      assert k[0] != key[0];
      assert !StartsWith(k, params[0].0);
    }
  }

  /**
   * `createUsers(tenant, users, options)`. `server`, `parse` and `isEmail` stand for the
   * network, `JSON.parse` and the email format check; `sent` records the requests made.
   */
  method CreateUsers(timers: TimerQueue, tenant: Tenant, users: seq<Value>, options: CallOptions,
                     server: Request -> FetchResult, parse: string -> Option<Value>, isEmail: string -> bool)
    returns (r: Result<Value, ToolError>, ghost sent: seq<Request>)
    requires timers.Valid()
    modifies timers
    ensures timers.Valid() && timers.pending == old(timers.pending)
    ensures !Valid(CreateUsersInputSchema, CreateUsersArgs(users), isEmail) ==>
              && sent == [] && timers.issued == old(timers.issued)
              && r.Failure? && r.error.ValidationFailure?
              && r.error.payload.tool == CreateUsersFunction
              && r.error.payload.allowedProperties == ["users"]
              && r.error.payload.fieldErrors != []
    ensures Valid(CreateUsersInputSchema, CreateUsersArgs(users), isEmail) && !tenant.moodleUrl.Str? ==>
              && sent == [] && timers.issued == old(timers.issued)
              && r == Failure(UrlTypeError(UrlReplaceMessage))
    ensures Valid(CreateUsersInputSchema, CreateUsersArgs(users), isEmail) && tenant.moodleUrl.Str? ==>
              && sent == [CreateUsersRequest(tenant, users, options)]
              && timers.issued == old(timers.issued) + (if OwnTimerDelay(PostOptions(options)).Some? then 1 else 0)
              && var out := Outcome(ExcerptInMessage, CreateUsersFunction, server(sent[0]), parse);
                 && (out.Failure? ==> r == Failure(ApiFailure(out.error)))
                 && (out.Success? && Valid(CreateUsersResponseSchema, out.value, isEmail) ==> r == Success(out.value))
                 && (out.Success? && !Valid(CreateUsersResponseSchema, out.value, isEmail) ==>
                       r.Failure? && r.error.InvalidResponse? && r.error.functionName == CreateUsersFunction
                       && r.error.payload.tool == CreateUsersFunction + ":response")
    ensures r.Success? ==> Valid(CreateUsersResponseSchema, r.value, isEmail)
  {
    var args := CreateUsersArgs(users);
    var check := ValidateSchema(CreateUsersInputSchema, args, isEmail);
    if !check.0 {
      var fakeSpec := ToolSpec(CreateUsersFunction, "", "", CreateUsersInputSchema, [], None);
      var payload := FormatValidationError(fakeSpec, check.1);
      r, sent := Failure(ValidationFailure(payload)), [];
      return;
    }
    if !tenant.moodleUrl.Str? {
      r, sent := Failure(UrlTypeError(UrlReplaceMessage)), [];
      return;
    }
    var request, resp, armed := CallMoodleApi(ExcerptInMessage, timers, ToStr(tenant.moodleUrl), ToStr(tenant.moodleToken),
                                              CreateUsersFunction, [("users", Arr(users))], PostOptions(options),
                                              server, parse);
    sent := [request];
    if resp.Failure? {
      r := Failure(ApiFailure(resp.error));
      return;
    }
    var replyCheck := ValidateSchema(CreateUsersResponseSchema, resp.value, isEmail);
    if !replyCheck.0 {
      var fakeSpec := ToolSpec(CreateUsersFunction + ":response", "", "", CreateUsersResponseSchema, [], None);
      var payload := FormatValidationError(fakeSpec, replyCheck.1);
      r := Failure(InvalidResponse(CreateUsersFunction, payload));
      return;
    }
    r := Success(resp.value);
  }

  /** `deleteUsers(tenant, userids, options)`; the validation payload is built against the schema `{type: "object"}`. */
  method DeleteUsers(timers: TimerQueue, tenant: Tenant, userids: seq<Value>, options: CallOptions,
                     server: Request -> FetchResult, parse: string -> Option<Value>, isEmail: string -> bool)
    returns (r: Result<Value, ToolError>, ghost sent: seq<Request>)
    requires timers.Valid()
    modifies timers
    ensures timers.Valid() && timers.pending == old(timers.pending)
    ensures !(|userids| >= 1 && forall i | 0 <= i < |userids| :: userids[i].Num?) ==>
              && sent == [] && timers.issued == old(timers.issued)
              && r.Failure? && r.error.ValidationFailure?
              && r.error.payload.tool == DeleteUsersFunction
              && r.error.payload.allowedProperties == []
              && r.error.payload.fieldErrors != []
    ensures (|userids| >= 1 && forall i | 0 <= i < |userids| :: userids[i].Num?) && !tenant.moodleUrl.Str? ==>
              && sent == [] && timers.issued == old(timers.issued)
              && r == Failure(UrlTypeError(UrlReplaceMessage))
    ensures (|userids| >= 1 && forall i | 0 <= i < |userids| :: userids[i].Num?) && tenant.moodleUrl.Str? ==>
              && sent == [DeleteUsersRequest(tenant, userids, options)]
              && timers.issued == old(timers.issued) + (if OwnTimerDelay(PostOptions(options)).Some? then 1 else 0)
              && var out := Outcome(ExcerptInMessage, DeleteUsersFunction, server(sent[0]), parse);
                 && (out.Failure? ==> r == Failure(ApiFailure(out.error)))
                 && (out.Success? && (out.value.Bool? || out.value.Obj?) ==> r == Success(out.value))
                 && (out.Success? && !(out.value.Bool? || out.value.Obj?) ==>
                       r.Failure? && r.error.InvalidResponse? && r.error.functionName == DeleteUsersFunction
                       && r.error.payload.tool == DeleteUsersFunction + ":response")
    ensures r.Success? ==> r.value.Bool? || r.value.Obj?
  {
    DeleteUsersInputValid(userids, isEmail);
    var args := DeleteUsersArgs(userids);
    var check := ValidateSchema(DeleteUsersInputSchema, args, isEmail);
    if !check.0 {
      var fakeSpec := ToolSpec(DeleteUsersFunction, "", "", OfType(TObject), [], None);
      var payload := FormatValidationError(fakeSpec, check.1);
      r, sent := Failure(ValidationFailure(payload)), [];
      return;
    }
    if !tenant.moodleUrl.Str? {
      r, sent := Failure(UrlTypeError(UrlReplaceMessage)), [];
      return;
    }
    var request, resp, armed := CallMoodleApi(ExcerptInMessage, timers, ToStr(tenant.moodleUrl), ToStr(tenant.moodleToken),
                                              DeleteUsersFunction, [("userids", Arr(userids))], PostOptions(options),
                                              server, parse);
    sent := [request];
    if resp.Failure? {
      r := Failure(ApiFailure(resp.error));
      return;
    }
    DeleteUsersResponseValid(resp.value, isEmail);
    var replyCheck := ValidateSchema(DeleteUsersResponseSchema, resp.value, isEmail);
    if !replyCheck.0 {
      var fakeSpec := ToolSpec(DeleteUsersFunction + ":response", "", "", DeleteUsersResponseSchema, [], None);
      var payload := FormatValidationError(fakeSpec, replyCheck.1);
      r := Failure(InvalidResponse(DeleteUsersFunction, payload));
      return;
    }
    r := Success(resp.value);
  }
}

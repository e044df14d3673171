/**
 * `fetchTenantFromPanel` after its `fetch`: the keys endpoint's reply (status and body)
 * decides between a tenant and an error.
 */
module Auth {
  import opened Prelude
  import opened Text
  import opened Js
  import opened Tools

  /** A tenant as received: url, token and the normalised role list, each exactly as the panel sent it. */
  datatype Tenant = Tenant(moodleUrl: Value, moodleToken: Value, moodleRoles: seq<Value>)

  /**
   * `AppError(message, statusCode)`, a plain `Error(message)`, or the rejection of
   * `res.json()` on a 200 reply whose body is not JSON.
   */
  datatype AuthError =
    | AppError(statusCode: int, message: string)
    | PlainError(message: string)
    | BodyNotJson

  /** The parts of the endpoint's response that are read; `bodyText` is "" when reading it fails. */
  datatype PanelReply = PanelReply(status: int, statusText: string, bodyText: string)

  const MissingFieldsMessage: string :=
    "Invalid response from MCP Keys endpoint (missing moodleUrl/moodleToken/moodleRoles)"
  const EmptyRolesMessage: string := "Invalid moodleRoles from MCP Keys endpoint: empty array"
  const InvalidRolePrefix: string := "Invalid moodleRoles from MCP Keys endpoint: "

  /** `typeof role === "string" && ALLOWED_ROLES_SET.has(role)`. */
  predicate AllowedRole(v: Value)
  {
    v.Str? && ParseRole(v.s).Some?
  }

  /** An array is used as it is, a string becomes a one-element list, anything else counts as missing. */
  function NormaliseRoles(raw: Value): (r: Option<seq<Value>>)
    ensures r.None? <==> !raw.Arr? && !raw.Str?
    ensures raw.Arr? ==> r == Some(raw.items)
    ensures raw.Str? ==> r == Some([raw])
  {
    if raw.Arr? then Some(raw.items)
    else if raw.Str? then Some([raw])
    else None
  }

  /** `roles.find(role => !allowed(role))`: the first disallowed element, if any. */
  function FindInvalid(roles: seq<Value>): (r: Option<Value>)
    ensures r.None? <==> forall i | 0 <= i < |roles| :: AllowedRole(roles[i])
    ensures r.Some? ==> exists i | 0 <= i < |roles| ::
              roles[i] == r.value && !AllowedRole(roles[i]) && forall k | 0 <= k < i :: AllowedRole(roles[k])
  {
    if roles == [] then None
    else if !AllowedRole(roles[0]) then Some(roles[0])
    else
      var r := FindInvalid(roles[1..]);
      FindInvalidShift(roles, r);
      r
  }

  /** The contract of `FindInvalid` carries over from the tail when the head is allowed. */
  lemma FindInvalidShift(roles: seq<Value>, r: Option<Value>)
    requires roles != [] && AllowedRole(roles[0])
    requires r.None? <==> forall i | 0 <= i < |roles[1..]| :: AllowedRole(roles[1..][i])
    requires r.Some? ==> exists i | 0 <= i < |roles[1..]| ::
               roles[1..][i] == r.value && !AllowedRole(roles[1..][i]) && forall k | 0 <= k < i :: AllowedRole(roles[1..][k])
    ensures r.None? <==> forall i | 0 <= i < |roles| :: AllowedRole(roles[i])
    ensures r.Some? ==> exists i | 0 <= i < |roles| ::
              roles[i] == r.value && !AllowedRole(roles[i]) && forall k | 0 <= k < i :: AllowedRole(roles[k])
  {
    if r.Some? {
      var i :| 0 <= i < |roles[1..]| && roles[1..][i] == r.value && !AllowedRole(roles[1..][i])
               && forall k | 0 <= k < i :: AllowedRole(roles[1..][k]);
      assert roles[i + 1] == r.value;
      forall k | 0 <= k < i + 1 ensures AllowedRole(roles[k]) {
        if k > 0 { assert roles[k] == roles[1..][k - 1]; }
      }
    } else {
      forall i | 0 <= i < |roles| ensures AllowedRole(roles[i]) {
        if i > 0 { assert roles[i] == roles[1..][i - 1]; }
      }
    }
  }

  /** The checks on a parsed 200 body, as written: an invalid role is rejected only when the element found is truthy. */
  function TenantFromBody(data: Value): (r: Result<Tenant, AuthError>)
    ensures var roles := NormaliseRoles(Get(data, "moodleRoles"));
            r.Success? <==> && Truthy(Get(data, "moodleUrl")) && Truthy(Get(data, "moodleToken"))
                            && roles.Some? && |roles.value| >= 1
                            && (FindInvalid(roles.value).None? || !Truthy(FindInvalid(roles.value).value))
  {
    var roles := NormaliseRoles(Get(data, "moodleRoles"));
    if !Truthy(Get(data, "moodleUrl")) || !Truthy(Get(data, "moodleToken")) || roles.None? then
      Failure(PlainError(MissingFieldsMessage))
    else if |roles.value| == 0 then Failure(PlainError(EmptyRolesMessage))
    else
      var invalid := FindInvalid(roles.value);
      if invalid.Some? && Truthy(invalid.value) then Failure(PlainError(InvalidRolePrefix + ToStr(invalid.value)))
      else Success(Tenant(Get(data, "moodleUrl"), Get(data, "moodleToken"), roles.value))
  }

  /** The status mapping around the body checks. `parse` stands for `res.json()`. */
  function FetchTenant(reply: PanelReply, parse: string -> Option<Value>): (r: Result<Tenant, AuthError>)
    ensures r.Success? ==> reply.status == 200
    ensures r.Failure? && r.error.AppError? <==> reply.status != 200
    ensures reply.status == 404 ==> r == Failure(AppError(404, "MCP Key not found"))
    ensures reply.status == 403 ==> r == Failure(AppError(403, "MCP Key forbidden"))
    ensures reply.status !in {200, 403, 404} ==>
              r == Failure(AppError(502, "MCP Keys endpoint error (" + IntToString(reply.status) + "): "
                                         + (if reply.bodyText != "" then reply.bodyText else reply.statusText)))
    ensures reply.status == 200 && parse(reply.bodyText).None? ==> r == Failure(BodyNotJson)
  {
    if reply.status == 200 then
      var data := parse(reply.bodyText);
      if data.None? then Failure(BodyNotJson) else TenantFromBody(data.value)
    else if reply.status == 404 then Failure(AppError(404, "MCP Key not found"))
    else if reply.status == 403 then Failure(AppError(403, "MCP Key forbidden"))
    else
      Failure(AppError(502, "MCP Keys endpoint error (" + IntToString(reply.status) + "): "
                            + (if reply.bodyText != "" then reply.bodyText else reply.statusText)))
  }

  /** A tenant carries exactly the url, token and normalised roles received, and at least one role. */
  lemma TenantFromBodySuccess(data: Value)
    requires TenantFromBody(data).Success?
    ensures var t := TenantFromBody(data).value;
            && t.moodleUrl == Get(data, "moodleUrl") && Truthy(t.moodleUrl)
            && t.moodleToken == Get(data, "moodleToken") && Truthy(t.moodleToken)
            && Some(t.moodleRoles) == NormaliseRoles(Get(data, "moodleRoles"))
            && |t.moodleRoles| >= 1
            && (FindInvalid(t.moodleRoles).None? || !Truthy(FindInvalid(t.moodleRoles).value))
  {
  }

  /** What is rejected, and with which plain message. */
  lemma TenantFromBodyFailure(data: Value)
    ensures var roles := NormaliseRoles(Get(data, "moodleRoles"));
            && ((!Truthy(Get(data, "moodleUrl")) || !Truthy(Get(data, "moodleToken")) || roles.None?)
                  ==> TenantFromBody(data) == Failure(PlainError(MissingFieldsMessage)))
            && ((Truthy(Get(data, "moodleUrl")) && Truthy(Get(data, "moodleToken")) && roles == Some([]))
                  ==> TenantFromBody(data) == Failure(PlainError(EmptyRolesMessage)))
            && (TenantFromBody(data).Failure? ==> TenantFromBody(data).error.PlainError?)
    ensures var roles := NormaliseRoles(Get(data, "moodleRoles"));
            (Truthy(Get(data, "moodleUrl")) && Truthy(Get(data, "moodleToken")) && roles.Some? && roles.value != []) ==>
              var invalid := FindInvalid(roles.value);
              && ((invalid.Some? && Truthy(invalid.value)) ==>
                    TenantFromBody(data) == Failure(PlainError(InvalidRolePrefix + ToStr(invalid.value))))
              && (invalid.None? ==> TenantFromBody(data).Success? && TenantFromBodyStrict(data).Success?)
  {
  }

  /** As written, a falsy invalid role found first hides the invalid roles after it: `["", "hacker"]` is accepted. */
  lemma FalsyInvalidRoleAccepted()
    ensures var data := Obj([("moodleUrl", Str("https://moodle.example")), ("moodleToken", Str("t0ken")),
                             ("moodleRoles", Arr([Str(""), Str("hacker")]))]);
            && TenantFromBody(data).Success?
            && Str("hacker") in TenantFromBody(data).value.moodleRoles
            && !AllowedRole(Str("hacker"))
  {
    var members := [("moodleUrl", Str("https://moodle.example")), ("moodleToken", Str("t0ken")),
                    ("moodleRoles", Arr([Str(""), Str("hacker")]))];
    assert members[..2] == [("moodleUrl", Str("https://moodle.example")), ("moodleToken", Str("t0ken"))];
    assert members[..2][..1] == [("moodleUrl", Str("https://moodle.example"))];
    assert Lookup(members, "moodleRoles") == Arr([Str(""), Str("hacker")]);
    assert Lookup(members[..2][..1], "moodleUrl") == Str("https://moodle.example");
    assert Lookup(members[..2], "moodleToken") == Str("t0ken");
    assert Lookup(members, "moodleToken") == Str("t0ken");
    assert Lookup(members, "moodleUrl") == Str("https://moodle.example");
    assert !AllowedRole(Str(""));
    assert FindInvalid([Str(""), Str("hacker")]) == Some(Str(""));
  }

  /** The evidently intended check: any disallowed role is rejected, whatever its truthiness. */
  function TenantFromBodyStrict(data: Value): (r: Result<Tenant, AuthError>)
    ensures r.Success? ==> forall i | 0 <= i < |r.value.moodleRoles| :: AllowedRole(r.value.moodleRoles[i])
    ensures r.Success? ==> |r.value.moodleRoles| >= 1
    ensures r.Failure? ==> r.error.PlainError?
    ensures var roles := NormaliseRoles(Get(data, "moodleRoles"));
            r.Success? <==> && Truthy(Get(data, "moodleUrl")) && Truthy(Get(data, "moodleToken"))
                            && roles.Some? && |roles.value| >= 1
                            && forall i | 0 <= i < |roles.value| :: AllowedRole(roles.value[i])
    ensures r.Success? ==> r.value == Tenant(Get(data, "moodleUrl"), Get(data, "moodleToken"),
                                             NormaliseRoles(Get(data, "moodleRoles")).value)
    ensures var roles := NormaliseRoles(Get(data, "moodleRoles"));
            (Truthy(Get(data, "moodleUrl")) && Truthy(Get(data, "moodleToken")) && roles.Some? && roles.value != []
             && FindInvalid(roles.value).Some?) ==>
              r == Failure(PlainError(InvalidRolePrefix + ToStr(FindInvalid(roles.value).value)))
  {
    var roles := NormaliseRoles(Get(data, "moodleRoles"));
    if !Truthy(Get(data, "moodleUrl")) || !Truthy(Get(data, "moodleToken")) || roles.None? then
      Failure(PlainError(MissingFieldsMessage))
    else if |roles.value| == 0 then Failure(PlainError(EmptyRolesMessage))
    else
      var invalid := FindInvalid(roles.value);
      if invalid.Some? then Failure(PlainError(InvalidRolePrefix + ToStr(invalid.value)))
      else Success(Tenant(Get(data, "moodleUrl"), Get(data, "moodleToken"), roles.value))
  }

  /** The two checks agree whenever the panel sends no falsy role (for instance, only non-empty strings). */
  lemma StrictAgreesWithoutFalsyRoles(data: Value)
    requires var roles := NormaliseRoles(Get(data, "moodleRoles"));
             roles.Some? ==> forall i | 0 <= i < |roles.value| :: Truthy(roles.value[i])
    ensures TenantFromBodyStrict(data) == TenantFromBody(data)
  {
    var roles := NormaliseRoles(Get(data, "moodleRoles"));
    if roles.Some? && |roles.value| > 0 {
      var invalid := FindInvalid(roles.value);
      if invalid.Some? {
        var i :| 0 <= i < |roles.value| && roles.value[i] == invalid.value && !AllowedRole(roles.value[i])
                 && forall k | 0 <= k < i :: AllowedRole(roles.value[k]);
        assert Truthy(invalid.value);
      }
    }
  }

  /** `fetchTenantFromPanel` with the intended role check. */
  function FetchTenantStrict(reply: PanelReply, parse: string -> Option<Value>): (r: Result<Tenant, AuthError>)
    ensures r.Success? ==> reply.status == 200
    ensures r.Success? ==> forall i | 0 <= i < |r.value.moodleRoles| :: AllowedRole(r.value.moodleRoles[i])
    ensures reply.status != 200 ==> r == FetchTenant(reply, parse)
  {
    if reply.status == 200 then
      var data := parse(reply.bodyText);
      if data.None? then Failure(BodyNotJson) else TenantFromBodyStrict(data.value)
    else FetchTenant(reply, parse)
  }
}

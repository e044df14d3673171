/** Roles and tool specifications shared by the registry, the validators and the exporter. */
module Tools {
  import opened Prelude
  import opened Js
  import opened Schema

  /** The closed role enumeration, from most to least privileged. */
  datatype Role = Admin | Manager | EditingTeacher | Teacher | Student | User

  function RoleName(r: Role): (s: string)
    ensures ParseRole(s) == Some(r)
  {
    match r
    case Admin => "admin"
    case Manager => "manager"
    case EditingTeacher => "editingteacher"
    case Teacher => "teacher"
    case Student => "student"
    case User => "user"
  }

  /** Membership in the allowed role set, as a lookup by name. */
  function ParseRole(s: string): Option<Role>
  {
    if s == "admin" then Some(Admin)
    else if s == "manager" then Some(Manager)
    else if s == "editingteacher" then Some(EditingTeacher)
    else if s == "teacher" then Some(Teacher)
    else if s == "student" then Some(Student)
    else if s == "user" then Some(User)
    else None
  }

  /** `examples` of a tool: `typical` is `Undefined` when the tool gives none. */
  datatype Examples = Examples(minimal: Value, typical: Value)

  datatype ToolSpec = ToolSpec(
    name: string,
    moodleFunction: string,
    description: string,
    inputSchema: Schema,
    allowedRoles: seq<Role>,
    examples: Option<Examples>)
}

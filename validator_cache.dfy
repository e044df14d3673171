/**
 * `validateToolArgs`: validators are compiled once per tool name and memoised. The
 * compiled validator is represented by the schema it was compiled from.
 */
module ValidatorCache {
  import opened Prelude
  import opened Js
  import opened Schema
  import opened Tools

  class ValidatorCache {
    /** The `compiled` memo: tool name to the schema its validator was compiled from. */
    var compiled: map<string, Schema>
    /** How many times `ajv.compile` has run. */
    var compilations: nat

    constructor ()
      ensures compiled == map[] && compilations == 0
    {
      compiled := map[];
      compilations := 0;
    }

    /**
     * Compiles on a miss only, keyed by name alone: a later spec with the same name but
     * another schema is checked against the first one. Other entries never change.
     */
    method ValidateToolArgs(spec: ToolSpec, args: Value, isEmail: string -> bool)
      returns (ok: bool, errors: Option<seq<ErrorObject>>)
      modifies this
      ensures spec.name in old(compiled) ==> compiled == old(compiled) && compilations == old(compilations)
      ensures spec.name !in old(compiled) ==>
                compiled == old(compiled)[spec.name := spec.inputSchema] && compilations == old(compilations) + 1
      ensures spec.name in compiled
      ensures ok <==> Valid(compiled[spec.name], args, isEmail)
      ensures (ok, errors) == ValidateSchema(compiled[spec.name], args, isEmail)
    {
      if spec.name !in compiled {
        compiled := compiled[spec.name := spec.inputSchema];
        compilations := compilations + 1;
      }
      var validate := compiled[spec.name];
      var result := ValidateSchema(validate, args, isEmail);
      ok, errors := result.0, result.1;
    }
  }
}

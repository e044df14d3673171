/** The tool registry: `createToolMap` and the catalogue concatenation. */
module ToolRegistry {
  import opened Prelude
  import opened Js
  import opened Schema
  import opened Tools
  import opened UserTools

  predicate DistinctNames(tools: seq<ToolSpec>)
  {
    forall i, j | 0 <= i < j < |tools| :: tools[i].name != tools[j].name
  }

  function NameSet(tools: seq<ToolSpec>): set<string>
  {
    set i | 0 <= i < |tools| :: tools[i].name
  }

  /** `j` is the first position whose name already occurred before it. */
  predicate FirstRepeatAt(tools: seq<ToolSpec>, j: nat)
  {
    j < |tools| && DistinctNames(tools[..j]) && tools[j].name in NameSet(tools[..j])
  }

  lemma ExtendDistinct(tools: seq<ToolSpec>, i: nat)
    requires i < |tools| && DistinctNames(tools[..i]) && tools[i].name !in NameSet(tools[..i])
    ensures DistinctNames(tools[..i + 1])
    ensures NameSet(tools[..i + 1]) == NameSet(tools[..i]) + {tools[i].name}
  {
    assert tools[..i + 1] == tools[..i] + [tools[i]];
  }

  lemma RepeatBreaksDistinct(tools: seq<ToolSpec>, i: nat)
    requires i < |tools| && tools[i].name in NameSet(tools[..i])
    ensures !DistinctNames(tools)
  {
    var k :| 0 <= k < i && tools[..i][k].name == tools[i].name;
    assert tools[k].name == tools[i].name;
  }

  /**
   * `createToolMap`: fails with `Duplicate tool name: N` exactly when two tools share a
   * name, N being the name at the first repeat; otherwise maps every name to its tool.
   */
  method CreateToolMap(tools: seq<ToolSpec>) returns (r: Result<map<string, ToolSpec>, string>)
    ensures r.Success? <==> DistinctNames(tools)
    ensures r.Success? ==>
              && r.value.Keys == NameSet(tools)
              && |r.value| == |tools|
              && forall i | 0 <= i < |tools| :: r.value[tools[i].name] == tools[i]
    ensures r.Failure? ==>
              exists j | 0 <= j < |tools| :: FirstRepeatAt(tools, j) && r.error == "Duplicate tool name: " + tools[j].name
  {
    var m: map<string, ToolSpec> := map[];
    var i := 0;
    while i < |tools|
      invariant 0 <= i <= |tools|
      invariant DistinctNames(tools[..i])
      invariant m.Keys == NameSet(tools[..i])
      invariant |m| == i
      invariant forall k | 0 <= k < i :: tools[k].name in m && m[tools[k].name] == tools[k]
    {
      var t := tools[i];
      if t.name in m {
        RepeatBreaksDistinct(tools, i);
        assert FirstRepeatAt(tools, i);
        return Failure("Duplicate tool name: " + t.name);
      }
      ExtendDistinct(tools, i);
      ghost var before := m;
      m := m[t.name := t];
      forall k | 0 <= k < i + 1 ensures tools[k].name in m && m[tools[k].name] == tools[k] {
        if k < i {
          assert tools[k].name in before;
        }
      }
      i := i + 1;
    }
    assert tools[..i] == tools;
    return Success(m);
  }

  // ---------------------------------------------------------------- the catalogue

  /** `core_course_tools`: no arguments at all. */
  const CourseTools: seq<ToolSpec> := [
    ToolSpec("core_course_get_courses", "core_course_get_courses", "Gets the list of available courses in Moodle.",
             Any.(typ := Some(TObject), noAdditionalProperties := true), [Admin, Manager],
             Some(Examples(Obj([]), Undefined)))]

  /** `core_enrol_tools`. */
  const EnrolTools: seq<ToolSpec> := [
    ToolSpec("core_enrol_get_users_courses", "core_enrol_get_users_courses",
             "Returns the list of courses the given user is enrolled in.",
             Any.(typ := Some(TObject), properties := [Property("userid", OfType(TInteger))],
                  required := ["userid"], noAdditionalProperties := true),
             [Admin, Manager, EditingTeacher, Teacher, Student],
             Some(Examples(Obj([("userid", Num(123))]), Undefined)))]

  /** The names of the catalogues defined in this model. */
  const KnownNames: set<string> :=
    {"core_course_get_courses", "core_enrol_get_users_courses", "core_user_create_users", "core_user_delete_users"}

  /**
   * `ALL_TOOLS`: the five catalogues in order. The webservice and calendar catalogues are
   * parameters, as their contents are not part of this model.
   */
  function AllTools(webservice: seq<ToolSpec>, calendar: seq<ToolSpec>): (all: seq<ToolSpec>)
    ensures |all| == |webservice| + |calendar| + 4
    ensures all[..|webservice|] == webservice
    ensures all[|webservice|..|webservice| + |calendar|] == calendar
    ensures all[|all| - 4..] == CourseTools + EnrolTools + CoreUserTools
  {
    var all := webservice + calendar + CourseTools + EnrolTools + CoreUserTools;
    assert all[..|webservice|] == webservice;
    assert all[|webservice|..|webservice| + |calendar|] == calendar;
    assert all[|all| - 4..] == CourseTools + EnrolTools + CoreUserTools;
    all
  }

  /** The known catalogues have four distinct names. */
  lemma KnownToolsDistinct()
    ensures DistinctNames(CourseTools + EnrolTools + CoreUserTools)
    ensures NameSet(CourseTools + EnrolTools + CoreUserTools) == KnownNames
  {
    var known := CourseTools + EnrolTools + CoreUserTools;
    assert known[0].name == "core_course_get_courses";
    assert known[1].name == "core_enrol_get_users_courses";
    assert known[2].name == "core_user_create_users";
    assert known[3].name == "core_user_delete_users";
  }

  /**
   * `ALL_TOOLS` has distinct names, so `createToolMap(ALL_TOOLS)` succeeds, exactly when the
   * webservice and calendar catalogues together have distinct names, none of them one of the
   * four known names.
   */
  lemma AllToolsDistinctIff(webservice: seq<ToolSpec>, calendar: seq<ToolSpec>)
    ensures DistinctNames(AllTools(webservice, calendar))
        <==> DistinctNames(webservice + calendar) && NameSet(webservice + calendar) !! KnownNames
  {
    var front := webservice + calendar;
    var known := CourseTools + EnrolTools + CoreUserTools;
    var all := AllTools(webservice, calendar);
    KnownToolsDistinct();
    assert all == front + known;
    DistinctAppendIff(front, known);
  }

  /** Two lists together have distinct names exactly when each has and their name sets are disjoint. */
  lemma DistinctAppendIff(xs: seq<ToolSpec>, ys: seq<ToolSpec>)
    ensures DistinctNames(xs + ys)
        <==> DistinctNames(xs) && DistinctNames(ys) && NameSet(xs) !! NameSet(ys)
  {
    var zs := xs + ys;
    if DistinctNames(zs) {
      assert DistinctNames(xs) by {
        forall i, j | 0 <= i < j < |xs| ensures xs[i].name != xs[j].name {
          assert zs[i] == xs[i] && zs[j] == xs[j];
        }
      }
      assert DistinctNames(ys) by {
        forall i, j | 0 <= i < j < |ys| ensures ys[i].name != ys[j].name {
          assert zs[|xs| + i] == ys[i] && zs[|xs| + j] == ys[j];
        }
      }
      forall n | n in NameSet(xs) ensures n !in NameSet(ys) {
        var i :| 0 <= i < |xs| && xs[i].name == n;
        forall j | 0 <= j < |ys| ensures ys[j].name != n {
          assert zs[i] == xs[i] && zs[|xs| + j] == ys[j];
        }
      }
    }
    if DistinctNames(xs) && DistinctNames(ys) && NameSet(xs) !! NameSet(ys) {
      forall i, j | 0 <= i < j < |zs| ensures zs[i].name != zs[j].name {
        if j < |xs| {
          assert zs[i] == xs[i] && zs[j] == xs[j];
        } else if i >= |xs| {
          assert zs[i] == ys[i - |xs|] && zs[j] == ys[j - |xs|];
        } else {
          assert zs[i] == xs[i] && zs[j] == ys[j - |xs|];
          assert zs[i].name in NameSet(xs) && zs[j].name in NameSet(ys);
        }
      }
    }
  }
}

/**
 * The offline exporter that turns the tool catalogue into the plugin's service
 * definitions: one service per role tier, each listing the Moodle functions that tier
 * may call, written out as a PHP array. Reading the tool sources and writing the
 * file are not modelled; the exporter starts here from the extracted specs.
 */
module ExportFunctions {
  import opened Prelude
  import opened Text

  /** What is extracted from one tool: its Moodle function and its role names. */
  datatype FunctionSpec = FunctionSpec(moodleFunction: string, allowedRoles: seq<string>)

  /** The role names from most to least privileged; tier `k` is `Roles[k]`. */
  const Roles: seq<string> := ["admin", "manager", "editingteacher", "teacher", "student", "user"]

  /** The services, tier by tier, in the order the record is built and the PHP is written. */
  const ServiceOrder: seq<string> :=
    ["moodlemcp_admin", "moodlemcp_manager", "moodlemcp_editingteacher",
     "moodlemcp_teacher", "moodlemcp_student", "moodlemcp_user"]

  // ---------------------------------------------------------------- tiers

  /**
   * The tier of the least privileged role listed, found by checking user, student,
   * teacher, editingteacher, manager and admin in that order; `None` when no role name is known.
   */
  function LowestTier(roles: seq<string>): (t: Option<nat>)
    ensures t.Some? <==> exists k | 0 <= k < |Roles| :: Roles[k] in roles
    ensures t.Some? ==> t.value < |Roles| && Roles[t.value] in roles
    ensures t.Some? ==> forall k | t.value < k < |Roles| :: Roles[k] !in roles
  {
    if "user" in roles then assert Roles[5] in roles; Some(5)
    else if "student" in roles then assert Roles[4] in roles; Some(4)
    else if "teacher" in roles then assert Roles[3] in roles; Some(3)
    else if "editingteacher" in roles then assert Roles[2] in roles; Some(2)
    else if "manager" in roles then assert Roles[1] in roles; Some(1)
    else if "admin" in roles then assert Roles[0] in roles; Some(0)
    else None
  }

  /** A function with these roles goes into tier `s`: its own tier and every more privileged one. */
  predicate InTier(s: nat, roles: seq<string>)
  {
    LowestTier(roles).Some? && s <= LowestTier(roles).value
  }

  /** The names a tier should list. */
  function TierNames(fns: seq<FunctionSpec>, s: nat): set<string>
  {
    set i | 0 <= i < |fns| && InTier(s, fns[i].allowedRoles) :: fns[i].moodleFunction
  }

  /** Upward closure: every function of a tier is also in each more privileged tier. */
  lemma TiersClosedUpward(fns: seq<FunctionSpec>, s: nat, higher: nat)
    requires higher <= s
    ensures TierNames(fns, s) <= TierNames(fns, higher)
  {
    forall f | f in TierNames(fns, s) ensures f in TierNames(fns, higher) {
      var i :| 0 <= i < |fns| && InTier(s, fns[i].allowedRoles) && fns[i].moodleFunction == f;
      assert InTier(higher, fns[i].allowedRoles);
    }
  }

  /** The admin tier holds exactly the functions that list at least one known role. */
  lemma AdminTierHoldsEveryRecognised(fns: seq<FunctionSpec>, f: string)
    ensures f in TierNames(fns, 0)
        <==> exists i | 0 <= i < |fns| :: fns[i].moodleFunction == f
               && exists k | 0 <= k < |Roles| :: Roles[k] in fns[i].allowedRoles
  {
    if f in TierNames(fns, 0) {
      var i :| 0 <= i < |fns| && InTier(0, fns[i].allowedRoles) && fns[i].moodleFunction == f;
      assert exists k | 0 <= k < |Roles| :: Roles[k] in fns[i].allowedRoles;
    }
    if exists i | 0 <= i < |fns| :: fns[i].moodleFunction == f
         && exists k | 0 <= k < |Roles| :: Roles[k] in fns[i].allowedRoles {
      var i :| 0 <= i < |fns| && fns[i].moodleFunction == f
               && exists k | 0 <= k < |Roles| :: Roles[k] in fns[i].allowedRoles;
      assert InTier(0, fns[i].allowedRoles);
    }
  }

  /** A function whose roles are all unknown names is in no tier. */
  lemma UnknownRolesInNoTier(roles: seq<string>, s: nat)
    requires forall k | 0 <= k < |Roles| :: Roles[k] !in roles
    ensures !InTier(s, roles)
  {
  }

  /** The tier of a role list is decided by its least privileged role alone: the enrolment tool's roles reach the first five services. */
  lemma StudentRolesReachFiveServices(s: nat)
    ensures InTier(s, ["admin", "manager", "editingteacher", "teacher", "student"]) <==> s <= 4
    ensures InTier(s, ["admin", "manager"]) <==> s <= 1
  {
    var five := ["admin", "manager", "editingteacher", "teacher", "student"];
    assert five[4] == "student";
    assert "user" !in five;
    var two := ["admin", "manager"];
    assert two[1] == "manager";
    assert "user" !in two && "student" !in two && "teacher" !in two && "editingteacher" !in two;
  }

  // ---------------------------------------------------------------- order

  /** JavaScript's default string order: a proper prefix first, else the first differing character decides. */
  predicate LexLess(a: string, b: string)
    decreases |a|
  {
    if |a| == 0 then |b| > 0
    else if |b| == 0 then false
    else if a[0] != b[0] then a[0] < b[0]
    else LexLess(a[1..], b[1..])
  }

  lemma {:induction false} LexLessIrreflexive(a: string)
    ensures !LexLess(a, a)
    decreases |a|
  {
    if |a| > 0 {
      LexLessIrreflexive(a[1..]);
    }
  }

  lemma {:induction false} LexLessTransitive(a: string, b: string, c: string)
    requires LexLess(a, b) && LexLess(b, c)
    ensures LexLess(a, c)
    decreases |a|
  {
    if |a| > 0 && a[0] == b[0] && b[0] == c[0] {
      LexLessTransitive(a[1..], b[1..], c[1..]);
    }
  }

  lemma {:induction false} LexLessTotal(a: string, b: string)
    requires a != b
    ensures LexLess(a, b) || LexLess(b, a)
    decreases |a|
  {
    if |a| > 0 && |b| > 0 && a[0] == b[0] {
      assert a == [a[0]] + a[1..] && b == [b[0]] + b[1..];
      LexLessTotal(a[1..], b[1..]);
    }
  }

  /** Strictly ascending, hence also free of duplicates. */
  predicate Sorted(xs: seq<string>)
  {
    forall i, j | 0 <= i < j < |xs| :: LexLess(xs[i], xs[j])
  }

  predicate NoDup(xs: seq<string>)
  {
    forall i, j | 0 <= i < j < |xs| :: xs[i] != xs[j]
  }

  lemma SortedNoDup(xs: seq<string>)
    requires Sorted(xs)
    ensures NoDup(xs)
  {
    forall i, j | 0 <= i < j < |xs| ensures xs[i] != xs[j] {
      LexLessIrreflexive(xs[i]);
    }
  }

  function Elements(xs: seq<string>): set<string>
  {
    set x | x in xs
  }

  /** Placing `x` into a sorted list that lacks it. */
  function Insert(x: string, xs: seq<string>): (r: seq<string>)
    requires Sorted(xs) && x !in xs
    ensures Sorted(r)
    ensures multiset(r) == multiset(xs) + multiset{x}
  {
    if xs == [] then [x]
    else if LexLess(x, xs[0]) then
      InsertFront(x, xs);
      [x] + xs
    else
      var rest := Insert(x, xs[1..]);
      InsertBehind(x, xs, rest);
      [xs[0]] + rest
  }

  lemma InsertFront(x: string, xs: seq<string>)
    requires Sorted(xs) && xs != [] && LexLess(x, xs[0])
    ensures Sorted([x] + xs)
  {
    var r := [x] + xs;
    forall i, j | 0 <= i < j < |r| ensures LexLess(r[i], r[j]) {
      if i == 0 && j > 1 {
        LexLessTransitive(x, xs[0], xs[j - 1]);
      }
    }
  }

  lemma InsertBehind(x: string, xs: seq<string>, rest: seq<string>)
    requires Sorted(xs) && xs != [] && x !in xs && !LexLess(x, xs[0])
    requires Sorted(rest) && multiset(rest) == multiset(xs[1..]) + multiset{x}
    ensures Sorted([xs[0]] + rest)
    ensures multiset([xs[0]] + rest) == multiset(xs) + multiset{x}
  {
    LexLessTotal(x, xs[0]);
    var r := [xs[0]] + rest;
    forall j | 0 <= j < |rest| ensures LexLess(xs[0], rest[j]) {
      assert rest[j] in multiset(rest);
      if rest[j] != x {
        assert rest[j] in multiset(xs[1..]);
        var k :| 0 <= k < |xs[1..]| && xs[1..][k] == rest[j];
        assert xs[k + 1] == rest[j];
      }
    }
    forall i, j | 0 <= i < j < |r| ensures LexLess(r[i], r[j]) {
      if i > 0 {
        assert r[i] == rest[i - 1] && r[j] == rest[j - 1];
      }
    }
    assert xs == [xs[0]] + xs[1..];
  }

  /** `Array.from(set).sort()` on the insertion-ordered, duplicate-free contents of a `Set`. */
  function SortStrings(xs: seq<string>): (r: seq<string>)
    requires NoDup(xs)
    ensures Sorted(r)
    ensures multiset(r) == multiset(xs)
  {
    if xs == [] then []
    else
      var init, last := xs[..|xs| - 1], xs[|xs| - 1];
      assert xs == init + [last];
      var sorted := SortStrings(init);
      assert last !in multiset(init);
      Insert(last, sorted)
  }

  /** Sorting keeps exactly the elements. */
  lemma SortStringsElements(xs: seq<string>)
    requires NoDup(xs)
    ensures Elements(SortStrings(xs)) == Elements(xs)
  {
    var r := SortStrings(xs);
    forall x ensures x in r <==> x in xs {
      assert x in r <==> x in multiset(r);
      assert x in xs <==> x in multiset(xs);
    }
  }

  // ---------------------------------------------------------------- groupByService

  /** `Set.prototype.add`: appends an element not yet present. */
  function SetAdd(xs: seq<string>, x: string): (r: seq<string>)
    requires NoDup(xs)
    ensures NoDup(r) && Elements(r) == Elements(xs) + {x}
  {
    if x in xs then xs else xs + [x]
  }

  lemma TierNamesExtend(fns: seq<FunctionSpec>, i: nat, s: nat)
    requires i < |fns|
    ensures TierNames(fns[..i + 1], s)
         == TierNames(fns[..i], s) + (if InTier(s, fns[i].allowedRoles) then {fns[i].moodleFunction} else {})
  {
    var a, b := fns[..i + 1], fns[..i];
    forall f | f in TierNames(a, s)
      ensures f in TierNames(b, s) + (if InTier(s, fns[i].allowedRoles) then {fns[i].moodleFunction} else {})
    {
      var j :| 0 <= j < |a| && InTier(s, a[j].allowedRoles) && a[j].moodleFunction == f;
      if j < i {
        assert b[j] == a[j];
      }
    }
    forall f | f in TierNames(b, s) ensures f in TierNames(a, s) {
      var j :| 0 <= j < |b| && InTier(s, b[j].allowedRoles) && b[j].moodleFunction == f;
      assert a[j] == b[j];
    }
    if InTier(s, fns[i].allowedRoles) {
      assert a[i] == fns[i];
    }
  }

  lemma ServiceNamesDistinct()
    ensures NoDup(ServiceOrder)
  {
    forall i, j | 0 <= i < j < |ServiceOrder| ensures ServiceOrder[i] != ServiceOrder[j] {
      assert |ServiceOrder[i]| != |ServiceOrder[j]| || ServiceOrder[i][10] != ServiceOrder[j][10];
    }
  }

  /** Each tier's list after adding one function: unchanged unless the function reaches the tier. */
  lemma TierStep(functions: seq<FunctionSpec>, i: nat, before: seq<string>, after: seq<string>, k: nat)
    requires i < |functions| && NoDup(before) && Elements(before) == TierNames(functions[..i], k)
    requires after == if InTier(k, functions[i].allowedRoles) then SetAdd(before, functions[i].moodleFunction) else before
    ensures NoDup(after) && Elements(after) == TierNames(functions[..i + 1], k)
  {
    TierNamesExtend(functions, i, k);
  }

  /** The first loop of `groupByService`: one insertion-ordered `Set` per tier, filled function by function. */
  method CollectTiers(functions: seq<FunctionSpec>) returns (sets: seq<seq<string>>)
    ensures |sets| == |ServiceOrder|
    ensures forall k | 0 <= k < |sets| :: NoDup(sets[k]) && Elements(sets[k]) == TierNames(functions, k)
  {
    sets := [[], [], [], [], [], []];
    var i := 0;
    while i < |functions|
      invariant 0 <= i <= |functions|
      invariant |sets| == |ServiceOrder|
      invariant forall k | 0 <= k < |sets| :: NoDup(sets[k]) && Elements(sets[k]) == TierNames(functions[..i], k)
    {
      var fn := functions[i];
      var tier := LowestTier(fn.allowedRoles);
      ghost var before := sets;
      if tier.Some? {
        sets := seq(|ServiceOrder|, k requires 0 <= k < |ServiceOrder| =>
                  if k <= tier.value then SetAdd(sets[k], fn.moodleFunction) else sets[k]);
      }
      forall k | 0 <= k < |sets|
        ensures NoDup(sets[k]) && Elements(sets[k]) == TierNames(functions[..i + 1], k)
      {
        TierStep(functions, i, before[k], sets[k], k);
      }
      i := i + 1;
    }
    assert functions[..i] == functions;
  }

  /**
   * `groupByService`: each service lists, sorted and without duplicates, exactly the
   * functions of its tier.
   */
  method GroupByService(functions: seq<FunctionSpec>) returns (services: map<string, seq<string>>)
    ensures services.Keys == Elements(ServiceOrder)
    ensures forall k | 0 <= k < |ServiceOrder| ::
              Sorted(services[ServiceOrder[k]]) && Elements(services[ServiceOrder[k]]) == TierNames(functions, k)
  {
    var sets := CollectTiers(functions);
    ServiceNamesDistinct();
    services := SortedRecord(ServiceOrder, sets);
    forall j | 0 <= j < |ServiceOrder|
      ensures Elements(services[ServiceOrder[j]]) == TierNames(functions, j)
    {
      SortStringsElements(sets[j]);
    }
  }

  /** The second loop of `groupByService`: each service's `Set` becomes a sorted array under its name. */
  method SortedRecord(names: seq<string>, sets: seq<seq<string>>) returns (record: map<string, seq<string>>)
    requires NoDup(names) && |sets| == |names|
    requires forall k | 0 <= k < |sets| :: NoDup(sets[k])
    ensures record.Keys == Elements(names)
    ensures forall k | 0 <= k < |names| :: record[names[k]] == SortStrings(sets[k]) && Sorted(record[names[k]])
  {
    record := map[];
    var k := 0;
    while k < |names|
      invariant 0 <= k <= |names|
      invariant record.Keys == Elements(names[..k])
      invariant forall j | 0 <= j < k :: record[names[j]] == SortStrings(sets[j])
    {
      record := record[names[k] := SortStrings(sets[k])];
      assert names[..k + 1] == names[..k] + [names[k]];
      k := k + 1;
    }
    assert names[..k] == names;
  }

  // ---------------------------------------------------------------- de-duplication

  function FunctionNames(fns: seq<FunctionSpec>): (names: seq<string>)
    ensures |names| == |fns| && forall i | 0 <= i < |fns| :: names[i] == fns[i].moodleFunction
  {
    seq(|fns|, i requires 0 <= i < |fns| => fns[i].moodleFunction)
  }

  /** The last spec for `name`: the one a `Map` keyed by function name ends up holding. */
  function LastSpec(fns: seq<FunctionSpec>, name: string): (r: FunctionSpec)
    requires name in FunctionNames(fns)
    ensures exists i | 0 <= i < |fns| :: fns[i] == r && forall j | i < j < |fns| :: fns[j].moodleFunction != name
    ensures r.moodleFunction == name
  {
    var init := fns[..|fns| - 1];
    if fns[|fns| - 1].moodleFunction == name then fns[|fns| - 1]
    else
      assert FunctionNames(fns) == FunctionNames(init) + [fns[|fns| - 1].moodleFunction];
      var r := LastSpec(init, name);
      var i :| 0 <= i < |init| && init[i] == r && forall j | i < j < |init| :: init[j].moodleFunction != name;
      assert fns[i] == r;
      r
  }

  /**
   * The de-duplication loop: one spec per function name, in order of first occurrence,
   * each being the last spec seen for that name.
   */
  method DedupByFunction(all: seq<FunctionSpec>) returns (unique: seq<FunctionSpec>)
    ensures |unique| == |Uniq(FunctionNames(all))|
    ensures forall i | 0 <= i < |unique| ::
              unique[i].moodleFunction == Uniq(FunctionNames(all))[i]
              && unique[i] == LastSpec(all, Uniq(FunctionNames(all))[i])
  {
    var order: seq<string> := [];
    var byName: map<string, FunctionSpec> := map[];
    var i := 0;
    while i < |all|
      invariant 0 <= i <= |all|
      invariant DedupInv(all[..i], order, byName)
    {
      DedupStep(all, i, order, byName);
      if all[i].moodleFunction !in byName {
        order := order + [all[i].moodleFunction];
      }
      byName := byName[all[i].moodleFunction := all[i]];
      i := i + 1;
    }
    assert all[..i] == all;
    unique := seq(|order|, j requires 0 <= j < |order| => byName[order[j]]);
    DedupFinish(all, order, byName, unique);
  }

  /** The loop's state after a prefix `seen`: first-occurrence order of names, and the last spec per name. */
  predicate DedupInv(seen: seq<FunctionSpec>, order: seq<string>, byName: map<string, FunctionSpec>)
  {
    && order == Uniq(FunctionNames(seen))
    && byName.Keys == Elements(order)
    && forall n | n in byName :: n in FunctionNames(seen) && byName[n] == LastSpec(seen, n)
  }

  lemma DedupFinish(all: seq<FunctionSpec>, order: seq<string>, byName: map<string, FunctionSpec>, unique: seq<FunctionSpec>)
    requires DedupInv(all, order, byName)
    requires |unique| == |order| && forall j | 0 <= j < |order| :: order[j] in byName && unique[j] == byName[order[j]]
    ensures |unique| == |Uniq(FunctionNames(all))|
    ensures forall i | 0 <= i < |unique| ::
              unique[i].moodleFunction == Uniq(FunctionNames(all))[i]
              && unique[i] == LastSpec(all, Uniq(FunctionNames(all))[i])
  {
  }

  lemma NamesSnoc(all: seq<FunctionSpec>, i: nat)
    requires i < |all|
    ensures FunctionNames(all[..i + 1]) == FunctionNames(all[..i]) + [all[i].moodleFunction]
  {
  }

  /** Appending a name to the list adds it to the de-duplicated list only when it is new. */
  lemma UniqSnoc(xs: seq<string>, x: string)
    ensures Uniq(xs + [x]) == if x in Uniq(xs) then Uniq(xs) else Uniq(xs) + [x]
  {
    assert (xs + [x])[..|xs + [x]| - 1] == xs;
  }

  /** The last spec for a name after one more spec: that spec if it has the name, else the earlier last spec. */
  lemma LastSpecSnoc(all: seq<FunctionSpec>, i: nat, n: string)
    requires i < |all| && n in FunctionNames(all[..i + 1])
    ensures n == all[i].moodleFunction ==> LastSpec(all[..i + 1], n) == all[i]
    ensures n != all[i].moodleFunction ==>
              n in FunctionNames(all[..i]) && LastSpec(all[..i + 1], n) == LastSpec(all[..i], n)
  {
    NamesSnoc(all, i);
    assert all[..i + 1][..i] == all[..i];
  }

  /** One step of the de-duplication loop keeps its invariant. */
  lemma DedupStep(all: seq<FunctionSpec>, i: nat, order: seq<string>, byName: map<string, FunctionSpec>)
    requires i < |all|
    requires DedupInv(all[..i], order, byName)
    ensures var name := all[i].moodleFunction;
            DedupInv(all[..i + 1], if name in byName then order else order + [name], byName[name := all[i]])
  {
    var name := all[i].moodleFunction;
    NamesSnoc(all, i);
    UniqSnoc(FunctionNames(all[..i]), name);
    var byName' := byName[name := all[i]];
    forall n | n in byName' ensures n in FunctionNames(all[..i + 1]) && byName'[n] == LastSpec(all[..i + 1], n) {
      if n != name {
        assert n in FunctionNames(all[..i]);
      }
      LastSpecSnoc(all, i, n);
    }
  }

  /** `unique` is what the de-duplication loop makes of `all`. */
  predicate DedupOf(all: seq<FunctionSpec>, unique: seq<FunctionSpec>)
  {
    && |unique| == |Uniq(FunctionNames(all))|
    && forall i | 0 <= i < |unique| ::
         unique[i].moodleFunction == Uniq(FunctionNames(all))[i]
         && unique[i] == LastSpec(all, Uniq(FunctionNames(all))[i])
  }

  /** After de-duplication, a tier lists a name exactly when the last spec with that name belongs to it. */
  lemma DedupTierNames(all: seq<FunctionSpec>, unique: seq<FunctionSpec>, s: nat, f: string)
    requires DedupOf(all, unique)
    ensures f in TierNames(unique, s) <==> f in FunctionNames(all) && InTier(s, LastSpec(all, f).allowedRoles)
  {
    var u := Uniq(FunctionNames(all));
    if f in TierNames(unique, s) {
      var i :| 0 <= i < |unique| && InTier(s, unique[i].allowedRoles) && unique[i].moodleFunction == f;
      assert u[i] == f && u[i] in u;
    }
    if f in FunctionNames(all) && InTier(s, LastSpec(all, f).allowedRoles) {
      assert f in u;
      var i :| 0 <= i < |u| && u[i] == f;
      assert unique[i] == LastSpec(all, f);
    }
  }

  // ---------------------------------------------------------------- generatePhp

  const PhpHeader: seq<string> := [
    "/**",
    " * Returns service definitions with their assigned functions.",
    " *",
    " * GENERATED CODE - DO NOT EDIT MANUALLY",
    " * Run: cd server && npx tsx scripts/export-functions.ts",
    " *",
    " * @return array Service definitions",
    " */",
    "function local_moodlemcp_get_service_definitions(): array {",
    "    return ["]

  const PhpFooter: seq<string> := ["    ];", "}"]

  const FunctionLinePrefix: string := "                '"
  const ShortnamePrefix: string := "            'shortname' => '"

  function FunctionLine(fn: string): string
  {
    FunctionLinePrefix + fn + "',"
  }

  function FunctionLines(fns: seq<string>): (lines: seq<string>)
    ensures |lines| == |fns| && forall i | 0 <= i < |fns| :: lines[i] == FunctionLine(fns[i])
  {
    seq(|fns|, i requires 0 <= i < |fns| => FunctionLine(fns[i]))
  }

  function BlockHead(name: string): seq<string>
  {
    ["        [", ShortnamePrefix + name + "',", "            'name' => '" + name + "',", "            'functions' => ["]
  }

  const BlockTail: seq<string> := ["            ],", "        ],"]

  /** The lines for one service. */
  function ServiceBlock(name: string, fns: seq<string>): seq<string>
  {
    BlockHead(name) + FunctionLines(fns) + BlockTail
  }

  /** The blocks of the given services, in the given order. */
  function Blocks(services: map<string, seq<string>>, names: seq<string>): seq<string>
    requires forall k | 0 <= k < |names| :: names[k] in services
  {
    if names == [] then []
    else Blocks(services, names[..|names| - 1]) + ServiceBlock(names[|names| - 1], services[names[|names| - 1]])
  }

  predicate HasAllServices(services: map<string, seq<string>>)
  {
    forall k | 0 <= k < |ServiceOrder| :: ServiceOrder[k] in services
  }

  /** The lines `generatePhp` joins: header, the six blocks in service order, footer. */
  function PhpLines(services: map<string, seq<string>>): seq<string>
    requires HasAllServices(services)
  {
    PhpHeader + Blocks(services, ServiceOrder) + PhpFooter
  }

  /** `generatePhp`. */
  method GeneratePhp(services: map<string, seq<string>>) returns (php: string)
    requires HasAllServices(services)
    ensures php == Join(PhpLines(services), "\n")
  {
    var lines: seq<string> := PhpHeader;
    lines := PushBlocks(lines, services, ServiceOrder);
    lines := lines + PhpFooter;
    php := Join(lines, "\n");
  }

  /** The loop over the service order, pushing each service's block. */
  method PushBlocks(lines: seq<string>, services: map<string, seq<string>>, serviceOrder: seq<string>)
    returns (out: seq<string>)
    requires forall k | 0 <= k < |serviceOrder| :: serviceOrder[k] in services
    ensures out == lines + Blocks(services, serviceOrder)
  {
    out := lines;
    var k := 0;
    while k < |serviceOrder|
      invariant 0 <= k <= |serviceOrder|
      invariant out == lines + Blocks(services, serviceOrder[..k])
    {
      var serviceName := serviceOrder[k];
      out := PushServiceBlock(out, serviceName, services[serviceName]);
      BlocksSnoc(services, serviceOrder, k);
      k := k + 1;
    }
    assert serviceOrder[..k] == serviceOrder;
  }

  /** One iteration of the service loop: the block's head, a line per function, its tail. */
  method PushServiceBlock(lines: seq<string>, serviceName: string, functions: seq<string>) returns (out: seq<string>)
    ensures out == lines + ServiceBlock(serviceName, functions)
  {
    out := lines + BlockHead(serviceName);
    var j := 0;
    while j < |functions|
      invariant 0 <= j <= |functions|
      invariant out == lines + BlockHead(serviceName) + FunctionLines(functions[..j])
    {
      assert FunctionLines(functions[..j + 1]) == FunctionLines(functions[..j]) + [FunctionLine(functions[j])];
      out := out + [FunctionLine(functions[j])];
      j := j + 1;
    }
    assert functions[..j] == functions;
    out := out + BlockTail;
  }

  lemma BlocksSnoc(services: map<string, seq<string>>, names: seq<string>, k: nat)
    requires k < |names| && forall j | 0 <= j < |names| :: names[j] in services
    ensures Blocks(services, names[..k + 1]) == Blocks(services, names[..k]) + ServiceBlock(names[k], services[names[k]])
  {
    assert names[..k + 1][..k] == names[..k];
  }

  /** Reading a service block back: its name and its function list. */
  function ParseBlock(block: seq<string>): (r: Option<(string, seq<string>)>)
  {
    if |block| < 6 || !StartsWith(block[1], ShortnamePrefix) || |block[1]| < |ShortnamePrefix| + 2 then None
    else
      var body := block[4..|block| - 2];
      if exists i | 0 <= i < |body| :: !StartsWith(body[i], FunctionLinePrefix) || |body[i]| < |FunctionLinePrefix| + 2 then None
      else
        Some((block[1][|ShortnamePrefix|..|block[1]| - 2],
              seq(|body|, i requires 0 <= i < |body| => body[i][|FunctionLinePrefix|..|body[i]| - 2])))
  }

  /** A service block names its service and lists exactly its functions, in order. */
  lemma ServiceBlockRoundTrip(name: string, fns: seq<string>)
    ensures ParseBlock(ServiceBlock(name, fns)) == Some((name, fns))
  {
    var block := ServiceBlock(name, fns);
    var line := ShortnamePrefix + name + "',";
    assert block[1] == line;
    assert line[..|ShortnamePrefix|] == ShortnamePrefix;
    assert line[|ShortnamePrefix|..|line| - 2] == name;
    assert |block| == |fns| + 6;
    var body := block[4..|block| - 2];
    assert body == FunctionLines(fns);
    forall i | 0 <= i < |body|
      ensures StartsWith(body[i], FunctionLinePrefix) && |body[i]| >= |FunctionLinePrefix| + 2
      ensures body[i][|FunctionLinePrefix|..|body[i]| - 2] == fns[i]
    {
      var l := FunctionLine(fns[i]);
      assert body[i] == l;
      assert l[..|FunctionLinePrefix|] == FunctionLinePrefix;
      assert l[|FunctionLinePrefix|..|l| - 2] == fns[i];
    }
    var parsed := seq(|body|, i requires 0 <= i < |body| => body[i][|FunctionLinePrefix|..|body[i]| - 2]);
    assert parsed == fns;
  }

  /** `Blocks` grows block by block, so the first `k` services' blocks come first. */
  lemma {:induction false} BlocksPrefix(services: map<string, seq<string>>, names: seq<string>, k: nat)
    requires k <= |names| && forall j | 0 <= j < |names| :: names[j] in services
    ensures Blocks(services, names[..k]) <= Blocks(services, names)
    decreases |names|
  {
    if k < |names| {
      var init := names[..|names| - 1];
      assert init[..k] == names[..k];
      BlocksPrefix(services, init, k);
    } else {
      assert names[..k] == names;
    }
  }

  /** A part of a prefix of the middle keeps its place between a header and a footer. */
  lemma PlaceOf(header: seq<string>, all: seq<string>, footer: seq<string>, before: seq<string>, block: seq<string>)
    requires before + block <= all
    ensures |header| + |before| + |block| <= |header + all + footer|
    ensures (header + all + footer)[|header| + |before|..|header| + |before| + |block|] == block
  {
    var lines := header + all + footer;
    forall i | 0 <= i < |block| ensures lines[|header| + |before| + i] == block[i] {
      assert lines[|header| + |before| + i] == all[|before| + i] == (before + block)[|before| + i];
    }
  }

  /** Between any header and footer, block `k` sits right after the blocks of the names before it. */
  lemma BlockAtIn(header: seq<string>, services: map<string, seq<string>>, names: seq<string>, footer: seq<string>, k: nat)
    requires k < |names| && forall j | 0 <= j < |names| :: names[j] in services
    ensures var start := |header| + |Blocks(services, names[..k])|;
            var block := ServiceBlock(names[k], services[names[k]]);
            var lines := header + Blocks(services, names) + footer;
            start + |block| <= |lines| && lines[start..start + |block|] == block
  {
    BlocksSnoc(services, names, k);
    BlocksPrefix(services, names, k + 1);
    PlaceOf(header, Blocks(services, names), footer, Blocks(services, names[..k]), ServiceBlock(names[k], services[names[k]]));
  }

  /** Service `k`'s block sits right after the blocks of the services before it. */
  lemma BlockAt(services: map<string, seq<string>>, k: nat)
    requires HasAllServices(services) && k < |ServiceOrder|
    ensures var start := |PhpHeader| + |Blocks(services, ServiceOrder[..k])|;
            var block := ServiceBlock(ServiceOrder[k], services[ServiceOrder[k]]);
            start + |block| <= |PhpLines(services)|
            && PhpLines(services)[start..start + |block|] == block
  {
    BlockAtIn(PhpHeader, services, ServiceOrder, PhpFooter, k);
  }

  // ---------------------------------------------------------------- the export run

  /**
   * The export run without its file reading and writing: de-duplicate by function name,
   * group into services, render the PHP. Each service lists, sorted, exactly the names
   * whose last extracted spec reaches its tier.
   */
  method ExportServices(all: seq<FunctionSpec>) returns (services: map<string, seq<string>>, php: string)
    ensures HasAllServices(services) && services.Keys == Elements(ServiceOrder)
    ensures forall k | 0 <= k < |ServiceOrder| :: Sorted(services[ServiceOrder[k]])
    ensures forall k, f | 0 <= k < |ServiceOrder| ::
              f in services[ServiceOrder[k]] <==> f in FunctionNames(all) && InTier(k, LastSpec(all, f).allowedRoles)
    ensures php == Join(PhpLines(services), "\n")
  {
    var unique := DedupByFunction(all);
    services := GroupByService(unique);
    ExportTierNames(all, unique, services);
    php := GeneratePhp(services);
  }

  /** Grouping the de-duplicated specs puts in each service exactly the names whose last spec reaches it. */
  lemma ExportTierNames(all: seq<FunctionSpec>, unique: seq<FunctionSpec>, services: map<string, seq<string>>)
    requires DedupOf(all, unique)
    requires services.Keys == Elements(ServiceOrder)
    requires forall k | 0 <= k < |ServiceOrder| :: Elements(services[ServiceOrder[k]]) == TierNames(unique, k)
    ensures forall k, f | 0 <= k < |ServiceOrder| ::
              f in services[ServiceOrder[k]] <==> f in FunctionNames(all) && InTier(k, LastSpec(all, f).allowedRoles)
  {
    forall k, f | 0 <= k < |ServiceOrder|
      ensures f in services[ServiceOrder[k]] <==> f in FunctionNames(all) && InTier(k, LastSpec(all, f).allowedRoles)
    {
      var fns := services[ServiceOrder[k]];
      assert f in fns <==> f in Elements(fns);
      DedupTierNames(all, unique, k, f);
    }
  }
}

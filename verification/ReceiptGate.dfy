/** The gate of scripts/receipts-verify.py: every receipt of the two roots is graded, the quarantined ones are
    only listed, and a required set may be demanded. */
module ReceiptGate {
  import opened Json
  import opened Optional

  /** What reading and parsing a receipt file gives; Undecodable text is not even a JSON error. */
  datatype Content = Parsed(json: Json) | Invalid | Undecodable

  /** File name to content, for the *.json files of one directory. */
  type Directory = map<string, Content>

  /** A receipts root: None where the directory does not exist. */
  datatype Root = Root(files: Option<Directory>, failed: Option<Directory>)

  datatype Verdict = Fine | Violation | Crash

  /** A hard bound: the step-name prefix it applies to, and its checker on the receipt's data. */
  datatype Bound = Bound(prefix: string, check: Json -> Verdict)

  // ------------------------------------------------------------------ which file counts

  /** One directory per root; the first root that has a name supplies it. */
  function FirstWins(dirs: seq<Directory>): Directory {
    if dirs == [] then map[] else FirstWins(dirs[1..]) + dirs[0]
  }

  function GradedDirs(roots: seq<Root>): (ds: seq<Directory>)
    ensures |ds| == |roots|
  {
    seq(|roots|, i requires 0 <= i < |roots| => if roots[i].files.Some? then roots[i].files.value else map[])
  }

  function FailedDirs(roots: seq<Root>): (ds: seq<Directory>)
    ensures |ds| == |roots|
  {
    seq(|roots|, i requires 0 <= i < |roots| =>
      if roots[i].files.Some? && roots[i].failed.Some? then roots[i].failed.value else map[])
  }

  /** The name is in some directory, and no earlier one has it. */
  ghost predicate Supplies(dirs: seq<Directory>, i: nat, name: string)
    requires i < |dirs|
  {
    name in dirs[i] && forall j | 0 <= j < i :: name !in dirs[j]
  }

  lemma {:induction false} FirstWinsIsFirst(dirs: seq<Directory>, i: nat, name: string)
    requires i < |dirs| && Supplies(dirs, i, name)
    ensures name in FirstWins(dirs) && FirstWins(dirs)[name] == dirs[i][name]
  {
    if i > 0 {
      assert name !in dirs[0];
      assert Supplies(dirs[1..], i - 1, name);
      FirstWinsIsFirst(dirs[1..], i - 1, name);
    }
  }

  lemma {:induction false} FirstWinsIsSupplied(dirs: seq<Directory>, name: string) returns (i: nat)
    requires name in FirstWins(dirs)
    ensures i < |dirs| && Supplies(dirs, i, name) && FirstWins(dirs)[name] == dirs[i][name]
  {
    if name in dirs[0] {
      i := 0;
    } else {
      i := FirstWinsIsSupplied(dirs[1..], name);
      i := i + 1;
    }
  }

  lemma {:induction false} FirstWinsAppend(dirs: seq<Directory>, last: Directory)
    ensures FirstWins(dirs + [last]) == last + FirstWins(dirs)
  {
    if dirs == [] {
      assert (dirs + [last])[1..] == [];
      assert map[] + last == last + map[];
    } else {
      assert (dirs + [last])[1..] == dirs[1..] + [last];
      FirstWinsAppend(dirs[1..], last);
    }
  }

  /** One directory's turn: a name already found is not replaced. */
  method Merge(start: Directory, dir: Directory) returns (found: Directory)
    ensures found == dir + start
  {
    found := start;
    var todo := dir.Keys;
    while todo != {}
      invariant todo <= dir.Keys
      invariant found.Keys == start.Keys + (dir.Keys - todo)
      invariant forall name | name in found :: found[name] == if name in start then start[name] else dir[name]
      decreases |todo|
    {
      var name :| name in todo;
      if name !in found { found := found[name := dir[name]]; }
      todo := todo - {name};
    }
  }

  method Collect(dirs: seq<Directory>) returns (found: Directory)
    ensures found == FirstWins(dirs)
  {
    found := map[];
    for i := 0 to |dirs|
      invariant found == FirstWins(dirs[..i])
    {
      found := Merge(found, dirs[i]);
      FirstWinsAppend(dirs[..i], dirs[i]);
      assert dirs[..i + 1] == dirs[..i] + [dirs[i]];
    }
    assert dirs[..|dirs|] == dirs;
  }

  // ------------------------------------------------------------------ grading one receipt

  /** Path.stem of a *.json name; a file called just ".json" is its own stem. */
  function Stem(name: string): string {
    if |name| > 5 then name[..|name| - 5] else name
  }

  /** The names a receipt answers to. */
  function Names(name: string, json: Json): set<string> {
    {Stem(name)} + (if json.Obj? && Get(json.fields, "step").Str? && Get(json.fields, "step").text != ""
                    then {Get(json.fields, "step").text} else {})
  }

  /** `(receipt or {}).get` raises on anything truthy that is no object. */
  predicate NamesCrash(json: Json) { Truthy(json) && !json.Obj? }

  /** The step is text with this prefix. The text form of any other JSON value starts with no step prefix. */
  predicate Applies(bound: Bound, fields: map<string, Json>) {
    Get(fields, "step").Str? && bound.prefix <= Get(fields, "step").text
  }

  predicate WellFormed(fields: map<string, Json>) {
    "step" in fields && "status" in fields && "ts" in fields
  }

  ghost function GradeObject(fields: map<string, Json>, bounds: seq<Bound>): Verdict {
    var data := OrEmpty(Get(fields, "data"));
    if exists i | 0 <= i < |bounds| :: Applies(bounds[i], fields) && bounds[i].check(data) == Crash then Crash
    else if WellFormed(fields) && Get(fields, "status") != Str("fail")
      && forall i | 0 <= i < |bounds| :: Applies(bounds[i], fields) ==> bounds[i].check(data) == Fine then Fine
    else Violation
  }

  ghost function Grade(content: Content, bounds: seq<Bound>): Verdict {
    match content
    case Invalid => Violation
    case Undecodable => Crash
    case Parsed(json) => if json.Obj? then GradeObject(json.fields, bounds) else Crash
  }

  /** One turn of the grading walk; None is an uncaught error. */
  method GradeOne(content: Content, bounds: seq<Bound>) returns (violations: Option<nat>)
    ensures violations.None? <==> Grade(content, bounds) == Crash
    ensures violations.Some? ==> (violations.value == 0 <==> Grade(content, bounds) == Fine)
  {
    if content.Undecodable? { return None; }
    if content.Invalid? { return Some(1); }
    if !content.json.Obj? { return None; }
    var r, bad := content.json.fields, 0;
    var keys := ["step", "status", "ts"];
    for i := 0 to |keys|
      invariant bad == 0 <==> forall j | 0 <= j < i :: keys[j] in r
    {
      if keys[i] !in r { bad := bad + 1; }
    }
    assert bad == 0 <==> WellFormed(r) by { assert keys[0] == "step" && keys[1] == "status" && keys[2] == "ts"; }
    if Get(r, "status") == Str("fail") { bad := bad + 1; }
    ghost var soFar := bad;
    var data := OrEmpty(Get(r, "data"));
    for i := 0 to |bounds|
      invariant forall j | 0 <= j < i :: Applies(bounds[j], r) ==> bounds[j].check(data) != Crash
      invariant bad == 0 <==> soFar == 0 && forall j | 0 <= j < i :: Applies(bounds[j], r) ==> bounds[j].check(data) == Fine
    {
      if Applies(bounds[i], r) {
        var verdict := bounds[i].check(data);
        if verdict == Crash { return None; }
        if verdict == Violation { bad := bad + 1; }
      }
    }
    return Some(bad);
  }

  // ------------------------------------------------------------------ the gate

  /** A required name is the stem or the step of some parsed graded receipt. */
  ghost predicate Present(graded: Directory, step: string) {
    exists name | name in graded :: graded[name].Parsed? && step in Names(name, graded[name].json)
  }

  const JSON_SUFFIX: string := ".json"

  /** A *.json file name. */
  predicate JsonName(file: string) { |file| >= 5 && file[|file| - 5..] == JSON_SUFFIX }

  /** The file is called after the step, or says it. */
  predicate Answers(file: string, json: Json, step: string) {
    || (step != "" && file == step + JSON_SUFFIX)
    || (file == JSON_SUFFIX && step == JSON_SUFFIX)
    || (step != "" && json.Obj? && Get(json.fields, "step") == Str(step))
  }

  lemma NamesIff(file: string, json: Json, step: string)
    requires JsonName(file)
    ensures step in Names(file, json) <==> Answers(file, json, step)
  {
    assert file == file[..|file| - 5] + file[|file| - 5..];
    if file == step + JSON_SUFFIX { assert file[..|file| - 5] == step; }
  }

  /** A required name is met exactly when some graded file that parses is called after it or says it as its step. */
  lemma PresentIff(graded: Directory, step: string)
    requires forall file | file in graded :: JsonName(file)
    ensures Present(graded, step) <==> exists file | file in graded :: graded[file].Parsed? && Answers(file, graded[file].json, step)
  {
    forall file | file in graded && graded[file].Parsed?
      ensures step in Names(file, graded[file].json) <==> Answers(file, graded[file].json, step)
    {
      NamesIff(file, graded[file].json, step);
    }
  }

  ghost predicate GradingCrashes(graded: Directory, bounds: seq<Bound>) {
    exists name | name in graded :: Grade(graded[name], bounds) == Crash
  }

  /** Listing a quarantined receipt raises. */
  ghost predicate ListingCrashes(failed: Directory) {
    exists name | name in failed :: failed[name].Parsed? && NamesCrash(failed[name].json)
  }

  ghost predicate Clean(graded: Directory, required: seq<string>, bounds: seq<Bound>, patchOk: bool) {
    && patchOk
    && (forall name | name in graded :: Grade(graded[name], bounds) == Fine)
    && (forall i | 0 <= i < |required| :: Present(graded, required[i]))
  }

  /** The exit status: 0 clean, 2 with violations, 1 for an uncaught error. */
  ghost function ExitStatus(patchOk: bool, roots: seq<Root>, required: seq<string>, bounds: seq<Bound>): int {
    var graded, failed := FirstWins(GradedDirs(roots)), FirstWins(FailedDirs(roots));
    if GradingCrashes(graded, bounds) || ListingCrashes(failed) then 1
    else if Clean(graded, required, bounds, patchOk) then 0
    else 2
  }

  // ------------------------------------------------------------------ what the verdicts say of a receipt

  /** What Python takes for false. */
  predicate Falsy(j: Json) { j == Null || j == Num(0.0) || j == Str("") || j == Arr([]) || j == Obj(map[]) }

  /** The bound's prefix begins the receipt's step. */
  ghost predicate Concerns(bound: Bound, fields: map<string, Json>) {
    exists rest: string :: "step" in fields && fields["step"] == Str(bound.prefix + rest)
  }

  lemma ConcernsIff(bound: Bound, fields: map<string, Json>)
    ensures Applies(bound, fields) <==> Concerns(bound, fields)
  {
    if Applies(bound, fields) {
      var step := fields["step"].text;
      assert step == bound.prefix + step[|bound.prefix|..];
    }
  }

  /** The data a bound is asked about: an empty object where there is none, or none to speak of. */
  ghost predicate IsData(fields: map<string, Json>, data: Json) {
    if "data" !in fields || Falsy(fields["data"]) then data == Obj(map[]) else data == fields["data"]
  }

  lemma DataIs(fields: map<string, Json>, data: Json)
    ensures IsData(fields, data) <==> data == OrEmpty(Get(fields, "data"))
  {
  }

  /** A receipt is fine exactly when it is an object with a step, a status other than "fail" and a ts, and every bound
      that concerns its step is met by its data. */
  lemma FineIff(content: Content, bounds: seq<Bound>, data: Json)
    requires content.Parsed? && content.json.Obj? ==> IsData(content.json.fields, data)
    ensures Grade(content, bounds) == Fine <==>
      && content.Parsed? && content.json.Obj?
      && "step" in content.json.fields && "status" in content.json.fields && "ts" in content.json.fields
      && content.json.fields["status"] != Str("fail")
      && forall i | 0 <= i < |bounds| && Concerns(bounds[i], content.json.fields) :: bounds[i].check(data) == Fine
  {
    if content.Parsed? && content.json.Obj? {
      DataIs(content.json.fields, data);
      forall i | 0 <= i < |bounds| ensures Applies(bounds[i], content.json.fields) <==> Concerns(bounds[i], content.json.fields) {
        ConcernsIff(bounds[i], content.json.fields);
      }
    }
  }

  /** Grading raises exactly on text that does not decode, on a document that is no object, and where a bound that
      concerns the step raises on the data. */
  lemma CrashIff(content: Content, bounds: seq<Bound>, data: Json)
    requires content.Parsed? && content.json.Obj? ==> IsData(content.json.fields, data)
    ensures Grade(content, bounds) == Crash <==>
      || content == Undecodable
      || (content.Parsed? && !content.json.Obj?)
      || (content.Parsed? && content.json.Obj?
          && exists i :: 0 <= i < |bounds| && Concerns(bounds[i], content.json.fields) && bounds[i].check(data) == Crash)
  {
    if content.Parsed? && content.json.Obj? {
      DataIs(content.json.fields, data);
      forall i | 0 <= i < |bounds| ensures Applies(bounds[i], content.json.fields) <==> Concerns(bounds[i], content.json.fields) {
        ConcernsIff(bounds[i], content.json.fields);
      }
    }
  }

  /** Listing the quarantine raises exactly where some file holds a document that is neither an object nor falsy. */
  lemma ListingCrashesIff(failed: Directory)
    ensures ListingCrashes(failed) <==>
      exists name :: name in failed && failed[name].Parsed? && !failed[name].json.Obj? && !Falsy(failed[name].json)
  {
  }

  lemma {:induction false} NoneIsEmpty(dirs: seq<Directory>)
    requires forall i | 0 <= i < |dirs| :: dirs[i] == map[]
    ensures FirstWins(dirs) == map[]
  {
    if dirs != [] { NoneIsEmpty(dirs[1..]); }
  }

  method Expected(required: seq<string>, present: set<string>) returns (missing: nat)
    ensures missing == 0 <==> forall i | 0 <= i < |required| :: required[i] in present
  {
    missing := 0;
    for i := 0 to |required|
      invariant missing == 0 <==> forall j | 0 <= j < i :: required[j] in present
    {
      if required[i] !in present { missing := missing + 1; }
    }
  }

  /** The grading walk over the collected receipts: violations found and names answered to. */
  method GradeAll(graded: Directory, bounds: seq<Bound>) returns (violations: Option<nat>, present: set<string>)
    ensures violations.None? <==> GradingCrashes(graded, bounds)
    ensures violations.Some? ==> (violations.value == 0 <==> forall name | name in graded :: Grade(graded[name], bounds) == Fine)
    ensures violations.Some? ==> forall step :: step in present <==> Present(graded, step)
  {
    var todo, bad := graded.Keys, 0;
    present := {};
    while todo != {}
      invariant todo <= graded.Keys
      invariant forall name | name in graded && name !in todo :: Grade(graded[name], bounds) != Crash
      invariant bad == 0 <==> forall name | name in graded && name !in todo :: Grade(graded[name], bounds) == Fine
      invariant forall step :: step in present <==>
        exists name | name in graded && name !in todo :: graded[name].Parsed? && step in Names(name, graded[name].json)
      decreases |todo|
    {
      var name :| name in todo;
      todo := todo - {name};
      var one := GradeOne(graded[name], bounds);
      if one.None? { return None, present; }
      bad := bad + one.value;
      if graded[name].Parsed? { present := present + Names(name, graded[name].json); }
    }
    return Some(bad), present;
  }

  /** Listing the quarantined receipts: nothing is counted, but an uncaught error is possible. */
  method ListFailed(failed: Directory) returns (raised: bool)
    ensures raised <==> ListingCrashes(failed)
  {
    var todo := failed.Keys;
    while todo != {}
      invariant todo <= failed.Keys
      invariant forall name | name in failed && name !in todo :: !(failed[name].Parsed? && NamesCrash(failed[name].json))
      decreases |todo|
    {
      var name :| name in todo;
      todo := todo - {name};
      if failed[name].Parsed? && NamesCrash(failed[name].json) { return true; }
    }
    return false;
  }

  method Gate(patchOk: bool, roots: seq<Root>, required: seq<string>, bounds: seq<Bound>) returns (status: int)
    ensures status == ExitStatus(patchOk, roots, required, bounds)
  {
    var bad := if patchOk then 0 else 1;
    if forall i | 0 <= i < |roots| :: roots[i].files.None? {
      NoneIsEmpty(GradedDirs(roots));
      NoneIsEmpty(FailedDirs(roots));
      var absent := Expected(required, {});
      return if bad + absent == 0 then 0 else 2;
    }
    var graded := Collect(GradedDirs(roots));
    var violations, present := GradeAll(graded, bounds);
    if violations.None? { return 1; }
    var failed := Collect(FailedDirs(roots));
    var raised := ListFailed(failed);
    if raised { return 1; }
    var missing := Expected(required, present);
    return if bad + violations.value + missing == 0 then 0 else 2;
  }

  // ------------------------------------------------------------------ what the gate depends on

  /** The roots with every failed/ directory emptied. */
  function WithoutFailed(roots: seq<Root>): (plain: seq<Root>)
    ensures |plain| == |roots|
  {
    seq(|roots|, i requires 0 <= i < |roots| => roots[i].(failed := None))
  }

  lemma SameGraded(roots: seq<Root>, others: seq<Root>)
    requires |roots| == |others| && forall i | 0 <= i < |roots| :: roots[i].files == others[i].files
    ensures GradedDirs(roots) == GradedDirs(others)
  {
  }

  lemma PlainHasNoFailed(roots: seq<Root>)
    ensures FirstWins(FailedDirs(WithoutFailed(roots))) == map[]
  {
    NoneIsEmpty(FailedDirs(WithoutFailed(roots)));
  }

  /** Quarantined receipts leave the exit status alone exactly when grading raises anyway or listing them does not
      raise: a quarantined file holding a non-empty list, a non-empty string or a non-zero number reddens the gate. */
  lemma QuarantineNeverDecidesIff(patchOk: bool, roots: seq<Root>, required: seq<string>, bounds: seq<Bound>)
    ensures ExitStatus(patchOk, roots, required, bounds) == ExitStatus(patchOk, WithoutFailed(roots), required, bounds) <==>
      GradingCrashes(FirstWins(GradedDirs(roots)), bounds) || !ListingCrashes(FirstWins(FailedDirs(roots)))
  {
    SameGraded(roots, WithoutFailed(roots));
    PlainHasNoFailed(roots);
    assert !ListingCrashes(map[]);
  }

  /** Hence any two sets of quarantined objects, however failed, are the same to the gate. */
  lemma QuarantinedObjectsAreSilent(patchOk: bool, roots: seq<Root>, others: seq<Root>, required: seq<string>, bounds: seq<Bound>)
    requires |roots| == |others| && forall i | 0 <= i < |roots| :: roots[i].files == others[i].files
    requires !ListingCrashes(FirstWins(FailedDirs(roots))) && !ListingCrashes(FirstWins(FailedDirs(others)))
    ensures ExitStatus(patchOk, roots, required, bounds) == ExitStatus(patchOk, others, required, bounds)
  {
    SameGraded(roots, others);
  }

  /** One quarantined file reading [1] turns a clean gate into an uncaught error. */
  lemma QuarantinedListReddens(name: string, bounds: seq<Bound>)
    ensures ExitStatus(true, [Root(Some(map[]), None)], [], bounds) == 0
    ensures ExitStatus(true, [Root(Some(map[]), Some(map[name := Parsed(Arr([Num(1.0)]))]))], [], bounds) == 1
  {
    var content := Parsed(Arr([Num(1.0)]));
    SingleRoot(None);
    SingleRoot(Some(map[name := content]));
    var failed: Directory := map[name := content];
    assert name in failed && failed[name].Parsed? && NamesCrash(failed[name].json);
    assert !ListingCrashes(map[]);
  }

  lemma SingleRoot(failed: Option<Directory>)
    ensures FirstWins(GradedDirs([Root(Some(map[]), failed)])) == map[]
    ensures FirstWins(FailedDirs([Root(Some(map[]), failed)])) == if failed.Some? then failed.value else map[]
  {
    var roots := [Root(Some(map[]), failed)];
    assert GradedDirs(roots) == [map[]];
    assert FailedDirs(roots) == [if failed.Some? then failed.value else map[]];
    assert GradedDirs(roots)[1..] == [] && FailedDirs(roots)[1..] == [];
  }

  /** What a later root says under a name an earlier root has is never read. */
  lemma ShadowedReceiptIsIgnored(patchOk: bool, roots: seq<Root>, i: nat, j: nat, name: string, content: Content,
                                 required: seq<string>, bounds: seq<Bound>)
    requires i < j < |roots| && roots[i].files.Some? && name in roots[i].files.value && roots[j].files.Some?
    ensures ExitStatus(patchOk, roots, required, bounds) ==
      ExitStatus(patchOk, roots[j := roots[j].(files := Some(roots[j].files.value[name := content]))], required, bounds)
  {
    var others := roots[j := roots[j].(files := Some(roots[j].files.value[name := content]))];
    var ds, es := GradedDirs(roots), GradedDirs(others);
    assert es == ds[j := ds[j][name := content]];
    ShadowedInMerge(ds, i, j, name, content);
    assert FailedDirs(others) == FailedDirs(roots);
  }

  lemma {:induction false} ShadowedInMerge(dirs: seq<Directory>, i: nat, j: nat, name: string, content: Content)
    requires i < j < |dirs| && name in dirs[i]
    ensures FirstWins(dirs[j := dirs[j][name := content]]) == FirstWins(dirs)
  {
    var others := dirs[j := dirs[j][name := content]];
    if i > 0 {
      assert others[1..] == dirs[1..][j - 1 := dirs[1..][j - 1][name := content]];
      ShadowedInMerge(dirs[1..], i - 1, j - 1, name, content);
    } else {
      assert others[1..] == dirs[1..][j - 1 := dirs[1..][j - 1][name := content]];
      OnlyThatName(dirs[1..], j - 1, name, content);
    }
  }

  lemma {:induction false} OnlyThatName(dirs: seq<Directory>, j: nat, name: string, content: Content)
    requires j < |dirs|
    ensures var a, b := FirstWins(dirs), FirstWins(dirs[j := dirs[j][name := content]]);
      a.Keys + {name} == b.Keys + {name} && forall other | other in a && other != name :: b[other] == a[other]
  {
    var others := dirs[j := dirs[j][name := content]];
    if j > 0 {
      assert others[1..] == dirs[1..][j - 1 := dirs[1..][j - 1][name := content]];
      OnlyThatName(dirs[1..], j - 1, name, content);
    } else {
      assert others[1..] == dirs[1..];
    }
  }

  /** A receipt that survives only in the durable root counts as it did in the repository. */
  lemma DurableSurvivorsCount(patchOk: bool, repo: Directory, durable: Directory, required: seq<string>, bounds: seq<Bound>)
    ensures ExitStatus(patchOk, [Root(Some(repo), None), Root(Some(durable), None)], required, bounds)
      == ExitStatus(patchOk, [Root(Some(map[]), None), Root(Some(durable + repo), None)], required, bounds)
  {
    var before, after := [Root(Some(repo), None), Root(Some(durable), None)], [Root(Some(map[]), None), Root(Some(durable + repo), None)];
    MergeTwo(repo, durable);
    MergeTwo(map[], durable + repo);
    assert GradedDirs(before) == [repo, durable] && GradedDirs(after) == [map[], durable + repo];
    assert FailedDirs(before) == [map[], map[]] && FailedDirs(after) == [map[], map[]];
    assert (durable + repo) + map[] == durable + repo;
  }

  lemma MergeTwo(first: Directory, second: Directory)
    ensures FirstWins([first, second]) == second + first
  {
    assert [first, second][1..] == [second];
    assert FirstWins([second]) == second by {
      assert [second][1..] == [];
      assert map[] + second == second;
    }
  }

  // ------------------------------------------------------------------ the required set

  /** Duplicate and empty names are dropped. */
  method Requested(names: seq<string>) returns (required: seq<string>)
    ensures forall name :: name in required <==> name in names && name != ""
    ensures forall i, j | 0 <= i < j < |required| :: required[i] != required[j]
  {
    var seen: set<string> := {};
    required := [];
    for i := 0 to |names|
      invariant forall name :: name in required <==> name in names[..i] && name != ""
      invariant forall name :: name in seen <==> name in required
      invariant forall k, j | 0 <= k < j < |required| :: required[k] != required[j]
    {
      if names[i] != "" && names[i] !in seen {
        seen := seen + {names[i]};
        required := required + [names[i]];
      }
    }
  }
}

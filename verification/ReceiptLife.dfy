/** The store and the gate together: a mirrored receipt is graded after its worktree is gone as it was before. */
module ReceiptLife {
  import opened Json
  import opened ReceiptStore
  import opened ReceiptGate
  import opened Optional

  /** A receipt directly under a root; anything deeper is not graded. */
  predicate Top(rel: string) { '/' !in rel }

  function Read(parse: Parser, text: string): Content {
    if parse(text).Some? then Parsed(parse(text).value) else Invalid
  }

  /** The graded directory a root's files make. */
  function View(parse: Parser, files: Files): Directory {
    map rel | rel in files && Top(rel) :: Read(parse, files[rel])
  }

  ghost function Verified(parse: Parser, patchOk: bool, disk: Disk, required: seq<string>, bounds: seq<Bound>): int {
    ExitStatus(patchOk, [Root(Some(View(parse, disk.repo)), None), Root(Some(View(parse, disk.durable)), None)], required, bounds)
  }

  /** Same verdict and same names under the same file name. */
  ghost predicate Alike(name: string, a: Content, b: Content, bounds: seq<Bound>) {
    && Grade(a, bounds) == Grade(b, bounds) && (a.Parsed? <==> b.Parsed?)
    && (a.Parsed? && b.Parsed? ==> Names(name, a.json) == Names(name, b.json))
  }

  lemma AlikeSetsGradeAlike(a: Directory, b: Directory, required: seq<string>, bounds: seq<Bound>, patchOk: bool)
    requires a.Keys == b.Keys && forall name | name in a && name in b :: Alike(name, a[name], b[name], bounds)
    ensures GradingCrashes(a, bounds) <==> GradingCrashes(b, bounds)
    ensures Clean(a, required, bounds, patchOk) <==> Clean(b, required, bounds, patchOk)
  {
    forall name | name in a ensures name in b && Alike(name, a[name], b[name], bounds) { assert name in a.Keys; }
    forall name | name in b ensures name in a && Alike(name, a[name], b[name], bounds) { assert name in b.Keys; }
    forall step ensures Present(a, step) <==> Present(b, step) {
      if Present(a, step) {
        var name :| name in a && a[name].Parsed? && step in Names(name, a[name].json);
        assert step in Names(name, b[name].json);
      }
      if Present(b, step) {
        var name :| name in b && b[name].Parsed? && step in Names(name, b[name].json);
        assert step in Names(name, a[name].json);
      }
    }
  }

  lemma NoneQuarantined(a: Directory, b: Directory)
    ensures FirstWins(GradedDirs([Root(Some(a), None), Root(Some(b), None)])) == b + a
    ensures !ListingCrashes(FirstWins(FailedDirs([Root(Some(a), None), Root(Some(b), None)])))
  {
    var roots := [Root(Some(a), None), Root(Some(b), None)];
    assert GradedDirs(roots) == [a, b];
    MergeTwo(a, b);
    NoneIsEmpty(FailedDirs(roots));
  }

  lemma SameNames(name: string, a: Json, b: Json)
    requires StripTs(a) == StripTs(b)
    ensures Names(name, a) == Names(name, b)
  {
    StripTsDecides(a, b);
    if a.Obj? {
      assert "step" in a.fields <==> "step" in b.fields by { assert "step" in a.fields.Keys - {"ts"} <==> "step" in a.fields; }
      LeafAgrees(Get(a.fields, "step"), Get(b.fields, "step"));
    }
  }

  /** The exit status over a merged graded set with nothing quarantined. */
  ghost function StatusOf(patchOk: bool, graded: Directory, required: seq<string>, bounds: seq<Bound>): int {
    if GradingCrashes(graded, bounds) then 1 else if Clean(graded, required, bounds, patchOk) then 0 else 2
  }

  lemma VerifiedIs(parse: Parser, patchOk: bool, disk: Disk, required: seq<string>, bounds: seq<Bound>)
    ensures Verified(parse, patchOk, disk, required, bounds)
      == StatusOf(patchOk, View(parse, disk.durable) + View(parse, disk.repo), required, bounds)
  {
    NoneQuarantined(View(parse, disk.repo), View(parse, disk.durable));
  }

  lemma VerifiedDiscarded(parse: Parser, patchOk: bool, durable: Files, required: seq<string>, bounds: seq<Bound>)
    ensures Verified(parse, patchOk, Disk(map[], durable), required, bounds)
      == StatusOf(patchOk, View(parse, durable), required, bounds)
  {
    VerifiedIs(parse, patchOk, Disk(map[], durable), required, bounds);
    assert View(parse, durable) + View(parse, map[]) == View(parse, durable);
  }

  // ------------------------------------------------------------------ a written receipt is graded unless it failed

  /** The name a receipt is written under. */
  function Called(receipt: Json, name: string): string
    requires Relative(receipt, name).At?
  {
    if name != "" then name else Get(receipt.fields, "step").text
  }

  predicate Passing(receipt: Json) { receipt.Obj? && Get(receipt.fields, "status") != Str("fail") }

  /** A receipt belongs directly under the root exactly when it did not fail and its name has no slash; a failed one
      belongs in the quarantine under the same name. */
  lemma TopIff(receipt: Json, name: string)
    requires Relative(receipt, name).At?
    ensures Top(Relative(receipt, name).rel) <==> Passing(receipt) && '/' !in Called(receipt, name)
    ensures Passing(receipt) ==> Relative(receipt, name).rel == Called(receipt, name) + SUFFIX
    ensures !Passing(receipt) ==> Relative(receipt, name).rel == FAILED + (Called(receipt, name) + SUFFIX)
  {
    var step := Called(receipt, name);
    assert FAILED[6] == '/';
    assert (FAILED + step + SUFFIX)[6] == '/';
    assert FAILED + step + SUFFIX == FAILED + (step + SUFFIX);
    if '/' in step {
      var i :| 0 <= i < |step| && step[i] == '/';
      assert (step + SUFFIX)[i] == '/';
    }
  }

  /** A receipt is placed exactly when it is an object and a name is given or its step is non-empty text; a name given
      counts as its step would. */
  lemma PlacedIff(receipt: Json, name: string)
    ensures Relative(receipt, name) == NotAnObject <==> !receipt.Obj?
    ensures Relative(receipt, name) == NoStep <==>
      receipt.Obj? && name == "" && !exists step: string :: step != "" && Get(receipt.fields, "step") == Str(step)
    ensures receipt.Obj? && name != "" ==> Relative(receipt, name) == Relative(Obj(receipt.fields["step" := Str(name)]), "")
  {
  }

  /** The directory has, under this file name, a receipt that parses and is this one but for time stamps. */
  ghost predicate Grades(dir: Directory, file: string, receipt: Json) {
    file in dir && dir[file].Parsed? && StripTs(dir[file].json) == StripTs(receipt)
  }

  lemma ViewPlaced(parse: Parser, files: Files, rel: string, receipt: Json, text: string)
    requires parse(text) == Some(receipt)
    ensures !Top(rel) ==> View(parse, PlaceIn(parse, files, rel, receipt, text)) == View(parse, files)
    ensures Top(rel) ==> Grades(View(parse, PlaceIn(parse, files, rel, receipt, text)), rel, receipt)
    ensures forall other | other != rel ::
      (other in View(parse, PlaceIn(parse, files, rel, receipt, text)) <==> other in View(parse, files))
      && (other in View(parse, files) ==> View(parse, PlaceIn(parse, files, rel, receipt, text))[other] == View(parse, files)[other])
  {
  }

  /** After a complete write of a receipt that did not fail, both roots grade it under its name. */
  lemma PassingIsGraded(parse: Parser, disk: Disk, text: string, name: string)
    requires parse(text).Some? && Relative(parse(text).value, name).At?
    requires '/' !in Called(parse(text).value, name) && Passing(parse(text).value)
    ensures var receipt, file := parse(text).value, Called(parse(text).value, name) + SUFFIX;
      var after := PlaceAll(parse, disk, WriteCall(parse, true, false, text, name));
      && JsonName(file) && Stem(file) == Called(receipt, name)
      && Grades(View(parse, after.repo), file, receipt) && Grades(View(parse, after.durable), file, receipt)
  {
    var receipt := parse(text).value;
    var rel := Relative(receipt, name).rel;
    TopIff(receipt, name);
    WriteLands(parse, disk, text, name);
    ViewPlaced(parse, disk.repo, rel, receipt, text);
    ViewPlaced(parse, disk.durable, rel, receipt, text);
  }

  /** A failed one is in both quarantines under its name, and what is graded is as it was. */
  lemma FailedIsQuarantined(parse: Parser, disk: Disk, text: string, name: string)
    requires parse(text).Some? && Relative(parse(text).value, name).At? && !Passing(parse(text).value)
    ensures var receipt, file := parse(text).value, Called(parse(text).value, name) + SUFFIX;
      var after := PlaceAll(parse, disk, WriteCall(parse, true, false, text, name));
      && View(parse, after.repo) == View(parse, disk.repo) && View(parse, after.durable) == View(parse, disk.durable)
      && Holds(parse, after.repo, FAILED + file, receipt) && Holds(parse, after.durable, FAILED + file, receipt)
  {
    var receipt := parse(text).value;
    var rel := Relative(receipt, name).rel;
    TopIff(receipt, name);
    WriteLands(parse, disk, text, name);
    ViewPlaced(parse, disk.repo, rel, receipt, text);
    ViewPlaced(parse, disk.durable, rel, receipt, text);
  }

  /** So a required name whose receipt was just written and did not fail is not missing. */
  lemma WrittenIsPresent(parse: Parser, disk: Disk, text: string, name: string)
    requires parse(text).Some? && Relative(parse(text).value, name).At?
    requires '/' !in Called(parse(text).value, name) && Passing(parse(text).value)
    ensures var after := PlaceAll(parse, disk, WriteCall(parse, true, false, text, name));
      Present(View(parse, after.durable) + View(parse, after.repo), Called(parse(text).value, name))
  {
    var after := PlaceAll(parse, disk, WriteCall(parse, true, false, text, name));
    var step := Called(parse(text).value, name);
    PassingIsGraded(parse, disk, text, name);
    var both := View(parse, after.durable) + View(parse, after.repo);
    assert step + SUFFIX in both && both[step + SUFFIX].Parsed?;
    assert step in Names(step + SUFFIX, both[step + SUFFIX].json);
  }

  // ------------------------------------------------------------------ when two copies are graded alike

  /** Whatever the bounds, the two get the same verdict. */
  ghost predicate GradedAlike(a: Content, b: Content) {
    forall bounds: seq<Bound> :: Grade(a, bounds) == Grade(b, bounds)
  }

  /** Of two receipts equal modulo ts: both carry a ts or neither does, unless they fail for another reason anyway;
      and where a bound could apply, their data is the same to the last ts. */
  ghost predicate Interchangeable(a: map<string, Json>, b: map<string, Json>) {
    && (("ts" in a <==> "ts" in b) || "step" !in a || "status" !in a || Get(a, "status") == Str("fail"))
    && (Get(a, "step").Str? ==> OrEmpty(Get(a, "data")) == OrEmpty(Get(b, "data")))
  }

  /** What equality modulo ts already settles. */
  lemma SettledByEquality(a: map<string, Json>, b: map<string, Json>)
    requires StripTs(Obj(a)) == StripTs(Obj(b))
    ensures ("step" in a <==> "step" in b) && ("status" in a <==> "status" in b)
    ensures Get(a, "step").Str? || Get(b, "step").Str? ==> Get(a, "step") == Get(b, "step")
    ensures Get(a, "status") == Str("fail") <==> Get(b, "status") == Str("fail")
  {
    StripTsDecides(Obj(a), Obj(b));
    assert "step" in a <==> "step" in b by { assert "step" in a.Keys - {"ts"} <==> "step" in a; }
    assert "status" in a <==> "status" in b by { assert "status" in a.Keys - {"ts"} <==> "status" in a; }
    LeafAgrees(Get(a, "step"), Get(b, "step"));
    LeafAgrees(Get(a, "status"), Get(b, "status"));
  }

  lemma InterchangeableGradeAlike(a: map<string, Json>, b: map<string, Json>, bounds: seq<Bound>)
    requires StripTs(Obj(a)) == StripTs(Obj(b)) && Interchangeable(a, b)
    ensures Grade(Parsed(Obj(a)), bounds) == Grade(Parsed(Obj(b)), bounds)
  {
    SettledByEquality(a, b);
    forall i | 0 <= i < |bounds| ensures Applies(bounds[i], a) <==> Applies(bounds[i], b) {
    }
  }

  /** Without bounds the verdict shows whether ts is missed; with one that singles out the first data, whether the
      second differs from it. */
  lemma AlikeAreInterchangeable(a: map<string, Json>, b: map<string, Json>)
    requires StripTs(Obj(a)) == StripTs(Obj(b)) && GradedAlike(Parsed(Obj(a)), Parsed(Obj(b)))
    ensures Interchangeable(a, b)
  {
    SettledByEquality(a, b);
    assert Grade(Parsed(Obj(a)), []) == Grade(Parsed(Obj(b)), []);
    if Get(a, "step").Str? {
      var data := OrEmpty(Get(a, "data"));
      var only := [Bound("", d => if d == data then Crash else Fine)];
      assert Applies(only[0], a) && only[0].check(data) == Crash;
      assert Grade(Parsed(Obj(a)), only) == Crash;
      assert Grade(Parsed(Obj(b)), only) == Crash;
    }
  }

  /** Two receipts equal modulo ts are graded alike under every bounds table exactly when they are interchangeable. */
  lemma GradedAlikeIff(a: map<string, Json>, b: map<string, Json>)
    requires StripTs(Obj(a)) == StripTs(Obj(b))
    ensures GradedAlike(Parsed(Obj(a)), Parsed(Obj(b))) <==> Interchangeable(a, b)
  {
    if Interchangeable(a, b) {
      forall bounds: seq<Bound> ensures Grade(Parsed(Obj(a)), bounds) == Grade(Parsed(Obj(b)), bounds) {
        InterchangeableGradeAlike(a, b, bounds);
      }
    } else if GradedAlike(Parsed(Obj(a)), Parsed(Obj(b))) {
      AlikeAreInterchangeable(a, b);
    }
  }

  /** The same of any two documents: what is no object raises on both sides. */
  ghost predicate PairAlike(a: Json, b: Json) {
    a.Obj? && b.Obj? ==> Interchangeable(a.fields, b.fields)
  }

  lemma PairAlikeIff(a: Json, b: Json)
    requires StripTs(a) == StripTs(b)
    ensures PairAlike(a, b) <==> GradedAlike(Parsed(a), Parsed(b))
  {
    if a.Obj? && b.Obj? {
      GradedAlikeIff(a.fields, b.fields);
    } else {
      assert !a.Obj? && !b.Obj?;
      forall bounds: seq<Bound> ensures Grade(Parsed(a), bounds) == Grade(Parsed(b), bounds) {
      }
    }
  }

  /** A receipt with its own ts and no other time stamp below it; what is no object has nothing to stamp. */
  ghost predicate Stamped(j: Json) {
    j.Obj? ==> "ts" in j.fields && forall k | k in j.fields && k != "ts" :: TsFree(j.fields[k])
  }

  ghost predicate AllStamped(parse: Parser, files: Files) {
    forall rel | rel in files && Top(rel) && parse(files[rel]).Some? :: Stamped(parse(files[rel]).value)
  }

  /** Stamped receipts that say the same differ in the value of ts alone. */
  lemma StampedDifferInTs(a: map<string, Json>, b: map<string, Json>)
    requires StripTs(Obj(a)) == StripTs(Obj(b)) && Stamped(Obj(a)) && Stamped(Obj(b))
    ensures a.Keys == b.Keys && forall k | k in a && k in b && k != "ts" :: a[k] == b[k]
  {
    var sa, sb := StripTs(Obj(a)).fields, StripTs(Obj(b)).fields;
    forall k ensures k in a <==> k in b {
      assert k in sa <==> k in a && k != "ts";
      assert k in sb <==> k in b && k != "ts";
    }
    forall k | k in a && k in b && k != "ts" ensures a[k] == b[k] {
      StripTsKeepsTheRest(a[k]);
      StripTsKeepsTheRest(b[k]);
      assert sa[k] == sb[k];
    }
  }

  lemma StampedInterchange(a: Json, b: Json)
    requires StripTs(a) == StripTs(b) && Stamped(a) && Stamped(b)
    ensures PairAlike(a, b)
  {
    if a.Obj? && b.Obj? { StampedDifferInTs(a.fields, b.fields); }
  }

  /** So they get the same verdict, whatever the bounds. */
  lemma StampedGradeAlike(a: Json, b: Json, bounds: seq<Bound>)
    requires StripTs(a) == StripTs(b) && Stamped(a) && Stamped(b)
    ensures Grade(Parsed(a), bounds) == Grade(Parsed(b), bounds)
  {
    StampedInterchange(a, b);
    PairAlikeIff(a, b);
  }

  // ------------------------------------------------------------------ the disk as a whole

  /** The listing holds files of the repository, every graded one among them. */
  ghost predicate Listed(repo: Files, listing: seq<string>) {
    (forall rel | rel in listing :: rel in repo) && forall rel | rel in repo && Top(rel) :: rel in listing
  }

  ghost predicate AllParse(parse: Parser, repo: Files) {
    forall rel | rel in repo && Top(rel) :: parse(repo[rel]).Some?
  }

  /** A graded receipt the mirror finds durably there already, modulo ts, and so leaves as it is. */
  ghost predicate Kept(parse: Parser, disk: Disk, rel: string) {
    && Top(rel) && rel in disk.repo && rel in disk.durable && parse(disk.repo[rel]).Some?
    && SaysTheSame(parse, disk.durable[rel], parse(disk.repo[rel]).value)
  }

  /** Every copy the mirror leaves as it is can stand in for the repository's. */
  ghost predicate KeptAlike(parse: Parser, disk: Disk) {
    forall rel | Kept(parse, disk, rel) :: PairAlike(parse(disk.repo[rel]).value, parse(disk.durable[rel]).value)
  }

  /** Stamping every receipt at the top and nowhere below is one way to have that. */
  lemma StampedAreKeptAlike(parse: Parser, disk: Disk)
    requires AllStamped(parse, disk.repo) && AllStamped(parse, disk.durable)
    ensures KeptAlike(parse, disk)
  {
    forall rel | Kept(parse, disk, rel) ensures PairAlike(parse(disk.repo[rel]).value, parse(disk.durable[rel]).value) {
      StampedInterchange(parse(disk.repo[rel]).value, parse(disk.durable[rel]).value);
    }
  }

  function ParsedOnly(parse: Parser, files: Files): Files {
    map rel | rel in files && parse(files[rel]).Some? :: files[rel]
  }

  ghost function Mirrored(parse: Parser, disk: Disk, listing: seq<string>): Files
    requires forall rel | rel in listing :: rel in disk.repo
  {
    PlaceAll(parse, disk, MirrorCall(parse, true, {}, disk.repo, listing)).durable
  }

  /** What the gate grades of the disk, leaving out receipts of the repository that do not parse. */
  ghost function Graded(parse: Parser, disk: Disk): Directory {
    View(parse, disk.durable) + View(parse, ParsedOnly(parse, disk.repo))
  }

  /** The same after the mirror, with the worktree gone. */
  ghost function Surviving(parse: Parser, disk: Disk, listing: seq<string>): Directory
    requires forall rel | rel in listing :: rel in disk.repo
  {
    View(parse, Mirrored(parse, disk, listing))
  }

  /** One graded receipt: it is there after exactly if it was before, with the same names, and with the same text
      unless the mirror kept another copy. */
  lemma OneSurvives(parse: Parser, disk: Disk, listing: seq<string>, rel: string)
    requires Listed(disk.repo, listing)
    ensures rel in Graded(parse, disk) <==> rel in Surviving(parse, disk, listing)
    ensures rel in Graded(parse, disk) ==>
      && Top(rel)
      && Graded(parse, disk)[rel] ==
           Read(parse, if rel in disk.repo && parse(disk.repo[rel]).Some? then disk.repo[rel] else disk.durable[rel])
      && Surviving(parse, disk, listing)[rel] ==
           if Kept(parse, disk, rel) then Read(parse, disk.durable[rel]) else Graded(parse, disk)[rel]
  {
    MirrorAt(parse, disk, {}, listing, rel);
  }

  lemma AllSurvive(parse: Parser, disk: Disk, listing: seq<string>)
    requires Listed(disk.repo, listing)
    ensures Graded(parse, disk).Keys == Surviving(parse, disk, listing).Keys
  {
    forall rel ensures rel in Graded(parse, disk) <==> rel in Surviving(parse, disk, listing) {
      OneSurvives(parse, disk, listing, rel);
    }
  }

  lemma SurvivesAlike(parse: Parser, disk: Disk, listing: seq<string>, rel: string)
    requires Listed(disk.repo, listing) && rel in Graded(parse, disk) && rel in Surviving(parse, disk, listing)
    requires Kept(parse, disk, rel) ==> PairAlike(parse(disk.repo[rel]).value, parse(disk.durable[rel]).value)
    ensures GradedAlike(Graded(parse, disk)[rel], Surviving(parse, disk, listing)[rel])
    ensures forall bounds :: Alike(rel, Graded(parse, disk)[rel], Surviving(parse, disk, listing)[rel], bounds)
  {
    OneSurvives(parse, disk, listing, rel);
    if Kept(parse, disk, rel) {
      PairAlikeIff(parse(disk.repo[rel]).value, parse(disk.durable[rel]).value);
      SameNames(rel, parse(disk.repo[rel]).value, parse(disk.durable[rel]).value);
    }
  }

  /** Every graded receipt keeps its verdict through mirror and discard, under every bounds table, exactly when every
      copy the mirror leaves as it is can stand in for the repository's. */
  lemma EveryVerdictKeptIff(parse: Parser, disk: Disk, listing: seq<string>)
    requires Listed(disk.repo, listing)
    ensures Graded(parse, disk).Keys == Surviving(parse, disk, listing).Keys
    ensures KeptAlike(parse, disk) <==>
      forall rel | rel in Graded(parse, disk) && rel in Surviving(parse, disk, listing) ::
        GradedAlike(Graded(parse, disk)[rel], Surviving(parse, disk, listing)[rel])
  {
    AllSurvive(parse, disk, listing);
    if KeptAlike(parse, disk) {
      forall rel | rel in Graded(parse, disk) && rel in Surviving(parse, disk, listing)
        ensures GradedAlike(Graded(parse, disk)[rel], Surviving(parse, disk, listing)[rel])
      {
        SurvivesAlike(parse, disk, listing, rel);
      }
    } else {
      var rel :| Kept(parse, disk, rel) && !PairAlike(parse(disk.repo[rel]).value, parse(disk.durable[rel]).value);
      OneSurvives(parse, disk, listing, rel);
      PairAlikeIff(parse(disk.repo[rel]).value, parse(disk.durable[rel]).value);
      assert rel in Graded(parse, disk) && rel in Surviving(parse, disk, listing);
    }
  }

  /** Mirror, then throw the worktree away: the gate exits as if the receipts that did not parse had not been there. */
  lemma DiscardForgetsTheUnparsed(parse: Parser, patchOk: bool, disk: Disk, listing: seq<string>,
                                  required: seq<string>, bounds: seq<Bound>)
    requires Listed(disk.repo, listing) && KeptAlike(parse, disk)
    ensures Verified(parse, patchOk, Disk(map[], Mirrored(parse, disk, listing)), required, bounds)
      == Verified(parse, patchOk, disk.(repo := ParsedOnly(parse, disk.repo)), required, bounds)
  {
    VerifiedIs(parse, patchOk, disk.(repo := ParsedOnly(parse, disk.repo)), required, bounds);
    VerifiedDiscarded(parse, patchOk, Mirrored(parse, disk, listing), required, bounds);
    SurvivingStatus(parse, patchOk, disk, listing, required, bounds);
  }

  lemma SurvivingStatus(parse: Parser, patchOk: bool, disk: Disk, listing: seq<string>, required: seq<string>, bounds: seq<Bound>)
    requires Listed(disk.repo, listing) && KeptAlike(parse, disk)
    ensures StatusOf(patchOk, Surviving(parse, disk, listing), required, bounds)
      == StatusOf(patchOk, Graded(parse, disk), required, bounds)
  {
    var before, after := Graded(parse, disk), Surviving(parse, disk, listing);
    AllSurvive(parse, disk, listing);
    forall rel | rel in before && rel in after ensures Alike(rel, before[rel], after[rel], bounds) {
      SurvivesAlike(parse, disk, listing, rel);
    }
    AlikeSetsGradeAlike(before, after, required, bounds, patchOk);
  }

  /** If every graded receipt of the repository parses, the gate exits as it did before. */
  lemma MirrorThenDiscardKeepsTheExit(parse: Parser, patchOk: bool, disk: Disk, listing: seq<string>,
                                      required: seq<string>, bounds: seq<Bound>)
    requires Listed(disk.repo, listing) && AllParse(parse, disk.repo) && KeptAlike(parse, disk)
    ensures Verified(parse, patchOk, Disk(map[], Mirrored(parse, disk, listing)), required, bounds)
      == Verified(parse, patchOk, disk, required, bounds)
  {
    DiscardForgetsTheUnparsed(parse, patchOk, disk, listing, required, bounds);
    assert View(parse, ParsedOnly(parse, disk.repo)) == View(parse, disk.repo);
  }

  /** If one does not, the gate was not clean. */
  lemma UnparsedIsNotClean(parse: Parser, patchOk: bool, disk: Disk, required: seq<string>, bounds: seq<Bound>)
    requires !AllParse(parse, disk.repo)
    ensures Verified(parse, patchOk, disk, required, bounds) != 0
  {
    var rel :| rel in disk.repo && Top(rel) && parse(disk.repo[rel]).None?;
    VerifiedIs(parse, patchOk, disk, required, bounds);
    var graded := View(parse, disk.durable) + View(parse, disk.repo);
    assert rel in graded && graded[rel] == Invalid;
  }

  /** With nothing assumed of what parses: the gate is clean before exactly when it is clean after and every graded
      receipt of the repository parsed. */
  lemma CleanBeforeIff(parse: Parser, patchOk: bool, disk: Disk, listing: seq<string>, required: seq<string>, bounds: seq<Bound>)
    requires Listed(disk.repo, listing) && KeptAlike(parse, disk)
    ensures Verified(parse, patchOk, disk, required, bounds) == 0 <==>
      Verified(parse, patchOk, Disk(map[], Mirrored(parse, disk, listing)), required, bounds) == 0 && AllParse(parse, disk.repo)
  {
    if AllParse(parse, disk.repo) {
      MirrorThenDiscardKeepsTheExit(parse, patchOk, disk, listing, required, bounds);
    } else {
      UnparsedIsNotClean(parse, patchOk, disk, required, bounds);
    }
  }

  /** So the violation of receipts that do not parse dies with the worktree, exactly where the rest is clean. */
  lemma UnparsedViolationVanishesIff(parse: Parser, patchOk: bool, disk: Disk, listing: seq<string>,
                                     required: seq<string>, bounds: seq<Bound>)
    requires Listed(disk.repo, listing) && KeptAlike(parse, disk) && !AllParse(parse, disk.repo)
    ensures Verified(parse, patchOk, disk, required, bounds) != 0
    ensures Verified(parse, patchOk, Disk(map[], Mirrored(parse, disk, listing)), required, bounds) == 0 <==>
      Verified(parse, patchOk, disk.(repo := ParsedOnly(parse, disk.repo)), required, bounds) == 0
  {
    UnparsedIsNotClean(parse, patchOk, disk, required, bounds);
    DiscardForgetsTheUnparsed(parse, patchOk, disk, listing, required, bounds);
  }

  /** The stamps matter: a durable copy that lacks only its ts is kept by the mirror, and clean turns to violation. */
  lemma BareCopyTurnsTheExit(parse: Parser, rel: string, fields: map<string, Json>, text: string, bare: string)
    requires Top(rel) && WellFormed(fields) && Get(fields, "status") != Str("fail")
    requires parse(text) == Some(Obj(fields)) && parse(bare) == Some(Obj(fields - {"ts"}))
    ensures var disk := Disk(map[rel := text], map[rel := bare]);
      && Verified(parse, true, disk, [], []) == 0
      && Verified(parse, true, Disk(map[], Mirrored(parse, disk, [rel])), [], []) == 2
  {
    var disk := Disk(map[rel := text], map[rel := bare]);
    BareIsKept(parse, rel, fields, text, bare);
    VerifiedIs(parse, true, disk, [], []);
    VerifiedIs(parse, true, Disk(map[], disk.durable), [], []);
    ViewsOfOne(parse, rel, text, bare);
    OneReceipt(rel, Parsed(Obj(fields)));
    OneReceipt(rel, Parsed(Obj(fields - {"ts"})));
  }

  lemma ViewsOfOne(parse: Parser, rel: string, text: string, other: string)
    requires Top(rel)
    ensures View(parse, map[rel := other]) + View(parse, map[rel := text]) == map[rel := Read(parse, text)]
    ensures View(parse, map[rel := other]) + View(parse, map[]) == map[rel := Read(parse, other)]
  {
  }

  lemma BareIsKept(parse: Parser, rel: string, fields: map<string, Json>, text: string, bare: string)
    requires parse(text) == Some(Obj(fields)) && parse(bare) == Some(Obj(fields - {"ts"}))
    ensures Mirrored(parse, Disk(map[rel := text], map[rel := bare]), [rel]) == map[rel := bare]
  {
    var disk := Disk(map[rel := text], map[rel := bare]);
    assert StripTs(Obj(fields)).fields == StripTs(Obj(fields - {"ts"})).fields;
    assert SaysTheSame(parse, bare, Obj(fields));
    var after := Mirrored(parse, disk, [rel]);
    forall other ensures Lookup(after, other) == Lookup(disk.durable, other) {
      MirrorAt(parse, disk, {}, [rel], other);
    }
    forall other ensures other in after <==> other == rel {
      assert Lookup(after, other) == Lookup(disk.durable, other);
    }
    assert Lookup(after, rel) == Some(bare);
    assert after == map[rel := bare];
  }

  /** One graded receipt and nothing demanded: the exit follows its verdict. */
  lemma OneReceipt(rel: string, content: Content)
    requires content.Parsed? && content.json.Obj?
    ensures StatusOf(true, map[rel := content], [], []) ==
      if WellFormed(content.json.fields) && Get(content.json.fields, "status") != Str("fail") then 0 else 2
  {
    var graded: Directory := map[rel := content];
    assert rel in graded && forall name | name in graded :: graded[name] == content;
  }

  /** A receipt that does not parse is not mirrored, so the violation it was dies with the worktree. */
  lemma UnparsedViolationVanishes(parse: Parser, rel: string, text: string, bounds: seq<Bound>)
    requires parse(text).None? && Top(rel)
    ensures var disk := Disk(map[rel := text], map[]);
      var mirrored := PlaceAll(parse, disk, MirrorCall(parse, true, {}, disk.repo, [rel]));
      && Verified(parse, true, disk, [], bounds) == 2
      && Verified(parse, true, mirrored.(repo := map[]), [], bounds) == 0
  {
    var disk := Disk(map[rel := text], map[]);
    assert [rel][..0] == [];
    assert MirrorCall(parse, true, {}, disk.repo, [rel]) == [];
    var before, after := View(parse, disk.repo), View(parse, map[]);
    NoneQuarantined(before, after);
    NoneQuarantined(after, after);
    assert after + before == before;
    assert rel in before && before[rel] == Invalid;
    assert forall name | name in before :: before[name] == Invalid;
  }
}

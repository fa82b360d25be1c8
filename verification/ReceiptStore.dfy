/** The two-root receipt store of scripts/receipt-restore.py: receipts are placed durably and in the
    repository, compared modulo their time stamps, and mirrored before a worktree is thrown away. */
module ReceiptStore {
  import opened Json
  import opened Optional

  // ------------------------------------------------------------------ equality modulo ts

  function StripTs(j: Json): Json {
    match j
    case Obj(fields) => Obj(map k | k in fields && k != "ts" :: StripTs(fields[k]))
    case Arr(items) => Arr(seq(|items|, i requires 0 <= i < |items| => StripTs(items[i])))
    case _ => j
  }

  /** No ts key at any depth. */
  ghost predicate TsFree(j: Json) {
    match j
    case Obj(fields) => "ts" !in fields && forall k | k in fields :: TsFree(fields[k])
    case Arr(items) => forall i | 0 <= i < |items| :: TsFree(items[i])
    case _ => true
  }

  /** Same shape and values everywhere but under keys called ts. */
  ghost predicate EqualButTs(a: Json, b: Json) {
    match a
    case Obj(fields) =>
      b.Obj? && fields.Keys - {"ts"} == b.fields.Keys - {"ts"} &&
      forall k | k in fields && k != "ts" && k in b.fields :: EqualButTs(fields[k], b.fields[k])
    case Arr(items) =>
      b.Arr? && |items| == |b.items| && forall i | 0 <= i < |items| && i < |b.items| :: EqualButTs(items[i], b.items[i])
    case _ => a == b
  }

  lemma {:induction false} StripTsLeavesNone(j: Json)
    ensures TsFree(StripTs(j))
  {
    match j
    case Obj(fields) =>
      forall k | k in fields && k != "ts" ensures TsFree(StripTs(fields[k])) { StripTsLeavesNone(fields[k]); }
    case Arr(items) =>
      forall i | 0 <= i < |items| ensures TsFree(StripTs(items[i])) { StripTsLeavesNone(items[i]); }
    case _ =>
  }

  lemma {:induction false} StripTsKeepsTheRest(j: Json)
    requires TsFree(j)
    ensures StripTs(j) == j
  {
    match j
    case Obj(fields) =>
      forall k | k in fields ensures StripTs(fields[k]) == fields[k] { StripTsKeepsTheRest(fields[k]); }
      assert (map k | k in fields && k != "ts" :: StripTs(fields[k])) == fields;
    case Arr(items) =>
      forall i | 0 <= i < |items| ensures StripTs(items[i]) == items[i] { StripTsKeepsTheRest(items[i]); }
      assert seq(|items|, i requires 0 <= i < |items| => StripTs(items[i])) == items;
    case _ =>
  }

  /** Comparing stripped documents decides exactly equality but for time stamps. */
  lemma {:induction false} StripTsDecides(a: Json, b: Json)
    ensures StripTs(a) == StripTs(b) <==> EqualButTs(a, b)
  {
    if a.Obj? && b.Obj? {
      ObjectsDecided(a.fields, b.fields) by {
        forall k | k in a.fields && k in b.fields && k != "ts"
          ensures StripTs(a.fields[k]) == StripTs(b.fields[k]) <==> EqualButTs(a.fields[k], b.fields[k])
        {
          StripTsDecides(a.fields[k], b.fields[k]);
        }
      }
    } else if a.Arr? && b.Arr? {
      ArraysDecided(a.items, b.items) by {
        forall i | 0 <= i < |a.items| && i < |b.items|
          ensures StripTs(a.items[i]) == StripTs(b.items[i]) <==> EqualButTs(a.items[i], b.items[i])
        {
          StripTsDecides(a.items[i], b.items[i]);
        }
      }
    }
  }

  lemma ObjectsDecided(a: map<string, Json>, b: map<string, Json>)
    requires forall k | k in a && k in b && k != "ts" :: StripTs(a[k]) == StripTs(b[k]) <==> EqualButTs(a[k], b[k])
    ensures StripTs(Obj(a)) == StripTs(Obj(b)) <==> EqualButTs(Obj(a), Obj(b))
  {
    var sa, sb := StripTs(Obj(a)).fields, StripTs(Obj(b)).fields;
    assert sa.Keys == a.Keys - {"ts"} && sb.Keys == b.Keys - {"ts"};
    if EqualButTs(Obj(a), Obj(b)) {
      forall k | k in sa ensures k in sb && sa[k] == sb[k] { assert k in sa.Keys; }
      assert sa == sb;
    }
    if sa == sb {
      forall k | k in a && k != "ts" && k in b ensures EqualButTs(a[k], b[k]) { assert sa[k] == sb[k]; }
    }
  }

  lemma ArraysDecided(a: seq<Json>, b: seq<Json>)
    requires forall i | 0 <= i < |a| && i < |b| :: StripTs(a[i]) == StripTs(b[i]) <==> EqualButTs(a[i], b[i])
    ensures StripTs(Arr(a)) == StripTs(Arr(b)) <==> EqualButTs(Arr(a), Arr(b))
  {
    var sa, sb := StripTs(Arr(a)).items, StripTs(Arr(b)).items;
    if EqualButTs(Arr(a), Arr(b)) {
      forall i | 0 <= i < |a| ensures sa[i] == sb[i] { assert EqualButTs(a[i], b[i]); }
      assert sa == sb;
    }
    if sa == sb {
      forall i | 0 <= i < |a| && i < |b| ensures EqualButTs(a[i], b[i]) { assert sa[i] == sb[i]; }
    }
  }

  // ------------------------------------------------------------------ placements

  type Files = map<string, string>

  datatype Disk = Disk(repo: Files, durable: Files)

  /** One call of _place: which root, where, and what. */
  datatype Placement = Placement(durably: bool, rel: string, receipt: Json, text: string)

  /** The file parses, and says what the receipt says but for time stamps. */
  ghost predicate SaysTheSame(parse: Parser, text: string, receipt: Json) {
    parse(text).Some? && StripTs(parse(text).value) == StripTs(receipt)
  }

  ghost function PlaceIn(parse: Parser, files: Files, rel: string, receipt: Json, text: string): Files {
    if rel in files && SaysTheSame(parse, files[rel], receipt) then files else files[rel := text]
  }

  ghost function Place(parse: Parser, disk: Disk, p: Placement): Disk {
    if p.durably then disk.(durable := PlaceIn(parse, disk.durable, p.rel, p.receipt, p.text))
    else disk.(repo := PlaceIn(parse, disk.repo, p.rel, p.receipt, p.text))
  }

  ghost function PlaceAll(parse: Parser, disk: Disk, ps: seq<Placement>): Disk {
    if ps == [] then disk else Place(parse, PlaceAll(parse, disk, ps[..|ps| - 1]), ps[|ps| - 1])
  }

  /** The disk after each placement in turn. */
  ghost function Stages(parse: Parser, disk: Disk, ps: seq<Placement>): seq<Disk> {
    if ps == [] then [] else Stages(parse, disk, ps[..|ps| - 1]) + [PlaceAll(parse, disk, ps)]
  }

  // ------------------------------------------------------------------ the two calls

  /** Where a receipt belongs, that it names no step, or that it is no object at all. */
  datatype Where = At(rel: string) | NoStep | NotAnObject

  const FAILED: string := "failed/"
  const SUFFIX: string := ".json"

  function Relative(receipt: Json, name: string): Where {
    if !receipt.Obj? then NotAnObject
    else
      var step := if name != "" then Str(name) else Get(receipt.fields, "step");
      if !step.Str? || step.text == "" then NoStep
      else if Get(receipt.fields, "status") == Str("fail") then At(FAILED + step.text + SUFFIX)
      else At(step.text + SUFFIX)
  }

  /** What one write places, in order: the durable copy, unless there is no state directory or the write there is
      refused, and then the copy in the repository. */
  ghost function WriteCall(parse: Parser, stateDir: bool, refused: bool, text: string, name: string): seq<Placement> {
    if parse(text).None? || !Relative(parse(text).value, name).At? then [] else
      var receipt := parse(text).value;
      var rel := Relative(receipt, name).rel;
      (if stateDir && !refused then [Placement(true, rel, receipt, text)] else [])
      + [Placement(false, rel, receipt, text)]
  }

  /** What one mirror places: every listed receipt of the repository that parses and is not refused. */
  ghost function MirrorCall(parse: Parser, stateDir: bool, refused: set<string>, repo: Files, listing: seq<string>): (ps: seq<Placement>)
    requires forall rel | rel in listing :: rel in repo
  {
    if listing == [] || !stateDir then [] else
      var rel := listing[|listing| - 1];
      MirrorCall(parse, stateDir, refused, repo, listing[..|listing| - 1])
      + (if parse(repo[rel]).Some? && rel !in refused then [Placement(true, rel, parse(repo[rel]).value, repo[rel])] else [])
  }

  /** The disk after mirroring one receipt of repo. */
  ghost function Copied(parse: Parser, refused: set<string>, repo: Files, disk: Disk, rel: string): Disk
    requires rel in repo
  {
    if parse(repo[rel]).Some? && rel !in refused
    then Place(parse, disk, Placement(true, rel, parse(repo[rel]).value, repo[rel])) else disk
  }

  ghost predicate Holds(parse: Parser, files: Files, rel: string, receipt: Json) {
    rel in files && SaysTheSame(parse, files[rel], receipt)
  }

  /** Mirroring this receipt writes it: it parses, is not refused, and is not said durably yet. */
  ghost predicate Copies(parse: Parser, refused: set<string>, repo: Files, durable: Files, rel: string)
    requires rel in repo
  {
    parse(repo[rel]).Some? && rel !in refused && !Holds(parse, durable, rel, parse(repo[rel]).value)
  }

  /** How many of the listed receipts a mirror writes. */
  ghost function CopiedCount(parse: Parser, refused: set<string>, disk: Disk, listing: seq<string>): nat
    requires forall rel | rel in listing :: rel in disk.repo
  {
    if listing == [] then 0 else
      var before, rel := listing[..|listing| - 1], listing[|listing| - 1];
      var durable := PlaceAll(parse, disk, MirrorCall(parse, true, refused, disk.repo, before)).durable;
      CopiedCount(parse, refused, disk, before) + (if Copies(parse, refused, disk.repo, durable, rel) then 1 else 0)
  }

  /** The script's state: both roots, and the history of the disk. */
  class Store {
    const parse: Parser
    const stateDir: bool
    var repo: Files
    var durable: Files
    ghost var history: seq<Disk>

    constructor (parse: Parser, stateDir: bool, repo: Files, durable: Files)
      ensures this.parse == parse && this.stateDir == stateDir && Now() == Disk(repo, durable) && history == []
    {
      this.parse, this.stateDir, this.repo, this.durable, this.history := parse, stateDir, repo, durable, [];
    }

    ghost function Now(): Disk
      reads this
    {
      Disk(repo, durable)
    }

    method Same(text: string, receipt: Json) returns (same: bool)
      ensures same <==> SaysTheSame(parse, text, receipt)
    {
      var there := parse(text);
      same := there.Some? && StripTs(there.value) == StripTs(receipt);
    }

    method PlaceOne(durably: bool, rel: string, receipt: Json, text: string) returns (wrote: bool)
      modifies this
      ensures Now() == Place(parse, old(Now()), Placement(durably, rel, receipt, text))
      ensures history == old(history) + [Now()]
      ensures wrote <==> !Holds(parse, if durably then old(durable) else old(repo), rel, receipt)
    {
      var files := if durably then durable else repo;
      var same := false;
      if rel in files { same := Same(files[rel], receipt); }
      wrote := !same;
      if wrote {
        if durably { durable := durable[rel := text]; } else { repo := repo[rel := text]; }
      }
      history := history + [Now()];
    }

    /** Exit status of `--write`: None is an uncaught error before anything is placed. */
    method Write(text: string, name: string, refused: bool) returns (status: Option<int>)
      modifies this
      ensures Now() == PlaceAll(parse, old(Now()), WriteCall(parse, stateDir, refused, text, name))
      ensures history == old(history) + Stages(parse, old(Now()), WriteCall(parse, stateDir, refused, text, name))
      ensures status == (if parse(text).None? then None else match Relative(parse(text).value, name)
                         case At(_) => Some(0) case NoStep => Some(2) case NotAnObject => None)
    {
      var parsed := parse(text);
      if parsed.None? { return None; }
      var receipt := parsed.value;
      var where := Relative(receipt, name);
      match where {
        case NotAnObject => return None;
        case NoStep => return Some(2);
        case At(rel) =>
          ghost var start, call := Now(), WriteCall(parse, stateDir, refused, text, name);
          var wrote;
          if stateDir && !refused {
            wrote := PlaceOne(true, rel, receipt, text);
            OneThenTwo(parse, start, call[0], call[1]);
          } else {
            OneStage(parse, start, call[0]);
          }
          wrote := PlaceOne(false, rel, receipt, text);
          return Some(0);
      }
    }

    method MirrorOne(rel: string, refused: set<string>) returns (wrote: bool)
      requires rel in repo
      modifies this
      ensures Now() == Copied(parse, refused, old(repo), old(Now()), rel)
      ensures wrote <==> Copies(parse, refused, old(repo), old(durable), rel)
    {
      wrote := false;
      var text := repo[rel];
      var parsed := parse(text);
      if parsed.Some? && rel !in refused {
        wrote := PlaceOne(true, rel, parsed.value, text);
      }
    }

    /** Copies the listed receipts out; a refused copy is reported and skipped. */
    method Mirror(listing: seq<string>, refused: set<string>) returns (copied: nat)
      requires forall rel | rel in listing :: rel in repo
      modifies this
      ensures repo == old(repo)
      ensures Now() == PlaceAll(parse, old(Now()), MirrorCall(parse, stateDir, refused, old(repo), listing))
      ensures copied == if stateDir then CopiedCount(parse, refused, old(Now()), listing) else 0
    {
      copied := 0;
      if !stateDir { return; }
      ghost var start, done: seq<string> := Now(), [];
      for i := 0 to |listing|
        invariant repo == start.repo && done == listing[..i]
        invariant Midway(parse, refused, start, done, Now(), copied)
      {
        MidwayNext(parse, refused, start, done, listing[i], Now(), copied);
        done := done + [listing[i]];
        var wrote := MirrorOne(listing[i], refused);
        if wrote { copied := copied + 1; }
      }
      assert listing[..|listing|] == listing;
    }
  }

  lemma PlaceAllAppend(parse: Parser, disk: Disk, ps: seq<Placement>, p: Placement)
    ensures PlaceAll(parse, disk, ps + [p]) == Place(parse, PlaceAll(parse, disk, ps), p)
  {
    assert (ps + [p])[..|ps|] == ps;
  }

  /** Mirroring one more receipt is placing it after the others, if it parses and is not refused. */
  lemma MirrorStep(parse: Parser, refused: set<string>, disk: Disk, listing: seq<string>, last: string)
    requires last in disk.repo && forall r | r in listing :: r in disk.repo
    ensures PlaceAll(parse, disk, MirrorCall(parse, true, refused, disk.repo, listing + [last])) ==
      var before := PlaceAll(parse, disk, MirrorCall(parse, true, refused, disk.repo, listing));
      Copied(parse, refused, disk.repo, before, last)
  {
    assert (listing + [last])[..|listing|] == listing;
    var ps := MirrorCall(parse, true, refused, disk.repo, listing);
    if parse(disk.repo[last]).Some? && last !in refused {
      PlaceAllAppend(parse, disk, ps, Placement(true, last, parse(disk.repo[last]).value, disk.repo[last]));
    } else {
      assert ps + [] == ps;
    }
  }

  /** Where a mirror stands after the receipts in done. */
  ghost predicate Midway(parse: Parser, refused: set<string>, start: Disk, done: seq<string>, now: Disk, copied: nat) {
    && (forall r | r in done :: r in start.repo)
    && now == PlaceAll(parse, start, MirrorCall(parse, true, refused, start.repo, done))
    && copied == CopiedCount(parse, refused, start, done)
  }

  lemma MidwayNext(parse: Parser, refused: set<string>, start: Disk, done: seq<string>, rel: string, now: Disk, copied: nat)
    requires Midway(parse, refused, start, done, now, copied) && rel in start.repo
    ensures Midway(parse, refused, start, done + [rel], Copied(parse, refused, start.repo, now, rel),
                   copied + (if Copies(parse, refused, start.repo, now.durable, rel) then 1 else 0))
  {
    MirrorStep(parse, refused, start, done, rel);
    assert (done + [rel])[..|done|] == done;
  }

  lemma OneStage(parse: Parser, disk: Disk, p: Placement)
    ensures PlaceAll(parse, disk, [p]) == Place(parse, disk, p)
    ensures Stages(parse, disk, [p]) == [Place(parse, disk, p)]
  {
    assert [p][..0] == [];
    assert PlaceAll(parse, disk, [p][..0]) == disk;
    assert Stages(parse, disk, [p][..0]) == [];
  }

  lemma OneThenTwo(parse: Parser, disk: Disk, p: Placement, q: Placement)
    ensures PlaceAll(parse, disk, [p, q]) == Place(parse, Place(parse, disk, p), q)
    ensures Stages(parse, disk, [p, q]) == [Place(parse, disk, p), Place(parse, Place(parse, disk, p), q)]
  {
    OneStage(parse, disk, p);
    assert [p, q][..1] == [p];
    assert PlaceAll(parse, disk, [p, q][..1]) == Place(parse, disk, p);
    assert Stages(parse, disk, [p, q][..1]) == [Place(parse, disk, p)];
  }

  // ------------------------------------------------------------------ one call

  lemma PlacedHolds(parse: Parser, files: Files, rel: string, receipt: Json, text: string)
    requires parse(text) == Some(receipt)
    ensures Holds(parse, PlaceIn(parse, files, rel, receipt, text), rel, receipt)
  {
  }

  /** A complete write leaves both roots saying the receipt, whatever was there. */
  lemma WriteLands(parse: Parser, disk: Disk, text: string, name: string)
    requires parse(text).Some? && Relative(parse(text).value, name).At?
    ensures var after := PlaceAll(parse, disk, WriteCall(parse, true, false, text, name));
      var receipt, rel := parse(text).value, Relative(parse(text).value, name).rel;
      && after == Disk(PlaceIn(parse, disk.repo, rel, receipt, text), PlaceIn(parse, disk.durable, rel, receipt, text))
      && Holds(parse, after.durable, rel, receipt) && Holds(parse, after.repo, rel, receipt)
  {
    var call := WriteCall(parse, true, false, text, name);
    OneThenTwo(parse, disk, call[0], call[1]);
    PlacedHolds(parse, disk.repo, call[0].rel, parse(text).value, text);
    PlacedHolds(parse, disk.durable, call[0].rel, parse(text).value, text);
  }

  /** Stopping a write after any number of placements: the copy in the repository has changed only if the durable
      copy already says the receipt. */
  lemma DurableFirst(parse: Parser, disk: Disk, text: string, name: string, done: nat)
    requires done <= |WriteCall(parse, true, false, text, name)|
    ensures var cut := PlaceAll(parse, disk, WriteCall(parse, true, false, text, name)[..done]);
      cut.repo != disk.repo ==>
        Holds(parse, cut.durable, Relative(parse(text).value, name).rel, parse(text).value)
  {
    var call := WriteCall(parse, true, false, text, name);
    if call != [] {
      if done == 2 {
        assert call[..2] == call;
        WriteLands(parse, disk, text, name);
      } else if done == 1 {
        assert call[..1] == [call[0]];
        OneStage(parse, disk, call[0]);
      }
    }
  }

  /** Receipts that differ only in time stamps belong at the same place. */
  lemma RestampSameWhere(a: Json, b: Json, name: string)
    requires EqualButTs(a, b)
    ensures Relative(a, name) == Relative(b, name)
  {
    if a.Obj? {
      assert "step" in a.fields <==> "step" in b.fields by { assert "step" in a.fields.Keys - {"ts"} <==> "step" in a.fields; }
      assert "status" in a.fields <==> "status" in b.fields by { assert "status" in a.fields.Keys - {"ts"} <==> "status" in a.fields; }
      LeafAgrees(Get(a.fields, "step"), Get(b.fields, "step"));
      LeafAgrees(Get(a.fields, "status"), Get(b.fields, "status"));
    }
  }

  lemma LeafAgrees(a: Json, b: Json)
    requires EqualButTs(a, b)
    ensures a.Str? || b.Str? ==> a == b
  {
  }

  /** Writing again with a fresh ts changes no byte in either root. */
  lemma RestampChangesNothing(parse: Parser, disk: Disk, text: string, again: string, name: string)
    requires parse(text).Some? && parse(again).Some? && EqualButTs(parse(text).value, parse(again).value)
    ensures var after := PlaceAll(parse, disk, WriteCall(parse, true, false, text, name));
      PlaceAll(parse, after, WriteCall(parse, true, false, again, name)) == after
  {
    RestampSameWhere(parse(text).value, parse(again).value, name);
    StripTsDecides(parse(text).value, parse(again).value);
    if Relative(parse(text).value, name).At? {
      WriteLands(parse, disk, text, name);
      WriteLands(parse, PlaceAll(parse, disk, WriteCall(parse, true, false, text, name)), again, name);
    }
  }

  // ------------------------------------------------------------------ one mirror

  /** The listed receipt would be placed. */
  ghost predicate Offered(parse: Parser, repo: Files, listing: seq<string>, rel: string) {
    rel in listing && rel in repo && parse(repo[rel]).Some?
  }

  ghost function Lookup(files: Files, rel: string): Option<string> {
    if rel in files then Some(files[rel]) else None
  }

  /** The text at a path once a receipt has been placed there. */
  ghost function Settled(parse: Parser, there: Option<string>, receipt: Json, text: string): string {
    if there.Some? && SaysTheSame(parse, there.value, receipt) then there.value else text
  }

  /** The durable text at one path after a mirror of the listed receipts. */
  ghost function MirroredText(parse: Parser, refused: set<string>, disk: Disk, listing: seq<string>, rel: string): Option<string> {
    if Offered(parse, disk.repo, listing, rel) && rel !in refused
    then Some(Settled(parse, Lookup(disk.durable, rel), parse(disk.repo[rel]).value, disk.repo[rel]))
    else Lookup(disk.durable, rel)
  }

  lemma LookupPlaced(parse: Parser, files: Files, at: string, receipt: Json, text: string, rel: string)
    ensures Lookup(PlaceIn(parse, files, at, receipt, text), rel) ==
      if rel == at then Some(Settled(parse, Lookup(files, at), receipt, text)) else Lookup(files, rel)
  {
  }

  lemma SettledTwice(parse: Parser, there: Option<string>, receipt: Json, text: string)
    requires parse(text) == Some(receipt)
    ensures var once := Settled(parse, there, receipt, text); Settled(parse, Some(once), receipt, text) == once
  {
  }

  /** What a mirror does to one durable path, for every listing. */
  lemma {:induction false} MirrorAt(parse: Parser, disk: Disk, refused: set<string>, listing: seq<string>, rel: string)
    requires forall r | r in listing :: r in disk.repo
    ensures var after := PlaceAll(parse, disk, MirrorCall(parse, true, refused, disk.repo, listing));
      after.repo == disk.repo && Lookup(after.durable, rel) == MirroredText(parse, refused, disk, listing, rel)
  {
    if listing != [] {
      var before, last := listing[..|listing| - 1], listing[|listing| - 1];
      assert listing == before + [last];
      MirrorAt(parse, disk, refused, before, rel);
      MirrorStep(parse, refused, disk, before, last);
      OneMoreMirrored(parse, refused, disk, before, last, rel,
                      PlaceAll(parse, disk, MirrorCall(parse, true, refused, disk.repo, before)));
    }
  }

  lemma OneMoreMirrored(parse: Parser, refused: set<string>, disk: Disk, before: seq<string>, last: string, rel: string, mid: Disk)
    requires last in disk.repo && mid.repo == disk.repo
    requires Lookup(mid.durable, rel) == MirroredText(parse, refused, disk, before, rel)
    ensures Copied(parse, refused, disk.repo, mid, last).repo == disk.repo
    ensures Lookup(Copied(parse, refused, disk.repo, mid, last).durable, rel)
      == MirroredText(parse, refused, disk, before + [last], rel)
  {
    if parse(disk.repo[last]).Some? && last !in refused {
      var receipt := parse(disk.repo[last]).value;
      LookupPlaced(parse, mid.durable, last, receipt, disk.repo[last], rel);
      SettledTwice(parse, Lookup(disk.durable, last), receipt, disk.repo[last]);
    }
    assert rel in before + [last] <==> rel in before || rel == last;
  }

  /** A mirror overwrites a durable receipt exactly when the repository offers one that says something else. */
  lemma MirrorKeepsIff(parse: Parser, disk: Disk, listing: seq<string>, rel: string)
    requires (forall r | r in listing :: r in disk.repo) && rel in disk.durable
    ensures var after := PlaceAll(parse, disk, MirrorCall(parse, true, {}, disk.repo, listing));
      rel in after.durable &&
      (after.durable[rel] == disk.durable[rel] <==>
        (Offered(parse, disk.repo, listing, rel) ==> SaysTheSame(parse, disk.durable[rel], parse(disk.repo[rel]).value)))
  {
    MirrorAt(parse, disk, {}, listing, rel);
  }

  /** Mirroring twice is mirroring once. */
  lemma MirrorIsIdempotent(parse: Parser, disk: Disk, listing: seq<string>)
    requires forall r | r in listing :: r in disk.repo
    ensures var after := PlaceAll(parse, disk, MirrorCall(parse, true, {}, disk.repo, listing));
      after.repo == disk.repo && PlaceAll(parse, after, MirrorCall(parse, true, {}, after.repo, listing)) == after
  {
    MirrorAt(parse, disk, {}, listing, "");
    var after := PlaceAll(parse, disk, MirrorCall(parse, true, {}, disk.repo, listing));
    var twice := PlaceAll(parse, after, MirrorCall(parse, true, {}, after.repo, listing));
    MirrorAt(parse, after, {}, listing, "");
    forall rel ensures rel in twice.durable <==> rel in after.durable {
      MirrorAt(parse, disk, {}, listing, rel);
      MirrorAt(parse, after, {}, listing, rel);
    }
    forall rel | rel in after.durable ensures twice.durable[rel] == after.durable[rel] {
      MirrorAt(parse, disk, {}, listing, rel);
      MirrorAt(parse, after, {}, listing, rel);
    }
    assert twice.durable == after.durable;
  }

  // ------------------------------------------------------------------ whole histories

  /** A write or a mirror that stops after `done` placements, or the worktree replaced: discarded for a fresh
      checkout, or written by a step that does not use this script. */
  datatype Event =
    | Write(text: string, name: string, done: nat)
    | Mirror(listing: seq<string>, done: nat)
    | Worktree(repo: Files)

  ghost predicate Possible(parse: Parser, disk: Disk, e: Event) {
    match e
    case Write(text, name, done) => done <= |WriteCall(parse, true, false, text, name)|
    case Mirror(listing, done) =>
      (forall rel | rel in listing :: rel in disk.repo) && done <= |MirrorCall(parse, true, {}, disk.repo, listing)|
    case Worktree(_) => true
  }

  ghost function Carried(parse: Parser, disk: Disk, e: Event): seq<Placement>
    requires Possible(parse, disk, e)
  {
    match e
    case Write(text, name, done) => WriteCall(parse, true, false, text, name)[..done]
    case Mirror(listing, done) => MirrorCall(parse, true, {}, disk.repo, listing)[..done]
    case Worktree(_) => []
  }

  ghost function After(parse: Parser, disk: Disk, e: Event): Disk
    requires Possible(parse, disk, e)
  {
    if e.Worktree? then disk.(repo := e.repo) else PlaceAll(parse, disk, Carried(parse, disk, e))
  }

  ghost predicate History(parse: Parser, disk: Disk, events: seq<Event>)
    decreases |events|
  {
    events == [] || (Possible(parse, disk, events[0]) && History(parse, After(parse, disk, events[0]), events[1..]))
  }

  ghost function Outcome(parse: Parser, disk: Disk, events: seq<Event>): Disk
    requires History(parse, disk, events)
    decreases |events|
  {
    if events == [] then disk else Outcome(parse, After(parse, disk, events[0]), events[1..])
  }

  type Log = map<string, Json>

  /** The last receipt placed durably at each path. */
  ghost function Placed(log: Log, ps: seq<Placement>): Log {
    if ps == [] then log else
      var before := Placed(log, ps[..|ps| - 1]);
      if ps[|ps| - 1].durably then before[ps[|ps| - 1].rel := ps[|ps| - 1].receipt] else before
  }

  ghost function LastPlaced(parse: Parser, disk: Disk, events: seq<Event>, log: Log): Log
    requires History(parse, disk, events)
    decreases |events|
  {
    if events == [] then log
    else LastPlaced(parse, After(parse, disk, events[0]), events[1..], Placed(log, Carried(parse, disk, events[0])))
  }

  ghost predicate Honest(parse: Parser, ps: seq<Placement>) {
    forall i | 0 <= i < |ps| :: parse(ps[i].text) == Some(ps[i].receipt)
  }

  lemma {:induction false} MirrorHonest(parse: Parser, repo: Files, listing: seq<string>)
    requires forall rel | rel in listing :: rel in repo
    ensures Honest(parse, MirrorCall(parse, true, {}, repo, listing))
  {
    if listing != [] {
      MirrorHonest(parse, repo, listing[..|listing| - 1]);
    }
  }

  lemma CarriedHonest(parse: Parser, disk: Disk, e: Event)
    requires Possible(parse, disk, e)
    ensures Honest(parse, Carried(parse, disk, e))
  {
    if e.Mirror? { MirrorHonest(parse, disk.repo, e.listing); }
  }

  /** Every logged path holds what was logged; every other durable file is as at the start. */
  ghost predicate Faithful(parse: Parser, start: Files, durable: Files, log: Log) {
    && (forall rel | rel in log :: Holds(parse, durable, rel, log[rel]))
    && (forall rel | rel !in log :: (rel in durable <==> rel in start) && (rel in start ==> durable[rel] == start[rel]))
  }

  lemma {:induction false} PlacingIsFaithful(parse: Parser, start: Files, disk: Disk, log: Log, ps: seq<Placement>)
    requires Faithful(parse, start, disk.durable, log) && Honest(parse, ps)
    ensures Faithful(parse, start, PlaceAll(parse, disk, ps).durable, Placed(log, ps))
  {
    if ps != [] {
      var before, p := ps[..|ps| - 1], ps[|ps| - 1];
      PlacingIsFaithful(parse, start, disk, log, before);
      if p.durably { PlacedHolds(parse, PlaceAll(parse, disk, before).durable, p.rel, p.receipt, p.text); }
    }
  }

  lemma {:induction false} HistoryIsFaithful(parse: Parser, start: Files, disk: Disk, events: seq<Event>, log: Log)
    requires History(parse, disk, events) && Faithful(parse, start, disk.durable, log)
    ensures Faithful(parse, start, Outcome(parse, disk, events).durable, LastPlaced(parse, disk, events, log))
    decreases |events|
  {
    if events != [] {
      var e := events[0];
      CarriedHonest(parse, disk, e);
      PlacingIsFaithful(parse, start, disk, log, Carried(parse, disk, e));
      HistoryIsFaithful(parse, start, After(parse, disk, e), events[1..], Placed(log, Carried(parse, disk, e)));
    }
  }

  /** Over any history of writes and mirrors, each stopped anywhere, and replaced worktrees, each durable file
      says the last receipt placed there but for its ts, and no other durable file is touched. */
  lemma DurableSaysTheLastPlaced(parse: Parser, disk: Disk, events: seq<Event>)
    requires History(parse, disk, events)
    ensures Faithful(parse, disk.durable, Outcome(parse, disk, events).durable, LastPlaced(parse, disk, events, map[]))
  {
    HistoryIsFaithful(parse, disk.durable, disk, events, map[]);
  }

  // ------------------------------------------------------------------ last placed against last written

  /** No receipt of the repository says something else than its durable copy. */
  ghost predicate Agree(parse: Parser, disk: Disk) {
    forall rel | rel in disk.repo && rel in disk.durable && parse(disk.repo[rel]).Some? ::
      SaysTheSame(parse, disk.durable[rel], parse(disk.repo[rel]).value)
  }

  /** A write carried to its end, or a mirror carried to its end. */
  ghost predicate Complete(parse: Parser, disk: Disk, e: Event)
    requires Possible(parse, disk, e)
  {
    match e
    case Write(text, name, done) => done == |WriteCall(parse, true, false, text, name)|
    case Mirror(listing, done) => done == |MirrorCall(parse, true, {}, disk.repo, listing)|
    case Worktree(_) => false
  }

  ghost predicate Undisturbed(parse: Parser, disk: Disk, events: seq<Event>)
    requires History(parse, disk, events)
    decreases |events|
  {
    events == [] || (Complete(parse, disk, events[0]) && Undisturbed(parse, After(parse, disk, events[0]), events[1..]))
  }

  /** The last receipt handed to a write at each path; mirrors do not count. */
  ghost function Written(parse: Parser, log: Log, e: Event): Log {
    if e.Write? && parse(e.text).Some? && Relative(parse(e.text).value, e.name).At?
    then log[Relative(parse(e.text).value, e.name).rel := parse(e.text).value] else log
  }

  ghost function LastWritten(parse: Parser, events: seq<Event>, log: Log): Log
    decreases |events|
  {
    if events == [] then log else LastWritten(parse, events[1..], Written(parse, log, events[0]))
  }

  lemma WriteKeepsAgreement(parse: Parser, disk: Disk, e: Event, log: Log)
    requires e.Write? && Possible(parse, disk, e) && Complete(parse, disk, e) && Agree(parse, disk)
    requires forall rel | rel in log :: Holds(parse, disk.durable, rel, log[rel])
    ensures Agree(parse, After(parse, disk, e))
    ensures forall rel | rel in Written(parse, log, e) :: Holds(parse, After(parse, disk, e).durable, rel, Written(parse, log, e)[rel])
  {
    var call := WriteCall(parse, true, false, e.text, e.name);
    assert call[..e.done] == call;
    if call != [] {
      WriteLands(parse, disk, e.text, e.name);
    }
  }

  lemma MirrorKeepsAgreement(parse: Parser, disk: Disk, e: Event, log: Log)
    requires e.Mirror? && Possible(parse, disk, e) && Complete(parse, disk, e) && Agree(parse, disk)
    requires forall rel | rel in log :: Holds(parse, disk.durable, rel, log[rel])
    ensures Agree(parse, After(parse, disk, e))
    ensures forall rel | rel in log :: Holds(parse, After(parse, disk, e).durable, rel, log[rel])
  {
    var call := MirrorCall(parse, true, {}, disk.repo, e.listing);
    assert call[..e.done] == call;
    var after := After(parse, disk, e);
    MirrorAt(parse, disk, {}, e.listing, "");
    forall rel | rel in after.repo && rel in after.durable && parse(after.repo[rel]).Some?
      ensures SaysTheSame(parse, after.durable[rel], parse(after.repo[rel]).value)
    {
      MirrorAt(parse, disk, {}, e.listing, rel);
    }
    forall rel | rel in log ensures Holds(parse, after.durable, rel, log[rel]) {
      MirrorKeepsIff(parse, disk, e.listing, rel);
    }
  }

  /** From a store whose roots agree, any history of complete writes and mirrors keeps every durable file saying
      the last receipt written there: no mirror ever brings an older one back. */
  lemma {:induction false} UndisturbedKeepsTheLastWritten(parse: Parser, disk: Disk, events: seq<Event>, log: Log)
    requires History(parse, disk, events) && Undisturbed(parse, disk, events) && Agree(parse, disk)
    requires forall rel | rel in log :: Holds(parse, disk.durable, rel, log[rel])
    ensures Agree(parse, Outcome(parse, disk, events))
    ensures forall rel | rel in LastWritten(parse, events, log) ::
      Holds(parse, Outcome(parse, disk, events).durable, rel, LastWritten(parse, events, log)[rel])
    decreases |events|
  {
    if events != [] {
      var e := events[0];
      if e.Write? { WriteKeepsAgreement(parse, disk, e, log); } else { MirrorKeepsAgreement(parse, disk, e, log); }
      UndisturbedKeepsTheLastWritten(parse, After(parse, disk, e), events[1..], Written(parse, log, e));
    }
  }

  /** Without that, the newest receipt can be lost: a write that stops between its two copies over an older receipt
      in the repository is undone by the next mirror. */
  lemma CrashThenMirrorRestoresTheOlder(parse: Parser, disk: Disk, older: string, newer: string, name: string, listing: seq<string>)
    requires parse(older).Some? && parse(newer).Some? && !EqualButTs(parse(older).value, parse(newer).value)
    requires Relative(parse(older).value, name) == Relative(parse(newer).value, name) && Relative(parse(older).value, name).At?
    requires listing == [Relative(parse(older).value, name).rel]
    ensures var rel := listing[0];
      var first := PlaceAll(parse, disk, WriteCall(parse, true, false, older, name));
      var cut := PlaceAll(parse, first, WriteCall(parse, true, false, newer, name)[..1]);
      && rel in cut.repo && Holds(parse, cut.durable, rel, parse(newer).value)
      && var mirrored := PlaceAll(parse, cut, MirrorCall(parse, true, {}, cut.repo, listing));
         Holds(parse, mirrored.durable, rel, parse(older).value) && !Holds(parse, mirrored.durable, rel, parse(newer).value)
  {
    var rel := listing[0];
    WriteLands(parse, disk, older, name);
    var first := PlaceAll(parse, disk, WriteCall(parse, true, false, older, name));
    StripTsDecides(parse(older).value, parse(newer).value);
    CutWrite(parse, first, newer, name);
    OlderComesBack(parse, PlaceAll(parse, first, WriteCall(parse, true, false, newer, name)[..1]), rel,
                   parse(older).value, parse(newer).value);
  }

  lemma OlderComesBack(parse: Parser, disk: Disk, rel: string, older: Json, newer: Json)
    requires Holds(parse, disk.repo, rel, older) && Holds(parse, disk.durable, rel, newer) && StripTs(older) != StripTs(newer)
    ensures var mirrored := PlaceAll(parse, disk, MirrorCall(parse, true, {}, disk.repo, [rel]));
      Holds(parse, mirrored.durable, rel, older) && !Holds(parse, mirrored.durable, rel, newer)
  {
    MirrorAt(parse, disk, {}, [rel], rel);
  }

  lemma CutWrite(parse: Parser, disk: Disk, text: string, name: string)
    requires parse(text).Some? && Relative(parse(text).value, name).At?
    ensures var rel, receipt := Relative(parse(text).value, name).rel, parse(text).value;
      && |WriteCall(parse, true, false, text, name)| == 2
      && PlaceAll(parse, disk, WriteCall(parse, true, false, text, name)[..1]) ==
           disk.(durable := PlaceIn(parse, disk.durable, rel, receipt, text))
      && Holds(parse, PlaceIn(parse, disk.durable, rel, receipt, text), rel, receipt)
  {
    var call := WriteCall(parse, true, false, text, name);
    assert call[..1] == [call[0]];
    OneStage(parse, disk, call[0]);
    PlacedHolds(parse, disk.durable, call[0].rel, call[0].receipt, text);
  }

  /** So is a complete write whose worktree is then discarded for a checkout holding an older receipt. */
  lemma DiscardThenMirrorRestoresTheOlder(parse: Parser, disk: Disk, head: Files, newer: string, name: string, listing: seq<string>)
    requires parse(newer).Some? && Relative(parse(newer).value, name).At?
    requires listing == [Relative(parse(newer).value, name).rel]
    requires listing[0] in head && parse(head[listing[0]]).Some? && !EqualButTs(parse(newer).value, parse(head[listing[0]]).value)
    ensures var rel := listing[0];
      var discarded := PlaceAll(parse, disk, WriteCall(parse, true, false, newer, name)).(repo := head);
      var mirrored := PlaceAll(parse, discarded, MirrorCall(parse, true, {}, head, listing));
      Holds(parse, discarded.durable, rel, parse(newer).value) && rel in mirrored.durable && mirrored.durable[rel] == head[rel]
  {
    var rel := listing[0];
    WriteLands(parse, disk, newer, name);
    StripTsDecides(parse(newer).value, parse(head[rel]).value);
    var discarded := PlaceAll(parse, disk, WriteCall(parse, true, false, newer, name)).(repo := head);
    MirrorAt(parse, discarded, {}, listing, rel);
  }
}

/** Write-once custody of event plans and captures: what a published directory holds, how it is
    read back, and the stage-then-rename publishers over a tree whose operations may fail. */
module Custody {
  import opened Outcomes
  import opened Ordering
  import opened FileTree
  import opened PathNames

  type Octets = seq<bv8>

  /** Validated contracts; `content` stands for the fields custody never looks at. */
  datatype Plan = Plan(fingerprint: string, queries: seq<string>, content: string)
  datatype Capture = Capture(planFingerprint: string, queryId: string, rawByteSize: Option<nat>,
                             rawSha256: Option<string>, content: string)

  datatype Payload = PlanJson(plan: Plan) | CaptureJson(capture: Capture) | RawBytes(raw: Octets)

  type Custodied = Tree<Payload>

  const PLAN_FILE := "cninfo-event-plan.json"
  const CAPTURE_FILE := "capture.json"
  const RAW_FILE := "raw-response.bin"
  const CAPTURES := "captures"

  // ---------- jobs ----------

  datatype Item = FileItem(name: string, payload: Payload) | DirItem(name: string)

  /** A directory to publish: where, under which name, holding exactly which items. */
  datatype Job = Job(parent: Path, name: string, items: seq<Item>)

  function Target(job: Job): Path { job.parent + [job.name] }

  function PlanName(plan: Plan): string { "plan=" + plan.fingerprint }

  function PlanJob(plan: Plan): Job {
    Job([], PlanName(plan), [FileItem(PLAN_FILE, PlanJson(plan)), DirItem(CAPTURES)])
  }

  function CaptureItems(capture: Capture, raw: Option<Octets>): seq<Item> {
    (if raw.Some? then [FileItem(RAW_FILE, RawBytes(raw.value))] else []) + [FileItem(CAPTURE_FILE, CaptureJson(capture))]
  }

  function CaptureJob(planRoot: Path, capture: Capture, raw: Option<Octets>): Job {
    Job(planRoot + [CAPTURES], capture.queryId, CaptureItems(capture, raw))
  }

  function NodeOf(item: Item): Node<Payload> {
    match item
    case FileItem(_, payload) => File(SEALED_FILE, Whole(payload))
    case DirItem(_) => Dir(PRIVATE_DIR)
  }

  ghost predicate DistinctNames(items: seq<Item>) {
    forall i, j :: 0 <= i < j < |items| ==> items[i].name != items[j].name
  }

  /** The directory at `base` with its items in place. */
  function Built(base: Path, items: seq<Item>): Custodied {
    if items == [] then map[base := Dir(PRIVATE_DIR)]
    else Built(base, items[..|items| - 1])[base + [items[|items| - 1].name] := NodeOf(items[|items| - 1])]
  }

  /** `target` is a private directory with exactly these items, each whole. */
  ghost predicate Complete(t: Custodied, target: Path, items: seq<Item>) {
    && target in t && t[target] == Dir(PRIVATE_DIR)
    && (forall i :: 0 <= i < |items| ==> target + [items[i].name] in t && t[target + [items[i].name]] == NodeOf(items[i]))
    && (forall name :: name in Names(t, target) ==> exists i :: 0 <= i < |items| && items[i].name == name)
  }

  // ---------- where identifiers lead ----------

  function PlanStaging(suffix: string): string { ".cninfo-plan-" + suffix }

  function CaptureStaging(queryId: string, suffix: string): string { "." + queryId + "-" + suffix }

  /** What `mkdtemp` appends to a prefix. */
  predicate IsSuffix(s: string) {
    |s| == 8 && forall i :: 0 <= i < 8 ==> 'a' <= s[i] <= 'z' || '0' <= s[i] <= '9' || s[i] == '_'
  }

  /** Where a query's capture is looked for: its identifier joined to the captures directory. No entry
      has a null character in its name, and an absolute path leads out of the tree. */
  function CapturePlace(t: Custodied, planRoot: Path, queryId: string): Option<Path> {
    if '\0' in queryId || (queryId != "" && queryId[0] == '/') then None
    else Resolve(t, planRoot + [CAPTURES], Moving(Split(queryId)))
  }

  /** Where a query's staging directory is made: its staging name as a path from the captures
      directory, if the last component is not too long. */
  function StagingPlace(t: Custodied, planRoot: Path, queryId: string, suffix: string): Option<Path> {
    var parts := Split(CaptureStaging(queryId, suffix));
    if '\0' in queryId || ByteCount(parts[|parts| - 1]) > NAME_MAX then None
    else Resolve(t, planRoot + [CAPTURES], parts)
  }

  predicate Flat(queryId: string) { '/' !in queryId }

  /** An identifier without a separator leads to one entry of the captures directory, or to that
      directory or the plan's own. */
  lemma FlatCapture(t: Custodied, planRoot: Path, queryId: string)
    requires Flat(queryId)
    ensures '\0' in queryId ==> CapturePlace(t, planRoot, queryId).None?
    ensures IsComponent(queryId) ==> CapturePlace(t, planRoot, queryId) == Some(planRoot + [CAPTURES, queryId])
    ensures queryId == "" || queryId == "." ==> CapturePlace(t, planRoot, queryId) == Some(planRoot + [CAPTURES])
    ensures queryId == ".." ==> CapturePlace(t, planRoot, queryId) == Some(planRoot)
  {
    hide Resolve;
    SplitFlat(queryId);
    var captures := planRoot + [CAPTURES];
    assert Parent(captures) == planRoot;
    ResolvesOne(t, captures, queryId);
    assert captures + [queryId] == planRoot + [CAPTURES, queryId];
    assert [queryId][1..] == [] && Moving([]) == [];
    assert Moving([queryId]) == if queryId == "" || queryId == "." then [] else [queryId];
    assert Resolve(t, captures, []) == Some(captures) by { ResolvesNothing(t, captures); }
  }

  /** An identifier that names an entry, short enough for its staging name. */
  predicate Servable(queryId: string) {
    IsComponent(queryId) && ByteCount(queryId) + 10 <= NAME_MAX
  }

  /** It is staged beside the captures, when the name is not too long. */
  lemma FlatStaging(t: Custodied, planRoot: Path, queryId: string, suffix: string)
    requires Flat(queryId) && IsSuffix(suffix)
    ensures StagingPlace(t, planRoot, queryId, suffix)
         == if '\0' in queryId || ByteCount(queryId) + 10 > NAME_MAX then None
            else Some(planRoot + [CAPTURES, CaptureStaging(queryId, suffix)])
  {
    hide Resolve, ByteCount;
    var captures, name := planRoot + [CAPTURES], CaptureStaging(queryId, suffix);
    assert name[0] == '.' && |name| > 9;
    SplitFlat(name);
    ResolvesOne(t, captures, name);
    assert captures + [name] == planRoot + [CAPTURES, name];
    StagingBytes(queryId, suffix);
  }

  lemma StagingBytes(queryId: string, suffix: string)
    requires IsSuffix(suffix)
    ensures ByteCount(CaptureStaging(queryId, suffix)) == ByteCount(queryId) + 10
  {
    BytesAdd("." + queryId + "-", suffix);
    BytesAdd("." + queryId, "-");
    BytesAdd(".", queryId);
    AsciiBytes(suffix);
  }

  lemma {:induction false} AsciiBytes(s: string)
    requires forall i :: 0 <= i < |s| ==> s[i] < 128 as char
    ensures ByteCount(s) == |s|
  {
    if s != "" { AsciiBytes(s[1..]); }
  }

  /** With separators in it, the identifier still leads downward, and so does its staging name. */
  ghost predicate Inward(queryId: string) {
    !Flat(queryId) ==>
      && queryId[0] != '/' && ".." !in Split(queryId)
      && ".." !in Split("." + queryId)[..|Split("." + queryId)| - 1]
  }

  /** Then both are inside the captures directory. */
  lemma InwardPlaces(t: Custodied, planRoot: Path, queryId: string, suffix: string)
    requires Inward(queryId) && (Flat(queryId) ==> IsComponent(queryId)) && IsSuffix(suffix)
    ensures CapturePlace(t, planRoot, queryId).Some? ==> planRoot + [CAPTURES] <= CapturePlace(t, planRoot, queryId).value
    ensures StagingPlace(t, planRoot, queryId, suffix).Some? ==>
              planRoot + [CAPTURES] < StagingPlace(t, planRoot, queryId, suffix).value
  {
    hide Resolve;
    var captures := planRoot + [CAPTURES];
    if Flat(queryId) {
      FlatCapture(t, planRoot, queryId);
      FlatStaging(t, planRoot, queryId, suffix);
      assert captures + [queryId] == planRoot + [CAPTURES, queryId];
      assert captures + [CaptureStaging(queryId, suffix)] == planRoot + [CAPTURES, CaptureStaging(queryId, suffix)];
    } else {
      MovingMembers(Split(queryId));
      ResolvesWithin(t, captures, Moving(Split(queryId)));
      var head, tail := Split("." + queryId), "-" + suffix;
      assert "." + queryId + "-" + suffix == ("." + queryId) + tail;
      SplitAppend("." + queryId, tail);
      var parts := Split(CaptureStaging(queryId, suffix));
      assert parts == head[..|head| - 1] + [head[|head| - 1] + tail];
      assert |head[|head| - 1] + tail| > 2;
      assert ".." !in parts;
      ResolvesBelow(t, captures, parts);
    }
  }

  // ---------- the checks before publishing a capture ----------

  /** The capture is bound to the readable plan at `planRoot`, asks one of its queries, and comes
      with raw bytes exactly when it records a digest. */
  predicate MayPublish(t: Custodied, planRoot: Path, capture: Capture, raw: Option<Octets>)
    requires planRoot != []
  {
    && ReadPlan(t, planRoot).Success?
    && capture.planFingerprint == ReadPlan(t, planRoot).value.fingerprint
    && capture.queryId in ReadPlan(t, planRoot).value.queries
    && (raw.None? <==> capture.rawSha256.None?)
  }

  // ---------- reading ----------

  datatype ReadError = InvalidDirectory | ClosedSetDiffers | InvalidFile | PathDiffers | RawBytesChanged

  predicate PrivateDirectory(t: Custodied, p: Path) { p in t && t[p] == Dir(PRIVATE_DIR) }

  function ReadFile(t: Custodied, p: Path): Result<Payload, ReadError> {
    if p in t && t[p].File? && t[p].mode == SEALED_FILE && t[p].bytes.Whole? then Success(t[p].bytes.payload)
    else Failure(InvalidFile)
  }

  function ReadPlan(t: Custodied, root: Path): Result<Plan, ReadError>
    requires root != []
  {
    if !PrivateDirectory(t, root) then Failure(InvalidDirectory)
    else if Names(t, root) != {PLAN_FILE, CAPTURES} then Failure(ClosedSetDiffers)
    else if !PrivateDirectory(t, root + [CAPTURES]) then Failure(InvalidDirectory)
    else
      match ReadFile(t, root + [PLAN_FILE])
      case Failure(e) => Failure(e)
      case Success(payload) =>
        if !payload.PlanJson? then Failure(InvalidFile)
        else if root[|root| - 1] != PlanName(payload.plan) then Failure(PathDiffers)
        else Success(payload.plan)
  }

  /** Size and digest as recorded are those of the raw bytes, when there are any. */
  ghost predicate DescribesRaw(capture: Capture, raw: Option<Octets>, sha: Octets -> string) {
    raw.Some? ==> Some(|raw.value|) == capture.rawByteSize && Some(sha(raw.value)) == capture.rawSha256
  }

  function ReadCapture(t: Custodied, planRoot: Path, queryId: string, sha: Octets -> string)
    : Result<(Capture, Option<Octets>), ReadError>
  {
    if CapturePlace(t, planRoot, queryId).None? || !PrivateDirectory(t, CapturePlace(t, planRoot, queryId).value) then
      Failure(InvalidDirectory)
    else
      var target := CapturePlace(t, planRoot, queryId).value;
      match ReadFile(t, target + [CAPTURE_FILE])
      case Failure(e) => Failure(e)
      case Success(payload) =>
        if !payload.CaptureJson? then Failure(InvalidFile)
        else if payload.capture.queryId != queryId then Failure(PathDiffers)
        else
          var rawRead := if target + [RAW_FILE] in t then ReadFile(t, target + [RAW_FILE]) else Failure(InvalidFile);
          if target + [RAW_FILE] in t && (rawRead.Failure? || !rawRead.value.RawBytes?) then Failure(InvalidFile)
          else
            var raw := if target + [RAW_FILE] in t then Some(rawRead.value.raw) else None;
            if raw.Some? && (Some(|raw.value|) != payload.capture.rawByteSize || Some(sha(raw.value)) != payload.capture.rawSha256) then
              Failure(RawBytesChanged)
            else if Names(t, target) != {CAPTURE_FILE} + (if raw.Some? then {RAW_FILE} else {}) then Failure(ClosedSetDiffers)
            else Success((payload.capture, raw))
  }

  lemma NameIn(t: Custodied, p: Path, name: string)
    ensures name in Names(t, p) <==> p + [name] in t
  {
    if p + [name] in t { assert (p + [name])[|p|] == name; }
    if name in Names(t, p) {
      var q :| q in t && |q| == |p| + 1 && p < q && q[|p|] == name;
      assert q == p + [name];
    }
  }

  /** What a directory reads back as is a plan it is named after, and is read exactly when the directory is
      complete with it. */
  lemma PlanReadsIffComplete(t: Custodied, root: Path, plan: Plan)
    requires root != []
    ensures ReadPlan(t, root) == Success(plan)
       <==> root[|root| - 1] == "plan=" + plan.fingerprint && Complete(t, root, PlanJob(plan).items)
  {
    var items := PlanJob(plan).items;
    NameIn(t, root, PLAN_FILE);
    NameIn(t, root, CAPTURES);
    assert items[0].name == PLAN_FILE && items[1].name == CAPTURES;
    if Complete(t, root, items) {
      assert Names(t, root) == {PLAN_FILE, CAPTURES};
    }
    if ReadPlan(t, root) == Success(plan) {
      forall name | name in Names(t, root) ensures exists i :: 0 <= i < |items| && items[i].name == name {
        assert items[0].name == PLAN_FILE && items[1].name == CAPTURES;
      }
    }
  }

  /** What is read for a query is a capture of that query, and is read exactly when the directory the query
      leads to is complete with it and its recorded size and digest are those of the raw bytes; publishing
      does not check the latter. */
  lemma CaptureReadsIffComplete(t: Custodied, planRoot: Path, queryId: string, capture: Capture, raw: Option<Octets>,
                                sha: Octets -> string)
    ensures ReadCapture(t, planRoot, queryId, sha) == Success((capture, raw))
       <==> && capture.queryId == queryId && CapturePlace(t, planRoot, queryId).Some?
            && Complete(t, CapturePlace(t, planRoot, queryId).value, CaptureItems(capture, raw))
            && (raw.Some? ==> capture.rawByteSize == Some(|raw.value|) && capture.rawSha256 == Some(sha(raw.value)))
  {
    if CapturePlace(t, planRoot, queryId).Some? {
      CaptureNames(t, CapturePlace(t, planRoot, queryId).value, capture, raw);
    }
  }

  /** A directory complete with a capture has these two names, or the one, and no other. */
  lemma CaptureNames(t: Custodied, target: Path, capture: Capture, raw: Option<Octets>)
    ensures Complete(t, target, CaptureItems(capture, raw)) <==>
              && PrivateDirectory(t, target)
              && ReadFile(t, target + [CAPTURE_FILE]) == Success(CaptureJson(capture))
              && (if raw.Some? then ReadFile(t, target + [RAW_FILE]) == Success(RawBytes(raw.value)) else target + [RAW_FILE] !in t)
              && Names(t, target) == {CAPTURE_FILE} + (if raw.Some? then {RAW_FILE} else {})
  {
    var items := CaptureItems(capture, raw);
    NameIn(t, target, RAW_FILE);
    NameIn(t, target, CAPTURE_FILE);
    assert CAPTURE_FILE != RAW_FILE by { assert CAPTURE_FILE[0] == 'c' && RAW_FILE[0] == 'r'; }
    if raw.Some? {
      assert items == [FileItem(RAW_FILE, RawBytes(raw.value)), FileItem(CAPTURE_FILE, CaptureJson(capture))];
      assert items[0].name == RAW_FILE && items[1].name == CAPTURE_FILE;
    } else {
      assert items == [FileItem(CAPTURE_FILE, CaptureJson(capture))];
      assert items[0].name == CAPTURE_FILE;
    }
    var expected := {CAPTURE_FILE} + (if raw.Some? then {RAW_FILE} else {});
    if Complete(t, target, items) {
      assert Names(t, target) == expected;
    } else if Names(t, target) == expected {
      assert forall name :: name in expected <==> exists i :: 0 <= i < |items| && items[i].name == name;
    }
  }
}

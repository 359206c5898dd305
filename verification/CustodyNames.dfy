/** Exactly which query identifiers let the publishers keep their promise for a capture, and what one that
    leads upward does to a published plan. */
module CustodyNames {
  import opened Outcomes
  import opened Ordering
  import opened FileTree
  import opened PathNames
  import opened Custody
  import opened CustodySystem
  import opened Staging
  import opened CustodyPublisher
  import opened CustodyScope
  import opened CustodyRuns
  import opened CustodyAlone

  /** What the publishers promise for one query of a published plan: its capture directory, if there,
      is whole; if not there, any capture of the query can be published by a publisher working alone. */
  ghost predicate CaptureServed(s: System, plan: Plan, queryId: string) {
    var place := CapturePlace(s.tree, [PlanName(plan)], queryId);
    if place.Some? && place.value in s.tree then CaptureWhole(s, plan, queryId)
    else forall id, w, suffix :: CanTry(s, plan, queryId, id, w, suffix) ==>
           Legal(s, Alone(id, w, suffix)) && CaptureWhole(After(s, Alone(id, w, suffix)), plan, queryId)
  }

  /** A free publisher, a capture of the query that may be published, and a suffix that is not in use. */
  ghost predicate CanTry(s: System, plan: Plan, queryId: string, id: nat, w: Work, suffix: string) {
    && Free(s, id) && w.CaptureWork? && w.planName == PlanName(plan) && w.capture.queryId == queryId
    && MayPublish(s.tree, [w.planName], w.capture, w.raw)
    && IsSuffix(suffix) && (StagingOfWork(s.tree, w, suffix).Some? ==> StagingOfWork(s.tree, w, suffix).value !in s.tree)
  }

  /** In every state that runs lead to and in which the plan is there, the query is served. */
  ghost predicate QueryKept(qs: Queries, plan: Plan, queryId: string) {
    forall run :: Legal(Fresh(qs), run) && PublishedIn(After(Fresh(qs), run), plan) ==>
      CaptureServed(After(Fresh(qs), run), plan, queryId)
  }

  ghost predicate PublishedIn(s: System, plan: Plan) {
    [PlanName(plan)] in s.published && s.published[[PlanName(plan)]] == PlanWork(plan)
  }

  ghost predicate FlatIds(plan: Plan) {
    forall id :: id in plan.queries ==> Flat(id)
  }

  lemma TriesSucceed(s: System, plan: Plan, queryId: string, id: nat, w: Work, suffix: string)
    requires Inv(s) && Bound(s.queries, plan) && FlatIds(plan) && Servable(queryId) && !ShadowedIn(QueryIds(plan), queryId)
    requires queryId in plan.queries && [PlanName(plan), CAPTURES, queryId] !in s.tree && CanTry(s, plan, queryId, id, w, suffix)
    ensures Legal(s, Alone(id, w, suffix)) && CaptureWhole(After(s, Alone(id, w, suffix)), plan, queryId)
  {
    hide Inv, Alone, MayPublish, ByteCount, StagesAs, Complete, Kept, CaptureWhole;
    var root, target := [PlanName(plan)], [PlanName(plan), CAPTURES, queryId];
    FlatCapture(s.tree, root, queryId);
    FlatStaging(s.tree, root, queryId, suffix);
    assert root + [CAPTURES, queryId] == target;
    CapturesDirectory(s.tree, w);
    assert Parent(root + [CAPTURES, CaptureStaging(queryId, suffix)]) == root + [CAPTURES];
    assert MayStage(s, w) && InScope(s.queries, w) && CanStage(s.tree, w, suffix);
    AbsentCanBePublished(s, id, w, suffix);
    assert Target(JobOf(w)) == target;
    assert target in With(s.tree, target, JobOf(w).items) by { BuiltBase(target, JobOf(w).items); }
    CapturesAreWhole(After(s, Alone(id, w, suffix)), plan, queryId);
  }

  lemma CapturesDirectory(t: Custodied, w: Work)
    requires w.CaptureWork? && MayPublish(t, [w.planName], w.capture, w.raw)
    ensures IsDirectory(t, [w.planName] + [CAPTURES])
  {
    ReadableHasCaptures(t, [w.planName]);
  }

  lemma ServedWhenWellNamed(s: System, plan: Plan, queryId: string)
    requires Inv(s) && Bound(s.queries, plan) && FlatIds(plan)
    requires queryId in plan.queries && Servable(queryId) && !ShadowedIn(QueryIds(plan), queryId)
    ensures CaptureServed(s, plan, queryId)
  {
    hide Inv, ShadowedIn, Alone, Bound, CaptureWhole, CanTry, Servable;
    var root, target := [PlanName(plan)], [PlanName(plan), CAPTURES, queryId];
    assert IsComponent(queryId) && Flat(queryId) by { ServableIsComponent(queryId); }
    FlatCapture(s.tree, root, queryId);
    assert root + [CAPTURES, queryId] == target;
    if target in s.tree {
      CapturesAreWhole(s, plan, queryId);
    } else {
      forall id, w, suffix | CanTry(s, plan, queryId, id, w, suffix)
        ensures Legal(s, Alone(id, w, suffix)) && CaptureWhole(After(s, Alone(id, w, suffix)), plan, queryId) {
        TriesSucceed(s, plan, queryId, id, w, suffix);
      }
    }
  }

  lemma ServableIsComponent(queryId: string)
    requires Servable(queryId)
    ensures IsComponent(queryId) && Flat(queryId)
  {}

  ghost function EmptyCapture(plan: Plan, queryId: string): Capture { Capture(plan.fingerprint, queryId, None, None, "") }

  ghost function EmptyWork(plan: Plan, queryId: string): Work { CaptureWork(PlanName(plan), EmptyCapture(plan, queryId), None) }

  /** The run in which the plan is published and nothing else happens. */
  ghost function PublishAlone(plan: Plan): seq<Action> { Alone(0, PlanWork(plan), ANY_SUFFIX) }

  lemma AfterPublishAlone(qs: Queries, plan: Plan)
    requires Bound(qs, plan)
    ensures Legal(Fresh(qs), PublishAlone(plan))
    ensures var s := After(Fresh(qs), PublishAlone(plan));
            && Inv(s) && s.queries == qs && s.ready == map[] && s.procs == map[] && s.published == map[[PlanName(plan)] := PlanWork(plan)]
            && ReadPlan(s.tree, [PlanName(plan)]) == Success(plan)
            && forall p :: p in s.tree && [PlanName(plan)] <= p ==> |p| <= 2
  {
    hide Inv, Alone, ReadPlan, CanStage, Built, InScope, MayStage;
    var s, w := Fresh(qs), PlanWork(plan);
    FreshStages(qs, plan);
    AbsentCanBePublished(s, 0, w, ANY_SUFFIX);
    var t := After(s, PublishAlone(plan));
    assert Target(JobOf(w)) == [PlanName(plan)];
    assert PlanName(plan)[0] == 'p';
    assert [PlanName(plan)] in t.tree by { BuiltBase([PlanName(plan)], JobOf(w).items); }
    PlanReads(t, PlanName(plan));
    forall p | p in t.tree && [PlanName(plan)] <= p ensures |p| <= 2 {
      BuiltHas([PlanName(plan)], JobOf(w).items, p);
    }
  }

  lemma FreshStages(qs: Queries, plan: Plan)
    requires Bound(qs, plan)
    ensures var s, w := Fresh(qs), PlanWork(plan);
            Inv(s) && MayStage(s, w) && InScope(qs, w) && Downward(Check(0, w)) && CanStage(s.tree, w, ANY_SUFFIX)
  {
    AnySuffix();
    PlanStages(Fresh(qs).tree, plan, ANY_SUFFIX);
  }

  lemma EmptyMayBePublished(t: Custodied, plan: Plan, queryId: string)
    requires ReadPlan(t, [PlanName(plan)]) == Success(plan) && queryId in plan.queries
    ensures MayPublish(t, [PlanName(plan)], EmptyCapture(plan, queryId), None)
    ensures IsDirectory(t, [PlanName(plan)]) && IsDirectory(t, [PlanName(plan), CAPTURES])
  {
    assert [PlanName(plan)] + [CAPTURES] == [PlanName(plan), CAPTURES];
  }

  lemma AloneStages(s: System, id: nat, w: Work, suffix: string)
    ensures Legal(s, Alone(id, w, suffix)) ==> CanStage(s.tree, w, suffix)
  {
    hide CanStage, MayStage;
    if Legal(s, Alone(id, w, suffix)) {
      var run := Alone(id, w, suffix);
      assert run[0] == Check(id, w) && run[1..][0] == Begin(id, suffix);
      var s1 := Next(s, Check(id, w));
      assert Legal(s1, run[1..]) && s1.tree == s.tree && s1.ready[id] == w;
      assert Enabled(s1, Begin(id, suffix));
    }
  }

  /** A query that names no entry, or one too long for its staging directory, is not served as soon as its
      plan is published: its place is the captures directory or the plan itself, or it cannot be staged. */
  lemma UnplacedIsNotServed(qs: Queries, plan: Plan, queryId: string)
    requires Bound(qs, plan) && queryId in plan.queries && Flat(queryId) && !Servable(queryId)
    ensures Legal(Fresh(qs), PublishAlone(plan)) && PublishedIn(After(Fresh(qs), PublishAlone(plan)), plan)
    ensures !CaptureServed(After(Fresh(qs), PublishAlone(plan)), plan, queryId)
  {
    hide Alone, Inv, ReadPlan, ByteCount, CapturePlace, StagingPlace;
    AfterPublishAlone(qs, plan);
    var s, root := After(Fresh(qs), PublishAlone(plan)), [PlanName(plan)];
    EmptyMayBePublished(s.tree, plan, queryId);
    FlatCapture(s.tree, root, queryId);
    assert root + [CAPTURES] == [PlanName(plan), CAPTURES];
    if queryId == "" || queryId == "." || queryId == ".." {
      NotPublishedNotWhole(s, plan, queryId);
    } else {
      AnySuffix();
      FlatStaging(s.tree, root, queryId, ANY_SUFFIX);
      var w := EmptyWork(plan, queryId);
      assert CanTry(s, plan, queryId, 1, w, ANY_SUFFIX);
      AloneStages(s, 1, w, ANY_SUFFIX);
      NotPublishedNotWhole(s, plan, queryId);
    }
  }

  lemma NotPublishedNotWhole(s: System, plan: Plan, queryId: string)
    requires forall p :: p in s.published ==> s.published[p].PlanWork?
    ensures !CaptureWhole(s, plan, queryId)
  {}

  /** A publisher begins a capture of `queryId`, and dies. */
  ghost function StageAndDie(plan: Plan, queryId: string, suffix: string): seq<Action> {
    [Check(1, EmptyWork(plan, queryId)), Begin(1, suffix), Crash(1)]
  }

  lemma StagesAndDies(s: System, plan: Plan, queryId: string, suffix: string)
    requires s.ready == map[] && s.procs == map[]
    requires MayStage(s, EmptyWork(plan, queryId)) && CanStage(s.tree, EmptyWork(plan, queryId), suffix)
    ensures Legal(s, StageAndDie(plan, queryId, suffix))
    ensures var src := StagingOfWork(s.tree, EmptyWork(plan, queryId), suffix).value;
            After(s, StageAndDie(plan, queryId, suffix)) == s.(tree := s.tree[src := Dir(PRIVATE_DIR)])
  {
    hide MayStage, CanStage, StagingOfWork;
    var w := EmptyWork(plan, queryId);
    StagesSomewhere(s.tree, w, suffix);
    ReachBegin(s, 1, w, suffix);
    var s2 := After(s, [Check(1, w), Begin(1, suffix)]);
    assert s2.procs - {1} == s.procs && s2.ready - {1} == s.ready;
    Extended(s, [Check(1, w), Begin(1, suffix)], Crash(1));
    assert [Check(1, w), Begin(1, suffix)] + [Crash(1)] == StageAndDie(plan, queryId, suffix);
  }

  lemma EmptyCannotBeRead(t: Custodied, planRoot: Path, queryId: string, sha: Octets -> string)
    requires CapturePlace(t, planRoot, queryId).Some? && CapturePlace(t, planRoot, queryId).value + [CAPTURE_FILE] !in t
    ensures ReadCapture(t, planRoot, queryId, sha).Failure?
  {}

  lemma ShadowIsServable(queryId: string, name: string)
    requires IsComponent(queryId) && StagesAs(queryId, name) && Servable(name)
    ensures Servable(queryId)
  {
    StagingBytes(queryId, name[|queryId| + 2..]);
  }

  /** Where a query is named like another's staging directory: a run after which the query's own
      directory is there, published by nobody, and cannot be read. */
  lemma ShadowingRun(qs: Queries, plan: Plan, queryId: string, shadowed: string)
    requires Bound(qs, plan) && IsComponent(queryId) && Servable(shadowed)
    requires queryId in plan.queries && shadowed in plan.queries && StagesAs(queryId, shadowed)
    ensures var run := PublishAlone(plan) + StageAndDie(plan, queryId, shadowed[|queryId| + 2..]);
            && Legal(Fresh(qs), run)
            && var s := After(Fresh(qs), run);
            && PublishedIn(s, plan) && s.procs == map[] && [PlanName(plan), CAPTURES, shadowed] in s.tree
            && !CaptureServed(s, plan, shadowed)
            && forall sha :: ReadCapture(s.tree, [PlanName(plan)], shadowed, sha).Failure?
  {
    hide PublishAlone, StageAndDie, Inv, ReadPlan, ReadCapture, Next, Enabled, MayPublish, CapturePlace, StagingPlace, ByteCount;
    AfterPublishAlone(qs, plan);
    var s, root, suffix := After(Fresh(qs), PublishAlone(plan)), [PlanName(plan)], shadowed[|queryId| + 2..];
    var w, src := EmptyWork(plan, queryId), [PlanName(plan), CAPTURES, shadowed];
    EmptyMayBePublished(s.tree, plan, queryId);
    ShadowIsServable(queryId, shadowed);
    FlatCapture(s.tree, root, queryId);
    FlatStaging(s.tree, root, queryId, suffix);
    assert root + [CAPTURES, queryId] == [PlanName(plan), CAPTURES, queryId] && root + [CAPTURES, shadowed] == src;
    assert root <= src && root <= [PlanName(plan), CAPTURES, queryId] && root <= src + [CAPTURE_FILE];
    assert Parent(src) == [PlanName(plan), CAPTURES];
    StagesAndDies(s, plan, queryId, suffix);
    Continued(Fresh(qs), PublishAlone(plan), StageAndDie(plan, queryId, suffix));
    var t := After(s, StageAndDie(plan, queryId, suffix));
    FlatCapture(t.tree, root, shadowed);
    NotPublishedNotWhole(t, plan, shadowed);
    assert src + [CAPTURE_FILE] !in t.tree;
    forall sha ensures ReadCapture(t.tree, root, shadowed, sha).Failure? { EmptyCannotBeRead(t.tree, root, shadowed, sha); }
  }

  /** Of a plan whose identifiers have no separator, beside any plans with none that leads upward: the promise
      for one query holds over every run exactly when its identifier names an entry, leaves room for what
      `mkdtemp` adds, and is not a name the staging directory of one of the plan's queries can take. */
  lemma QueryKeptIffWellNamed(qs: Queries, plan: Plan, queryId: string)
    requires AllInward(qs) && Bound(qs, plan) && FlatIds(plan) && queryId in plan.queries
    ensures QueryKept(qs, plan, queryId) <==> Servable(queryId) && !ShadowedIn(QueryIds(plan), queryId)
  {
    hide CaptureServed, Inv, StagesAs, IsComponent, Alone, PublishAlone, StageAndDie, AllInward, Bound, Servable;
    if !Servable(queryId) {
      UnplacedIsNotServed(qs, plan, queryId);
    } else if ShadowedIn(QueryIds(plan), queryId) {
      var id :| id in QueryIds(plan) && IsComponent(id) && StagesAs(id, queryId);
      ShadowingRun(qs, plan, id, queryId);
    } else {
      forall run | Legal(Fresh(qs), run) && PublishedIn(After(Fresh(qs), run), plan)
        ensures CaptureServed(After(Fresh(qs), run), plan, queryId) {
        RunsAreOk(qs, run);
        ServedWhenWellNamed(After(Fresh(qs), run), plan, queryId);
      }
    }
  }

  // ---------- identifiers that lead upward ----------

  /** Making a staging directory leaves a readable plan readable exactly when it is not made among the
      plan's own entries. */
  lemma StagingBreaksPlanIff(t: Custodied, plan: Plan, src: Path)
    requires ReadPlan(t, [PlanName(plan)]) == Success(plan) && src !in t
    ensures ReadPlan(t[src := Dir(PRIVATE_DIR)], [PlanName(plan)])
         == if |src| == 2 && src[0] == PlanName(plan) then Failure(ClosedSetDiffers) else Success(plan)
  {
    var root, t' := [PlanName(plan)], t[src := Dir(PRIVATE_DIR)];
    forall name ensures name in Names(t', root) <==> name in Names(t, root) || src == root + [name] {
      NameIn(t, root, name);
      NameIn(t', root, name);
    }
    if |src| == 2 && src[0] == PlanName(plan) {
      assert src == root + [src[1]];
      NameIn(t, root, src[1]);
      assert src[1] in Names(t', root) && src[1] !in Names(t, root);
    } else {
      assert Names(t', root) == Names(t, root);
    }
  }

  /** `./x` is looked for where `x` is, and staged beside the captures directory, in the plan's own. */
  lemma DetourPlaces(t: Custodied, planName: string, x: string, suffix: string)
    requires IsComponent(x) && ByteCount(x) + 9 <= NAME_MAX && IsSuffix(suffix)
    ensures CapturePlace(t, [planName], "./" + x) == Some([planName, CAPTURES, x])
    ensures StagingPlace(t, [planName], "./" + x, suffix) == Some([planName, x + "-" + suffix])
  {
    hide Resolve, Split, ByteCount;
    var captures, last := [planName] + [CAPTURES], x + "-" + suffix;
    assert "./" + x == "." + "/" + x;
    SplitFirst(".", x);
    SplitFlat(x);
    MovingDot(x);
    ResolvesOne(t, captures, x);
    assert captures + [x] == [planName, CAPTURES, x];
    assert CaptureStaging("./" + x, suffix) == ".." + "/" + last;
    SplitFirst("..", last);
    SplitFlat(last);
    DetourBytes(x, suffix);
    assert Split(CaptureStaging("./" + x, suffix)) == ["..", last] && '\0' !in "./" + x;
    assert Parent(captures) == [planName] && last[0] == x[0] && |last| > 2;
    ResolvesBeside(t, captures, last);
    assert [planName] + [last] == [planName, last];
  }

  lemma DetourBytes(x: string, suffix: string)
    requires IsSuffix(suffix)
    ensures ByteCount(x + "-" + suffix) == ByteCount(x) + 9
  {
    BytesAdd(x + "-", suffix);
    BytesAdd(x, "-");
    AsciiBytes(suffix);
    AsciiBytes("-");
  }

  /** Why an identifier may not lead upward: a legal run of a plan that asks `./x`, after which nobody is at
      work, the plan stays published, and it can no longer be read. */
  lemma DetourRun(qs: Queries, plan: Plan, x: string)
    requires Bound(qs, plan) && "./" + x in plan.queries && IsComponent(x) && ByteCount(x) + 9 <= NAME_MAX
    ensures !Inward("./" + x)
    ensures var run := PublishAlone(plan) + StageAndDie(plan, "./" + x, ANY_SUFFIX);
            && Legal(Fresh(qs), run)
            && var s := After(Fresh(qs), run);
            && PublishedIn(s, plan) && s.ready == map[] && s.procs == map[]
            && ReadPlan(s.tree, [PlanName(plan)]) == Failure(ClosedSetDiffers)
  {
    hide PublishAlone, StageAndDie, Inv, ReadPlan, Next, Enabled, MayPublish, CapturePlace, StagingPlace, ByteCount, Split;
    AfterPublishAlone(qs, plan);
    AnySuffix();
    var s, w := After(Fresh(qs), PublishAlone(plan)), EmptyWork(plan, "./" + x);
    var src := [PlanName(plan), x + "-" + ANY_SUFFIX];
    EmptyMayBePublished(s.tree, plan, "./" + x);
    DetourPlaces(s.tree, PlanName(plan), x, ANY_SUFFIX);
    assert [PlanName(plan)] <= [PlanName(plan), CAPTURES, x] && Parent(src) == [PlanName(plan)];
    DetourIsNew(s.tree, plan, x);
    StagesAndDies(s, plan, "./" + x, ANY_SUFFIX);
    Continued(Fresh(qs), PublishAlone(plan), StageAndDie(plan, "./" + x, ANY_SUFFIX));
    StagingBreaksPlanIff(s.tree, plan, src);
    DetourIsOutward(x);
  }

  lemma DetourIsNew(t: Custodied, plan: Plan, x: string)
    requires ReadPlan(t, [PlanName(plan)]) == Success(plan)
    ensures [PlanName(plan), x + "-" + ANY_SUFFIX] !in t
  {
    var name := x + "-" + ANY_SUFFIX;
    NameIn(t, [PlanName(plan)], name);
    assert [PlanName(plan)] + [name] == [PlanName(plan), name];
    assert name[|name| - 1] == '0' && PLAN_FILE[|PLAN_FILE| - 1] == 'n' && CAPTURES[|CAPTURES| - 1] == 's';
  }

  lemma DetourIsOutward(x: string)
    ensures !Inward("./" + x)
  {
    var id := "./" + x;
    assert id[1] == '/';
    assert "." + id == ".." + "/" + x;
    SplitFirst("..", x);
    assert Split("." + id)[0] == "..";
  }
}

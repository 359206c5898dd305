/** What every interleaving of publishers keeps, when no identifier of any plan leads upward out of its
    captures directory. Plan directories are then safe whatever else the queries are called; and so is each
    capture at a name no staging directory can take, of a plan whose identifiers have no separator. */
module CustodyRuns {
  import opened Outcomes
  import opened Ordering
  import opened FileTree
  import opened PathNames
  import opened Custody
  import opened CustodySystem
  import opened Staging
  import opened CustodyPublisher
  import opened CustodyScope

  // ---------- the invariant of every run ----------

  /** No identifier of any plan leads upward. */
  ghost predicate AllInward(qs: Queries) {
    forall planName, id :: planName in qs && id in qs[planName] ==> Inward(id)
  }

  /** What the checks before staging leave. */
  ghost predicate Asked(qs: Queries, w: Work) {
    match w
    case PlanWork(plan) => Bound(qs, plan)
    case CaptureWork(planName, capture, raw) =>
      && BoundTo(planName, capture, raw) && !Dotted(planName) && planName in qs && capture.queryId in qs[planName]
      && Inward(capture.queryId) && (Flat(capture.queryId) ==> IsComponent(capture.queryId) || '\0' in capture.queryId)
  }

  /** The part of a system that is in scope. */
  ghost function Focus(s: System): System {
    System(s.tree, map[], ScopedProcs(s.queries, s.procs), s.published, s.queries)
  }

  ghost function ScopedProcs(qs: Queries, procs: map<nat, Proc>): map<nat, Proc> {
    map i | i in procs && InScope(qs, procs[i].work) :: procs[i]
  }

  /** Work out of scope stays strictly inside the captures directory of its plan. */
  ghost predicate Located(qs: Queries, p: Proc) {
    Checked(qs, p.work) && (!InScope(qs, p.work) ==> JobOf(p.work).parent < p.staging)
  }

  ghost predicate Inv(s: System) {
    && Kept(Focus(s))
    && (forall id :: id in s.ready ==> Asked(s.queries, s.ready[id]))
    && (forall id :: id in s.procs ==> Located(s.queries, s.procs[id]))
    && s.procs.Keys !! s.ready.Keys
  }

  // ---------- work out of scope ----------

  /** Where work out of scope happens. */
  ghost predicate InZone(qs: Queries, zone: Path) {
    |zone| == 2 && !Dotted(zone[0]) && zone[1] == CAPTURES && !FlatPlan(qs, zone[0])
  }

  ghost predicate ConfinedWithin(t: Custodied, t': Custodied, zone: Path) {
    forall q :: !(zone < q) ==> SameAt(t, t', q)
  }

  lemma ZoneIsFar(qs: Queries, zone: Path, p: Path, name: string)
    requires InZone(qs, zone) && (TargetPath(qs, p) || StagingPath(qs, p))
    ensures !(zone < p) && !(zone < p + [name]) && !(p <= zone && StagingPath(qs, p))
  {
    assert (p + [name])[0] == p[0];
  }

  lemma ZoneKeepsProc(qs: Queries, t: Custodied, t': Custodied, zone: Path, p: Proc)
    requires InZone(qs, zone) && ConfinedWithin(t, t', zone) && ProcOk(qs, t, p)
    ensures ProcOk(qs, t', p)
  {
    hide StagingPath, TargetPath, Staged;
    var own := StagingOf(p);
    PathsOfWork(qs, p.work, p.staging);
    ZoneIsFar(qs, zone, own, "");
    assert SameAt(t, t', own);
    forall q | own <= q ensures SameAt(t, t', q) {
      if zone < q { Comparable(own, zone, q); }
    }
    assert SameAt(t, t', own + [CAPTURE_FILE]);
    BelowSame(t, t', own);
  }

  lemma ZoneKeepsPublished(qs: Queries, t: Custodied, t': Custodied, zone: Path, target: Path, w: Work)
    requires InZone(qs, zone) && ConfinedWithin(t, t', zone) && TargetPath(qs, target) && PublishedOk(qs, t, target, w)
    ensures PublishedOk(qs, t', target, w)
  {
    hide StagingPath, TargetPath;
    ZoneIsFar(qs, zone, target, "");
    assert SameAt(t, t', target);
    forall name ensures SameAt(t, t', target + [name]) { ZoneIsFar(qs, zone, target, name); }
    PublishedSame(qs, t, t', target, w);
  }

  /** Nothing that happens out of scope reaches what is in scope. */
  lemma ZoneKeeps(s: System, s': System, zone: Path)
    requires Kept(s) && InZone(s.queries, zone) && ConfinedWithin(s.tree, s'.tree, zone) && Rooted(s'.tree)
    requires s'.procs == s.procs && s'.queries == s.queries
    requires forall target :: TargetPath(s.queries, target) ==>
               (target in s'.published <==> target in s.published)
               && (target in s.published ==> s'.published[target] == s.published[target])
    ensures Kept(s')
  {
    hide ProcOk, PublishedOk, StagingPath, TargetPath, ConfinedWithin, InZone, Rooted;
    forall id | id in s.procs ensures ProcOk(s.queries, s'.tree, s.procs[id]) {
      ZoneKeepsProc(s.queries, s.tree, s'.tree, zone, s.procs[id]);
    }
    forall target | target in s'.published && TargetPath(s.queries, target)
      ensures PublishedOk(s.queries, s'.tree, target, s'.published[target]) {
      ZoneKeepsPublished(s.queries, s.tree, s'.tree, zone, target, s.published[target]);
    }
    forall target | target in s'.tree && TargetPath(s.queries, target) ensures target in s.tree {
      ZoneIsFar(s.queries, zone, target, "");
      ConfinedLookup(s.tree, s'.tree, zone, target);
    }
  }

  lemma ConfinedLookup(t: Custodied, t': Custodied, zone: Path, q: Path)
    requires ConfinedWithin(t, t', zone) && !(zone < q)
    ensures q in t <==> q in t'
  {
    assert SameAt(t, t', q);
  }

  lemma RemovedIsRooted(t: Custodied, path: Path)
    requires Rooted(t) && path != [] && Empty(t, path)
    ensures Rooted(t - {path})
  {
    forall q | q in t - {path} && q != [] ensures Parent(q) in t - {path} && t[Parent(q)].Dir? {
      assert Parent(q) < q;
    }
  }

  /** Where work out of scope stages and publishes. */
  lemma ZonePlaces(qs: Queries, t: Custodied, w: Work, suffix: string)
    requires w.CaptureWork? && Checked(qs, w) && IsSuffix(suffix)
    ensures PlaceOf(t, w).Some? ==> JobOf(w).parent <= PlaceOf(t, w).value
    ensures StagingOfWork(t, w, suffix).Some? ==> JobOf(w).parent < StagingOfWork(t, w, suffix).value
  {
    InwardPlaces(t, [w.planName], w.capture.queryId, suffix);
  }

  /** A step of a publisher out of scope changes the tree strictly inside its zone only. */
  lemma ZoneStep(s: System, a: Action, suffix: string)
    requires Rooted(s.tree) && Enabled(s, a) && !a.Check? && !a.Begin? && a.id in s.procs && IsSuffix(suffix)
    requires s.procs[a.id].work.CaptureWork? && Checked(s.queries, s.procs[a.id].work)
    requires JobOf(s.procs[a.id].work).parent < s.procs[a.id].staging
    ensures Rooted(Next(s, a).tree) && ConfinedWithin(s.tree, Next(s, a).tree, JobOf(s.procs[a.id].work).parent)
  {
    hide Rooted, CanRename, Moved, PlaceOf, Checked;
    var p, zone := s.procs[a.id], JobOf(s.procs[a.id].work).parent;
    match a {
      case Open(id) =>
        assert Parent(ItemPath(p)) == StagingOf(p) && zone < ItemPath(p);
        RootedAdd(s.tree, ItemPath(p), File(SEALED_FILE, Partial));
      case Finish(id) => ZoneItem(s, id);
      case MakeItemDir(id) => ZoneItem(s, id);
      case RenameInPlace(id) =>
        if CanPublish(s.tree, p) {
          var src, dst := StagingOf(p), PlaceOf(s.tree, p.work).value;
          ZonePlaces(s.queries, s.tree, p.work, suffix);
          NotOnto(s.tree, src, dst);
          MovedIsRooted(s.tree, src, dst);
          MovedWithin(s.tree, src, dst, zone);
        }
      case Clean(id, path) => RemovedIsRooted(s.tree, path);
      case Fail(_) =>
      case Crash(_) =>
    }
  }

  lemma NotOnto(t: Custodied, src: Path, dst: Path)
    requires CanRename(t, src, dst)
    ensures !(dst <= src)
  {}

  lemma ZoneItem(s: System, id: nat)
    requires Rooted(s.tree) && HasItem(s, id) && JobOf(s.procs[id].work).parent < s.procs[id].staging
    requires Enabled(s, Finish(id)) || Enabled(s, MakeItemDir(id))
    ensures Rooted(NextItem(s, id).tree) && ConfinedWithin(s.tree, NextItem(s, id).tree, JobOf(s.procs[id].work).parent)
  {
    hide Rooted;
    var p := s.procs[id];
    assert Parent(ItemPath(p)) == StagingOf(p) && StagingOf(p) <= ItemPath(p) && ItemPath(p) != [];
    assert JobOf(p.work).parent < ItemPath(p);
    ParentIsDirectory(s.tree, ItemPath(p));
    RootedAdd(s.tree, ItemPath(p), NodeOf(ItemsOf(p)[p.done]));
  }

  lemma MovedWithin(t: Custodied, src: Path, dst: Path, zone: Path)
    requires zone < src && zone < dst
    ensures ConfinedWithin(t, Moved(t, src, dst), zone)
  {
    forall q | !(zone < q) ensures SameAt(t, Moved(t, src, dst), q) { TwoConfined(t, src, dst, q); }
  }

  // ---------- every step keeps the invariant ----------

  lemma ScopedUpdates(qs: Queries, procs: map<nat, Proc>, id: nat, p: Proc)
    ensures ScopedProcs(qs, procs - {id}) == ScopedProcs(qs, procs) - {id}
    ensures InScope(qs, p.work) ==> ScopedProcs(qs, procs[id := p]) == ScopedProcs(qs, procs)[id := p]
    ensures !InScope(qs, p.work) ==> ScopedProcs(qs, procs[id := p]) == ScopedProcs(qs, procs) - {id}
  {
    hide InScope;
  }

  lemma FocusSteps(s: System, a: Action)
    requires Enabled(s, a) && !a.Check? && !a.Begin? && a.id in s.procs && InScope(s.queries, s.procs[a.id].work)
    ensures Enabled(Focus(s), a) && a.id in Focus(s).procs && Focus(s).procs[a.id] == s.procs[a.id]
  {
    hide CanRename, Moved, Empty, InScope, PlaceOf;
  }

  lemma FocusFollows(s: System, a: Action)
    requires Enabled(s, a) && !a.Check? && !a.Begin? && a.id in s.procs && InScope(s.queries, s.procs[a.id].work)
    requires Enabled(Focus(s), a) && a.id in Focus(s).procs && Focus(s).procs[a.id] == s.procs[a.id]
    ensures Focus(Next(s, a)) == Next(Focus(s), a)
  {
    hide CanRename, Moved, Empty, InScope, ScopedProcs, HasItem, IsDirectory, PlaceOf;
    var s', p := Next(s, a), s.procs[a.id];
    ScopedUpdates(s.queries, s.procs, a.id, if a.id in s'.procs then s'.procs[a.id] else p);
  }

  lemma CheckedIsLocated(qs: Queries, w: Work)
    requires Checked(qs, w) && !InScope(qs, w)
    ensures InZone(qs, JobOf(w).parent) && w.CaptureWork?
  {}

  /** A plan directory is one that was published, and reads back as the plan it was published with. */
  lemma PlanReads(s: System, name: string)
    requires Inv(s) && [name] in s.tree && !Dotted(name)
    ensures [name] in s.published && s.published[[name]].PlanWork?
    ensures var plan := s.published[[name]].plan;
            PlanName(plan) == name && Bound(s.queries, plan) && ReadPlan(s.tree, [name]) == Success(plan)
  {
    assert TargetPath(s.queries, [name]);
    var w := Focus(s).published[[name]];
    assert PublishedOk(s.queries, s.tree, [name], w);
    assert w.CaptureWork? ==> |Target(JobOf(w))| == 3;
    assert Target(JobOf(w)) == [PlanName(w.plan)];
    PlanReadsIffComplete(s.tree, [name], w.plan);
  }

  /** The publisher's own checks leave no other names. */
  lemma AskedByPublisher(s: System, w: Work)
    requires Inv(s) && MayStage(s, w) && (w.CaptureWork? ==> Inward(w.capture.queryId))
    ensures Asked(s.queries, w)
  {
    hide Kept;
    if w.CaptureWork? {
      var name := w.planName;
      assert PlanName(ReadPlan(s.tree, [name]).value)[0] == 'p';
      PlanReads(s, name);
      ReadableHasCaptures(s.tree, [name]);
      if Flat(w.capture.queryId) { FlatCapture(s.tree, [name], w.capture.queryId); }
    }
  }

  /** What gets a staging directory, and where. */
  lemma AskedIsStaged(qs: Queries, t: Custodied, w: Work, suffix: string)
    requires Asked(qs, w) && CanStage(t, w, suffix)
    ensures Checked(qs, w) && (w.CaptureWork? ==> JobOf(w).parent < StagingOfWork(t, w, suffix).value)
    ensures InScope(qs, w) ==> StagingFor(w, StagingOfWork(t, w, suffix).value)
  {
    hide Resolve, Split;
    if w.CaptureWork? {
      var id := w.capture.queryId;
      if Flat(id) {
        FlatStaging(t, [w.planName], id, suffix);
        assert [w.planName] + [CAPTURES, CaptureStaging(id, suffix)] == [w.planName, CAPTURES, CaptureStaging(id, suffix)];
        SuffixStages(id, suffix);
      } else {
        InwardPlaces(t, [w.planName], id, suffix);
      }
    }
  }

  lemma BeginStep(s: System, a: Action)
    requires Inv(s) && Enabled(s, a) && a.Begin?
    ensures Kept(Focus(Next(s, a))) && Located(s.queries, Next(s, a).procs[a.id])
  {
    hide Kept, Checked, InScope, Rooted, ConfinedWithin, InZone, StagingOfWork, StagingFor, Asked;
    var w, f, s' := s.ready[a.id], Focus(s), Next(s, a);
    var src := StagingOfWork(s.tree, w, a.suffix).value;
    AskedIsStaged(s.queries, s.tree, w, a.suffix);
    ScopedUpdates(s.queries, s.procs, a.id, Building(w, src, 0, false));
    if InScope(s.queries, w) {
      BeginKeeps(f, a.id, w, src);
      assert Focus(s') == f.(tree := s'.tree, procs := f.procs[a.id := Building(w, src, 0, false)]);
    } else {
      CheckedIsLocated(s.queries, w);
      RootedFocus(s);
      RootedAdd(s.tree, src, Dir(PRIVATE_DIR));
      AddedWithin(s.tree, src, JobOf(w).parent);
      assert ScopedProcs(s.queries, s.procs) - {a.id} == ScopedProcs(s.queries, s.procs);
      ZoneKeeps(f, Focus(s'), JobOf(w).parent);
    }
  }

  lemma AddedWithin(t: Custodied, src: Path, zone: Path)
    requires zone < src
    ensures ConfinedWithin(t, t[src := Dir(PRIVATE_DIR)], zone)
  {}

  lemma RootedFocus(s: System)
    requires Kept(Focus(s))
    ensures Rooted(s.tree)
  {
    assert Focus(s).tree == s.tree;
  }

  const ANY_SUFFIX := "00000000"

  lemma AnySuffix()
    ensures IsSuffix(ANY_SUFFIX)
  {}

  /** What is published out of scope is published inside its zone, and nothing else about it matters. */
  lemma PublishedOutOfScope(s: System, a: Action, target: Path)
    requires Enabled(s, a) && a.id in s.procs && !a.Check? && !a.Begin?
    requires Checked(s.queries, s.procs[a.id].work) && !InScope(s.queries, s.procs[a.id].work) && TargetPath(s.queries, target)
    ensures var s' := Next(s, a);
            (target in s'.published <==> target in s.published) && (target in s.published ==> s'.published[target] == s.published[target])
  {
    hide CanRename, Moved, PlaceOf, Empty, TargetPath;
    if a.RenameInPlace? && CanPublish(s.tree, s.procs[a.id]) {
      var w := s.procs[a.id].work;
      var zone := JobOf(w).parent;
      AnySuffix();
      ZonePlaces(s.queries, s.tree, w, ANY_SUFFIX);
      CheckedIsLocated(s.queries, w);
      ZoneHasNoTargets(s.queries, zone, PlaceOf(s.tree, w).value);
    }
  }

  lemma ZoneHasNoTargets(qs: Queries, zone: Path, p: Path)
    requires InZone(qs, zone) && zone <= p
    ensures !TargetPath(qs, p)
  {}

  lemma OutOfScopeStep(s: System, a: Action)
    requires Inv(s) && Enabled(s, a) && !a.Check? && !a.Begin? && a.id in s.procs && !InScope(s.queries, s.procs[a.id].work)
    ensures Kept(Focus(Next(s, a)))
  {
    hide Kept, Checked, Rooted, ConfinedWithin, InZone, Enabled, Next, Asked, InScope, TargetPath;
    var f, s', w := Focus(s), Next(s, a), s.procs[a.id].work;
    assert Located(s.queries, s.procs[a.id]);
    CheckedIsLocated(s.queries, w);
    RootedFocus(s);
    AnySuffix();
    ZoneStep(s, a, ANY_SUFFIX);
    forall target | TargetPath(s.queries, target)
      ensures (target in s'.published <==> target in s.published) && (target in s.published ==> s'.published[target] == s.published[target]) {
      PublishedOutOfScope(s, a, target);
    }
    FocusUnmoved(s, a);
    ZoneKeeps(f, Focus(s'), JobOf(w).parent);
  }

  lemma FocusUnmoved(s: System, a: Action)
    requires Enabled(s, a) && !a.Check? && !a.Begin? && a.id in s.procs && !InScope(s.queries, s.procs[a.id].work)
    ensures Focus(Next(s, a)).procs == Focus(s).procs && Next(s, a).queries == s.queries
  {
    hide CanRename, Moved, Empty, HasItem, IsDirectory, PlaceOf, ScopedProcs;
    var s', p := Next(s, a), s.procs[a.id];
    ScopedUpdates(s.queries, s.procs, a.id, if a.id in s'.procs then s'.procs[a.id] else p);
    assert ScopedProcs(s.queries, s.procs) - {a.id} == ScopedProcs(s.queries, s.procs) by { NotScoped(s.queries, s.procs, a.id); }
  }

  lemma NotScoped(qs: Queries, procs: map<nat, Proc>, id: nat)
    requires id in procs && !InScope(qs, procs[id].work)
    ensures ScopedProcs(qs, procs) - {id} == ScopedProcs(qs, procs)
  {}

  lemma InScopeStep(s: System, a: Action)
    requires Inv(s) && Enabled(s, a) && !a.Check? && !a.Begin? && a.id in s.procs && InScope(s.queries, s.procs[a.id].work)
    ensures Kept(Focus(Next(s, a)))
  {
    hide Kept, Focus, Enabled, InScope, Checked;
    FocusSteps(s, a);
    FocusFollows(s, a);
    KeptStep(Focus(s), a);
  }

  /** A capture whose publisher is past its checks is one the step may be taken for. */
  ghost predicate Downward(a: Action) {
    a.Check? && a.work.CaptureWork? ==> Inward(a.work.capture.queryId)
  }

  lemma RecordsStay(s: System, a: Action)
    requires Inv(s) && Enabled(s, a) && Downward(a)
    ensures var s' := Next(s, a);
            && (forall id :: id in s'.ready ==> Asked(s.queries, s'.ready[id]))
            && (forall id :: id in s'.procs ==> Located(s.queries, s'.procs[id]))
            && s'.procs.Keys !! s'.ready.Keys && s'.queries == s.queries
  {
    hide Kept, Focus, Checked, Asked, InScope, CanRename, Moved, Empty, CanStage, CanPublish, MayStage;
    if a.Check? { AskedByPublisher(s, a.work); }
    if a.Begin? { BeginStep(s, a); }
  }

  /** One step of any publisher keeps the invariant. */
  lemma StepKeeps(s: System, a: Action)
    requires Inv(s) && Enabled(s, a) && Downward(a)
    ensures Inv(Next(s, a)) && Next(s, a).queries == s.queries
  {
    hide Kept, InScope, Checked, Asked, Located, CanStage, CanPublish, MayStage, CanRename, Empty;
    RecordsStay(s, a);
    assert Kept(Focus(Next(s, a))) by {
      if a.Begin? {
        BeginStep(s, a);
      } else if a.id in s.procs && !a.Check? {
        if InScope(s.queries, s.procs[a.id].work) { InScopeStep(s, a); } else { OutOfScopeStep(s, a); }
      } else {
        assert s.procs - {a.id} == s.procs;
        assert Focus(Next(s, a)) == Focus(s);
      }
    }
  }

  /** A publisher checks that the plan asks the query. */
  lemma StepsGoDownward(s: System, a: Action)
    requires Inv(s) && Enabled(s, a) && AllInward(s.queries)
    ensures Downward(a)
  {
    hide Kept;
    if a.Check? && a.work.CaptureWork? {
      var name := a.work.planName;
      assert PlanName(ReadPlan(s.tree, [name]).value)[0] == 'p';
      PlanReads(s, name);
    }
  }

  lemma {:induction false} RunKeeps(s: System, run: seq<Action>)
    requires Inv(s) && Legal(s, run) && AllInward(s.queries)
    ensures Inv(After(s, run)) && After(s, run).queries == s.queries
    decreases |run|
  {
    hide Inv, Enabled, Next, AllInward, Downward;
    if run != [] {
      StepsGoDownward(s, run[0]);
      StepKeeps(s, run[0]);
      RunKeeps(Next(s, run[0]), run[1..]);
    }
  }

  /** After any run from the start, whatever its interleaving. */
  lemma RunsAreOk(qs: Queries, run: seq<Action>)
    requires AllInward(qs) && Legal(Fresh(qs), run)
    ensures Inv(After(Fresh(qs), run)) && After(Fresh(qs), run).queries == qs
  {
    assert Inv(Fresh(qs));
    RunKeeps(Fresh(qs), run);
  }

  // ---------- what every interleaving promises ----------

  /** Whatever else is staged, left over or half removed: a plan directory that exists reads back as
      exactly the plan whose rename put it there. */
  lemma PlansAreAbsentOrReadBack(qs: Queries, run: seq<Action>, name: string)
    requires AllInward(qs) && Legal(Fresh(qs), run) && [name] in After(Fresh(qs), run).tree && !Dotted(name)
    ensures var s := After(Fresh(qs), run);
            && [name] in s.published && s.published[[name]].PlanWork?
            && ReadPlan(s.tree, [name]) == Success(s.published[[name]].plan)
  {
    RunsAreOk(qs, run);
    PlanReads(After(Fresh(qs), run), name);
  }

  /** The capture directory of a query was published, and is complete with what was. */
  ghost predicate CaptureWhole(s: System, plan: Plan, id: string) {
    var place := [PlanName(plan), CAPTURES, id];
    && place in s.published
    && var w := s.published[place];
    && w.CaptureWork? && w.capture.queryId == id && w.capture.planFingerprint == plan.fingerprint
    && (w.raw.Some? <==> w.capture.rawSha256.Some?)
    && Complete(s.tree, place, JobOf(w).items)
  }

  /** What a capture needs of its own plan: identifiers without separators, and none that stages under
      this query's name. */
  ghost predicate Unmistaken(plan: Plan, id: string) {
    && (forall other :: other in plan.queries ==> Flat(other))
    && IsComponent(id) && !ShadowedIn(QueryIds(plan), id)
  }

  lemma TargetIsPublished(s: System, target: Path)
    requires Inv(s) && target in s.tree && TargetPath(s.queries, target)
    ensures target in s.published && PublishedOk(s.queries, s.tree, target, s.published[target])
  {
    hide TargetPath, PublishedOk, ProcOk, Asked, Located;
    var w := Focus(s).published[target];
    assert PublishedOk(s.queries, s.tree, target, w);
  }

  lemma PathNamesWork(target: Path, w: Work)
    requires |target| == 3 && target == Target(JobOf(w))
    ensures w.CaptureWork? && w.planName == target[0] && w.capture.queryId == target[2]
  {
    assert w.PlanWork? ==> |Target(JobOf(w))| == 1;
    assert Target(JobOf(w)) == [w.planName, CAPTURES, w.capture.queryId];
  }

  lemma UnmistakenIsTarget(qs: Queries, plan: Plan, id: string)
    requires Bound(qs, plan) && Unmistaken(plan, id)
    ensures TargetPath(qs, [PlanName(plan), CAPTURES, id]) && FlatPlan(qs, PlanName(plan))
  {
    assert PlanName(plan)[0] == 'p';
  }

  lemma CapturesAreWhole(s: System, plan: Plan, id: string)
    requires Inv(s) && Bound(s.queries, plan) && Unmistaken(plan, id) && [PlanName(plan), CAPTURES, id] in s.tree
    ensures CaptureWhole(s, plan, id)
  {
    hide Inv, Complete, Bound, Unmistaken, InScope;
    var target := [PlanName(plan), CAPTURES, id];
    UnmistakenIsTarget(s.queries, plan, id);
    TargetIsPublished(s, target);
    var w := s.published[target];
    PathNamesWork(target, w);
    assert BoundTo(PlanName(plan), w.capture, w.raw);
    assert ("plan=" + w.capture.planFingerprint)[5..] == w.capture.planFingerprint && PlanName(plan)[5..] == plan.fingerprint;
  }

  /** The same for a capture at a name no staging directory of its plan can take: it is complete with what
      was published, and reads back exactly when the recorded size and digest describe its raw bytes. */
  lemma CapturesAreAbsentOrReadBack(qs: Queries, run: seq<Action>, plan: Plan, id: string, sha: Octets -> string)
    requires AllInward(qs) && Bound(qs, plan) && Unmistaken(plan, id)
    requires Legal(Fresh(qs), run) && [PlanName(plan), CAPTURES, id] in After(Fresh(qs), run).tree
    ensures var s, target := After(Fresh(qs), run), [PlanName(plan), CAPTURES, id];
            && CaptureWhole(s, plan, id)
            && var w := s.published[target];
            && (ReadCapture(s.tree, [PlanName(plan)], id, sha) == Success((w.capture, w.raw))
                <==> DescribesRaw(w.capture, w.raw, sha))
  {
    hide Inv, Bound, ReadCapture, Complete;
    RunsAreOk(qs, run);
    var s := After(Fresh(qs), run);
    CapturesAreWhole(s, plan, id);
    FlatCapture(s.tree, [PlanName(plan)], id);
    assert [PlanName(plan)] + [CAPTURES, id] == [PlanName(plan), CAPTURES, id];
    var w := s.published[[PlanName(plan), CAPTURES, id]];
    CaptureReadsIffComplete(s.tree, [PlanName(plan)], id, w.capture, w.raw, sha);
  }

  lemma ScopedProc(s: System, id: nat)
    requires Inv(s) && id in s.procs && InScope(s.queries, s.procs[id].work)
    ensures ProcOk(s.queries, s.tree, s.procs[id]) && Rooted(s.tree)
  {
    hide ProcOk, Asked, Located;
    assert ProcOk(s.queries, s.tree, Focus(s).procs[id]);
    RootedFocus(s);
  }

  /** A finished staging directory can be renamed to a name no staging directory can take exactly when
      nothing is there: leftovers never block it, and a second publisher never overwrites. */
  lemma RenameSucceedsIffAbsent(s: System, id: nat)
    requires Inv(s) && Enabled(s, RenameInPlace(id)) && InScope(s.queries, s.procs[id].work)
    requires TargetPath(s.queries, Target(JobOf(s.procs[id].work)))
    ensures CanPublish(s.tree, s.procs[id]) <==> Target(JobOf(s.procs[id].work)) !in s.tree
    ensures var dst, t := Target(JobOf(s.procs[id].work)), Next(s, RenameInPlace(id));
            if dst !in s.tree then dst in t.published && t.published[dst] == s.procs[id].work && id !in t.procs
            else t == s.(procs := s.procs[id := Cleaning(s.procs[id].work, s.procs[id].staging)])
  {
    hide PublishedOk, Rooted, TargetPath, StagingPath, Staged, Complete, InScope, Nameable, PlaceOf, Asked, Located,
      Built, Below, With;
    var p, f := s.procs[id], Focus(s);
    var job, src, dst := JobOf(p.work), StagingOf(p), Target(JobOf(p.work));
    ScopedProc(s, id);
    assert f.procs[id] == p;
    PathsOfWork(s.queries, p.work, p.staging);
    PlaceIsTarget(s.queries, s.tree, p.work);
    if dst in s.tree {
      PublishedHasEntries(f, dst);
    } else {
      StagedTree(f, id);
      ParentStays(s.tree, src);
      AbsentOutside(s.tree, src, dst);
      RenamePublishes(Outside(s.tree, src), src, dst, job.items);
    }
  }

  lemma AbsentOutside(t: Custodied, src: Path, dst: Path)
    requires dst !in t
    ensures dst !in Outside(t, src)
  {}

  lemma StepPublishesOnce(s: System, a: Action, target: Path)
    requires Inv(s) && Enabled(s, a) && target in s.published && TargetPath(s.queries, target)
    ensures target in Next(s, a).published && Next(s, a).published[target] == s.published[target]
  {
    hide Kept, CanRename, InScope, Moved, PlaceOf, Asked, TargetPath, Checked;
    if a.RenameInPlace? {
      var p := s.procs[a.id];
      assert Located(s.queries, p);
      if InScope(s.queries, p.work) {
        PlaceIsTarget(s.queries, s.tree, p.work);
        if Target(JobOf(p.work)) == target {
          RenameSucceedsIffAbsent(s, a.id);
          PublishedHasEntries(Focus(s), target);
        }
      } else {
        PublishedOutOfScope(s, a, target);
      }
    }
  }

  /** Once published, always published, and the same: no later step of anybody changes a plan, nor a
      capture at a name no staging directory can take. */
  lemma {:induction false} PublishedForGood(s: System, run: seq<Action>, target: Path)
    requires Inv(s) && AllInward(s.queries) && Legal(s, run) && target in s.published && TargetPath(s.queries, target)
    ensures var t := After(s, run);
            && target in t.published && t.published[target] == s.published[target]
            && PublishedOk(s.queries, t.tree, target, s.published[target])
    decreases |run|
  {
    hide Next, Enabled, PublishedOk, Inv, TargetPath, AllInward, Downward;
    if run == [] {
      PublishedStands(s, target);
    } else {
      StepsGoDownward(s, run[0]);
      StepKeeps(s, run[0]);
      StepPublishesOnce(s, run[0], target);
      PublishedForGood(Next(s, run[0]), run[1..], target);
    }
  }

  lemma PublishedStands(s: System, target: Path)
    requires Inv(s) && target in s.published && TargetPath(s.queries, target)
    ensures PublishedOk(s.queries, s.tree, target, s.published[target])
  {
    hide TargetPath, PublishedOk, ProcOk, Asked, Located;
    assert PublishedOk(s.queries, s.tree, target, Focus(s).published[target]);
  }

  /** A plan that reads back now reads back the same after anything else anybody does. */
  lemma PlanNeverChanges(qs: Queries, before: seq<Action>, after: seq<Action>, name: string)
    requires AllInward(qs) && Legal(Fresh(qs), before) && Legal(After(Fresh(qs), before), after) && !Dotted(name)
    requires [name] in After(Fresh(qs), before).tree
    ensures ReadPlan(After(After(Fresh(qs), before), after).tree, [name]) == ReadPlan(After(Fresh(qs), before).tree, [name])
  {
    hide Inv;
    RunsAreOk(qs, before);
    var s := After(Fresh(qs), before);
    PlanReads(s, name);
    PublishedForGood(s, after, [name]);
    PlanReadsIffComplete(After(s, after).tree, [name], s.published[[name]].plan);
  }
}

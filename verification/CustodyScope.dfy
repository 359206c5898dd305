/** What the publishers of plans, and of captures of plans whose identifiers have no separator, keep among
    themselves: every staging directory holds what its publisher has staged, unless another publisher put
    a capture in its place, and everything published at a name no staging directory can take is complete. */
module CustodyScope {
  import opened Outcomes
  import opened Ordering
  import opened FileTree
  import opened PathNames
  import opened Custody
  import opened CustodySystem
  import opened Staging
  import opened CustodyPublisher

  // ---------- what is in scope ----------

  /** `name` is a name the staging directory of some query in `ids` can take. */
  ghost predicate ShadowedIn(ids: set<string>, name: string) {
    exists id :: id in ids && IsComponent(id) && StagesAs(id, name)
  }

  /** No identifier of the plan has a separator in it. */
  ghost predicate FlatPlan(qs: Queries, planName: string) {
    planName in qs && forall id :: id in qs[planName] ==> Flat(id)
  }

  /** The capture carries the fingerprint its plan is named after, and a digest exactly when it has raw bytes. */
  ghost predicate BoundTo(planName: string, capture: Capture, raw: Option<Octets>) {
    planName == "plan=" + capture.planFingerprint && (raw.Some? <==> capture.rawSha256.Some?)
  }

  /** What a publisher with a staging directory has passed. */
  ghost predicate Checked(qs: Queries, w: Work) {
    match w
    case PlanWork(plan) => Bound(qs, plan)
    case CaptureWork(planName, capture, raw) =>
      && BoundTo(planName, capture, raw) && !Dotted(planName) && planName in qs && capture.queryId in qs[planName]
      && Inward(capture.queryId) && (Flat(capture.queryId) ==> Servable(capture.queryId))
  }

  ghost predicate InScope(qs: Queries, w: Work) {
    w.PlanWork? || FlatPlan(qs, w.planName)
  }

  ghost predicate Nameable(qs: Queries, w: Work) {
    Checked(qs, w) && InScope(qs, w)
  }

  /** The paths its staging directory can have. */
  ghost predicate StagingFor(w: Work, p: Path) {
    match w
    case PlanWork(_) => |p| == 1 && Dotted(p[0])
    case CaptureWork(planName, capture, _) =>
      |p| == 3 && p[0] == planName && p[1] == CAPTURES && StagesAs(capture.queryId, p[2])
  }

  // ---------- where things are ----------

  ghost predicate ShadowedAt(qs: Queries, p: Path)
    requires |p| == 3
  {
    p[0] in qs && ShadowedIn(qs[p[0]], p[2])
  }

  /** Paths of entries of a flat plan's captures directory. */
  ghost predicate EntryPath(qs: Queries, p: Path) {
    |p| == 3 && !Dotted(p[0]) && p[1] == CAPTURES && FlatPlan(qs, p[0])
  }

  /** Paths of plan directories, and of captures at names no staging directory can take. */
  ghost predicate TargetPath(qs: Queries, p: Path) {
    (|p| == 1 && !Dotted(p[0])) || (EntryPath(qs, p) && !ShadowedAt(qs, p))
  }

  /** Paths a staging directory of such work may have. */
  ghost predicate StagingPath(qs: Queries, p: Path) {
    (|p| == 1 && Dotted(p[0])) || (EntryPath(qs, p) && ShadowedAt(qs, p))
  }

  lemma TargetOfWork(qs: Queries, w: Work)
    requires Nameable(qs, w)
    ensures TargetPath(qs, Target(JobOf(w))) || StagingPath(qs, Target(JobOf(w)))
    ensures w.PlanWork? ==> TargetPath(qs, Target(JobOf(w)))
    ensures DistinctNames(JobOf(w).items) && JobOf(w).items != []
    ensures Parent(Target(JobOf(w))) == JobOf(w).parent
    ensures w.CaptureWork? ==> Target(JobOf(w)) == [w.planName, CAPTURES, w.capture.queryId]
  {
    match w {
      case PlanWork(plan) =>
        assert Target(JobOf(w)) == [PlanName(plan)] && PlanName(plan)[0] == 'p';
        ItemNamesAreDistinct([], plan, Capture("", "", None, None, ""), None);
      case CaptureWork(planName, capture, raw) =>
        assert Target(JobOf(w)) == [planName, CAPTURES, capture.queryId];
        ItemNamesAreDistinct([planName], Plan("", [], ""), capture, raw);
    }
  }

  /** What such work publishes belongs at one place whatever else is in the tree. */
  lemma PlaceIsTarget(qs: Queries, t: Custodied, w: Work)
    requires Nameable(qs, w)
    ensures PlaceOf(t, w) == Some(Target(JobOf(w)))
  {
    TargetOfWork(qs, w);
    if w.CaptureWork? {
      FlatCapture(t, [w.planName], w.capture.queryId);
      assert [w.planName] + [CAPTURES, w.capture.queryId] == [w.planName, CAPTURES, w.capture.queryId];
    } else {
      assert Target(JobOf(w)) == [PlanName(w.plan)];
    }
  }

  lemma PathsOfWork(qs: Queries, w: Work, src: Path)
    requires Nameable(qs, w) && StagingFor(w, src)
    ensures StagingPath(qs, src) && src != Target(JobOf(w)) && src != []
    ensures DistinctNames(JobOf(w).items) && JobOf(w).items != []
    ensures Parent(src) == JobOf(w).parent == Parent(Target(JobOf(w))) && Target(JobOf(w)) != []
  {
    TargetOfWork(qs, w);
    match w {
      case PlanWork(plan) =>
        assert PlanName(plan)[0] == 'p';
        assert Target(JobOf(w)) == [PlanName(plan)] && Parent(src) == [];
      case CaptureWork(planName, capture, raw) =>
        assert StagesAs(capture.queryId, src[2]);
        assert Parent(src) == [planName, CAPTURES] == [planName] + [CAPTURES];
    }
  }

  /** A staging directory never contains a published directory or one of its own entries. */
  lemma StagingIsFar(qs: Queries, src: Path, target: Path, name: string)
    requires StagingPath(qs, src) && TargetPath(qs, target)
    ensures !(src <= target) && !(src <= target + [name])
  {
    assert (target + [name])[0] == target[0];
  }

  lemma StagingsAreApart(qs: Queries, a: Path, b: Path)
    requires StagingPath(qs, a) && StagingPath(qs, b) && a != b
    ensures !(a <= b)
  {}

  lemma Comparable(a: Path, b: Path, q: Path)
    requires a <= q && b <= q
    ensures a <= b || b <= a
  {}

  // ---------- the invariant ----------

  /** The part of the tree at and below `p`. */
  ghost function Below(t: Custodied, p: Path): Custodied {
    map q | q in t && p <= q :: t[q]
  }

  /** What a publisher's staging directory holds. */
  ghost function Staged(p: Proc): Custodied
    requires p.Building? && p.done <= |ItemsOf(p)| && (p.torn ==> p.done < |ItemsOf(p)|)
  {
    var whole := Built(StagingOf(p), ItemsOf(p)[..p.done]);
    if p.torn then whole[StagingOf(p) + [ItemsOf(p)[p.done].name] := File(SEALED_FILE, Partial)] else whole
  }

  ghost predicate ProcOk(qs: Queries, t: Custodied, p: Proc) {
    && Nameable(qs, p.work) && StagingFor(p.work, p.staging) && StagingOf(p) in t
    && (p.Building? ==> p.done <= |ItemsOf(p)| && (p.torn ==> p.done < |ItemsOf(p)|)
                        && (Below(t, StagingOf(p)) == Staged(p) || Taken(t, p)))
  }

  /** Another publisher's capture stands where `p` stages, so `p` cannot write its own: exclusive creation
      of the capture file fails. */
  ghost predicate Taken(t: Custodied, p: Proc) {
    && p.work.CaptureWork? && p.Building? && StagingOf(p) + [CAPTURE_FILE] in t
    && p.done < |ItemsOf(p)| && (p.torn ==> p.done + 1 < |ItemsOf(p)|)
  }

  ghost predicate PublishedOk(qs: Queries, t: Custodied, target: Path, w: Work) {
    Nameable(qs, w) && target == Target(JobOf(w)) && Complete(t, target, JobOf(w).items)
  }

  /** What a system with only nameable work keeps. */
  ghost predicate Kept(s: System) {
    && Rooted(s.tree)
    && (forall id :: id in s.procs ==> ProcOk(s.queries, s.tree, s.procs[id]))
    && (forall i, j :: i in s.procs && j in s.procs && i != j ==> StagingOf(s.procs[i]) != StagingOf(s.procs[j]))
    && (forall target :: target in s.published && TargetPath(s.queries, target) ==>
          PublishedOk(s.queries, s.tree, target, s.published[target]))
    && (forall target :: target in s.tree && TargetPath(s.queries, target) ==> target in s.published)
  }

  // ---------- changes confined to one staging directory ----------

  ghost predicate Confined(t: Custodied, t': Custodied, src: Path) {
    forall q :: !(src <= q) ==> (q in t <==> q in t') && (q in t ==> t[q] == t'[q])
  }

  ghost predicate SameAt(t: Custodied, t': Custodied, q: Path) {
    (q in t <==> q in t') && (q in t ==> t[q] == t'[q])
  }

  /** Completeness looks at a directory and its entries only. */
  lemma PublishedSame(qs: Queries, t: Custodied, t': Custodied, target: Path, w: Work)
    requires PublishedOk(qs, t, target, w)
    requires SameAt(t, t', target) && forall name :: SameAt(t, t', target + [name])
    ensures PublishedOk(qs, t', target, w)
  {
    var items := JobOf(w).items;
    forall i | 0 <= i < |items| ensures target + [items[i].name] in t' && t'[target + [items[i].name]] == NodeOf(items[i]) {
      assert SameAt(t, t', target + [items[i].name]);
    }
    forall name | name in Names(t', target) ensures exists i :: 0 <= i < |items| && items[i].name == name {
      NameIn(t', target, name);
      NameIn(t, target, name);
      assert SameAt(t, t', target + [name]);
    }
  }

  lemma PublishedStays(qs: Queries, t: Custodied, t': Custodied, src: Path, target: Path, w: Work)
    requires StagingPath(qs, src) && TargetPath(qs, target) && Confined(t, t', src) && PublishedOk(qs, t, target, w)
    ensures PublishedOk(qs, t', target, w)
  {
    StagingIsFar(qs, src, target, "");
    forall name ensures SameAt(t, t', target + [name]) { StagingIsFar(qs, src, target, name); }
    PublishedSame(qs, t, t', target, w);
  }

  lemma OthersStay(qs: Queries, t: Custodied, t': Custodied, src: Path, p: Proc)
    requires StagingPath(qs, src) && Confined(t, t', src) && ProcOk(qs, t, p) && StagingOf(p) != src
    ensures ProcOk(qs, t', p)
  {
    var own := StagingOf(p);
    PathsOfWork(qs, p.work, p.staging);
    StagingsAreApart(qs, src, own);
    StagingsAreApart(qs, own, src);
    forall q | q in t || q in t' ensures own <= q ==> (q in t <==> q in t') && (q in t ==> t[q] == t'[q]) {
      if own <= q && src <= q { Comparable(own, src, q); }
    }
    assert Below(t', own) == Below(t, own);
    assert own <= own + [CAPTURE_FILE];
  }

  /** Only the publisher `id`, staging at `src`, moved; everybody else's record is as before. */
  ghost predicate OnlyMoved(s: System, s': System, id: nat, src: Path) {
    && (forall i :: i != id ==> (i in s'.procs <==> i in s.procs) && (i in s.procs ==> s'.procs[i] == s.procs[i]))
    && (forall i :: i in s.procs && i != id ==> StagingOf(s.procs[i]) != src)
    && (id in s'.procs ==> ProcOk(s.queries, s'.tree, s'.procs[id]) && StagingOf(s'.procs[id]) == src)
  }

  lemma ProcsKept(s: System, s': System, id: nat, src: Path)
    requires Kept(s) && StagingPath(s.queries, src) && Confined(s.tree, s'.tree, src) && OnlyMoved(s, s', id, src)
    ensures forall i :: i in s'.procs ==> ProcOk(s.queries, s'.tree, s'.procs[i])
    ensures forall i, j :: i in s'.procs && j in s'.procs && i != j ==> StagingOf(s'.procs[i]) != StagingOf(s'.procs[j])
  {
    hide ProcOk, Confined, PublishedOk, StagingPath, TargetPath;
    forall i | i in s'.procs ensures ProcOk(s.queries, s'.tree, s'.procs[i]) {
      if i != id { OthersStay(s.queries, s.tree, s'.tree, src, s.procs[i]); }
    }
  }

  lemma PublishedKept(s: System, s': System, src: Path)
    requires Kept(s) && StagingPath(s.queries, src) && Confined(s.tree, s'.tree, src) && s'.published == s.published && s'.queries == s.queries
    ensures forall target :: target in s'.published && TargetPath(s.queries, target) ==>
              PublishedOk(s.queries, s'.tree, target, s'.published[target])
    ensures forall target :: target in s'.tree && TargetPath(s.queries, target) ==> target in s'.published
  {
    hide ProcOk, PublishedOk, StagingPath, TargetPath;
    forall target | target in s'.published && TargetPath(s.queries, target)
      ensures PublishedOk(s.queries, s'.tree, target, s'.published[target]) {
      PublishedStays(s.queries, s.tree, s'.tree, src, target, s.published[target]);
    }
    forall target | target in s'.tree && TargetPath(s.queries, target) ensures target in s'.published {
      StagingIsFar(s.queries, src, target, "");
    }
  }

  /** A step confined to one staging directory keeps the invariant when its own publisher does. */
  lemma ConfinedKeeps(s: System, s': System, id: nat, src: Path)
    requires Kept(s) && StagingPath(s.queries, src) && Confined(s.tree, s'.tree, src) && Rooted(s'.tree)
    requires OnlyMoved(s, s', id, src) && s'.published == s.published && s'.queries == s.queries
    ensures Kept(s')
  {
    hide ProcOk, Confined, PublishedOk, StagingPath, TargetPath, OnlyMoved, Rooted;
    ProcsKept(s, s', id, src);
    PublishedKept(s, s', src);
  }

  // ---------- every step keeps the invariant ----------

  /** What a step has to show about its own publisher and the tree, nothing about the others. */
  lemma OwnMove(s: System, s': System, id: nat, src: Path)
    requires Kept(s) && StagingPath(s.queries, src) && s'.published == s.published && s'.queries == s.queries
    requires Rooted(s'.tree) && Confined(s.tree, s'.tree, src)
    requires if id in s.procs then StagingOf(s.procs[id]) == src else src !in s.tree
    requires forall i :: i != id ==> (i in s'.procs <==> i in s.procs) && (i in s.procs ==> s'.procs[i] == s.procs[i])
    requires id in s'.procs ==> ProcOk(s.queries, s'.tree, s'.procs[id]) && StagingOf(s'.procs[id]) == src
    ensures Kept(s')
  {
    hide Confined, PublishedOk, StagingPath, TargetPath, Rooted;
    forall i | i in s.procs && i != id ensures StagingOf(s.procs[i]) != src {
      assert ProcOk(s.queries, s.tree, s.procs[i]);
    }
    assert OnlyMoved(s, s', id, src);
    ConfinedKeeps(s, s', id, src);
  }

  lemma BeginTree(qs: Queries, t: Custodied, p: Proc)
    requires Rooted(t) && p.Building? && p.done == 0 && !p.torn && Nameable(qs, p.work) && StagingFor(p.work, p.staging)
    requires IsDirectory(t, Parent(StagingOf(p))) && StagingOf(p) !in t
    ensures var t' := t[StagingOf(p) := Dir(PRIVATE_DIR)];
            Rooted(t') && Confined(t, t', StagingOf(p)) && ProcOk(qs, t', p)
  {
    var src := StagingOf(p);
    var t' := t[src := Dir(PRIVATE_DIR)];
    RootedAdd(t, src, Dir(PRIVATE_DIR));
    NothingUnder(t, src);
    assert ItemsOf(p)[..0] == [];
    assert forall q :: q in t ==> q in Outside(t, src);
    assert Below(t', src) == Staged(p);
  }

  lemma BeginKeeps(s: System, id: nat, work: Work, src: Path)
    requires Kept(s) && id !in s.procs && Nameable(s.queries, work) && StagingFor(work, src)
    requires IsDirectory(s.tree, Parent(src)) && src !in s.tree
    ensures Kept(s.(tree := s.tree[src := Dir(PRIVATE_DIR)], procs := s.procs[id := Building(work, src, 0, false)]))
  {
    hide ProcOk, Confined, PublishedOk, StagingPath, TargetPath, Rooted, Nameable;
    var p := Building(work, src, 0, false);
    PathsOfWork(s.queries, work, src);
    BeginTree(s.queries, s.tree, p);
    OwnMove(s, s.(tree := s.tree[src := Dir(PRIVATE_DIR)], procs := s.procs[id := p]), id, src);
  }

  lemma BelowUpdated(t: Custodied, src: Path, path: Path, n: Node<Payload>)
    requires src <= path
    ensures Below(t[path := n], src) == Below(t, src)[path := n] && Confined(t, t[path := n], src)
  {}

  /** Adding or rewriting the current item inside the staging directory. */
  lemma ItemTree(qs: Queries, t: Custodied, p: Proc, p': Proc, n: Node<Payload>)
    requires Rooted(t) && ProcOk(qs, t, p) && p.Building? && p.done < |ItemsOf(p)|
    requires IsDirectory(t, StagingOf(p)) && (ItemPath(p) in t ==> t[ItemPath(p)].File? && n.File?)
    requires p'.Building? && p'.work == p.work && p'.staging == p.staging
    requires p'.done <= |ItemsOf(p')| && (p'.torn ==> p'.done < |ItemsOf(p')|)
    requires Staged(p') == Staged(p)[ItemPath(p) := n]
    requires Taken(t, p) ==> p'.done < |ItemsOf(p')| && (p'.torn ==> p'.done + 1 < |ItemsOf(p')|)
    ensures var t' := t[ItemPath(p) := n];
            Rooted(t') && Confined(t, t', StagingOf(p)) && ProcOk(qs, t', p')
  {
    hide Staged, JobOf, Nameable, StagingFor, Rooted, Below, Confined;
    assert Parent(ItemPath(p)) == StagingOf(p) && ItemPath(p) != [];
    RootedAdd(t, ItemPath(p), n);
    BelowUpdated(t, StagingOf(p), ItemPath(p), n);
  }

  lemma ItemKeeps(s: System, id: nat, p': Proc, n: Node<Payload>)
    requires Kept(s) && HasItem(s, id)
    requires var p := s.procs[id];
             && ProcOk(s.queries, s.tree, p)
             && IsDirectory(s.tree, StagingOf(p)) && (ItemPath(p) in s.tree ==> s.tree[ItemPath(p)].File? && n.File?)
             && p'.Building? && p'.work == p.work && p'.staging == p.staging
             && p'.done <= |ItemsOf(p')| && (p'.torn ==> p'.done < |ItemsOf(p')|)
             && Staged(p') == Staged(p)[ItemPath(p) := n]
             && (Taken(s.tree, p) ==> p'.done < |ItemsOf(p')| && (p'.torn ==> p'.done + 1 < |ItemsOf(p')|))
    ensures Kept(s.(tree := s.tree[ItemPath(s.procs[id]) := n], procs := s.procs[id := p']))
  {
    hide Confined, PublishedOk, StagingPath, TargetPath, Rooted, Staged, Taken, ProcOk;
    var p := s.procs[id];
    assert Nameable(s.queries, p.work) && StagingFor(p.work, p.staging) by { ProcLocated(s.queries, s.tree, p); }
    PathsOfWork(s.queries, p.work, p.staging);
    ItemTree(s.queries, s.tree, p, p', n);
    OwnMove(s, s.(tree := s.tree[ItemPath(p) := n], procs := s.procs[id := p']), id, StagingOf(p));
  }

  lemma ProcLocated(qs: Queries, t: Custodied, p: Proc)
    requires ProcOk(qs, t, p)
    ensures Nameable(qs, p.work) && StagingFor(p.work, p.staging) && StagingOf(p) in t
  {}

  lemma StagingIsDirectory(p: Proc)
    requires p.Building? && p.done <= |ItemsOf(p)| && (p.torn ==> p.done < |ItemsOf(p)|)
    ensures StagingOf(p) in Staged(p) && Staged(p)[StagingOf(p)] == Dir(PRIVATE_DIR)
  {
    BuiltBase(StagingOf(p), ItemsOf(p)[..p.done]);
  }

  /** The place of the current item is free, or holds the torn file. */
  lemma ItemSlot(qs: Queries, t: Custodied, p: Proc)
    requires Nameable(qs, p.work) && StagingFor(p.work, p.staging)
    requires p.Building? && p.done < |ItemsOf(p)| && Below(t, StagingOf(p)) == Staged(p)
    ensures var path := StagingOf(p) + [ItemsOf(p)[p.done].name];
            path in t ==> p.torn && t[path].File?
  {
    var src, items := StagingOf(p), ItemsOf(p);
    var path := src + [items[p.done].name];
    PathsOfWork(qs, p.work, p.staging);
    assert path in t ==> path in Below(t, src);
    BuiltHas(src, items[..p.done], path);
    assert path[|src|] == items[p.done].name;
    forall i | 0 <= i < p.done ensures path != src + [items[..p.done][i].name] {
      assert (src + [items[i].name])[|src|] == items[i].name;
    }
    if path in t { assert Below(t, src)[path] == t[path]; }
  }

  lemma StagedGrows(p: Proc)
    requires p.Building? && p.done < |ItemsOf(p)|
    ensures var path := StagingOf(p) + [ItemsOf(p)[p.done].name];
            && Staged(p.(done := p.done + 1, torn := false)) == Staged(p)[path := NodeOf(ItemsOf(p)[p.done])]
            && (!p.torn ==> Staged(p.(torn := true)) == Staged(p)[path := File(SEALED_FILE, Partial)])
  {
    var items := ItemsOf(p);
    assert items[..p.done + 1][..p.done] == items[..p.done];
  }

  lemma CleanTree(qs: Queries, t: Custodied, p: Proc, path: Path)
    requires Rooted(t) && ProcOk(qs, t, p) && p.Cleaning? && path in t && StagingOf(p) <= path && Empty(t, path)
    ensures var t' := t - {path};
            Rooted(t') && Confined(t, t', StagingOf(p)) && (path != StagingOf(p) ==> ProcOk(qs, t', p))
  {
    var t' := t - {path};
    assert path != [];
    forall q | q in t' && q != [] ensures Parent(q) in t' && t'[Parent(q)].Dir? {
      assert Parent(q) < q;
    }
  }

  lemma CleanKeeps(s: System, a: Action)
    requires Kept(s) && Enabled(s, a) && a.Clean?
    ensures Kept(Next(s, a))
  {
    hide Confined, PublishedOk, StagingPath, TargetPath, Rooted, Empty;
    var p := s.procs[a.id];
    assert ProcOk(s.queries, s.tree, p);
    PathsOfWork(s.queries, p.work, p.staging);
    CleanTree(s.queries, s.tree, p, a.path);
    OwnMove(s, Next(s, a), a.id, StagingOf(p));
  }

  /** Failing and dying leave the tree alone. */
  lemma ProcChangeKeeps(s: System, a: Action)
    requires Kept(s) && Enabled(s, a) && (a.Fail? || (a.Crash? && a.id in s.procs) || (a.RenameInPlace? && !CanPublish(s.tree, s.procs[a.id])))
    ensures Kept(Next(s, a))
  {
    hide PublishedOk, StagingPath, TargetPath, Rooted, CanRename, CanPublish, Moved, PlaceOf;
    var p := s.procs[a.id];
    assert ProcOk(s.queries, s.tree, p);
    PathsOfWork(s.queries, p.work, p.staging);
    OwnMove(s, Next(s, a), a.id, StagingOf(p));
  }

  // ---------- the rename ----------

  /** A fully staged tree is the rest of the tree with the staging directory built on top. */
  lemma StagedTree(s: System, id: nat)
    requires Kept(s) && id in s.procs && s.procs[id].Building? && !s.procs[id].torn && s.procs[id].done == |ItemsOf(s.procs[id])|
    ensures var p := s.procs[id];
            var rest := Outside(s.tree, StagingOf(p));
            s.tree == With(rest, StagingOf(p), ItemsOf(p)) && Rooted(rest) && StagingOf(p) !in rest
  {
    hide Built, PublishedOk, Rooted;
    var p := s.procs[id];
    assert ProcOk(s.queries, s.tree, p);
    assert ItemsOf(p)[..p.done] == ItemsOf(p);
    assert Below(s.tree, StagingOf(p)) == Built(StagingOf(p), ItemsOf(p));
    RootedOutside(s.tree, StagingOf(p));
    SplitAt(s.tree, StagingOf(p));
  }

  lemma SplitAt(t: Custodied, src: Path)
    ensures t == Outside(t, src) + Below(t, src)
  {}

  lemma PublishedHasEntries(s: System, target: Path)
    requires Kept(s) && target in s.published && TargetPath(s.queries, target)
    ensures target in s.tree && !Empty(s.tree, target)
  {
    var w := s.published[target];
    assert PublishedOk(s.queries, s.tree, target, w);
    TargetOfWork(s.queries, w);
    var entry := target + [JobOf(w).items[0].name];
    assert entry in s.tree && target < entry;
  }

  /** A rename to a published name that succeeds found it absent: a published directory is never empty. */
  lemma RenameFindsAbsent(s: System, target: Path)
    requires Kept(s) && TargetPath(s.queries, target) && target in s.tree
    ensures !Empty(s.tree, target)
  {
    PublishedHasEntries(s, target);
  }

  /** The staging directory taken away, its publisher gone: one half of a rename. */
  lemma DetachKeeps(s: System, id: nat)
    requires Kept(s) && id in s.procs
    ensures Kept(s.(tree := Outside(s.tree, StagingOf(s.procs[id])), procs := s.procs - {id}))
  {
    hide PublishedOk, StagingPath, TargetPath, Rooted, Confined, Outside;
    var p := s.procs[id];
    assert ProcOk(s.queries, s.tree, p);
    PathsOfWork(s.queries, p.work, p.staging);
    RootedOutside(s.tree, StagingOf(p));
    DetachIsConfined(s.tree, StagingOf(p));
    OwnMove(s, s.(tree := Outside(s.tree, StagingOf(p)), procs := s.procs - {id}), id, StagingOf(p));
  }

  lemma DetachIsConfined(t: Custodied, src: Path)
    ensures Confined(t, Outside(t, src), src)
  {}

  /** A path that is not in a rooted tree is above none of it. */
  lemma AbsentIsFar(t: Custodied, dst: Path, q: Path)
    requires Rooted(t) && dst !in t && q in t
    ensures !(dst <= q)
  {
    if dst <= q { AncestorsExist(t, dst, q); }
  }

  lemma AttachKeepsProc(qs: Queries, t: Custodied, dst: Path, items: seq<Item>, p: Proc)
    requires Rooted(t) && TargetPath(qs, dst) && dst !in t && ProcOk(qs, t, p)
    ensures ProcOk(qs, With(t, dst, items), p)
  {
    hide With, TargetPath, StagingPath, Staged;
    var own, t' := StagingOf(p), With(t, dst, items);
    PathsOfWork(qs, p.work, p.staging);
    StagingIsFar(qs, own, dst, "");
    AbsentIsFar(t, dst, own);
    forall q | q in t || q in t' ensures own <= q ==> (q in t <==> q in t') && (q in t ==> t[q] == t'[q]) {
      if own <= q {
        if dst <= q { Comparable(own, dst, q); }
        OutsideLookup(t, dst, items, q);
      }
    }
    OutsideLookup(t, dst, items, own);
    assert Below(t', own) == Below(t, own);
    assert own <= own + [CAPTURE_FILE];
  }

  lemma TargetsApart(qs: Queries, dst: Path, target: Path, name: string)
    requires TargetPath(qs, dst) && TargetPath(qs, target) && !(dst <= target)
    ensures !(dst <= target + [name])
  {
    assert |dst| <= |target| ==> (target + [name])[..|dst|] == target[..|dst|];
  }

  lemma AttachKeepsPublished(qs: Queries, t: Custodied, dst: Path, items: seq<Item>, target: Path, w: Work)
    requires Rooted(t) && TargetPath(qs, dst) && dst !in t && TargetPath(qs, target) && PublishedOk(qs, t, target, w)
    ensures PublishedOk(qs, With(t, dst, items), target, w)
  {
    hide With, TargetPath;
    var t' := With(t, dst, items);
    AbsentIsFar(t, dst, target);
    OutsideLookup(t, dst, items, target);
    forall name ensures SameAt(t, t', target + [name]) {
      TargetsApart(qs, dst, target, name);
      OutsideLookup(t, dst, items, target + [name]);
    }
    PublishedSame(qs, t, t', target, w);
  }

  /** A complete directory put where nothing was: the other half of a rename. */
  lemma AttachKeeps(s: System, w: Work)
    requires Kept(s) && Nameable(s.queries, w) && TargetPath(s.queries, Target(JobOf(w)))
    requires IsDirectory(s.tree, JobOf(w).parent) && Target(JobOf(w)) !in s.tree
    ensures Kept(s.(tree := With(s.tree, Target(JobOf(w)), JobOf(w).items), published := s.published[Target(JobOf(w)) := w]))
  {
    hide With, ProcOk, Complete, TargetPath, Rooted;
    var dst, items := Target(JobOf(w)), JobOf(w).items;
    var t' := With(s.tree, dst, items);
    TargetOfWork(s.queries, w);
    WithIsRooted(s.tree, dst, items);
    WithIsComplete(s.tree, dst, items);
    forall id | id in s.procs ensures ProcOk(s.queries, t', s.procs[id]) { AttachKeepsProc(s.queries, s.tree, dst, items, s.procs[id]); }
    forall target | target in s.published && target != dst && TargetPath(s.queries, target)
      ensures PublishedOk(s.queries, t', target, s.published[target]) {
      AttachKeepsPublished(s.queries, s.tree, dst, items, target, s.published[target]);
    }
    forall target | target in t' && TargetPath(s.queries, target) && target != dst ensures target in s.published {
      NewTargets(s.queries, s.tree, dst, items, target);
    }
  }

  lemma NewTargets(qs: Queries, t: Custodied, dst: Path, items: seq<Item>, target: Path)
    requires TargetPath(qs, dst) && TargetPath(qs, target) && target in With(t, dst, items) && target != dst
    ensures target in t
  {
    BuiltHas(dst, items, target);
  }

  lemma RenameKeeps(s: System, id: nat)
    requires Kept(s) && Enabled(s, RenameInPlace(id)) && CanPublish(s.tree, s.procs[id])
    requires TargetPath(s.queries, Target(JobOf(s.procs[id].work)))
    ensures Kept(Next(s, RenameInPlace(id)))
  {
    hide With, PublishedOk, Rooted, Moved, TargetPath, StagingPath, Staged, PlaceOf, Built, Below;
    var p := s.procs[id];
    var job, src := JobOf(p.work), StagingOf(p);
    var rest, dst := Outside(s.tree, src), Target(job);
    assert ProcOk(s.queries, s.tree, p);
    PathsOfWork(s.queries, p.work, p.staging);
    PlaceIsTarget(s.queries, s.tree, p.work);
    if dst in s.tree { RenameFindsAbsent(s, dst); }
    assert dst !in s.tree;
    StagedTree(s, id);
    DetachKeeps(s, id);
    ParentStays(s.tree, src);
    RenamePublishes(rest, src, dst, job.items);
    AttachKeeps(s.(tree := rest, procs := s.procs - {id}), p.work);
  }

  lemma ParentStays(t: Custodied, src: Path)
    requires Rooted(t) && src in t && src != []
    ensures var rest := Outside(t, src); IsDirectory(rest, Parent(src)) && src !in rest
  {}

  // ---------- a rename onto a name a staging directory can take ----------

  /** What changes is below the staging directory or below the place it is renamed to. */
  lemma TwoConfined(t: Custodied, src: Path, dst: Path, q: Path)
    requires !(src <= q) && !(dst <= q)
    ensures SameAt(t, Moved(t, src, dst), q)
  {
    MovedElsewhere(t, src, dst, q);
  }

  /** Another publisher's staging directory, if it is the one replaced, was empty and now holds a capture. */
  lemma StagingReplaced(qs: Queries, t: Custodied, src: Path, dst: Path, p: Proc)
    requires Rooted(t) && ProcOk(qs, t, p) && StagingOf(p) != src && StagingPath(qs, src) && StagingPath(qs, dst)
    requires CanRename(t, src, dst) && src + [CAPTURE_FILE] in t && |dst| == 3
    ensures ProcOk(qs, Moved(t, src, dst), p)
  {
    hide StagingPath, TargetPath, Moved;
    var own, t' := StagingOf(p), Moved(t, src, dst);
    PathsOfWork(qs, p.work, p.staging);
    StagingsAreApart(qs, src, own);
    StagingsAreApart(qs, own, src);
    if own == dst {
      MovedLookup(t, src, dst, []);
      MovedLookup(t, src, dst, [CAPTURE_FILE]);
      assert src + [] == src && dst + [] == dst;
      if p.Building? { EmptyStaging(qs, t, p); }
    } else {
      StagingsAreApart(qs, dst, own);
      StagingsAreApart(qs, own, dst);
      TwoConfined(t, src, dst, own);
      forall q | own <= q ensures SameAt(t, t', q) {
        if src <= q { Comparable(src, own, q); }
        if dst <= q { Comparable(dst, own, q); }
        TwoConfined(t, src, dst, q);
      }
      assert SameAt(t, t', own + [CAPTURE_FILE]);
      BelowSame(t, t', own);
    }
  }

  lemma BelowSame(t: Custodied, t': Custodied, own: Path)
    requires forall q :: own <= q ==> SameAt(t, t', q)
    ensures Below(t', own) == Below(t, own)
  {
    forall q | own <= q ensures (q in t <==> q in t') && (q in t ==> t[q] == t'[q]) { assert SameAt(t, t', q); }
  }

  lemma ItemStaged(p: Proc, k: nat)
    requires p.Building? && p.done <= |ItemsOf(p)| && (p.torn ==> p.done < |ItemsOf(p)|)
    requires k < p.done || (p.torn && k == p.done)
    ensures var path := StagingOf(p) + [ItemsOf(p)[k].name]; path in Staged(p) && StagingOf(p) < path
  {
    var path := StagingOf(p) + [ItemsOf(p)[k].name];
    if k < p.done { assert ItemsOf(p)[..p.done][k] == ItemsOf(p)[k]; }
    BuiltHas(StagingOf(p), ItemsOf(p)[..p.done], path);
  }

  lemma EmptyStaging(qs: Queries, t: Custodied, p: Proc)
    requires ProcOk(qs, t, p) && p.Building? && Empty(t, StagingOf(p))
    ensures p.done == 0 && !p.torn && ItemsOf(p) != []
  {
    hide Staged;
    TargetOfWork(qs, p.work);
    assert StagingOf(p) < StagingOf(p) + [CAPTURE_FILE];
    if p.torn {
      ItemStaged(p, p.done);
    } else if p.done > 0 {
      ItemStaged(p, p.done - 1);
    }
  }

  lemma FinishedHasCapture(t: Custodied, p: Proc)
    requires p.Building? && p.work.CaptureWork? && !p.torn && p.done == |ItemsOf(p)| && Below(t, StagingOf(p)) == Staged(p)
    ensures StagingOf(p) + [CAPTURE_FILE] in t
  {
    var items, path := ItemsOf(p), StagingOf(p) + [CAPTURE_FILE];
    assert items[..p.done] == items && items[|items| - 1].name == CAPTURE_FILE;
    BuiltHas(StagingOf(p), items, path);
    assert path in Below(t, StagingOf(p));
  }

  lemma ReplacedKeepsPublished(qs: Queries, t: Custodied, src: Path, dst: Path, target: Path, w: Work)
    requires StagingPath(qs, src) && StagingPath(qs, dst) && TargetPath(qs, target) && PublishedOk(qs, t, target, w)
    ensures PublishedOk(qs, Moved(t, src, dst), target, w)
  {
    hide StagingPath, TargetPath, Moved;
    StagingIsFar(qs, src, target, "");
    StagingIsFar(qs, dst, target, "");
    TwoConfined(t, src, dst, target);
    forall name ensures SameAt(t, Moved(t, src, dst), target + [name]) {
      StagingIsFar(qs, src, target, name);
      StagingIsFar(qs, dst, target, name);
      TwoConfined(t, src, dst, target + [name]);
    }
    PublishedSame(qs, t, Moved(t, src, dst), target, w);
  }

  lemma ReplaceKeeps(s: System, id: nat)
    requires Kept(s) && Enabled(s, RenameInPlace(id)) && CanPublish(s.tree, s.procs[id])
    requires !TargetPath(s.queries, Target(JobOf(s.procs[id].work)))
    ensures Kept(Next(s, RenameInPlace(id)))
  {
    hide PublishedOk, Rooted, Moved, CanRename, TargetPath, StagingPath, Staged, PlaceOf, Below;
    var p, s' := s.procs[id], Next(s, RenameInPlace(id));
    var src, dst := StagingOf(p), Target(JobOf(p.work));
    assert ProcOk(s.queries, s.tree, p);
    TargetOfWork(s.queries, p.work);
    PathsOfWork(s.queries, p.work, p.staging);
    PlaceIsTarget(s.queries, s.tree, p.work);
    FinishedHasCapture(s.tree, p);
    MovedIsRooted(s.tree, src, dst);
    forall i | i in s'.procs ensures ProcOk(s.queries, s'.tree, s'.procs[i]) {
      StagingReplaced(s.queries, s.tree, src, dst, s.procs[i]);
    }
    forall target | target in s'.published && TargetPath(s.queries, target)
      ensures PublishedOk(s.queries, s'.tree, target, s'.published[target]) {
      ReplacedKeepsPublished(s.queries, s.tree, src, dst, target, s.published[target]);
    }
    forall target | target in s'.tree && TargetPath(s.queries, target) ensures target in s'.published {
      StagingIsFar(s.queries, src, target, "");
      StagingIsFar(s.queries, dst, target, "");
      TwoConfined(s.tree, src, dst, target);
    }
  }

  /** Where another's capture stands, the item being opened is not the capture file. */
  lemma OpensBeforeCapture(t: Custodied, p: Proc)
    requires p.Building? && p.done < |ItemsOf(p)| && Taken(t, p) && ItemPath(p) !in t
    ensures p.done + 1 < |ItemsOf(p)|
  {
    assert ItemsOf(p)[|ItemsOf(p)| - 1].name == CAPTURE_FILE;
  }

  lemma OpenKeeps(s: System, id: nat)
    requires Kept(s) && Enabled(s, Open(id))
    ensures Kept(Next(s, Open(id)))
  {
    hide PublishedOk, Rooted, TargetPath, StagingPath, Staged, Taken;
    var p := s.procs[id];
    assert ProcOk(s.queries, s.tree, p);
    StagedGrows(p);
    if Taken(s.tree, p) { OpensBeforeCapture(s.tree, p); }
    ItemKeeps(s, id, p.(torn := true), File(SEALED_FILE, Partial));
  }

  lemma NextItemKeeps(s: System, id: nat)
    requires Kept(s) && (Enabled(s, Finish(id)) || Enabled(s, MakeItemDir(id)))
    ensures Kept(NextItem(s, id))
  {
    hide PublishedOk, Rooted, TargetPath, StagingPath, Staged, Kept;
    assert ProcOk(s.queries, s.tree, s.procs[id]) && Rooted(s.tree) by { KeptProc(s, id); }
    var p := s.procs[id];
    StagedGrows(p);
    ParentIsDirectory(s.tree, ItemPath(p));
    assert Parent(ItemPath(p)) == StagingOf(p);
    assert p.work.CaptureWork? ==> ItemsOf(p)[p.done].FileItem?;
    ItemKeeps(s, id, p.(done := p.done + 1, torn := false), NodeOf(ItemsOf(p)[p.done]));
  }

  lemma ParentIsDirectory(t: Custodied, q: Path)
    requires Rooted(t) && q != []
    ensures q in t ==> IsDirectory(t, Parent(q))
  {}

  lemma KeptProc(s: System, id: nat)
    requires Kept(s) && id in s.procs
    ensures ProcOk(s.queries, s.tree, s.procs[id]) && Rooted(s.tree)
  {}

  lemma KeptStep(s: System, a: Action)
    requires Kept(s) && Enabled(s, a) && !a.Check? && !a.Begin? && a.id in s.procs
    ensures Kept(Next(s, a))
  {
    hide Kept, CanRename, Moved, NextItem, Nameable, CanPublish, TargetPath;
    match a
    case Open(id) => OpenKeeps(s, id);
    case Finish(id) => NextItemKeeps(s, id);
    case MakeItemDir(id) => NextItemKeeps(s, id);
    case RenameInPlace(id) =>
      if !CanPublish(s.tree, s.procs[id]) {
        ProcChangeKeeps(s, a);
      } else if TargetPath(s.queries, Target(JobOf(s.procs[id].work))) {
        RenameKeeps(s, id);
      } else {
        ReplaceKeeps(s, id);
      }
    case Fail(_) => ProcChangeKeeps(s, a);
    case Clean(_, _) => CleanKeeps(s, a);
    case Crash(_) => ProcChangeKeeps(s, a);
  }
}

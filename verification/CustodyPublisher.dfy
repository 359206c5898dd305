/** The publishers as they run: one file-system operation after another over a tree they change in
    place, with the removal of the staging directory when any of them fails. Whatever happens, what a
    publisher did is a legal run of the system of publishers, beside any others at rest. */
module CustodyPublisher {
  import opened Outcomes
  import opened Ordering
  import opened FileTree
  import opened PathNames
  import opened Custody
  import opened CustodySystem
  import opened Staging

  datatype PublishError = Unreadable(read: ReadError) | ContentDiffers | BindingDiffers | QueryDiffers | RawDiffers
                        | NoStaging | Faulted(cleaned: bool)

  // ---------- removal order ----------

  function Reversed(s: seq<Path>): (r: seq<Path>)
    ensures |r| == |s| && forall i :: 0 <= i < |s| ==> r[i] == s[|s| - 1 - i]
  {
    seq(|s|, i requires 0 <= i < |s| => s[|s| - 1 - i])
  }

  /** `order` lists exactly the nodes strictly inside `top`, last in path order first. */
  ghost predicate RemovalOrder(t: Custodied, top: Path, order: seq<Path>) {
    && (forall p :: p in order <==> p in t && top < p)
    && (forall i, j :: 0 <= i < j < |order| ==> PathLeq(order[j], order[i]) && order[i] != order[j])
  }

  /** What is left when the first `n` listed nodes are gone. */
  function Remaining(t: Custodied, order: seq<Path>, n: nat): Custodied
    requires n <= |order|
  {
    map p | p in t && p !in order[..n] :: t[p]
  }

  lemma DescendantsPrecede(t: Custodied, top: Path, order: seq<Path>, j: nat, k: nat)
    requires RemovalOrder(t, top, order) && j < |order| && k < |order| && order[j] < order[k]
    ensures k < j
  {
    StringOrder();
    PrefixFirst(StringLess, order[j], order[k]);
  }

  /** In reverse path order every directory has lost its contents before its own turn comes. */
  lemma ChildrenGoFirst(t: Custodied, top: Path, order: seq<Path>, n: nat)
    requires RemovalOrder(t, top, order) && n < |order|
    ensures Empty(Remaining(t, order, n), order[n])
  {
    forall q | q in t && order[n] < q ensures q in order[..n] {
      assert order[n] in order && top < order[n];
      PrefixTrans(top, order[n], q);
      var j :| 0 <= j < |order| && order[j] == q;
      DescendantsPrecede(t, top, order, n, j);
      assert order[..n][j] == q;
    }
  }

  lemma NothingInsideLeft(t: Custodied, top: Path, order: seq<Path>)
    requires RemovalOrder(t, top, order)
    ensures Empty(Remaining(t, order, |order|), top)
    ensures top in t ==> Remaining(t, order, |order|) - {top} == Outside(t, top)
  {
    assert order[..|order|] == order;
    var left := Remaining(t, order, |order|);
    forall q ensures q in left - {top} <==> q in Outside(t, top) {
      assert top <= q <==> q == top || top < q;
    }
  }

  // ---------- where a run has got to ----------

  /** After `run` from `s` the tree is `t` and publisher `id`, free at first, stands at `p`. */
  ghost predicate Reached(s: System, run: seq<Action>, id: nat, t: Custodied, p: Proc) {
    Free(s, id) && Legal(s, run) && After(s, run) == s.(tree := t, procs := s.procs[id := p])
  }

  function Published(s: System, t: Custodied, w: Work, place: Path): System {
    s.(tree := t, published := s.published[place := w])
  }

  lemma ReachNothing(s: System, id: nat, w: Work)
    requires Enabled(s, Check(id, w))
    ensures Legal(s, [Check(id, w), Crash(id)]) && After(s, [Check(id, w), Crash(id)]) == s
  {
    var s1 := Next(s, Check(id, w));
    assert s.ready[id := w] - {id} == s.ready && s.procs - {id} == s.procs;
    Step(s1, Crash(id), []);
    Step(s, Check(id, w), [Crash(id)]);
    assert [Crash(id)] + [] == [Crash(id)] && [Check(id, w)] + [Crash(id)] == [Check(id, w), Crash(id)];
  }

  lemma ReachBegin(s: System, id: nat, w: Work, suffix: string)
    requires Enabled(s, Check(id, w)) && CanStage(s.tree, w, suffix)
    ensures var src := StagingOfWork(s.tree, w, suffix).value;
            Reached(s, [Check(id, w), Begin(id, suffix)], id, s.tree[src := Dir(PRIVATE_DIR)], Building(w, src, 0, false))
  {
    hide MayStage, CanStage;
    var s1 := Next(s, Check(id, w));
    assert CanStage(s1.tree, s1.ready[id], suffix);
    assert StagingOfWork(s.tree, w, suffix).Some? by { StagesSomewhere(s.tree, w, suffix); }
    assert s.ready[id := w] - {id} == s.ready;
    Step(s1, Begin(id, suffix), []);
    Step(s, Check(id, w), [Begin(id, suffix)]);
    assert [Begin(id, suffix)] + [] == [Begin(id, suffix)];
    assert [Check(id, w)] + [Begin(id, suffix)] == [Check(id, w), Begin(id, suffix)];
  }

  lemma StagesSomewhere(t: Custodied, w: Work, suffix: string)
    requires CanStage(t, w, suffix)
    ensures StagingOfWork(t, w, suffix).Some? && StagingOfWork(t, w, suffix).value !in t
    ensures StagingOfWork(t, w, suffix).value != [] && IsDirectory(t, Parent(StagingOfWork(t, w, suffix).value))
  {}

  lemma ReachOpen(s: System, run: seq<Action>, id: nat, t: Custodied, p: Proc)
    requires Reached(s, run, id, t, p) && p.Building? && !p.torn && p.done < |ItemsOf(p)| && ItemsOf(p)[p.done].FileItem?
    requires IsDirectory(t, StagingOf(p)) && ItemPath(p) !in t
    ensures Reached(s, run + [Open(id)], id, t[ItemPath(p) := File(SEALED_FILE, Partial)], p.(torn := true))
  {
    hide Legal, After;
    Extended(s, run, Open(id));
  }

  lemma ReachFinish(s: System, run: seq<Action>, id: nat, t: Custodied, p: Proc)
    requires Reached(s, run, id, t, p) && p.Building? && p.torn && p.done < |ItemsOf(p)| && ItemsOf(p)[p.done].FileItem?
    requires ItemPath(p) in t && t[ItemPath(p)].File?
    ensures Reached(s, run + [Finish(id)], id, t[ItemPath(p) := NodeOf(ItemsOf(p)[p.done])], p.(done := p.done + 1, torn := false))
  {
    hide Legal, After;
    Extended(s, run, Finish(id));
  }

  lemma ReachItemDir(s: System, run: seq<Action>, id: nat, t: Custodied, p: Proc)
    requires Reached(s, run, id, t, p) && p.Building? && !p.torn && p.done < |ItemsOf(p)| && ItemsOf(p)[p.done].DirItem?
    requires IsDirectory(t, StagingOf(p)) && ItemPath(p) !in t
    ensures Reached(s, run + [MakeItemDir(id)], id, t[ItemPath(p) := NodeOf(ItemsOf(p)[p.done])], p.(done := p.done + 1))
  {
    hide Legal, After;
    Extended(s, run, MakeItemDir(id));
  }

  lemma ReachPublished(s: System, run: seq<Action>, id: nat, t: Custodied, p: Proc)
    requires Reached(s, run, id, t, p) && p.Building? && !p.torn && p.done == |ItemsOf(p)| && CanPublish(t, p)
    ensures var place := PlaceOf(t, p.work).value;
            && Legal(s, run + [RenameInPlace(id)])
            && After(s, run + [RenameInPlace(id)]) == Published(s, Moved(t, StagingOf(p), place), p.work, place)
  {
    hide Legal, After, CanRename, Moved, PlaceOf;
    Extended(s, run, RenameInPlace(id));
    assert s.procs[id := p] - {id} == s.procs;
  }

  lemma ReachFail(s: System, run: seq<Action>, id: nat, t: Custodied, p: Proc)
    requires Reached(s, run, id, t, p) && p.Building?
    ensures Reached(s, run + [Fail(id)], id, t, Cleaning(p.work, p.staging)) && Free(s, id)
  {
    hide Legal, After;
    Extended(s, run, Fail(id));
  }

  lemma ReachClean(s: System, run: seq<Action>, id: nat, t: Custodied, p: Proc, path: Path)
    requires Reached(s, run, id, t, p) && p.Cleaning? && path in t && StagingOf(p) < path && Empty(t, path)
    ensures Reached(s, run + [Clean(id, path)], id, t - {path}, p)
  {
    hide Legal, After, Empty;
    Extended(s, run, Clean(id, path));
  }

  /** The staging directory itself goes last, and its publisher with it. */
  lemma ReachCleaned(s: System, run: seq<Action>, id: nat, t: Custodied, p: Proc)
    requires Reached(s, run, id, t, p) && p.Cleaning? && StagingOf(p) in t && Empty(t, StagingOf(p))
    ensures Legal(s, run + [Clean(id, StagingOf(p))]) && After(s, run + [Clean(id, StagingOf(p))]) == s.(tree := t - {StagingOf(p)})
  {
    hide Legal, After, Empty;
    Extended(s, run, Clean(id, StagingOf(p)));
    assert s.procs[id := p] - {id} == s.procs;
  }

  lemma ReachCrash(s: System, run: seq<Action>, id: nat, t: Custodied, p: Proc)
    requires Reached(s, run, id, t, p)
    ensures Legal(s, run + [Crash(id)]) && After(s, run + [Crash(id)]) == s.(tree := t)
  {
    hide Legal, After;
    Extended(s, run, Crash(id));
    assert s.procs[id := p] - {id} == s.procs && s.ready - {id} == s.ready;
  }

  lemma StagedIsDirectory(t: Custodied, src: Path, items: seq<Item>)
    ensures IsDirectory(With(t, src, items), src)
  {
    BuiltBase(src, items);
  }

  /** Where a finished staging directory can be renamed to, if it can. */
  function Arrives(t: Custodied, src: Path, w: Work): Option<Path> {
    var staged := With(t, src, JobOf(w).items);
    var place := PlaceOf(staged, w);
    if place.Some? && CanRename(staged, src, place.value) then place else None
  }

  lemma ArrivesAtOnce(t: Custodied, src: Path, w: Work, dst: Path)
    requires Rooted(t) && src != dst && src != [] && dst != [] && src !in t && dst !in t
    requires IsDirectory(t, Parent(src)) && IsDirectory(t, Parent(dst))
    requires PlaceOf(With(t, src, JobOf(w).items), w) == Some(dst)
    ensures Arrives(t, src, w) == Some(dst)
    ensures Moved(With(t, src, JobOf(w).items), src, dst) == With(t, dst, JobOf(w).items)
    ensures DistinctNames(JobOf(w).items) ==> Complete(With(t, dst, JobOf(w).items), dst, JobOf(w).items)
  {
    hide Moved, With, CanRename, Complete;
    RenamePublishes(t, src, dst, JobOf(w).items);
    if DistinctNames(JobOf(w).items) { WithIsComplete(t, dst, JobOf(w).items); }
  }

  lemma PlanStages(t: Custodied, plan: Plan, suffix: string)
    requires Rooted(t) && IsSuffix(suffix) && [PlanStaging(suffix)] !in t
    ensures CanStage(t, PlanWork(plan), suffix) && StagingOfWork(t, PlanWork(plan), suffix) == Some([PlanStaging(suffix)])
  {
    assert Parent([PlanStaging(suffix)]) == [];
  }

  lemma ServablePlaces(t: Custodied, planRoot: Path, queryId: string, suffix: string)
    requires IsSuffix(suffix)
    ensures Servable(queryId) ==>
              && CapturePlace(t, planRoot, queryId) == Some(planRoot + [CAPTURES, queryId])
              && StagingPlace(t, planRoot, queryId, suffix) == Some(planRoot + [CAPTURES, CaptureStaging(queryId, suffix)])
  {
    if Servable(queryId) {
      FlatCapture(t, planRoot, queryId);
      FlatStaging(t, planRoot, queryId, suffix);
    }
  }

  lemma ServableArrives(t: Custodied, planName: string, capture: Capture, raw: Option<Octets>, suffix: string)
    requires Rooted(t) && Servable(capture.queryId) && IsSuffix(suffix) && IsDirectory(t, [planName, CAPTURES])
    requires [planName, CAPTURES, capture.queryId] !in t && [planName, CAPTURES, CaptureStaging(capture.queryId, suffix)] !in t
    ensures var src, dst := [planName, CAPTURES, CaptureStaging(capture.queryId, suffix)], [planName, CAPTURES, capture.queryId];
            && CapturePlace(t, [planName], capture.queryId) == Some(dst)
            && StagingPlace(t, [planName], capture.queryId, suffix) == Some(src)
            && Arrives(t, src, CaptureWork(planName, capture, raw)) == Some(dst)
            && Moved(With(t, src, CaptureItems(capture, raw)), src, dst) == With(t, dst, CaptureItems(capture, raw))
  {
    hide Moved, With, CanRename, Complete;
    var src, dst := [planName, CAPTURES, CaptureStaging(capture.queryId, suffix)], [planName, CAPTURES, capture.queryId];
    var w := CaptureWork(planName, capture, raw);
    assert [planName] + [CAPTURES, capture.queryId] == dst;
    assert [planName] + [CAPTURES, CaptureStaging(capture.queryId, suffix)] == src;
    assert |src[2]| != |dst[2]|;
    assert Parent(src) == Parent(dst) == [planName, CAPTURES];
    ServablePlaces(t, [planName], capture.queryId, suffix);
    ServablePlaces(With(t, src, JobOf(w).items), [planName], capture.queryId, suffix);
    ArrivesAtOnce(t, src, w, dst);
  }

  /** A staging path that resolves stands in a directory. */
  lemma StagingStands(t: Custodied, planRoot: Path, queryId: string, suffix: string)
    requires IsDirectory(t, planRoot + [CAPTURES]) && Rooted(t) && IsSuffix(suffix)
    requires StagingPlace(t, planRoot, queryId, suffix).Some?
    ensures var src := StagingPlace(t, planRoot, queryId, suffix).value; src != [] && IsDirectory(t, Parent(src))
  {
    hide Split;
    var parts := Split(CaptureStaging(queryId, suffix));
    StagingEnds(queryId, suffix);
    WalkStands(t, planRoot + [CAPTURES], parts[..|parts| - 1]);
    var dir := Walk(t, planRoot + [CAPTURES], parts[..|parts| - 1]).value;
    assert Parent(dir + [parts[|parts| - 1]]) == dir;
  }

  lemma StagingEnds(queryId: string, suffix: string)
    requires IsSuffix(suffix)
    ensures var parts := Split(CaptureStaging(queryId, suffix)); |parts[|parts| - 1]| > 2
  {
    assert CaptureStaging(queryId, suffix) == ("." + queryId) + ("-" + suffix);
    SplitAppend("." + queryId, "-" + suffix);
  }

  lemma {:induction false} WalkStands(t: Custodied, from: Path, parts: seq<string>)
    requires Rooted(t) && IsDirectory(t, from)
    ensures Walk(t, from, parts).Some? ==> IsDirectory(t, Walk(t, from, parts).value)
    decreases |parts|
  {
    if parts != [] {
      if parts[0] == "" || parts[0] == "." {
        WalkStands(t, from, parts[1..]);
      } else if parts[0] == ".." {
        if from != [] { WalkStands(t, Parent(from), parts[1..]); }
      } else if IsDirectory(t, from + [parts[0]]) {
        WalkStands(t, from + [parts[0]], parts[1..]);
      }
    }
  }

  lemma WithNothing(t: Custodied, src: Path)
    ensures With(t, src, []) == t[src := Dir(PRIVATE_DIR)]
  {}

  lemma ReadableHasCaptures(t: Custodied, root: Path)
    requires root != [] && ReadPlan(t, root).Success?
    ensures IsDirectory(t, root) && IsDirectory(t, root + [CAPTURES])
  {}

  lemma SuffixStages(queryId: string, suffix: string)
    requires IsSuffix(suffix)
    ensures StagesAs(queryId, CaptureStaging(queryId, suffix))
  {
    assert CaptureStaging(queryId, suffix)[|queryId| + 2..] == suffix;
  }

  /** The custody tree, changed in place. With `reliable` false any operation may fail. */
  class CustodyRoot {
    var tree: Custodied

    constructor ()
      ensures tree == map[[] := Dir(PRIVATE_DIR)]
    {
      tree := map[[] := Dir(PRIVATE_DIR)];
    }

    method Fault(reliable: bool) returns (fault: bool)
      ensures reliable ==> !fault
    {
      fault := *;
      if reliable { fault := false; }
    }

    // ---------- system calls ----------

    method MakeDirectory(p: Path, reliable: bool) returns (ok: bool)
      requires p !in tree
      modifies this
      ensures tree == if ok then old(tree)[p := Dir(PRIVATE_DIR)] else old(tree)
      ensures reliable ==> ok
    {
      var fault := Fault(reliable);
      if fault { return false; }
      tree := tree[p := Dir(PRIVATE_DIR)];
      return true;
    }

    /** Exclusive creation, write and flush; a failure may leave the file partial, or whole. */
    method WriteFile(p: Path, payload: Payload, reliable: bool) returns (ok: bool)
      requires p !in tree
      modifies this
      ensures ok ==> tree == old(tree)[p := File(SEALED_FILE, Whole(payload))]
      ensures !ok ==> tree == old(tree) || tree == old(tree)[p := File(SEALED_FILE, Partial)]
                      || tree == old(tree)[p := File(SEALED_FILE, Whole(payload))]
      ensures reliable ==> ok
    {
      var fault := Fault(reliable);
      if fault { return false; }
      tree := tree[p := File(SEALED_FILE, Partial)];
      fault := Fault(reliable);
      if fault { return false; }
      tree := tree[p := File(SEALED_FILE, Whole(payload))];
      fault := Fault(reliable);
      return !fault;
    }

    method Rename(src: Path, dst: Path, reliable: bool) returns (ok: bool)
      modifies this
      ensures ok ==> CanRename(old(tree), src, dst) && tree == Moved(old(tree), src, dst)
      ensures !ok ==> tree == old(tree)
      ensures reliable && CanRename(old(tree), src, dst) ==> ok
    {
      var fault := Fault(reliable);
      if fault || !CanRename(tree, src, dst) { return false; }
      tree := Moved(tree, src, dst);
      return true;
    }

    /** Removes a file, or a directory that must be empty. */
    method Remove(p: Path, reliable: bool) returns (ok: bool)
      requires p in tree && Empty(tree, p)
      modifies this
      ensures tree == if ok then old(tree) - {p} else old(tree)
      ensures reliable ==> ok
    {
      var fault := Fault(reliable);
      if fault { return false; }
      tree := tree - {p};
      return true;
    }

    // ---------- removing a staging directory ----------

    /** Everything strictly inside `top`, in no particular order. */
    method Glob(top: Path) returns (found: seq<Path>)
      ensures Distinct(found) && forall p :: p in found <==> p in tree && top < p
    {
      found := [];
      var todo := set p | p in tree && top < p;
      while todo != {}
        invariant forall p :: p in todo ==> p in tree && top < p
        invariant forall p :: p in found <==> p in tree && top < p && p !in todo
        invariant Distinct(found)
        decreases todo
      {
        var p :| p in todo;
        found := found + [p];
        todo := todo - {p};
      }
    }

    /** Deletes exactly the subtree of `top`: each removal meets a file or an empty directory. */
    method RemoveStaging(top: Path, reliable: bool, ghost s: System, ghost id: nat, ghost before: seq<Action>, ghost p: Proc)
      returns (ok: bool, ghost run: seq<Action>)
      requires Rooted(tree) && top != [] && Free(s, id)
      requires Reached(s, before, id, tree, p) && p.Cleaning? && StagingOf(p) == top
      modifies this
      ensures ok ==> tree == Outside(old(tree), top)
      ensures Outside(tree, top) == Outside(old(tree), top) && Rooted(tree)
      ensures reliable ==> ok
      ensures Legal(s, run) && After(s, run) == s.(tree := tree)
    {
      ghost var t := tree;
      if top !in tree {
        NothingUnder(tree, top);
        run := before + [Crash(id)];
        ReachCrash(s, before, id, tree, p);
        return true, run;
      }
      var found := Glob(top);
      var order := Reversed(Sort(PathLeq, found));
      SortedListing(t, top, found, order);
      run := before;
      var i := 0;
      assert Remaining(t, order, 0) == t;
      while i < |order|
        invariant 0 <= i <= |order|
        invariant tree == Remaining(t, order, i)
        invariant Reached(s, run, id, tree, p)
      {
        hide Reached, Sort, Rooted;
        ChildrenGoFirst(t, top, order, i);
        StillThere(t, top, order, i);
        assert order[i] in order;
        ghost var had := tree;
        ok := Remove(order[i], reliable);
        if !ok {
          PartlyRemoved(t, top, order, i);
          ReachCrash(s, run, id, tree, p);
          return false, run + [Crash(id)];
        }
        ReachClean(s, run, id, had, p, order[i]);
        run := run + [Clean(id, order[i])];
        OneFewer(t, order, i);
        i := i + 1;
      }
      NothingInsideLeft(t, top, order);
      assert top in tree by { assert !(top < top); }
      ghost var had := tree;
      ok := Remove(top, reliable);
      if ok {
        RootedOutside(t, top);
        OutsideTwice(t, top);
        ReachCleaned(s, run, id, had, p);
        run := run + [Clean(id, top)];
      } else {
        PartlyRemoved(t, top, order, |order|);
        ReachCrash(s, run, id, tree, p);
        run := run + [Crash(id)];
      }
    }

    // ---------- publishing ----------

    /** Makes the staging directory `src`, puts the items in it and renames the whole to where it belongs,
        if it then can be; any failure removes the staging directory again. */
    method Stage(w: Work, src: Path, reliable: bool, ghost s: System, ghost id: nat, ghost suffix: string)
      returns (ok: bool, cleaned: bool, ghost run: seq<Action>)
      requires Rooted(tree) && s.tree == tree && Enabled(s, Check(id, w)) && DistinctNames(JobOf(w).items)
      requires CanStage(tree, w, suffix) && StagingOfWork(tree, w, suffix) == Some(src)
      modifies this
      ensures Rooted(tree)
      ensures ok ==> Arrives(old(tree), src, w).Some?
                     && tree == Moved(With(old(tree), src, JobOf(w).items), src, Arrives(old(tree), src, w).value)
      ensures !ok ==> Outside(tree, src) == old(tree) && (cleaned ==> tree == old(tree))
      ensures reliable ==> cleaned && (ok <==> Arrives(old(tree), src, w).Some?)
      ensures Legal(s, run)
      ensures After(s, run) == if ok then Published(s, tree, w, Arrives(old(tree), src, w).value) else s.(tree := tree)
    {
      hide Reached, Enabled, With, Rooted, Outside, CanRename, Moved, Built, CanStage, PlaceOf, StagingOfWork;
      ghost var t := tree;
      StagesSomewhere(t, w, suffix);
      NothingUnder(t, src);
      cleaned := true;
      ok := MakeDirectory(src, reliable);
      if !ok {
        ReachNothing(s, id, w);
        run := [Check(id, w), Crash(id)];
        return;
      }
      ReachBegin(s, id, w, suffix);
      WithNothing(t, src);
      ghost var p;
      ok, run, p := StageItems(w, src, reliable, t, s, id, [Check(id, w), Begin(id, suffix)]);
      if ok {
        WithIsRooted(t, src, JobOf(w).items);
        OutsideWith(t, src, JobOf(w).items);
        ghost var staged := tree;
        var place := PlaceOf(tree, w);
        ok := false;
        if place.Some? { ok := Rename(src, place.value, reliable); }
        if ok {
          MovedIsRooted(staged, src, place.value);
          ReachPublished(s, run, id, staged, p);
          run := run + [RenameInPlace(id)];
          return;
        }
      }
      ReachFail(s, run, id, tree, p);
      cleaned, run := RemoveStaging(src, reliable, s, id, run + [Fail(id)], Cleaning(w, src));
    }

    /** Writes all the items into the staging directory, or stops at the first that fails. */
    method StageItems(w: Work, src: Path, reliable: bool, ghost t: Custodied, ghost s: System, ghost id: nat,
                      ghost before: seq<Action>)
      returns (ok: bool, ghost run: seq<Action>, ghost p: Proc)
      requires Rooted(t) && src != [] && IsDirectory(t, Parent(src)) && DistinctNames(JobOf(w).items)
      requires src !in t && tree == With(t, src, [])
      requires Reached(s, before, id, tree, Building(w, src, 0, false))
      modifies this
      ensures ok ==> tree == With(t, src, JobOf(w).items)
                     && p == Building(w, src, |JobOf(w).items|, false)
      ensures !ok ==> Rooted(tree) && Outside(tree, src) == t
      ensures reliable ==> ok
      ensures p.Building? && p.work == w && p.staging == src && Reached(s, run, id, tree, p)
    {
      hide Reached, Enabled, With, Rooted, Outside;
      var items := JobOf(w).items;
      ok, run, p := true, before, Building(w, src, 0, false);
      assert items[..0] == [];
      var i := 0;
      while ok && i < |items|
        invariant 0 <= i <= |items|
        invariant ok ==> tree == With(t, src, items[..i]) && p == Building(w, src, i, false)
        invariant !ok ==> !reliable && Rooted(tree) && Outside(tree, src) == t
        invariant p.Building? && p.work == w && p.staging == src && Reached(s, run, id, tree, p)
        decreases |items| - i, ok
      {
        ok, run, p := StageItem(w, src, i, reliable, t, s, id, run);
        if ok { i := i + 1; }
      }
      assert items[..|items|] == items;
    }

    /** Writes item `i` into the staging directory. */
    method StageItem(w: Work, src: Path, i: nat, reliable: bool, ghost t: Custodied, ghost s: System, ghost id: nat,
                     ghost before: seq<Action>)
      returns (ok: bool, ghost run: seq<Action>, ghost p: Proc)
      requires Rooted(t) && src != [] && IsDirectory(t, Parent(src)) && DistinctNames(JobOf(w).items) && i < |JobOf(w).items|
      requires src !in t && tree == With(t, src, JobOf(w).items[..i])
      requires Reached(s, before, id, tree, Building(w, src, i, false))
      modifies this
      ensures ok ==> tree == With(t, src, JobOf(w).items[..i + 1]) && p == Building(w, src, i + 1, false)
      ensures !ok ==> Rooted(tree) && Outside(tree, src) == t
      ensures reliable ==> ok
      ensures p.Building? && p.work == w && p.staging == src && Reached(s, run, id, tree, p)
    {
      hide Reached, Rooted, Outside, With;
      var job := JobOf(w);
      WithNextItem(t, src, job.items, i);
      NextItemIsNew(t, src, job.items, i);
      WithIsRooted(t, src, job.items[..i]);
      OutsideWith(t, src, job.items[..i]);
      BuiltBase(src, job.items[..i]);
      StagedIsDirectory(t, src, job.items[..i]);
      p, run := Building(w, src, i, false), before;
      ghost var had, path := tree, src + [job.items[i].name];
      assert ItemPath(p) == path;
      var item := job.items[i];
      match item {
        case FileItem(name, payload) =>
          TornItem(t, src, job.items, i, Partial);
          TornItem(t, src, job.items, i, Whole(payload));
          ok := WriteFile(src + [name], payload, reliable);
          if tree != had {
            ReachOpen(s, run, id, had, p);
            run := run + [Open(id)];
            p := p.(torn := true);
            if tree == had[path := File(SEALED_FILE, Whole(payload))] {
              assert had[path := File(SEALED_FILE, Partial)][path := NodeOf(item)] == had[path := NodeOf(item)];
              ReachFinish(s, run, id, had[path := File(SEALED_FILE, Partial)], p);
              run := run + [Finish(id)];
              p := Building(w, src, i + 1, false);
            }
          }
        case DirItem(name) =>
          ok := MakeDirectory(src + [name], reliable);
          if ok {
            ReachItemDir(s, run, id, had, p);
            run := run + [MakeItemDir(id)];
            p := Building(w, src, i + 1, false);
          }
      }
    }

    method PublishPlan(plan: Plan, suffix: string, reliable: bool, ghost s: System, ghost id: nat)
      returns (r: Result<Path, PublishError>, ghost run: seq<Action>)
      requires Rooted(tree) && IsSuffix(suffix) && [PlanStaging(suffix)] !in tree
      requires s.tree == tree && Free(s, id) && Bound(s.queries, plan)
      modifies this
      ensures Rooted(tree)
      ensures r.Success? ==> r.value == Target(PlanJob(plan)) && ReadPlan(tree, r.value) == Success(plan)
      ensures Target(PlanJob(plan)) in old(tree) ==>
                && tree == old(tree)
                && r == match ReadPlan(old(tree), Target(PlanJob(plan)))
                        case Failure(e) => Failure(Unreadable(e))
                        case Success(p) => if p == plan then Success(Target(PlanJob(plan))) else Failure(ContentDiffers)
      ensures Target(PlanJob(plan)) !in old(tree) ==>
                && (r.Success? ==> tree == With(old(tree), Target(PlanJob(plan)), PlanJob(plan).items))
                && (r.Failure? ==> r.error.Faulted? && Outside(tree, [PlanStaging(suffix)]) == old(tree)
                                   && (r.error.cleaned ==> tree == old(tree)))
                && (reliable ==> r.Success?)
      ensures Legal(s, run)
      ensures After(s, run) == if r.Success? && Target(PlanJob(plan)) !in old(tree) then
                                Published(s, tree, PlanWork(plan), Target(PlanJob(plan))) else s.(tree := tree)
    {
      run := [];
      assert s.(tree := tree) == s;
      var job := PlanJob(plan);
      var target := Target(job);
      StagingNames(plan, "", suffix);
      ItemNamesAreDistinct([], plan, Capture("", "", None, None, ""), None);
      PlanReadsIffComplete(tree, target, plan);
      if target in tree {
        var found := ReadPlan(tree, target);
        if found.Failure? { return Failure(Unreadable(found.error)), run; }
        if found.value != plan { return Failure(ContentDiffers), run; }
        return Success(target), run;
      }
      assert target == [PlanName(plan)] && Parent(target) == [] && Parent([PlanStaging(suffix)]) == [];
      PlanStages(tree, plan, suffix);
      ArrivesAtOnce(tree, [PlanStaging(suffix)], PlanWork(plan), target);
      var ok, cleaned;
      ok, cleaned, run := Stage(PlanWork(plan), [PlanStaging(suffix)], reliable, s, id, suffix);
      PlanReadsIffComplete(tree, target, plan);
      if !ok { return Failure(Faulted(cleaned)), run; }
      return Success(target), run;
    }

    method PublishCapture(planName: string, capture: Capture, raw: Option<Octets>, sha: Octets -> string,
                          suffix: string, reliable: bool, ghost s: System, ghost id: nat)
      returns (r: Result<Path, PublishError>, ghost run: seq<Action>)
      requires Rooted(tree) && s.tree == tree && Free(s, id) && IsSuffix(suffix)
      requires StagingPlace(tree, [planName], capture.queryId, suffix).Some? ==>
                 StagingPlace(tree, [planName], capture.queryId, suffix).value !in tree
      modifies this
      ensures Rooted(tree)
      ensures r.Success? && Servable(capture.queryId) ==>
                && CapturePlace(tree, [planName], capture.queryId) == Some(r.value)
                && Complete(tree, r.value, CaptureItems(capture, raw))
                && (DescribesRaw(capture, raw, sha) ==>
                      ReadCapture(tree, [planName], capture.queryId, sha) == Success((capture, raw)))
      ensures !MayPublish(old(tree), [planName], capture, raw) ==>
                && tree == old(tree)
                && r == match ReadPlan(old(tree), [planName])
                        case Failure(e) => Failure(Unreadable(e))
                        case Success(plan) => if capture.planFingerprint != plan.fingerprint then Failure(BindingDiffers)
                                              else if capture.queryId !in plan.queries then Failure(QueryDiffers)
                                              else Failure(RawDiffers)
      ensures r.Success? ==>
                && ReadPlan(old(tree), [planName]).Success?
                && capture.planFingerprint == ReadPlan(old(tree), [planName]).value.fingerprint
                && capture.queryId in ReadPlan(old(tree), [planName]).value.queries
                && (raw.Some? <==> capture.rawSha256.Some?)
      ensures MayPublish(old(tree), [planName], capture, raw) ==>
                var place := CapturePlace(old(tree), [planName], capture.queryId);
                var src := StagingPlace(old(tree), [planName], capture.queryId, suffix);
                if place.Some? && place.value in old(tree) then
                  && tree == old(tree)
                  && r == match ReadCapture(old(tree), [planName], capture.queryId, sha)
                          case Failure(e) => Failure(Unreadable(e))
                          case Success(p) => if p == (capture, raw) then Success(place.value) else Failure(ContentDiffers)
                else if src.None? then tree == old(tree) && r == Failure(NoStaging)
                else
                  var end := Arrives(old(tree), src.value, CaptureWork(planName, capture, raw));
                  && (r.Success? ==> end == Some(r.value)
                                     && tree == Moved(With(old(tree), src.value, CaptureItems(capture, raw)), src.value, r.value))
                  && (r.Failure? ==> r.error.Faulted? && Outside(tree, src.value) == old(tree)
                                     && (r.error.cleaned ==> tree == old(tree)))
                  && (reliable ==> (r.Success? <==> end.Some?))
                  && (Servable(capture.queryId) ==>
                        end == place && (r.Success? ==> tree == With(old(tree), r.value, CaptureItems(capture, raw))))
      ensures Legal(s, run)
      ensures var place := CapturePlace(old(tree), [planName], capture.queryId);
              After(s, run) == if r.Success? && !(place.Some? && place.value in old(tree)) then
                                 Published(s, tree, CaptureWork(planName, capture, raw), r.value)
                               else s.(tree := tree)
    {
      hide Moved, With, Resolve, Complete, ReadPlan, ReadCapture, Split;
      run := [];
      assert s.(tree := tree) == s;
      var t := tree;
      var w := CaptureWork(planName, capture, raw);
      var plan := ReadPlan(tree, [planName]);
      if plan.Failure? { return Failure(Unreadable(plan.error)), run; }
      if capture.planFingerprint != plan.value.fingerprint { return Failure(BindingDiffers), run; }
      if capture.queryId !in plan.value.queries { return Failure(QueryDiffers), run; }
      if raw.None? != capture.rawSha256.None? { return Failure(RawDiffers), run; }
      ItemNamesAreDistinct([planName], plan.value, capture, raw);
      CaptureReadsIffComplete(tree, [planName], capture.queryId, capture, raw, sha);
      var place := CapturePlace(tree, [planName], capture.queryId);
      ServablePlaces(tree, [planName], capture.queryId, suffix);
      if place.Some? && place.value in tree {
        var found := ReadCapture(tree, [planName], capture.queryId, sha);
        if found.Failure? { return Failure(Unreadable(found.error)), run; }
        if found.value != (capture, raw) { return Failure(ContentDiffers), run; }
        return Success(place.value), run;
      }
      var src := StagingPlace(tree, [planName], capture.queryId, suffix);
      if src.None? { return Failure(NoStaging), run; }
      ReadableHasCaptures(tree, [planName]);
      assert [planName] + [CAPTURES] == [planName, CAPTURES];
      assert [planName] + [CAPTURES, capture.queryId] == [planName, CAPTURES, capture.queryId];
      assert [planName] + [CAPTURES, CaptureStaging(capture.queryId, suffix)]
          == [planName, CAPTURES, CaptureStaging(capture.queryId, suffix)];
      StagingStands(tree, [planName], capture.queryId, suffix);
      if Servable(capture.queryId) { ServableArrives(tree, planName, capture, raw, suffix); }
      var ok, cleaned;
      ok, cleaned, run := Stage(w, src.value, reliable, s, id, suffix);
      if !ok { return Failure(Faulted(cleaned)), run; }
      r := Success(Arrives(t, src.value, w).value);
      if Servable(capture.queryId) {
        ServablePlaces(tree, [planName], capture.queryId, suffix);
        WithIsComplete(t, r.value, CaptureItems(capture, raw));
        CaptureReadsIffComplete(tree, [planName], capture.queryId, capture, raw, sha);
      }
      return r, run;
    }
  }

  lemma ItemNamesAreDistinct(planRoot: Path, plan: Plan, capture: Capture, raw: Option<Octets>)
    ensures DistinctNames(PlanJob(plan).items) && DistinctNames(CaptureJob(planRoot, capture, raw).items)
  {
    assert PLAN_FILE[1] == 'n' && CAPTURES[1] == 'a';
    assert CAPTURE_FILE[0] == 'c' && RAW_FILE[0] == 'r';
  }

  lemma StagingNames(plan: Plan, queryId: string, suffix: string)
    ensures PlanStaging(suffix) != PlanName(plan) && CaptureStaging(queryId, suffix) != queryId
  {
    assert PlanStaging(suffix)[0] == '.' && PlanName(plan)[0] == 'p';
    assert |CaptureStaging(queryId, suffix)| > |queryId|;
  }

  lemma NothingUnder(t: Custodied, top: Path)
    requires Rooted(t) && top !in t
    ensures Outside(t, top) == t
  {
    forall q | q in t ensures !(top <= q) {
      if top <= q { AncestorsExist(t, top, q); }
    }
  }

  lemma OutsideTwice(t: Custodied, top: Path)
    ensures Outside(Outside(t, top), top) == Outside(t, top)
  {}

  lemma StillThere(t: Custodied, top: Path, order: seq<Path>, n: nat)
    requires RemovalOrder(t, top, order) && n < |order|
    ensures order[n] in Remaining(t, order, n)
  {
    assert order[n] in order;
    assert forall j :: 0 <= j < n ==> order[..n][j] != order[n];
  }

  lemma OneFewer(t: Custodied, order: seq<Path>, n: nat)
    requires n < |order|
    ensures Remaining(t, order, n) - {order[n]} == Remaining(t, order, n + 1)
  {
    assert order[..n + 1] == order[..n] + [order[n]];
  }

  lemma SortedListing(t: Custodied, top: Path, found: seq<Path>, order: seq<Path>)
    requires Distinct(found) && (forall p :: p in found <==> p in t && top < p)
    requires order == Reversed(Sort(PathLeq, found))
    ensures RemovalOrder(t, top, order)
  {
    hide PathLeq, Sort;
    var sorted := Sort(PathLeq, found);
    PathOrder(found);
    SortSorts(PathLeq, found);
    SameElements(sorted, found);
    DistinctBag(found);
    BagDistinct(sorted);
    forall i, j | 0 <= i < j < |order| ensures PathLeq(order[j], order[i]) && order[i] != order[j] {
      assert PathLeq(sorted[|sorted| - 1 - j], sorted[|sorted| - 1 - i]);
    }
    forall p ensures p in order <==> p in sorted {
      if p in sorted {
        var k :| 0 <= k < |sorted| && sorted[k] == p;
        assert order[|sorted| - 1 - k] == p;
      }
    }
  }

  lemma PartlyRemoved(t: Custodied, top: Path, order: seq<Path>, n: nat)
    requires Rooted(t) && top != [] && RemovalOrder(t, top, order) && n <= |order|
    ensures Outside(Remaining(t, order, n), top) == Outside(t, top)
    ensures Rooted(Remaining(t, order, n))
  {
    var left := Remaining(t, order, n);
    assert forall p :: p in order[..n] ==> p in order && top < p;
    forall p ensures p in Outside(left, top) <==> p in Outside(t, top) {}
    assert [] in left by { assert !(top < []); }
    forall p | p in left && p != [] ensures Parent(p) in left && left[Parent(p)].Dir? {
      if Parent(p) in order[..n] { RemovedBeforeParent(t, top, order, n, p); }
    }
  }

  lemma RemovedBeforeParent(t: Custodied, top: Path, order: seq<Path>, n: nat, p: Path)
    requires RemovalOrder(t, top, order) && n <= |order|
    requires p in t && p != [] && Parent(p) in order[..n]
    ensures p in order[..n]
  {
    var j :| 0 <= j < n && order[..n][j] == Parent(p);
    assert order[j] in order && order[j] == Parent(p) && Parent(p) < p;
    PrefixTrans(top, Parent(p), p);
    var k :| 0 <= k < |order| && order[k] == p;
    DescendantsPrecede(t, top, order, j, k);
    assert order[..n][k] in order[..n];
  }
}

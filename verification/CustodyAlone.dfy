/** One publisher alone: from any state any run leads to, an absent plan or capture can be published. */
module CustodyAlone {
  import opened Outcomes
  import opened Ordering
  import opened FileTree
  import opened Custody
  import opened CustodySystem
  import opened Staging
  import opened CustodyPublisher
  import opened CustodyScope
  import opened CustodyRuns

  ghost function StepsOf(id: nat, item: Item): seq<Action> {
    if item.FileItem? then [Open(id), Finish(id)] else [MakeItemDir(id)]
  }

  ghost function ItemSteps(id: nat, items: seq<Item>): seq<Action> {
    if items == [] then [] else StepsOf(id, items[0]) + ItemSteps(id, items[1..])
  }

  /** Everything one publisher does when nothing fails and nobody else acts. */
  ghost function Alone(id: nat, w: Work, suffix: string): seq<Action> {
    [Check(id, w), Begin(id, suffix)] + (ItemSteps(id, JobOf(w).items) + [RenameInPlace(id)])
  }

  /** Publisher `id` stages in-scope work, with nothing in its directory but what it staged. */
  ghost predicate Undisturbed(s: System, id: nat) {
    && id in s.procs && InScope(s.queries, s.procs[id].work)
    && s.procs[id].Building? && !s.procs[id].torn && s.procs[id].done <= |ItemsOf(s.procs[id])|
    && Below(s.tree, StagingOf(s.procs[id])) == Staged(s.procs[id])
  }

  /** `s'` is `s` with only publisher `id` further on, inside its own staging directory. */
  ghost predicate Advanced(s: System, s': System, id: nat, src: Path) {
    && s'.ready == s.ready && s'.published == s.published && s'.queries == s.queries
    && id in s'.procs && s'.procs == s.procs[id := s'.procs[id]]
    && Outside(s'.tree, src) == Outside(s.tree, src)
  }

  lemma ItemReady(s: System, id: nat)
    requires Inv(s) && Undisturbed(s, id) && HasItem(s, id)
    ensures IsDirectory(s.tree, StagingOf(s.procs[id])) && ItemPath(s.procs[id]) !in s.tree
  {
    hide Inv, InScope, Nameable, Staged, StagingFor;
    var p := s.procs[id];
    ScopedProc(s, id);
    ProcLocated(s.queries, s.tree, p);
    StagingIsDirectory(p);
    assert StagingOf(p) in Below(s.tree, StagingOf(p)) && Below(s.tree, StagingOf(p))[StagingOf(p)] == s.tree[StagingOf(p)];
    ItemSlot(s.queries, s.tree, p);
  }

  lemma OutsideUpdated(t: Custodied, src: Path, path: Path, n: Node<Payload>)
    requires src <= path
    ensures Outside(t[path := n], src) == Outside(t, src)
  {}

  ghost predicate BuildsNext(s: System, id: nat, steps: seq<Action>)
    requires id in s.procs && s.procs[id].Building?
  {
    var p := s.procs[id];
    && Legal(s, steps) && Inv(After(s, steps)) && Advanced(s, After(s, steps), id, StagingOf(p))
    && After(s, steps).procs[id] == p.(done := p.done + 1) && Undisturbed(After(s, steps), id)
  }

  /** One item of a publisher nobody disturbs, and it is still undisturbed. */
  lemma BuildsItem(s: System, id: nat)
    requires Inv(s) && Undisturbed(s, id) && HasItem(s, id)
    ensures BuildsNext(s, id, StepsOf(id, ItemsOf(s.procs[id])[s.procs[id].done]))
  {
    hide Inv, BuildsNext, Undisturbed, InScope, Staged, Below;
    if ItemsOf(s.procs[id])[s.procs[id].done].FileItem? { BuildsFile(s, id); } else { BuildsDirectory(s, id); }
  }

  /** The state once the current item is in place is undisturbed. */
  lemma ItemInPlace(s: System, id: nat)
    requires Inv(s) && Undisturbed(s, id) && HasItem(s, id)
    ensures IsDirectory(s.tree, StagingOf(s.procs[id])) && ItemPath(s.procs[id]) !in s.tree
    ensures Undisturbed(NextItem(s, id), id) && Advanced(s, NextItem(s, id), id, StagingOf(s.procs[id]))
    ensures NextItem(s, id).procs[id] == s.procs[id].(done := s.procs[id].done + 1)
  {
    hide Inv, InScope, Outside, Below, Staged;
    var p := s.procs[id];
    ItemReady(s, id);
    StagedGrows(p);
    BelowUpdated(s.tree, StagingOf(p), ItemPath(p), NodeOf(ItemsOf(p)[p.done]));
    OutsideUpdated(s.tree, StagingOf(p), ItemPath(p), NodeOf(ItemsOf(p)[p.done]));
  }

  lemma BuildsFile(s: System, id: nat)
    requires Inv(s) && Undisturbed(s, id) && HasItem(s, id) && ItemsOf(s.procs[id])[s.procs[id].done].FileItem?
    ensures BuildsNext(s, id, [Open(id), Finish(id)])
  {
    hide Inv, InScope, Outside, Below, Staged, Advanced;
    ItemInPlace(s, id);
    var s1 := Next(s, Open(id));
    StepKeeps(s, Open(id));
    StepKeeps(s1, Finish(id));
    assert Next(s1, Finish(id)) == NextItem(s, id) by { TornThenWhole(s, id); }
    Step(s1, Finish(id), []);
    Step(s, Open(id), [Finish(id)]);
    assert [Open(id)] + [Finish(id)] == [Open(id), Finish(id)] && [Finish(id)] + [] == [Finish(id)];
  }

  lemma TornThenWhole(s: System, id: nat)
    requires Enabled(s, Open(id))
    ensures Enabled(Next(s, Open(id)), Finish(id)) && Next(Next(s, Open(id)), Finish(id)) == NextItem(s, id)
  {
    var p := s.procs[id];
    var n := NodeOf(ItemsOf(p)[p.done]);
    assert Next(s, Open(id)).tree[ItemPath(p) := n] == s.tree[ItemPath(p) := n];
  }

  lemma BuildsDirectory(s: System, id: nat)
    requires Inv(s) && Undisturbed(s, id) && HasItem(s, id) && ItemsOf(s.procs[id])[s.procs[id].done].DirItem?
    ensures BuildsNext(s, id, [MakeItemDir(id)])
  {
    hide Inv, InScope, Outside, Below, Staged, Advanced;
    ItemInPlace(s, id);
    StepKeeps(s, MakeItemDir(id));
    Step(s, MakeItemDir(id), []);
    assert [MakeItemDir(id)] + [] == [MakeItemDir(id)];
  }

  lemma {:induction false} BuildsAlone(s: System, id: nat)
    requires Inv(s) && Undisturbed(s, id)
    ensures var p := s.procs[id];
            var steps := ItemSteps(id, ItemsOf(p)[p.done..]);
            && Legal(s, steps) && Inv(After(s, steps)) && Advanced(s, After(s, steps), id, StagingOf(p))
            && After(s, steps).procs[id] == p.(done := |ItemsOf(p)|) && Undisturbed(After(s, steps), id)
    decreases |ItemsOf(s.procs[id])| - s.procs[id].done
  {
    hide Inv, InScope, Enabled, Next, StepsOf, Outside, Below, Staged;
    var p := s.procs[id];
    var left := ItemsOf(p)[p.done..];
    if left != [] {
      BuildsItem(s, id);
      var first := StepsOf(id, left[0]);
      var s' := After(s, first);
      BuildsAlone(s', id);
      assert ItemsOf(p)[p.done + 1..] == left[1..];
      Continued(s, first, ItemSteps(id, left[1..]));
    }
  }

  /** The state once `w` has its staging directory. */
  ghost function Begun(s: System, id: nat, w: Work, src: Path): System {
    s.(tree := s.tree[src := Dir(PRIVATE_DIR)], procs := s.procs[id := Building(w, src, 0, false)])
  }

  /** Where `w` stages is known from its work alone, and it can be staged there. */
  lemma StagesThere(s: System, w: Work, suffix: string)
    requires Inv(s) && MayStage(s, w) && InScope(s.queries, w) && Downward(Check(0, w)) && CanStage(s.tree, w, suffix)
    ensures var src := StagingOfWork(s.tree, w, suffix).value;
            Nameable(s.queries, w) && StagingFor(w, src) && src !in s.tree && src != [] && IsDirectory(s.tree, Parent(src))
  {
    hide Inv, MayStage, Checked, InScope, StagingFor, StagingOfWork;
    AskedByPublisher(s, w);
    AskedIsStaged(s.queries, s.tree, w, suffix);
  }

  lemma BeginsAlone(s: System, id: nat, w: Work, suffix: string)
    requires Inv(s) && Free(s, id) && MayStage(s, w) && InScope(s.queries, w) && Downward(Check(id, w))
    requires CanStage(s.tree, w, suffix)
    ensures Legal(s, [Check(id, w), Begin(id, suffix)])
    ensures var b := Begun(s, id, w, StagingOfWork(s.tree, w, suffix).value);
            After(s, [Check(id, w), Begin(id, suffix)]) == b && Inv(b) && Undisturbed(b, id)
  {
    hide Inv, MayStage, CanStage, StagingFor, StagingOfWork, InScope, Below;
    StagesSomewhere(s.tree, w, suffix);
    var src := StagingOfWork(s.tree, w, suffix).value;
    StagesThere(s, w, suffix);
    var s1 := Next(s, Check(id, w));
    StepKeeps(s, Check(id, w));
    StepKeeps(s1, Begin(id, suffix));
    ReachBegin(s, id, w, suffix);
    assert s.ready[id := w] - {id} == s.ready;
    assert Next(s1, Begin(id, suffix)) == Begun(s, id, w, src);
    RootedFocus(s) by { FocusKept(s); }
    BegunBelow(s.tree, Building(w, src, 0, false));
  }

  lemma FocusKept(s: System)
    requires Inv(s)
    ensures Kept(Focus(s))
  {}

  lemma BegunBelow(t: Custodied, p: Proc)
    requires Rooted(t) && p.Building? && p.done == 0 && !p.torn && StagingOf(p) !in t
    ensures Below(t[StagingOf(p) := Dir(PRIVATE_DIR)], StagingOf(p)) == Staged(p)
  {
    NothingUnder(t, StagingOf(p));
    assert ItemsOf(p)[..0] == [];
    assert forall q :: q in t ==> q in Outside(t, StagingOf(p));
  }

  /** The finished staging directory is all that was added, so the rename succeeds. */
  lemma RestIsUnchanged(s: System, s3: System, id: nat, w: Work, src: Path)
    requires Inv(s) && Inv(s3) && s3.queries == s.queries && Nameable(s.queries, w) && StagingFor(w, src)
    requires Undisturbed(s3, id) && s3.procs[id] == Building(w, src, |JobOf(w).items|, false)
    requires src !in s.tree && Outside(s3.tree, src) == Outside(s.tree[src := Dir(PRIVATE_DIR)], src)
    requires IsDirectory(s.tree, Parent(src)) && Target(JobOf(w)) !in s.tree
    ensures CanPublish(s3.tree, s3.procs[id])
    ensures Moved(s3.tree, src, Target(JobOf(w))) == With(s.tree, Target(JobOf(w)), JobOf(w).items)
  {
    hide With, Moved, CanRename, InScope, Nameable, Kept, Staged, StagingFor, PlaceOf, Outside, Below;
    FocusKept(s);
    RootedFocus(s);
    NothingUnder(s.tree, src);
    OutsideUpdated(s.tree, src, src, Dir(PRIVATE_DIR));
    PathsOfWork(s.queries, w, src);
    UndisturbedTree(s3, id);
    RenamePublishes(s.tree, src, Target(JobOf(w)), JobOf(w).items);
    PlaceIsTarget(s.queries, s3.tree, w);
  }

  lemma UndisturbedTree(s: System, id: nat)
    requires Undisturbed(s, id) && s.procs[id].done == |ItemsOf(s.procs[id])|
    ensures var p := s.procs[id]; s.tree == With(Outside(s.tree, StagingOf(p)), StagingOf(p), ItemsOf(p))
  {
    var p := s.procs[id];
    assert ItemsOf(p)[..p.done] == ItemsOf(p);
    SplitAt(s.tree, StagingOf(p));
  }

  lemma TargetAbsent(s: System, w: Work)
    requires Nameable(s.queries, w) && MayStage(s, w)
    ensures Target(JobOf(w)) !in s.tree && PlaceOf(s.tree, w) == Some(Target(JobOf(w)))
  {
    hide Nameable;
    PlaceIsTarget(s.queries, s.tree, w);
  }

  lemma RenamesAlone(s: System, s3: System, id: nat, w: Work, src: Path)
    requires Inv(s) && Inv(s3) && MayStage(s, w) && Free(s, id) && Nameable(s.queries, w) && StagingFor(w, src)
    requires src !in s.tree && IsDirectory(s.tree, Parent(src))
    requires Advanced(Begun(s, id, w, src), s3, id, src)
    requires Undisturbed(s3, id) && s3.procs[id] == Building(w, src, |JobOf(w).items|, false)
    ensures Enabled(s3, RenameInPlace(id)) && Inv(Next(s3, RenameInPlace(id)))
    ensures Next(s3, RenameInPlace(id))
         == s.(tree := With(s.tree, Target(JobOf(w)), JobOf(w).items), published := s.published[Target(JobOf(w)) := w])
  {
    hide Inv, InScope, MayStage, With, Moved, CanRename, Outside, StagingFor, Nameable, Below, Staged, PlaceOf;
    TargetAbsent(s, w);
    StepKeeps(s3, RenameInPlace(id));
    RestIsUnchanged(s, s3, id, w, src);
    PlaceIsTarget(s3.queries, s3.tree, w);
    assert s3.procs - {id} == s.procs;
  }

  /** From any state any run leads to: whoever else is at work and whatever was left over, a publisher
      whose target is absent, working alone, puts exactly its items in place and changes nothing else. */
  lemma AbsentCanBePublished(s: System, id: nat, w: Work, suffix: string)
    requires Inv(s) && Free(s, id) && MayStage(s, w) && InScope(s.queries, w) && Downward(Check(id, w))
    requires CanStage(s.tree, w, suffix)
    ensures Legal(s, Alone(id, w, suffix)) && Inv(After(s, Alone(id, w, suffix)))
    ensures After(s, Alone(id, w, suffix))
         == s.(tree := With(s.tree, Target(JobOf(w)), JobOf(w).items), published := s.published[Target(JobOf(w)) := w])
  {
    hide Inv, InScope, MayStage, With, Enabled, Next, Outside, StagingFor, ItemSteps, CanStage, StagingOfWork, Nameable,
      Below, Staged;
    StagesSomewhere(s.tree, w, suffix);
    var src := StagingOfWork(s.tree, w, suffix).value;
    StagesThere(s, w, suffix);
    BeginsAlone(s, id, w, suffix);
    var b, build := Begun(s, id, w, src), ItemSteps(id, JobOf(w).items);
    assert b.procs[id] == Building(w, src, 0, false) && JobOf(w).items[0..] == JobOf(w).items;
    BuildsAlone(b, id);
    RenamesAlone(s, After(b, build), id, w, src);
    Extended(b, build, RenameInPlace(id));
    Continued(s, [Check(id, w), Begin(id, suffix)], build + [RenameInPlace(id)]);
  }
}

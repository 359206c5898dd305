/** Any number of publishers over one custody tree as a transition system: each system call of each
    publisher is a step of its own, and any publisher may fail or die between two of them. */
module CustodySystem {
  import opened Outcomes
  import opened Ordering
  import opened FileTree
  import opened Custody

  /** What a publisher is publishing. */
  datatype Work = PlanWork(plan: Plan) | CaptureWork(planName: string, capture: Capture, raw: Option<Octets>)

  function JobOf(w: Work): Job {
    match w
    case PlanWork(plan) => PlanJob(plan)
    case CaptureWork(planName, capture, raw) => CaptureJob([planName], capture, raw)
  }

  /** Where what `w` publishes belongs, if its path leads anywhere in the tree. */
  function PlaceOf(t: Custodied, w: Work): Option<Path> {
    match w
    case PlanWork(plan) => Some([PlanName(plan)])
    case CaptureWork(planName, capture, _) => CapturePlace(t, [planName], capture.queryId)
  }

  /** Where its staging directory is made. */
  function StagingOfWork(t: Custodied, w: Work, suffix: string): Option<Path> {
    match w
    case PlanWork(_) => Some([PlanStaging(suffix)])
    case CaptureWork(planName, capture, _) => StagingPlace(t, [planName], capture.queryId, suffix)
  }

  // ---------- names ----------

  predicate Dotted(name: string) { name != "" && name[0] == '.' }

  /** `name` is a staging name of the query. */
  predicate StagesAs(queryId: string, name: string) {
    && |name| == |queryId| + 10
    && CaptureStaging(queryId, name[|queryId| + 2..]) == name
    && IsSuffix(name[|queryId| + 2..])
  }

  function QueryIds(plan: Plan): set<string> { set id | id in plan.queries }

  /** For each plan directory name, the query identifiers of the plan with that fingerprint. */
  type Queries = map<string, set<string>>

  /** A fingerprint identifies its plan, and with it the plan's queries. */
  predicate Bound(qs: Queries, plan: Plan) {
    PlanName(plan) in qs && qs[PlanName(plan)] == QueryIds(plan)
  }

  // ---------- the system ----------

  /** A publisher with a staging directory: building it, with an item possibly half written, or
      removing it. */
  datatype Proc = Building(work: Work, staging: Path, done: nat, torn: bool) | Cleaning(work: Work, staging: Path)

  /** `ready` are the publishers past their checks, `procs` those with a staging directory;
      `published` records what each successful rename put in place; `queries` never changes. */
  datatype System = System(tree: Custodied, ready: map<nat, Work>, procs: map<nat, Proc>,
                           published: map<Path, Work>, queries: Queries)

  datatype Action =
    | Check(id: nat, work: Work)
    | Begin(id: nat, suffix: string)
    | Open(id: nat)
    | Finish(id: nat)
    | MakeItemDir(id: nat)
    | RenameInPlace(id: nat)
    | Fail(id: nat)
    | Clean(id: nat, path: Path)
    | Crash(id: nat)

  function StagingOf(p: Proc): Path { p.staging }

  function ItemsOf(p: Proc): seq<Item> { JobOf(p.work).items }

  /** The next item's path, while there is one. */
  function ItemPath(p: Proc): Path
    requires p.Building? && p.done < |ItemsOf(p)|
  {
    StagingOf(p) + [ItemsOf(p)[p.done].name]
  }

  /** The checks a publisher makes before staging: a capture needs a plan that reads back and asks
      its query, and the target must not be there. */
  predicate MayStage(s: System, w: Work) {
    && (match w
        case PlanWork(plan) => Bound(s.queries, plan)
        case CaptureWork(planName, capture, raw) => MayPublish(s.tree, [planName], capture, raw))
    && (PlaceOf(s.tree, w).Some? ==> PlaceOf(s.tree, w).value !in s.tree)
  }

  predicate Free(s: System, id: nat) { id !in s.ready && id !in s.procs }

  predicate IsDirectory(t: Custodied, p: Path) { p in t && t[p].Dir? }

  /** Publisher `id` has an item left to write. */
  predicate HasItem(s: System, id: nat) {
    id in s.procs && s.procs[id].Building? && s.procs[id].done < |ItemsOf(s.procs[id])|
  }

  /** The staging directory can be made: its path is free, in a directory. */
  predicate CanStage(t: Custodied, w: Work, suffix: string) {
    && IsSuffix(suffix) && StagingOfWork(t, w, suffix).Some?
    && var src := StagingOfWork(t, w, suffix).value; src != [] && src !in t && IsDirectory(t, Parent(src))
  }

  /** The staging directory can be renamed to where it belongs. */
  predicate CanPublish(t: Custodied, p: Proc) {
    PlaceOf(t, p.work).Some? && CanRename(t, StagingOf(p), PlaceOf(t, p.work).value)
  }

  predicate Enabled(s: System, a: Action) {
    match a
    case Check(id, work) => Free(s, id) && MayStage(s, work)
    case Begin(id, suffix) =>
      // the target may have appeared since it was checked
      && id in s.ready && id !in s.procs && CanStage(s.tree, s.ready[id], suffix)
    case Open(id) =>
      && HasItem(s, id) && !s.procs[id].torn && ItemsOf(s.procs[id])[s.procs[id].done].FileItem?
      && IsDirectory(s.tree, StagingOf(s.procs[id])) && ItemPath(s.procs[id]) !in s.tree
    case Finish(id) =>
      && HasItem(s, id) && s.procs[id].torn && ItemsOf(s.procs[id])[s.procs[id].done].FileItem?
      && ItemPath(s.procs[id]) in s.tree && s.tree[ItemPath(s.procs[id])].File?
    case MakeItemDir(id) =>
      && HasItem(s, id) && !s.procs[id].torn && ItemsOf(s.procs[id])[s.procs[id].done].DirItem?
      && IsDirectory(s.tree, StagingOf(s.procs[id])) && ItemPath(s.procs[id]) !in s.tree
    case RenameInPlace(id) =>
      id in s.procs && s.procs[id].Building? && !s.procs[id].torn && s.procs[id].done == |ItemsOf(s.procs[id])|
    case Fail(id) => id in s.procs && s.procs[id].Building?
    case Clean(id, path) =>
      id in s.procs && s.procs[id].Cleaning? && path in s.tree && StagingOf(s.procs[id]) <= path && Empty(s.tree, path)
    case Crash(id) => !Free(s, id)
  }

  function Next(s: System, a: Action): System
    requires Enabled(s, a)
  {
    match a
    case Check(id, work) => s.(ready := s.ready[id := work])
    case Begin(id, suffix) =>
      var src := StagingOfWork(s.tree, s.ready[id], suffix).value;
      s.(tree := s.tree[src := Dir(PRIVATE_DIR)],
         procs := s.procs[id := Building(s.ready[id], src, 0, false)], ready := s.ready - {id})
    case Open(id) =>
      s.(tree := s.tree[ItemPath(s.procs[id]) := File(SEALED_FILE, Partial)],
         procs := s.procs[id := s.procs[id].(torn := true)])
    case Finish(id) => NextItem(s, id)
    case MakeItemDir(id) => NextItem(s, id)
    case RenameInPlace(id) =>
      var p := s.procs[id];
      if CanPublish(s.tree, p) then
        var dst := PlaceOf(s.tree, p.work).value;
        s.(tree := Moved(s.tree, StagingOf(p), dst), procs := s.procs - {id}, published := s.published[dst := p.work])
      else s.(procs := s.procs[id := Cleaning(p.work, p.staging)])
    case Fail(id) => s.(procs := s.procs[id := Cleaning(s.procs[id].work, s.procs[id].staging)])
    case Clean(id, path) =>
      s.(tree := s.tree - {path}, procs := if path == StagingOf(s.procs[id]) then s.procs - {id} else s.procs)
    case Crash(id) => s.(ready := s.ready - {id}, procs := s.procs - {id})
  }

  /** The current item becomes whole. */
  function NextItem(s: System, id: nat): System
    requires HasItem(s, id)
  {
    var p := s.procs[id];
    s.(tree := s.tree[ItemPath(p) := NodeOf(ItemsOf(p)[p.done])],
       procs := s.procs[id := p.(done := p.done + 1, torn := false)])
  }

  /** A custody root with nothing in it, and nobody at work. */
  function Fresh(qs: Queries): System { System(map[[] := Dir(PRIVATE_DIR)], map[], map[], map[], qs) }

  predicate Legal(s: System, run: seq<Action>)
    decreases |run|
  {
    run != [] ==> Enabled(s, run[0]) && Legal(Next(s, run[0]), run[1..])
  }

  function After(s: System, run: seq<Action>): System
    requires Legal(s, run)
    decreases |run|
  {
    if run == [] then s else After(Next(s, run[0]), run[1..])
  }

  // ---------- composing runs ----------

  lemma Step(s: System, a: Action, rest: seq<Action>)
    requires Enabled(s, a) && Legal(Next(s, a), rest)
    ensures Legal(s, [a] + rest) && After(s, [a] + rest) == After(Next(s, a), rest)
  {
    assert ([a] + rest)[1..] == rest;
  }

  lemma {:induction false} Continued(s: System, first: seq<Action>, next: seq<Action>)
    requires Legal(s, first) && Legal(After(s, first), next)
    ensures Legal(s, first + next) && After(s, first + next) == After(After(s, first), next)
    decreases |first|
  {
    hide Enabled, Next;
    if first == [] {
      assert first + next == next;
    } else {
      Continued(Next(s, first[0]), first[1..], next);
      assert (first + next)[1..] == first[1..] + next;
    }
  }

  /** One more step at the end of a run. */
  lemma Extended(s: System, run: seq<Action>, a: Action)
    requires Legal(s, run) && Enabled(After(s, run), a)
    ensures Legal(s, run + [a]) && After(s, run + [a]) == Next(After(s, run), a)
  {
    hide Enabled, Next;
    Step(After(s, run), a, []);
    assert [a] + [] == [a];
    Continued(s, run, [a]);
  }
}

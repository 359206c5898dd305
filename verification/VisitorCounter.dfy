/** The persisted guest count: one file replaced atomically, written by a process whose every
    file operation may fail and which may be killed, or lose power, between any two of them. */
module VisitorCounter {
  import opened Outcomes

  /** What a path holds, as a reader finds it: nothing, an unreadable or torn file, or a count. */
  datatype Stored = Missing | Torn | Count(entries: nat)

  /** A file's bytes and whether they have been flushed to the medium. */
  datatype File = File(content: Stored, synced: bool)

  /** The state file as processes see it, what a power loss would certainly leave, and the
      temporary file of the write under way. */
  datatype Disk = Disk(visible: File, durable: Stored, temp: Option<File>)

  function Entries(s: Stored): nat { if s.Count? then s.entries else 0 }

  // ---------- file operations ----------

  function MakeTemp(d: Disk): Disk { d.(temp := Some(File(Torn, false))) }

  function WriteTemp(d: Disk, n: nat): Disk { d.(temp := Some(File(Count(n), false))) }

  function SyncTemp(d: Disk): Disk
    requires d.temp.Some?
  {
    d.(temp := Some(d.temp.value.(synced := true)))
  }

  function Replace(d: Disk): Disk
    requires d.temp.Some?
  {
    d.(visible := d.temp.value, temp := None)
  }

  /** What a power loss leaves of a visible file whose directory entry reached the medium. */
  function Settled(f: File): Stored { if f.synced then f.content else Torn }

  function SyncDirectory(d: Disk): Disk { d.(durable := Settled(d.visible)) }

  function DropTemp(d: Disk): Disk { d.(temp := None) }

  /** Power fails: the last replacement may or may not have reached the medium. */
  function LosePower(d: Disk, replacementKept: bool): Disk {
    var left := if replacementKept then Settled(d.visible) else d.durable;
    Disk(File(left, true), left, None)
  }

  /** A flushed replacement is all or nothing: power lost before its directory entry is flushed leaves the old
      count or the new one, after that only the new one. Without the flush the file may be torn. */
  lemma ReplacementIsAtomic(d: Disk, n: nat, kept: bool)
    ensures var replaced := Replace(SyncTemp(WriteTemp(MakeTemp(d), n)));
            && LosePower(replaced, kept).visible.content == (if kept then Count(n) else d.durable)
            && LosePower(SyncDirectory(replaced), kept).visible.content == Count(n)
    ensures LosePower(Replace(WriteTemp(MakeTemp(d), n)), true).visible.content == Torn
    ensures LosePower(d, kept).temp.None? && LosePower(d, kept).durable == LosePower(d, kept).visible.content
  {}

  // ---------- the process ----------

  /** Where the one thread is: not running, serving, or inside a write of `entries`. */
  datatype Pc = Down | Serving | Writing(entries: nat, stage: Stage)
  datatype Stage = Opened | Written | Flushed | Replaced

  /** `answered` counts the visits ever answered as counted, `starts` the processes that began
      serving; neither is stored anywhere in the program. */
  datatype System = System(pc: Pc, recorded: nat, disk: Disk, answered: nat, starts: nat, booting: bool)

  datatype Action = Boot | BeginVisit | Write | Flush | Rename | SyncDir | Fail | Kill | PowerLoss(replacementKept: bool)

  predicate Enabled(s: System, a: Action) {
    match a
    case Boot => s.pc.Down? && !s.disk.visible.content.Torn?
    case BeginVisit => s.pc.Serving?
    case Write => s.pc.Writing? && s.pc.stage.Opened? && s.disk.temp.Some?
    case Flush => s.pc.Writing? && s.pc.stage.Written? && s.disk.temp.Some?
    case Rename => s.pc.Writing? && s.pc.stage.Flushed? && s.disk.temp.Some?
    case SyncDir => s.pc.Writing? && s.pc.stage.Replaced?
    case Fail => s.pc.Writing?
    case Kill => true
    case PowerLoss(_) => true
  }

  function Begin(s: System, n: nat): System {
    s.(pc := Writing(n, Opened), disk := MakeTemp(s.disk))
  }

  function Next(s: System, a: Action): System
    requires Enabled(s, a)
  {
    match a
    case Boot =>
      // a missing file is initialized by writing zero; a present one is loaded
      if s.disk.visible.content.Missing? then Begin(s.(recorded := 0, booting := true), 0)
      else s.(pc := Serving, recorded := Entries(s.disk.visible.content), starts := s.starts + 1)
    case BeginVisit => Begin(s, s.recorded + 1)
    case Write => s.(pc := s.pc.(stage := Written), disk := WriteTemp(s.disk, s.pc.entries))
    case Flush => s.(pc := s.pc.(stage := Flushed), disk := SyncTemp(s.disk))
    case Rename => s.(pc := s.pc.(stage := Replaced), disk := Replace(s.disk))
    case SyncDir =>
      // the write is complete: the new count is kept in memory and, on a visit, answered
      var d := SyncDirectory(s.disk);
      if s.booting then s.(pc := Serving, disk := d, starts := s.starts + 1, booting := false)
      else s.(pc := Serving, disk := d, recorded := s.pc.entries, answered := s.answered + 1)
    case Fail =>
      // the exception path: temporary removed, memory rolled back; a failed start ends the process
      s.(pc := if s.booting then Down else Serving, disk := DropTemp(s.disk), booting := false)
    case Kill => s.(pc := Down, recorded := 0, disk := DropTemp(s.disk), booting := false)
    case PowerLoss(kept) => s.(pc := Down, recorded := 0, disk := LosePower(s.disk, kept), booting := false)
  }

  /** The state file does not exist yet and nothing was ever answered. */
  const FRESH: System := System(Down, 0, Disk(File(Missing, true), Missing, None), 0, 0, false)

  /** The actions can happen one after another from `s`. */
  predicate Legal(s: System, run: seq<Action>)
    decreases |run|
  {
    run != [] ==> Enabled(s, run[0]) && Legal(Next(s, run[0]), run[1..])
  }

  function After(s: System, run: seq<Action>): System
    requires Legal(s, run)
    decreases |run|
  {
    if run == [] then s else After(Next(s, run[0]), run[1..])
  }

  // ---------- the invariant ----------

  /** The file is never torn, neither as seen nor as a power loss would leave it. */
  predicate Readable(d: Disk) {
    d.visible.synced && !d.visible.content.Torn? && !d.durable.Torn?
  }

  predicate TempMatches(s: System) {
    s.pc.Writing? ==>
      match s.pc.stage
      case Opened => s.disk.temp.Some?
      case Written => s.disk.temp == Some(File(Count(s.pc.entries), false))
      case Flushed => s.disk.temp == Some(File(Count(s.pc.entries), true))
      case Replaced => s.disk.visible == File(Count(s.pc.entries), true)
  }

  predicate Inv(s: System) {
    var seen, kept := Entries(s.disk.visible.content), Entries(s.disk.durable);
    && Readable(s.disk) && TempMatches(s)
    && s.answered <= kept <= seen <= s.answered + s.starts
    && (s.booting ==> s.pc.Writing? && s.pc.entries == 0 && s.recorded == 0 && seen == 0)
    && (!s.pc.Down? && !s.booting ==>
          && s.starts > 0
          && s.recorded <= seen <= s.recorded + 1
          && s.answered <= s.recorded <= s.answered + s.starts - 1
          && (s.pc.Writing? ==> s.pc.entries == s.recorded + 1))
  }

  lemma StepKeepsInv(s: System, a: Action)
    requires Inv(s) && Enabled(s, a)
    ensures Inv(Next(s, a))
  {}

  lemma {:induction false} RunKeepsInv(s: System, run: seq<Action>)
    requires Inv(s) && Legal(s, run)
    ensures Inv(After(s, run))
    decreases |run|
  {
    if run != [] {
      StepKeepsInv(s, run[0]);
      RunKeepsInv(Next(s, run[0]), run[1..]);
    }
  }

  /** In every run from the first start on, whatever fails and wherever the process is killed or
      loses power: the file can be read, shows at least the visits answered as counted, and at
      most one more for each process that ever served; a power loss next changes none of this. */
  lemma CountIsNeverLost(run: seq<Action>, replacementKept: bool)
    requires Legal(FRESH, run)
    ensures var s := After(FRESH, run);
            var lost := Next(s, PowerLoss(replacementKept));
            && s.answered <= Entries(s.disk.visible.content) <= s.answered + s.starts
            && lost.answered <= Entries(lost.disk.visible.content) <= lost.answered + lost.starts
            && Enabled(lost, Boot)
            && (s.pc.Serving? ==> s.recorded <= Entries(s.disk.visible.content) <= s.recorded + 1)
  {
    RunKeepsInv(FRESH, run);
    StepKeepsInv(After(FRESH, run), PowerLoss(replacementKept));
  }

  const LATE_FAILURE: seq<Action> := [BeginVisit, Write, Flush, Rename, Fail]

  /** The excess is real, from every serving state: a visit whose directory flush fails after the
      rename is refused and rolled back, yet the file shows it. */
  lemma LateFailureLeavesOneMore(s: System)
    requires s.pc.Serving? && !s.booting
    ensures Legal(s, LATE_FAILURE)
    ensures var t := After(s, LATE_FAILURE);
            && t.pc.Serving? && t.recorded == s.recorded && t.answered == s.answered && t.starts == s.starts
            && t.disk.visible == File(Count(s.recorded + 1), true) && t.disk.durable == s.disk.durable
  {}

  lemma Prepend(s: System, a: Action, rest: seq<Action>)
    requires Enabled(s, a) && Legal(Next(s, a), rest)
    ensures Legal(s, [a] + rest) && After(s, [a] + rest) == After(Next(s, a), rest)
  {
    assert ([a] + rest)[1..] == rest;
  }

  lemma {:induction false} Continued(s: System, first: seq<Action>, next: seq<Action>)
    requires Legal(s, first) && Legal(After(s, first), next)
    ensures Legal(s, first + next) && After(s, first + next) == After(After(s, first), next)
    decreases |first|
  {
    hide Enabled, Next;
    if first == [] {
      assert first + next == next;
    } else {
      Continued(Next(s, first[0]), first[1..], next);
      assert (first + next)[1..] == first[1..] + next;
    }
  }

  /** One process that starts, fails late on one visit, and is killed. */
  function Lifetime(missing: bool): seq<Action> {
    (if missing then [Boot, Write, Flush, Rename, SyncDir] else [Boot]) + LATE_FAILURE + [Kill]
  }

  function Lifetimes(n: nat): seq<Action> {
    if n == 0 then [] else Lifetimes(n - 1) + Lifetime(n == 1)
  }

  lemma Starts(s: System, missing: bool)
    requires s.pc.Down? && !s.booting && s.disk.visible.content == (if missing then Missing else Count(Entries(s.disk.visible.content)))
    ensures var boot := if missing then [Boot, Write, Flush, Rename, SyncDir] else [Boot];
            && Legal(s, boot)
            && var t := After(s, boot);
            && t.pc.Serving? && !t.booting && t.recorded == Entries(s.disk.visible.content)
            && t.answered == s.answered && t.starts == s.starts + 1
  {
    var s1 := Next(s, Boot);
    if missing {
      var s2 := Next(s1, Write);
      var s3 := Next(s2, Flush);
      var s4 := Next(s3, Rename);
      Prepend(s4, SyncDir, []);
      Prepend(s3, Rename, [SyncDir]);
      Prepend(s2, Flush, [Rename] + [SyncDir]);
      Prepend(s1, Write, [Flush] + ([Rename] + [SyncDir]));
      Prepend(s, Boot, [Write] + ([Flush] + ([Rename] + [SyncDir])));
      assert [Boot] + ([Write] + ([Flush] + ([Rename] + [SyncDir]))) == [Boot, Write, Flush, Rename, SyncDir];
    } else {
      Prepend(s, Boot, []);
    }
  }

  /** Each such process leaves the file one further ahead of the answered visits. */
  lemma LifetimeAdds(s: System, missing: bool)
    requires s.pc.Down? && !s.booting && s.disk.visible.content == (if missing then Missing else Count(Entries(s.disk.visible.content)))
    ensures Legal(s, Lifetime(missing))
    ensures var t := After(s, Lifetime(missing));
            && t.pc.Down? && !t.booting && t.answered == s.answered && t.starts == s.starts + 1
            && t.disk.visible.content == Count(Entries(s.disk.visible.content) + 1)
  {
    hide LATE_FAILURE;
    var boot := if missing then [Boot, Write, Flush, Rename, SyncDir] else [Boot];
    Starts(s, missing);
    var t := After(s, boot);
    LateFailureLeavesOneMore(t);
    var u := After(t, LATE_FAILURE);
    Prepend(u, Kill, []);
    assert [Kill] + [] == [Kill];
    Continued(t, LATE_FAILURE, [Kill]);
    Continued(s, boot, LATE_FAILURE + [Kill]);
    assert boot + (LATE_FAILURE + [Kill]) == Lifetime(missing);
  }

  /** The bound on the excess is attained for every number of processes: none answered, one each. */
  lemma {:induction false} ExcessIsAttained(n: nat)
    ensures Legal(FRESH, Lifetimes(n))
    ensures var s := After(FRESH, Lifetimes(n));
            && s.starts == n && Entries(s.disk.visible.content) == s.answered + n
            && s.pc.Down? && !s.booting && s.answered == 0
            && s.disk.visible.content == (if n == 0 then Missing else Count(n))
  {
    hide Lifetime;
    if n > 0 {
      ExcessIsAttained(n - 1);
      LifetimeAdds(After(FRESH, Lifetimes(n - 1)), n == 1);
      Continued(FRESH, Lifetimes(n - 1), Lifetime(n == 1));
    }
  }
}

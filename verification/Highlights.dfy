/** Selection of the relationships shown first: one per decision lane, then the changed and the
    more urgent ones, six in all. */
module Highlights {
  import opened Outcomes
  import opened Ordering
  import opened Timeline

  type Lane = seq<PairId>

  const LANES: seq<Lane> := [
    [GrowthBroad, SmallLarge, MidLarge],
    [GrowthValue],
    [ConsumerRisk, TechnologyDefensive, IndustrialDefensive, FinancialDefensive],
    [EnergyBroad, HealthBroad],
    [SemisGrowth, SoftwareGrowth, BiotechHealth, RegionalFinancials],
    [CreditQuality, CreditDuration]
  ]

  const SHOWN: nat := 6

  predicate Active(r: Relationship) { !r.state.Neutral? && !r.state.Unavailable? }

  /** The state differs from a known previous one. */
  predicate Changed(r: Relationship) { r.previous.Some? && r.previous.value != r.state }

  function Priority(s: RelationshipState): nat
    requires !s.Unlisted?
  {
    match s
    case BreakCandidate => 0
    case RotationCandidate => 1
    case Divergence => 2
    case SynchronousWeakening => 3
    case SynchronousStrengthening => 4
    case Neutral => 5
    case Unavailable => 6
  }

  /** Changed first, then by priority, then by registry order. An unlisted state has no priority,
      and the comparison then falls through to the registry order. */
  predicate NotAfter(a: Relationship, b: Relationship) {
    if Changed(a) != Changed(b) then Changed(a)
    else if !a.state.Unlisted? && !b.state.Unlisted? && Priority(a.state) != Priority(b.state) then
      Priority(a.state) < Priority(b.state)
    else a.registryOrder <= b.registryOrder
  }

  // ---------- the order, by what it is for ----------

  /** The listed states, the most urgent first. */
  const URGENCY: seq<RelationshipState> := [
    BreakCandidate, RotationCandidate, Divergence, SynchronousWeakening, SynchronousStrengthening, Neutral, Unavailable
  ]

  ghost predicate MoreUrgent(a: RelationshipState, b: RelationshipState) {
    exists i, j :: 0 <= i < j < |URGENCY| && URGENCY[i] == a && URGENCY[j] == b
  }

  /** Neither neutral nor unavailable. */
  ghost predicate Telling(r: Relationship) { r.state != Neutral && r.state != Unavailable }

  /** The previous state is known, and another. */
  ghost predicate Turned(r: Relationship) { r.previous.Some? && r.previous.value != r.state }

  /** `a` turned and `b` did not, or `a` is more urgent, or neither and it is not later in the registry. */
  ghost predicate ShownBefore(a: Relationship, b: Relationship) {
    || (Turned(a) && !Turned(b))
    || ((Turned(a) <==> Turned(b))
        && (MoreUrgent(a.state, b.state) || (!MoreUrgent(b.state, a.state) && a.registryOrder <= b.registryOrder)))
  }

  lemma UrgencyAt(i: nat)
    requires i < |URGENCY|
    ensures !URGENCY[i].Unlisted? && Priority(URGENCY[i]) == i
  {}

  lemma PriorityAt(a: RelationshipState)
    requires !a.Unlisted?
    ensures Priority(a) < |URGENCY| && URGENCY[Priority(a)] == a
  {}

  lemma UrgencyIsPriority(a: RelationshipState, b: RelationshipState)
    ensures MoreUrgent(a, b) <==> !a.Unlisted? && !b.Unlisted? && Priority(a) < Priority(b)
  {
    hide Priority, URGENCY;
    if !a.Unlisted? && !b.Unlisted? {
      PriorityAt(a);
      PriorityAt(b);
    }
    if MoreUrgent(a, b) {
      var i, j :| 0 <= i < j < |URGENCY| && URGENCY[i] == a && URGENCY[j] == b;
      UrgencyAt(i);
      UrgencyAt(j);
    }
  }

  /** The comparator puts first what is to be shown first. */
  lemma ComparatorMeans(a: Relationship, b: Relationship)
    ensures NotAfter(a, b) <==> ShownBefore(a, b)
    ensures Active(a) <==> Telling(a)
    ensures Changed(a) <==> Turned(a)
  {
    hide MoreUrgent, Priority;
    UrgencyIsPriority(a.state, b.state);
    UrgencyIsPriority(b.state, a.state);
    if !a.state.Unlisted? && !b.state.Unlisted? { PriorityTells(a.state, b.state); }
  }

  lemma PriorityTells(a: RelationshipState, b: RelationshipState)
    requires !a.Unlisted? && !b.Unlisted?
    ensures Priority(a) == Priority(b) <==> a == b
  {}

  // ---------- the selection ----------

  function Find(items: seq<Relationship>, pairId: PairId): Option<Relationship> {
    if items == [] then None else if items[0].pairId == pairId then Some(items[0]) else Find(items[1..], pairId)
  }

  /** The lane's pairs that are there, in the lane's own order. */
  function Candidates(items: seq<Relationship>, lane: Lane): seq<Relationship> {
    if lane == [] then []
    else
      var rest := Candidates(items, lane[1..]);
      match Find(items, lane[0])
      case Some(r) => [r] + rest
      case None => rest
  }

  function FirstActive(rs: seq<Relationship>): Option<Relationship> {
    if rs == [] then None else if Active(rs[0]) then Some(rs[0]) else FirstActive(rs[1..])
  }

  /** The first active candidate, or the first one when none is. */
  function Representative(items: seq<Relationship>, lane: Lane): Option<Relationship> {
    var candidates := Candidates(items, lane);
    if candidates == [] then None
    else if FirstActive(candidates).Some? then FirstActive(candidates) else Some(candidates[0])
  }

  function Picked(items: seq<Relationship>, lanes: seq<Lane>): seq<Relationship> {
    if lanes == [] then []
    else
      var before := Picked(items, lanes[..|lanes| - 1]);
      match Representative(items, lanes[|lanes| - 1])
      case Some(r) => if r in before then before else before + [r]
      case None => before
  }

  /** The active ones no lane picked. */
  function Remaining(items: seq<Relationship>, picked: seq<Relationship>): seq<Relationship> {
    Filter(r => r !in picked && Active(r), items)
  }

  function Fillers(items: seq<Relationship>, picked: seq<Relationship>): seq<Relationship> {
    Sort(NotAfter, Remaining(items, picked))
  }

  function Selection(items: seq<Relationship>): seq<Relationship> {
    var picked := Picked(items, LANES);
    FirstOf(picked + Fillers(items, picked), SHOWN)
  }

  method SelectDecisionHighlights(items: seq<Relationship>) returns (shown: seq<Relationship>)
    ensures shown == Selection(items)
  {
    var selected: seq<Relationship> := [];
    for i := 0 to |LANES|
      invariant selected == Picked(items, LANES[..i])
    {
      assert LANES[..i + 1][..i] == LANES[..i];
      var representative := Representative(items, LANES[i]);
      if representative.Some? && representative.value !in selected {
        selected := selected + [representative.value];
      }
    }
    assert LANES[..|LANES|] == LANES;
    var remaining := Sort(NotAfter, Remaining(items, selected));
    shown := FirstOf(selected + remaining, SHOWN);
  }

  // ---------- what parsing guarantees ----------

  /** Pair identifiers and registry orders are all different, as the accepted registry has them. */
  ghost predicate Registered(items: seq<Relationship>) {
    forall a, b :: a in items && b in items && (a.pairId == b.pairId || a.registryOrder == b.registryOrder) ==> a == b
  }

  /** No unlisted state stands, by registry order, between two listed ones that the comparator
      would otherwise put the other way round by priority. */
  ghost predicate Consistent(rs: seq<Relationship>) {
    forall u, a, b :: u in rs && a in rs && b in rs ==> !Circular(u, a, b)
  }

  ghost predicate Circular(u: Relationship, a: Relationship, b: Relationship) {
    && u.state.Unlisted? && Turned(u) == Turned(a) == Turned(b)
    && MoreUrgent(a.state, b.state)
    && b.registryOrder < u.registryOrder < a.registryOrder
  }

  lemma RegistryIsRegistered(rs: seq<Relationship>, asOf: string)
    requires RegistryOk(rs, asOf)
    ensures Registered(rs) && Distinct(rs)
  {}

  // ---------- lanes ----------

  lemma {:induction false} FindMeans(items: seq<Relationship>, pairId: PairId)
    ensures Find(items, pairId).Some? <==> exists r :: r in items && r.pairId == pairId
    ensures Find(items, pairId).Some? ==> Find(items, pairId).value in items && Find(items, pairId).value.pairId == pairId
  {
    if items != [] {
      FindMeans(items[1..], pairId);
      assert items == [items[0]] + items[1..];
    }
  }

  lemma {:induction false} CandidatesMean(items: seq<Relationship>, lane: Lane)
    ensures forall r :: r in Candidates(items, lane) ==> r in items && r.pairId in lane
    ensures Registered(items) ==> forall r :: r in items && r.pairId in lane ==> r in Candidates(items, lane)
  {
    if lane != [] {
      CandidatesMean(items, lane[1..]);
      FindMeans(items, lane[0]);
      assert lane == [lane[0]] + lane[1..];
    }
  }

  lemma {:induction false} FirstActiveMeans(rs: seq<Relationship>)
    ensures FirstActive(rs).Some? <==> exists r :: r in rs && Active(r)
    ensures FirstActive(rs).Some? ==> FirstActive(rs).value in rs && Active(FirstActive(rs).value)
  {
    if rs != [] {
      FirstActiveMeans(rs[1..]);
      assert rs == [rs[0]] + rs[1..];
    }
  }

  /** A lane is represented exactly when one of its pairs is there, by one of them, and by an
      active one when there is an active one. */
  lemma RepresentativeMeans(items: seq<Relationship>, lane: Lane)
    requires Registered(items)
    ensures Representative(items, lane).Some? <==> exists r :: r in items && r.pairId in lane
    ensures Representative(items, lane).Some? ==>
              && Representative(items, lane).value in items && Representative(items, lane).value.pairId in lane
              && (Telling(Representative(items, lane).value) <==> exists r :: r in items && r.pairId in lane && Telling(r))
  {
    hide Candidates, FirstActive, Active;
    forall r: Relationship ensures Active(r) <==> Telling(r) { ComparatorMeans(r, r); }
    var candidates := Candidates(items, lane);
    CandidatesMean(items, lane);
    FirstActiveMeans(candidates);
    if candidates != [] { assert candidates[0] in candidates; }
  }

  /** `r` is the lane's first pair that is there, or the first active one when `active`. */
  ghost predicate LeadsFrom(items: seq<Relationship>, lane: Lane, r: Relationship, active: bool, k: int) {
    && 0 <= k < |lane| && r in items && r.pairId == lane[k] && (active ==> Telling(r))
    && forall x, j :: x in items && 0 <= j < k && x.pairId == lane[j] ==> active && !Telling(x)
  }

  lemma {:induction false} FirstLeads(items: seq<Relationship>, lane: Lane, active: bool) returns (k: int)
    requires Registered(items) && Candidates(items, lane) != []
    requires active ==> FirstActive(Candidates(items, lane)).Some?
    ensures LeadsFrom(items, lane, if active then FirstActive(Candidates(items, lane)).value else Candidates(items, lane)[0], active, k)
  {
    hide Active;
    forall r: Relationship ensures Active(r) <==> Telling(r) { ComparatorMeans(r, r); }
    FindMeans(items, lane[0]);
    var first := Find(items, lane[0]);
    if first.Some? && (active ==> Active(first.value)) {
      k := 0;
    } else {
      var l := FirstLeads(items, lane[1..], active);
      k := l + 1;
      assert forall j :: 0 < j < k ==> lane[j] == lane[1..][j - 1];
    }
  }

  /** Among a lane's pairs the order written in the lane decides, activity first. */
  lemma RepresentativeIsFirst(items: seq<Relationship>, lane: Lane) returns (k: int)
    requires Registered(items) && Representative(items, lane).Some?
    ensures var r := Representative(items, lane).value; LeadsFrom(items, lane, r, Telling(r), k)
  {
    hide Candidates, FirstActive, LeadsFrom, Active;
    forall r: Relationship ensures Active(r) <==> Telling(r) { ComparatorMeans(r, r); }
    FirstActiveMeans(Candidates(items, lane));
    k := FirstLeads(items, lane, FirstActive(Candidates(items, lane)).Some?);
  }

  ghost predicate LanesApart(lanes: seq<Lane>) {
    forall i, j :: 0 <= i < j < |lanes| ==> forall p :: p in lanes[i] ==> p !in lanes[j]
  }

  /** The representatives of the lanes that have any, in lane order. */
  function Representatives(items: seq<Relationship>, lanes: seq<Lane>): seq<Relationship> {
    if lanes == [] then []
    else
      Representatives(items, lanes[..|lanes| - 1])
      + (match Representative(items, lanes[|lanes| - 1]) case Some(r) => [r] case None => [])
  }

  /** With lanes apart nothing is picked twice, so the picks are exactly the representatives. */
  lemma {:induction false} PickedAreRepresentatives(items: seq<Relationship>, lanes: seq<Lane>)
    requires Registered(items) && LanesApart(lanes)
    ensures Picked(items, lanes) == Representatives(items, lanes)
    ensures Distinct(Picked(items, lanes)) && |Picked(items, lanes)| <= |lanes|
    ensures forall r :: r in Picked(items, lanes) ==> r in items && exists i :: 0 <= i < |lanes| && r.pairId in lanes[i]
  {
    hide Representative;
    if lanes != [] {
      var init, lane := lanes[..|lanes| - 1], lanes[|lanes| - 1];
      assert LanesApart(init);
      PickedAreRepresentatives(items, init);
      RepresentativeMeans(items, lane);
      var before := Picked(items, init);
      if Representative(items, lane).Some? {
        var r := Representative(items, lane).value;
        assert forall i :: 0 <= i < |init| ==> lanes[i] == init[i] && r.pairId !in init[i];
        assert r !in before;
      }
      forall r | r in Picked(items, lanes) ensures r in items && exists i :: 0 <= i < |lanes| && r.pairId in lanes[i] {
        if r in before {
          var i :| 0 <= i < |init| && r.pairId in init[i];
          assert r.pairId in lanes[i];
        } else {
          assert r.pairId in lanes[|lanes| - 1];
        }
      }
    }
  }

  lemma DecisionLanesAreApart()
    ensures LanesApart(LANES) && |LANES| == SHOWN
  {}

  // ---------- what is shown ----------

  /** `shown` is the representatives in lane order, then the most urgent active others: six at
      most, nothing twice, and nothing active left out while there is room. */
  ghost predicate Shown(items: seq<Relationship>, shown: seq<Relationship>) {
    var reps := Representatives(items, LANES);
    && reps <= shown && |shown| <= SHOWN && Distinct(shown)
    && (forall r :: r in shown ==> r in items)
    && (forall i, j :: |reps| <= i < j < |shown| ==> ShownBefore(shown[i], shown[j]))
    && (forall r :: r in shown[|reps|..] ==> Telling(r) && r !in reps)
    && (forall r :: r in items && Telling(r) && r !in shown ==>
          |shown| == SHOWN && forall f :: f in shown[|reps|..] ==> ShownBefore(f, r))
  }

  /** The comparator orders the relationships, as sorting needs it to, exactly when no three of
      them compare in a circle; with listed states only none do. */
  lemma ComparatorOrdersIff(rs: seq<Relationship>)
    requires Registered(rs)
    ensures Orders(NotAfter, rs) <==> Consistent(rs)
    ensures NoTies(NotAfter, rs)
    ensures (forall r :: r in rs ==> !r.state.Unlisted?) ==> Consistent(rs)
  {
    hide MoreUrgent;
    forall a: RelationshipState, b: RelationshipState
      ensures MoreUrgent(a, b) <==> !a.Unlisted? && !b.Unlisted? && Priority(a) < Priority(b) {
      UrgencyIsPriority(a, b);
    }
  }

  lemma CircleMeans(u: Relationship, a: Relationship, b: Relationship)
    ensures Circular(u, a, b) ==> NotAfter(b, u) && NotAfter(u, a) && !NotAfter(b, a)
  {
    hide MoreUrgent;
    UrgencyIsPriority(a.state, b.state);
  }

  lemma FillerFacts(items: seq<Relationship>, picked: seq<Relationship>)
    requires Registered(items) && Distinct(items) && Consistent(Remaining(items, picked))
    ensures var fs := Fillers(items, picked);
            && SortedBy(NotAfter, fs) && Distinct(fs)
            && forall r :: r in fs <==> r in items && Active(r) && r !in picked
  {
    var rest := Remaining(items, picked);
    RemainingMembers(items, picked);
    FilterDistinct(r => r !in picked && Active(r), items);
    ComparatorOrdersIff(rest);
    SortSorts(NotAfter, rest);
    SortDistinct(NotAfter, rest);
    SameElements(Sort(NotAfter, rest), rest);
  }

  lemma RemainingMembers(items: seq<Relationship>, picked: seq<Relationship>)
    ensures forall r :: r in Remaining(items, picked) <==> r in items && Active(r) && r !in picked
    ensures Registered(items) ==> Registered(Remaining(items, picked))
  {
    FilterMembers(r => r !in picked && Active(r), items);
  }

  /** The method's selection shows exactly what it should. */
  lemma SelectionShows(items: seq<Relationship>)
    requires Registered(items) && Distinct(items) && Consistent(Remaining(items, Picked(items, LANES)))
    ensures Shown(items, Selection(items))
  {
    hide Fillers, Picked, Representatives, NotAfter, Remaining, Consistent;
    DecisionLanesAreApart();
    PickedAreRepresentatives(items, LANES);
    var reps := Picked(items, LANES);
    var fs := Fillers(items, reps);
    FillerFacts(items, reps);
    CutIsShown(items, reps, fs);
  }

  lemma CutSplits<T>(a: seq<T>, b: seq<T>, n: nat)
    requires |a| <= n
    ensures FirstOf(a + b, n) == a + FirstOf(b, n - |a|)
    ensures FirstOf(a + b, n)[|a|..] == FirstOf(b, n - |a|)
  {}

  lemma DistinctJoin<T>(a: seq<T>, b: seq<T>)
    requires Distinct(a) && Distinct(b) && forall x :: x in b ==> x !in a
    ensures Distinct(a + b)
  {
    forall i, j | 0 <= i < j < |a + b| ensures (a + b)[i] != (a + b)[j] {
      if i < |a| <= j { assert b[j - |a|] in b && a[i] in a; }
    }
  }

  lemma FrontKeeps<T>(leq: (T, T) -> bool, xs: seq<T>, n: nat)
    requires SortedBy(leq, xs) && Distinct(xs)
    ensures SortedBy(leq, FirstOf(xs, n)) && Distinct(FirstOf(xs, n)) && forall x :: x in FirstOf(xs, n) ==> x in xs
  {}

  lemma CutIsShown(items: seq<Relationship>, reps: seq<Relationship>, fs: seq<Relationship>)
    requires reps == Representatives(items, LANES) && |reps| <= SHOWN && Distinct(reps) && (forall r :: r in reps ==> r in items)
    requires SortedBy(NotAfter, fs) && Distinct(fs)
    requires forall r :: r in fs <==> r in items && Active(r) && r !in reps
    ensures Shown(items, FirstOf(reps + fs, SHOWN))
  {
    hide NotAfter, Representatives, Active, FirstOf, SortedBy, Distinct, ShownBefore, Telling;
    var room := SHOWN - |reps|;
    var shown, taken := FirstOf(reps + fs, SHOWN), FirstOf(fs, room);
    CutSplits(reps, fs, SHOWN);
    FrontKeeps(NotAfter, fs, room);
    DistinctJoin(reps, taken);
    assert |taken| <= room by { CutFits(fs, room); }
    forall a: Relationship, b: Relationship ensures NotAfter(a, b) <==> ShownBefore(a, b) { ComparatorMeans(a, b); }
    forall a: Relationship ensures Active(a) <==> Telling(a) { ComparatorMeans(a, a); }
    forall r | r in items && Telling(r) && r !in shown
      ensures |shown| == SHOWN && forall f :: f in taken ==> ShownBefore(f, r) {
      LeftOutIsLater(fs, room, r);
    }
    assert SortedBy(NotAfter, taken);
    InShownOrder(reps, taken);
  }

  lemma InShownOrder(reps: seq<Relationship>, taken: seq<Relationship>)
    requires SortedBy(NotAfter, taken)
    ensures var shown := reps + taken; forall i, j :: |reps| <= i < j < |shown| ==> ShownBefore(shown[i], shown[j])
  {
    hide NotAfter, ShownBefore;
    var shown := reps + taken;
    forall i, j | |reps| <= i < j < |shown| ensures ShownBefore(shown[i], shown[j]) {
      assert NotAfter(taken[i - |reps|], taken[j - |reps|]);
      ComparatorMeans(shown[i], shown[j]);
    }
  }

  lemma CutFits<T>(xs: seq<T>, n: nat)
    ensures |FirstOf(xs, n)| <= n
  {}

  lemma LeftOutIsLater(fs: seq<Relationship>, room: nat, r: Relationship)
    requires SortedBy(NotAfter, fs) && r in fs && r !in FirstOf(fs, room)
    ensures |FirstOf(fs, room)| == room && forall f :: f in FirstOf(fs, room) ==> NotAfter(f, r)
  {
    hide NotAfter;
    forall f | f in FirstOf(fs, room) ensures NotAfter(f, r) { CutKeepsBest(NotAfter, fs, room, f, r); }
  }

  // ---------- a registry the comparator does not order ----------

  /** The sixteen pairs in one order. */
  const PAIRS: seq<PairId> := [
    GrowthBroad, SmallLarge, MidLarge, GrowthValue, ConsumerRisk, TechnologyDefensive, IndustrialDefensive, FinancialDefensive,
    EnergyBroad, HealthBroad, SemisGrowth, SoftwareGrowth, BiotechHealth, RegionalFinancials, CreditQuality, CreditDuration
  ]

  /** Two lanes led by divergences; behind them one weakening, one state not listed, one divergence. */
  function CircularState(i: nat, name: string): RelationshipState {
    if i == 0 || i == 4 || i == 5 then Divergence
    else if i == 1 then SynchronousWeakening
    else if i == 2 then Unlisted(name)
    else Neutral
  }

  function CircularRegistry(name: string): seq<Relationship> {
    seq(16, i requires 0 <= i < 16 => Relationship(PAIRS[i], i, CircularState(i, name), None, None))
  }

  lemma CircularRegistryIsAccepted(name: string, asOf: string)
    ensures RegistryOk(CircularRegistry(name), asOf)
  {}

  /** A lane whose first pair is there and active is led by it. */
  lemma FirstPairLeads(items: seq<Relationship>, lane: Lane, r: Relationship)
    requires Registered(items) && lane != [] && r in items && r.pairId == lane[0] && Active(r)
    ensures Representative(items, lane) == Some(r)
  {
    FindMeans(items, lane[0]);
    assert Find(items, lane[0]) == Some(r);
    assert Candidates(items, lane)[0] == r;
  }

  lemma {:induction false} PickedLead(items: seq<Relationship>, lanes: seq<Lane>)
    ensures forall r :: r in Picked(items, lanes) ==> exists i :: 0 <= i < |lanes| && Representative(items, lanes[i]) == Some(r)
  {
    hide Representative;
    if lanes != [] {
      var init := lanes[..|lanes| - 1];
      PickedLead(items, init);
      forall r | r in Picked(items, lanes) ensures exists i :: 0 <= i < |lanes| && Representative(items, lanes[i]) == Some(r) {
        if r in Picked(items, init) {
          var i :| 0 <= i < |init| && Representative(items, init[i]) == Some(r);
          assert lanes[i] == init[i];
        } else {
          assert Representative(items, lanes[|lanes| - 1]) == Some(r);
        }
      }
    }
  }

  /** A pair of a lane led by another is not picked. */
  lemma NotPicked(items: seq<Relationship>, leader: Relationship, r: Relationship, lane: nat)
    requires Registered(items) && lane < |LANES| && r.pairId in LANES[lane] && r.pairId != leader.pairId
    requires Representative(items, LANES[lane]) == Some(leader)
    ensures r !in Picked(items, LANES)
  {
    hide Representative, Picked;
    PickedLead(items, LANES);
    DecisionLanesAreApart();
    if r in Picked(items, LANES) {
      var i :| 0 <= i < |LANES| && Representative(items, LANES[i]) == Some(r);
      RepresentativeMeans(items, LANES[i]);
    }
  }

  /** The registry's own checks accept a state that is not listed, and then what is left after the lanes
      have picked need not be ordered by the comparator. */
  lemma AcceptedRegistryMayBeUnordered(name: string, asOf: string)
    ensures RegistryOk(CircularRegistry(name), asOf)
    ensures var rs := CircularRegistry(name); !Orders(NotAfter, Remaining(rs, Picked(rs, LANES)))
  {
    hide Picked, Remaining, Representative, NotAfter, Circular, MoreUrgent, RegistryOk;
    var rs := CircularRegistry(name);
    CircularRegistryIsAccepted(name, asOf);
    RegistryIsRegistered(rs, asOf);
    FirstPairLeads(rs, LANES[0], rs[0]);
    FirstPairLeads(rs, LANES[2], rs[4]);
    NotPicked(rs, rs[0], rs[1], 0);
    NotPicked(rs, rs[0], rs[2], 0);
    NotPicked(rs, rs[4], rs[5], 2);
    var left := Remaining(rs, Picked(rs, LANES));
    RemainingMembers(rs, Picked(rs, LANES));
    assert rs[1] in left && rs[2] in left && rs[5] in left;
    CircleStands(name);
    CircleMeans(rs[2], rs[5], rs[1]);
  }

  lemma CircleStands(name: string)
    ensures var rs := CircularRegistry(name); Circular(rs[2], rs[5], rs[1])
  {
    assert URGENCY[2] == Divergence && URGENCY[3] == SynchronousWeakening;
  }

  // ---------- order of the input does not matter ----------

  lemma FindForgetsOrder(a: seq<Relationship>, b: seq<Relationship>, pairId: PairId)
    requires multiset(a) == multiset(b) && Registered(a)
    ensures Find(a, pairId) == Find(b, pairId)
  {
    SameElements(a, b);
    FindMeans(a, pairId);
    FindMeans(b, pairId);
  }

  lemma {:induction false} CandidatesForgetOrder(a: seq<Relationship>, b: seq<Relationship>, lane: Lane)
    requires multiset(a) == multiset(b) && Registered(a)
    ensures Candidates(a, lane) == Candidates(b, lane)
  {
    if lane != [] {
      CandidatesForgetOrder(a, b, lane[1..]);
      FindForgetsOrder(a, b, lane[0]);
    }
  }

  lemma {:induction false} PickedForgetsOrder(a: seq<Relationship>, b: seq<Relationship>, lanes: seq<Lane>)
    requires multiset(a) == multiset(b) && Registered(a)
    ensures Picked(a, lanes) == Picked(b, lanes)
  {
    if lanes != [] {
      PickedForgetsOrder(a, b, lanes[..|lanes| - 1]);
      CandidatesForgetOrder(a, b, lanes[|lanes| - 1]);
    }
  }

  lemma RemainingForgetsOrder(a: seq<Relationship>, b: seq<Relationship>, picked: seq<Relationship>)
    requires multiset(a) == multiset(b)
    ensures multiset(Remaining(a, picked)) == multiset(Remaining(b, picked))
  {
    FilterForgetsOrder(r => r !in picked && Active(r), a, b);
  }

  /** Any two arrangements of the same registered relationships show the same sequence. */
  lemma SelectionForgetsOrder(a: seq<Relationship>, b: seq<Relationship>)
    requires multiset(a) == multiset(b) && Registered(a) && Consistent(Remaining(a, Picked(a, LANES)))
    ensures Selection(a) == Selection(b)
  {
    hide Picked, NotAfter, Remaining, Consistent;
    PickedForgetsOrder(a, b, LANES);
    var picked := Picked(a, LANES);
    RemainingMembers(a, picked);
    ComparatorOrdersIff(Remaining(a, picked));
    RemainingForgetsOrder(a, b, picked);
    SortForgetsOrder(NotAfter, Remaining(a, picked), Remaining(b, picked));
  }
}

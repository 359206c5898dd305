/** The relationship state timeline: one pass over its points, against what the accepted timeline
    means for all of them at once. */
module Timeline {
  import opened Outcomes
  import opened Ordering
  import opened Dates

  /** The seven listed states, or any other text. */
  datatype RelationshipState = BreakCandidate | RotationCandidate | Divergence | SynchronousStrengthening
                             | SynchronousWeakening | Neutral | Unavailable | Unlisted(name: string)

  datatype Point = Point(session: string, state: RelationshipState, changed: Option<bool>)

  datatype StateTimeline = StateTimeline(retainedFirst: string, retained: int, displayed: int, truncated: bool, points: seq<Point>)

  /** The counts and the retained first session, before any point is looked at. */
  predicate HeaderOk(t: StateTimeline) {
    && t.retained >= 1 && 1 <= t.displayed <= 10
    && IsIsoDate(t.retainedFirst)
    && |t.points| == t.displayed && t.retained >= |t.points|
    && t.truncated == (t.retained > |t.points|)
  }

  /** What the first point has to say about the sessions not shown. */
  predicate BoundaryOk(t: StateTimeline, p: Point) {
    && (if t.truncated then p.changed.Some? else p.changed.None?)
    && (if t.truncated then StringLess(t.retainedFirst, p.session) else t.retainedFirst == p.session)
  }

  ghost predicate Increasing(points: seq<Point>) {
    forall i, j :: 0 <= i < j < |points| ==> StringLess(points[i].session, points[j].session)
  }

  /** Each flag after the first says whether the state differs from the point before. */
  ghost predicate FlagsTrue(points: seq<Point>) {
    forall i :: 0 < i < |points| ==> points[i].changed == Some(points[i].state != points[i - 1].state)
  }

  /** At most ten points, the latest retained ones; the first retained session is the first shown, unless earlier
      ones are retained and not shown, and then the first point says whether its state changed. */
  ghost predicate ShowsLatest(t: StateTimeline) {
    && IsIsoDate(t.retainedFirst)
    && 1 <= |t.points| <= 10 && t.displayed == |t.points| && t.displayed <= t.retained
    && (t.truncated <==> t.displayed < t.retained)
    && (t.truncated ==> t.points[0].changed.Some? && StringLess(t.retainedFirst, t.points[0].session))
    && (!t.truncated ==> t.points[0].changed.None? && t.retainedFirst == t.points[0].session)
  }

  ghost predicate Accepts(t: StateTimeline, asOf: string, current: RelationshipState) {
    && ShowsLatest(t)
    && (forall i :: 0 <= i < |t.points| ==> IsIsoDate(t.points[i].session) && !t.points[i].state.Unlisted?)
    && Increasing(t.points) && FlagsTrue(t.points)
    && t.points[|t.points| - 1].session == asOf && t.points[|t.points| - 1].state == current
  }

  /** What the pass asks of the point at `i`, looking only at it and the one before. */
  predicate PointOk(t: StateTimeline, asOf: string, current: RelationshipState, i: nat)
    requires i < |t.points|
  {
    var row := t.points[i];
    && IsIsoDate(row.session)
    && StringLess(if i == 0 then "" else t.points[i - 1].session, row.session)
    && !row.state.Unlisted?
    && (i == |t.points| - 1 ==> row.session == asOf && row.state == current)
    && (if i == 0 then BoundaryOk(t, row) else row.changed == Some(row.state != t.points[i - 1].state))
  }

  method ValidateTimeline(t: StateTimeline, asOf: string, current: RelationshipState) returns (ok: bool)
    ensures ok <==> Accepts(t, asOf, current)
  {
    hide StringLess, IsIsoDate, BoundaryOk, Accepts;
    NeighboursDecide(t, asOf, current);
    if !HeaderOk(t) { return false; }
    var priorSession := "";
    for i := 0 to |t.points|
      invariant priorSession == if i == 0 then "" else t.points[i - 1].session
      invariant forall k :: 0 <= k < i ==> PointOk(t, asOf, current, k)
    {
      var row := t.points[i];
      assert PointOk(t, asOf, current, i) ==> IsIsoDate(row.session) && StringLess(priorSession, row.session);
      if !IsIsoDate(row.session) || !StringLess(priorSession, row.session) || row.state.Unlisted? { return false; }
      if i == |t.points| - 1 && row.session != asOf { return false; }
      if i == |t.points| - 1 && row.state != current { return false; }
      if i == 0 {
        if !BoundaryOk(t, row) { return false; }
      } else if row.changed != Some(row.state != t.points[i - 1].state) {
        return false;
      }
      priorSession := row.session;
    }
    ok := true;
  }

  /** Neighbour by neighbour checking decides the statement about all points. */
  lemma NeighboursDecide(t: StateTimeline, asOf: string, current: RelationshipState)
    ensures Accepts(t, asOf, current)
       <==> HeaderOk(t) && forall i :: 0 <= i < |t.points| ==> PointOk(t, asOf, current, i)
  {
    hide StringLess, IsIsoDate;
    if HeaderOk(t) {
      EmptyIsFirst(t.points[0].session);
      if forall i :: 0 <= i < |t.points| ==> PointOk(t, asOf, current, i) {
        forall i, j | 0 <= i < j < |t.points| ensures StringLess(t.points[i].session, t.points[j].session) {
          NeighboursIncrease(t, asOf, current, i, j);
        }
        assert PointOk(t, asOf, current, 0) && PointOk(t, asOf, current, |t.points| - 1);
        forall i | 0 <= i < |t.points| ensures IsIsoDate(t.points[i].session) && !t.points[i].state.Unlisted?
                 ensures i > 0 ==> t.points[i].changed == Some(t.points[i].state != t.points[i - 1].state) {
          assert PointOk(t, asOf, current, i);
        }
      }
    }
  }

  lemma {:induction false} NeighboursIncrease(t: StateTimeline, asOf: string, current: RelationshipState, i: nat, j: nat)
    requires i < j < |t.points| && forall k :: 0 <= k < |t.points| ==> PointOk(t, asOf, current, k)
    ensures StringLess(t.points[i].session, t.points[j].session)
  {
    hide StringLess;
    assert PointOk(t, asOf, current, j);
    if i < j - 1 {
      NeighboursIncrease(t, asOf, current, i, j - 1);
      StringOrder();
    }
  }

  lemma EmptyIsFirst(s: string)
    ensures IsIsoDate(s) ==> StringLess("", s)
  {}

  /** In an accepted timeline every earlier point is an earlier day than every later one. */
  lemma SessionsAreChronological(t: StateTimeline, asOf: string, current: RelationshipState, i: nat, j: nat)
    requires Accepts(t, asOf, current) && i < j < |t.points|
    ensures Earlier(t.points[i].session, t.points[j].session)
  {
    DateOrderIsNumeric(t.points[i].session, t.points[j].session);
  }

  // ---------- state runs ----------

  ghost function States(points: seq<Point>): seq<RelationshipState> {
    seq(|points|, i requires 0 <= i < |points| => points[i].state)
  }

  /** The states with every stretch of equal neighbours told once. */
  ghost function Collapsed(states: seq<RelationshipState>): seq<RelationshipState> {
    if |states| <= 1 then states
    else if states[|states| - 1] == states[|states| - 2] then Collapsed(states[..|states| - 1])
    else Collapsed(states[..|states| - 1]) + [states[|states| - 1]]
  }

  ghost function TrueFlags(points: seq<Point>): nat {
    if |points| <= 1 then 0
    else TrueFlags(points[..|points| - 1]) + (if points[|points| - 1].changed == Some(true) then 1 else 0)
  }

  /** The number of state runs is one more than the number of flags set after the first point. */
  lemma {:induction false} RunsCountFlags(points: seq<Point>)
    requires points != [] && FlagsTrue(points)
    ensures |Collapsed(States(points))| == 1 + TrueFlags(points)
  {
    if |points| > 1 {
      var init := points[..|points| - 1];
      assert FlagsTrue(init) by {
        forall i | 0 < i < |init| ensures init[i].changed == Some(init[i].state != init[i - 1].state) {
          assert init[i] == points[i] && init[i - 1] == points[i - 1];
        }
      }
      RunsCountFlags(init);
      assert States(points)[..|points| - 1] == States(init);
    }
  }

  // ---------- the registry of relationships ----------

  /** The pairs the decision lanes name, or any other identifier. */
  datatype PairId = GrowthBroad | SmallLarge | MidLarge | GrowthValue | ConsumerRisk | TechnologyDefensive
                  | IndustrialDefensive | FinancialDefensive | EnergyBroad | HealthBroad | SemisGrowth | SoftwareGrowth
                  | BiotechHealth | RegionalFinancials | CreditQuality | CreditDuration | OtherPair(name: string)

  datatype Relationship = Relationship(pairId: PairId, registryOrder: int, state: RelationshipState,
                                       previous: Option<RelationshipState>, timeline: Option<StateTimeline>)

  const REGISTRY_SIZE: nat := 16

  /** Sixteen relationships, each pair once, in registry order, each timeline accepted. */
  ghost predicate RegistryOk(rs: seq<Relationship>, asOf: string) {
    && |rs| == REGISTRY_SIZE
    && (forall i, j :: 0 <= i < j < |rs| ==> rs[i].pairId != rs[j].pairId)
    && (forall i :: 0 <= i < |rs| ==> rs[i].registryOrder == i)
    && (forall i :: 0 <= i < |rs| && rs[i].timeline.Some? ==> Accepts(rs[i].timeline.value, asOf, rs[i].state))
  }

  method ParseRelationships(rs: seq<Relationship>, asOf: string) returns (ok: bool)
    ensures ok <==> RegistryOk(rs, asOf)
  {
    hide Accepts;
    if |rs| != REGISTRY_SIZE { return false; }
    var pairIds: set<PairId> := {};
    for i := 0 to |rs|
      invariant pairIds == set k | 0 <= k < i :: rs[k].pairId
      invariant forall k, l :: 0 <= k < l < i ==> rs[k].pairId != rs[l].pairId
      invariant forall k :: 0 <= k < i ==> rs[k].registryOrder == k
      invariant forall k :: 0 <= k < i && rs[k].timeline.Some? ==> Accepts(rs[k].timeline.value, asOf, rs[k].state)
    {
      if rs[i].pairId in pairIds { return false; }
      pairIds := pairIds + {rs[i].pairId};
      if rs[i].registryOrder != i { return false; }
      if rs[i].timeline.Some? {
        var accepted := ValidateTimeline(rs[i].timeline.value, asOf, rs[i].state);
        if !accepted { return false; }
      }
    }
    ok := true;
  }
}

/** The market decision chain: three responses joined for one session and universe, the best
    sector proxies, and the leading candidates with their ranks. */
module DecisionChain {
  import opened Outcomes
  import opened Ordering
  import P = Publication

  datatype WindowRank = WindowRank(available: bool, relativeRank: Option<nat>)
  datatype Sector = Sector(registryOrder: nat, windows: seq<WindowRank>)
  datatype Card = Card(instrumentId: string, content: string)

  datatype Regime = Regime(asOf: string, universe: string)
  datatype Rotation = Rotation(asOf: string, publication: string, records: seq<Sector>)
  datatype Candidates = Candidates(asOf: string, publication: string, selectedUniverse: string, universe: string,
                                   risks: seq<P.RiskResult>, cards: seq<Card>)

  datatype Ranked = Ranked(card: Card, rank: nat)
  datatype Chain = Chain(asOf: string, universe: string, sectors: seq<Sector>, candidates: seq<Ranked>, displayCount: nat)

  datatype ChainError = SessionsDiffer | PublicationsDiffer | UniversesDiffer | BalancedUnavailable | SummaryIncomplete

  const SECTOR_COUNT: nat := 5
  const CANDIDATE_COUNT: nat := 8

  /** The rank of a sector without one. */
  const UNRANKED: nat := 9007199254740991

  function RankOf(s: Sector, w: nat): nat
    requires w < |s.windows|
  {
    if s.windows[w].relativeRank.Some? then s.windows[w].relativeRank.value else UNRANKED
  }

  ghost predicate HaveWindow(rs: seq<Sector>, w: nat) { forall s :: s in rs ==> w < |s.windows| }

  predicate Available(s: Sector, w: nat) { w < |s.windows| && s.windows[w].available }

  /** By rank in the chosen window, then by registry order. */
  predicate NotAfter(a: Sector, b: Sector, w: nat) {
    if w < |a.windows| && w < |b.windows| && RankOf(a, w) != RankOf(b, w) then RankOf(a, w) < RankOf(b, w)
    else a.registryOrder <= b.registryOrder
  }

  function Sectors(records: seq<Sector>, w: nat): seq<Sector> {
    FirstOf(Sort((a, b) => NotAfter(a, b, w), Filter(s => Available(s, w), records)), SECTOR_COUNT)
  }

  /** The card an identifier resolves to: the last one carrying it. */
  function Resolve(cards: seq<Card>, id: string): Option<Card> {
    if cards == [] then None
    else if cards[|cards| - 1].instrumentId == id then Some(cards[|cards| - 1])
    else Resolve(cards[..|cards| - 1], id)
  }

  /** The first `n` displayed identifiers joined with their cards and numbered from one. */
  function Join(displayed: seq<string>, cards: seq<Card>, n: nat): Option<seq<Ranked>>
    requires n <= |displayed|
  {
    if n == 0 then Some([])
    else
      match (Join(displayed, cards, n - 1), Resolve(cards, displayed[n - 1]))
      case (Some(rows), Some(card)) => Some(rows + [Ranked(card, n)])
      case _ => None
  }

  function Balanced(risks: seq<P.RiskResult>): Option<P.RiskResult> {
    if risks == [] then None else if risks[0].mode == P.Balanced then Some(risks[0]) else Balanced(risks[1..])
  }

  function Leading(displayed: seq<string>): nat {
    if |displayed| < CANDIDATE_COUNT then |displayed| else CANDIDATE_COUNT
  }

  function BuildMarketDecisionChain(regime: Regime, rotation: Rotation, response: Candidates, w: nat): Result<Chain, ChainError> {
    if regime.asOf != rotation.asOf || response.asOf != rotation.asOf then Failure(SessionsDiffer)
    else if response.publication != rotation.publication then Failure(PublicationsDiffer)
    else if regime.universe != response.selectedUniverse || response.selectedUniverse != response.universe then Failure(UniversesDiffer)
    else
      match Balanced(response.risks)
      case None => Failure(BalancedUnavailable)
      case Some(balanced) =>
        match Join(balanced.displayed, response.cards, Leading(balanced.displayed))
        case None => Failure(SummaryIncomplete)
        case Some(rows) =>
          Success(Chain(rotation.asOf, response.selectedUniverse, Sectors(rotation.records, w), rows, |balanced.displayed|))
  }

  // ---------- sectors ----------

  lemma SectorOrder(rs: seq<Sector>, w: nat)
    requires HaveWindow(rs, w)
    ensures Orders((a, b) => NotAfter(a, b, w), rs)
    ensures (forall a, b :: a in rs && b in rs && a.registryOrder == b.registryOrder ==> a == b) ==>
              NoTies((a, b) => NotAfter(a, b, w), rs)
  {}

  /** Five sectors at most, all available, best first, and none left out that is better. */
  lemma SectorsAreBest(records: seq<Sector>, w: nat)
    requires HaveWindow(records, w)
    ensures var shown := Sectors(records, w);
            && |shown| <= SECTOR_COUNT
            && (forall s :: s in shown ==> s in records && Available(s, w))
            && (forall i, j :: 0 <= i < j < |shown| ==> NotAfter(shown[i], shown[j], w))
            && (forall s :: s in records && Available(s, w) && s !in shown ==>
                  |shown| == SECTOR_COUNT && forall f :: f in shown ==> NotAfter(f, s, w))
  {
    hide NotAfter, Available;
    var leq := (a, b) => NotAfter(a, b, w);
    var keep := (s: Sector) => Available(s, w);
    var rest := Filter(keep, records);
    FilterMembers(keep, records);
    assert HaveWindow(rest, w);
    SectorOrder(rest, w);
    SortSorts(leq, rest);
    var sorted := Sort(leq, rest);
    SameElements(sorted, rest);
    var shown := FirstOf(sorted, SECTOR_COUNT);
    assert shown <= sorted;
    assert forall s :: s in shown ==> s in sorted;
    forall s, f | s in sorted && s !in shown && f in shown ensures NotAfter(f, s, w) && |shown| == SECTOR_COUNT {
      CutKeepsBest(leq, sorted, SECTOR_COUNT, f, s);
    }
    ShownIsSorted(w, sorted, shown);
  }

  lemma ShownIsSorted(w: nat, sorted: seq<Sector>, shown: seq<Sector>)
    requires SortedBy((a, b) => NotAfter(a, b, w), sorted) && shown <= sorted
    ensures forall i, j :: 0 <= i < j < |shown| ==> NotAfter(shown[i], shown[j], w)
  {
    var leq := (a, b) => NotAfter(a, b, w);
    forall i, j | 0 <= i < j < |shown| ensures NotAfter(shown[i], shown[j], w) {
      assert leq(sorted[i], sorted[j]);
    }
  }

  /** With distinct registry orders the shown sectors do not depend on the order of the records. */
  lemma SectorsForgetOrder(a: seq<Sector>, b: seq<Sector>, w: nat)
    requires multiset(a) == multiset(b) && HaveWindow(a, w)
    requires forall x, y :: x in a && y in a && x.registryOrder == y.registryOrder ==> x == y
    ensures Sectors(a, w) == Sectors(b, w)
  {
    hide NotAfter, Available;
    var leq := (x, y) => NotAfter(x, y, w);
    var keep := (s: Sector) => Available(s, w);
    FilterForgetsOrder(keep, a, b);
    FilterMembers(keep, a);
    SectorOrder(Filter(keep, a), w);
    SortForgetsOrder(leq, Filter(keep, a), Filter(keep, b));
  }

  /** `a` may be shown before `b`: its rank in window `w` is lower, a missing one counting as the largest exact
      integer, or the ranks are the same and it is not later in the registry. */
  ghost predicate ShownBefore(a: Sector, b: Sector, w: nat)
    requires w < |a.windows| && w < |b.windows|
  {
    var x := if a.windows[w].relativeRank.Some? then a.windows[w].relativeRank.value else 9007199254740991;
    var y := if b.windows[w].relativeRank.Some? then b.windows[w].relativeRank.value else 9007199254740991;
    x < y || (x == y && a.registryOrder <= b.registryOrder)
  }

  lemma OrderIsShown(a: Sector, b: Sector, w: nat)
    requires w < |a.windows| && w < |b.windows|
    ensures NotAfter(a, b, w) <==> ShownBefore(a, b, w)
  {}

  /** A built chain shows the five best sectors available in the chosen window, or all of them when there are
      fewer: no others, in order, none more often than recorded, and none left out for a later one. */
  lemma ChainShowsBestSectors(regime: Regime, rotation: Rotation, response: Candidates, w: nat)
    requires HaveWindow(rotation.records, w)
    requires BuildMarketDecisionChain(regime, rotation, response, w).Success?
    ensures var shown, records := BuildMarketDecisionChain(regime, rotation, response, w).value.sectors, rotation.records;
            && |shown| <= 5 && multiset(shown) <= multiset(records)
            && (|shown| < 5 ==> forall s :: s in records && s.windows[w].available ==> multiset(shown)[s] == multiset(records)[s])
            && (forall s :: s in shown ==> s in records && s.windows[w].available)
            && (forall i, j :: 0 <= i < j < |shown| ==> ShownBefore(shown[i], shown[j], w))
            && (forall s, f :: s in records && s.windows[w].available && s !in shown && f in shown ==> ShownBefore(f, s, w))
  {
    hide BuildMarketDecisionChain, Sectors, NotAfter, ShownBefore;
    ChainHasSectors(regime, rotation, response, w);
    SectorsAreShown(rotation.records, w);
  }

  lemma ChainHasSectors(regime: Regime, rotation: Rotation, response: Candidates, w: nat)
    requires BuildMarketDecisionChain(regime, rotation, response, w).Success?
    ensures BuildMarketDecisionChain(regime, rotation, response, w).value.sectors == Sectors(rotation.records, w)
  {}

  lemma SectorsAreShown(records: seq<Sector>, w: nat)
    requires HaveWindow(records, w)
    ensures var shown := Sectors(records, w);
            && |shown| <= 5 && multiset(shown) <= multiset(records)
            && (|shown| < 5 ==> forall s :: s in records && s.windows[w].available ==> multiset(shown)[s] == multiset(records)[s])
            && (forall s :: s in shown ==> s in records && s.windows[w].available)
            && (forall i, j :: 0 <= i < j < |shown| ==> ShownBefore(shown[i], shown[j], w))
            && (forall s, f :: s in records && s.windows[w].available && s !in shown && f in shown ==> ShownBefore(f, s, w))
  {
    hide Sectors, NotAfter, ShownBefore;
    var shown := Sectors(records, w);
    SectorsAreBest(records, w);
    forall s ensures multiset(shown)[s] <= multiset(records)[s]
             ensures |shown| < 5 && Available(s, w) ==> multiset(shown)[s] == multiset(records)[s] {
      SectorCounts(records, w, s);
    }
    forall a, b | a in records && b in records ensures NotAfter(a, b, w) <==> ShownBefore(a, b, w) { OrderIsShown(a, b, w); }
    forall i, j | 0 <= i < j < |shown| ensures ShownBefore(shown[i], shown[j], w) {
      assert shown[i] in shown && shown[j] in shown && NotAfter(shown[i], shown[j], w);
    }
  }

  lemma SectorCounts(records: seq<Sector>, w: nat, s: Sector)
    requires HaveWindow(records, w)
    ensures multiset(Sectors(records, w))[s] <= multiset(records)[s]
    ensures |Sectors(records, w)| < 5 && Available(s, w) ==> multiset(Sectors(records, w))[s] == multiset(records)[s]
  {
    hide NotAfter, Available;
    var keep, leq := (s: Sector) => Available(s, w), (a, b) => NotAfter(a, b, w);
    var rest := Filter(keep, records);
    FilterMembers(keep, records);
    assert HaveWindow(rest, w);
    SectorOrder(rest, w);
    SortSorts(leq, rest);
    FilterCounts(keep, records, s);
    var sorted := Sort(leq, rest);
    var shown := FirstOf(sorted, SECTOR_COUNT);
    assert sorted == shown + sorted[|shown|..];
  }

  // ---------- candidates ----------

  lemma {:induction false} ResolveFinds(cards: seq<Card>, id: string)
    ensures Resolve(cards, id).Some? <==> exists i :: 0 <= i < |cards| && cards[i].instrumentId == id
    ensures Resolve(cards, id).Some? ==> Resolve(cards, id).value in cards && Resolve(cards, id).value.instrumentId == id
  {
    if cards != [] {
      var init := cards[..|cards| - 1];
      ResolveFinds(init, id);
      assert cards == init + [cards[|cards| - 1]];
      if i :| 0 <= i < |init| && init[i].instrumentId == id { assert cards[i] == init[i]; }
    }
  }

  lemma {:induction false} JoinMeans(displayed: seq<string>, cards: seq<Card>, n: nat)
    requires n <= |displayed|
    ensures Join(displayed, cards, n).Some? <==> forall k :: 0 <= k < n ==> Resolve(cards, displayed[k]).Some?
    ensures Join(displayed, cards, n).Some? ==>
              && |Join(displayed, cards, n).value| == n
              && forall k :: 0 <= k < n ==>
                   && Join(displayed, cards, n).value[k].rank == k + 1
                   && Some(Join(displayed, cards, n).value[k].card) == Resolve(cards, displayed[k])
  {
    if n > 0 { JoinMeans(displayed, cards, n - 1); }
  }

  ghost predicate FirstBalanced(risks: seq<P.RiskResult>, i: int) {
    0 <= i < |risks| && risks[i].mode == P.Balanced && forall j :: 0 <= j < i ==> risks[j].mode != P.Balanced
  }

  ghost predicate LastCard(cards: seq<Card>, id: string, c: int) {
    0 <= c < |cards| && cards[c].instrumentId == id && forall d :: c < d < |cards| ==> cards[d].instrumentId != id
  }

  lemma {:induction false} BalancedIsFirst(risks: seq<P.RiskResult>)
    ensures Balanced(risks).None? ==> forall i :: 0 <= i < |risks| ==> risks[i].mode != P.Balanced
    ensures Balanced(risks).Some? ==> exists i :: FirstBalanced(risks, i) && risks[i] == Balanced(risks).value
  {
    if risks != [] {
      BalancedIsFirst(risks[1..]);
      if risks[0].mode == P.Balanced {
        assert FirstBalanced(risks, 0);
      } else if Balanced(risks).Some? {
        var i :| FirstBalanced(risks[1..], i) && risks[1..][i] == Balanced(risks).value;
        assert FirstBalanced(risks, i + 1) by {
          assert forall j :: 0 < j < i + 1 ==> risks[j] == risks[1..][j - 1];
        }
      }
    }
  }

  lemma OneFirstBalanced(risks: seq<P.RiskResult>, i: int, j: int)
    requires FirstBalanced(risks, i) && FirstBalanced(risks, j)
    ensures i == j
  {}

  lemma {:induction false} ResolveIsLast(cards: seq<Card>, id: string)
    ensures Resolve(cards, id).Some? ==> exists c :: LastCard(cards, id, c) && cards[c] == Resolve(cards, id).value
  {
    if cards != [] {
      var init := cards[..|cards| - 1];
      ResolveIsLast(init, id);
      if cards[|cards| - 1].instrumentId == id {
        assert LastCard(cards, id, |cards| - 1);
      } else if Resolve(cards, id).Some? {
        var c :| LastCard(init, id, c) && init[c] == Resolve(init, id).value;
        assert LastCard(cards, id, c) && cards[c] == init[c];
      }
    }
  }

  ghost predicate SessionsAgree(regime: Regime, rotation: Rotation, response: Candidates) {
    regime.asOf == rotation.asOf == response.asOf
  }

  ghost predicate UniversesAgree(regime: Regime, response: Candidates) {
    regime.universe == response.selectedUniverse == response.universe
  }

  /** One of the first eight identifiers shown has no card. */
  ghost predicate CardMissing(displayed: seq<string>, cards: seq<Card>) {
    exists k :: 0 <= k < |displayed| && k < 8 && forall c :: 0 <= c < |cards| ==> cards[c].instrumentId != displayed[k]
  }

  lemma JoinFails(displayed: seq<string>, cards: seq<Card>)
    ensures Join(displayed, cards, Leading(displayed)).None? <==> CardMissing(displayed, cards)
  {
    JoinMeans(displayed, cards, Leading(displayed));
    forall k | 0 <= k < |displayed|
      ensures Resolve(cards, displayed[k]).None? <==> forall c :: 0 <= c < |cards| ==> cards[c].instrumentId != displayed[k] {
      ResolveFinds(cards, displayed[k]);
    }
  }

  /** Each refusal has its own condition, and the first that holds names it. */
  lemma ChainRefusedFor(regime: Regime, rotation: Rotation, response: Candidates, w: nat)
    ensures var r := BuildMarketDecisionChain(regime, rotation, response, w);
            if !SessionsAgree(regime, rotation, response) then r == Failure(SessionsDiffer)
            else if response.publication != rotation.publication then r == Failure(PublicationsDiffer)
            else if !UniversesAgree(regime, response) then r == Failure(UniversesDiffer)
            else
              && (r == Failure(BalancedUnavailable) <==> forall i :: 0 <= i < |response.risks| ==> response.risks[i].mode != P.Balanced)
              && (r == Failure(SummaryIncomplete)
                  <==> exists i :: FirstBalanced(response.risks, i) && CardMissing(response.risks[i].displayed, response.cards))
              && (r.Failure? ==> r.error.BalancedUnavailable? || r.error.SummaryIncomplete?)
  {
    hide Sectors, Join, Leading, CardMissing;
    BalancedIsFirst(response.risks);
    if Balanced(response.risks).Some? {
      var displayed := Balanced(response.risks).value.displayed;
      JoinFails(displayed, response.cards);
      forall i, j | FirstBalanced(response.risks, i) && FirstBalanced(response.risks, j) ensures i == j {
        OneFirstBalanced(response.risks, i, j);
      }
    }
  }

  /** The chain's candidates are the first eight identifiers of `displayed`, ranked from one, each with the last
      card that carries it. */
  ghost predicate RanksLeaders(chain: Chain, displayed: seq<string>, cards: seq<Card>) {
    && |chain.candidates| == (if |displayed| < 8 then |displayed| else 8) && chain.displayCount == |displayed|
    && forall k :: 0 <= k < |chain.candidates| ==>
         && chain.candidates[k].rank == k + 1
         && exists c :: LastCard(cards, displayed[k], c) && chain.candidates[k].card == cards[c]
  }

  /** A built chain names the session and universe all responses agree on, and ranks the leading identifiers of
      the first balanced result. */
  lemma ChainRanksLeaders(regime: Regime, rotation: Rotation, response: Candidates, w: nat)
    requires BuildMarketDecisionChain(regime, rotation, response, w).Success?
    ensures var chain := BuildMarketDecisionChain(regime, rotation, response, w).value;
            && chain.asOf == regime.asOf == rotation.asOf == response.asOf && response.publication == rotation.publication
            && chain.universe == regime.universe == response.selectedUniverse == response.universe
            && exists i :: FirstBalanced(response.risks, i) && RanksLeaders(chain, response.risks[i].displayed, response.cards)
  {
    hide Sectors;
    BalancedIsFirst(response.risks);
    var displayed := Balanced(response.risks).value.displayed;
    var chain := BuildMarketDecisionChain(regime, rotation, response, w).value;
    JoinMeans(displayed, response.cards, Leading(displayed));
    forall k | 0 <= k < |chain.candidates|
      ensures exists c :: LastCard(response.cards, displayed[k], c) && chain.candidates[k].card == response.cards[c] {
      ResolveIsLast(response.cards, displayed[k]);
      var c :| LastCard(response.cards, displayed[k], c) && response.cards[c] == Resolve(response.cards, displayed[k]).value;
    }
    assert RanksLeaders(chain, displayed, response.cards);
  }

  /** Over an accepted publication the chain is refused for nothing but differing sessions,
      publications or universes: every leading identifier has its card. */
  lemma AcceptedPublicationsAlwaysJoin(u: P.Universe, regime: Regime, rotation: Rotation, response: Candidates, w: nat)
    requires P.SummaryAccepts(u) && response.risks == u.risks
    requires |response.cards| == |u.ids| && forall i :: 0 <= i < |u.ids| ==> response.cards[i].instrumentId == u.ids[i]
    ensures BuildMarketDecisionChain(regime, rotation, response, w).Success?
       <==> && regime.asOf == rotation.asOf == response.asOf && response.publication == rotation.publication
            && regime.universe == response.selectedUniverse == response.universe
  {
    hide P.StrictlyIncreasing, P.IsUuid, P.EntriesListed;
    assert P.RiskOk(u.risks[0], P.MODES[0], u.ids) && P.RiskOk(u.risks[1], P.MODES[1], u.ids);
    assert Balanced(u.risks) == Balanced(u.risks[1..]) == Some(u.risks[1]);
    var displayed := u.risks[1].displayed;
    forall k | 0 <= k < Leading(displayed) ensures Resolve(response.cards, displayed[k]).Some? {
      assert displayed[k] in u.ids;
      var i :| 0 <= i < |u.ids| && u.ids[i] == displayed[k];
      ResolveFinds(response.cards, displayed[k]);
      assert response.cards[i].instrumentId == displayed[k];
    }
    JoinMeans(displayed, response.cards, Leading(displayed));
  }
}

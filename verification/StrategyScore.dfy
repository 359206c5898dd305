/** Reconstruction of a published channel score from its evidence: the frozen weight tables,
    the exact decimal arithmetic over them, and the loop that accepts or refuses a score. */
module StrategyScore {
  import opened Outcomes
  import opened Rounding
  import D = Decimals

  datatype Channel = MomentumBreakout | StrongStockPullback | TrendContinuation
                   | TechnicalReversal | FundamentalValueReversal | DefensiveRotation

  datatype ComponentId = StockRelativeStrength | TrendQuality | VolumeParticipation
                       | VolatilityRisk | LiquiditySuitability | EntryGeometry

  /** `entry_technical_setup`, `component_<id>`, or any other evidence identifier. */
  datatype EvidenceId = EntryTechnicalSetup | ComponentEvidence(id: ComponentId) | OtherEvidence(name: string)

  datatype Component = Component(id: ComponentId, weight: nat)

  datatype Method = Method(components: seq<Component>, geometry: map<string, string>)

  datatype Evidence = Evidence(id: EvidenceId, available: bool, observed: Option<string>)

  datatype Assessment = Assessment(channel: Channel, score: Option<string>, evidence: seq<Evidence>)

  datatype Contribution = Contribution(id: ComponentId, input: string, weight: nat, contribution: string)

  datatype Error = UnsupportedParameters | EvidenceUnavailable | UnknownGeometry
                 | ComponentUnavailable | MalformedDecimal | ScoreDiffers

  const PARAMETER_FINGERPRINT := "13312df3e5b132223878582b8cd3af533a880e9f2f0d520f8520b46b97138ac9"

  predicate Technical(channel: Channel) {
    channel.MomentumBreakout? || channel.StrongStockPullback? || channel.TrendContinuation?
  }

  function Components(channel: Channel): seq<Component>
    requires Technical(channel)
  {
    match channel
    case MomentumBreakout =>
      [Component(StockRelativeStrength, 3500), Component(TrendQuality, 2500),
       Component(VolumeParticipation, 1500), Component(EntryGeometry, 2500)]
    case StrongStockPullback =>
      [Component(StockRelativeStrength, 3000), Component(TrendQuality, 2500), Component(VolatilityRisk, 1500),
       Component(LiquiditySuitability, 1000), Component(EntryGeometry, 2000)]
    case TrendContinuation =>
      [Component(StockRelativeStrength, 3500), Component(TrendQuality, 3500), Component(VolumeParticipation, 1500),
       Component(VolatilityRisk, 1000), Component(EntryGeometry, 500)]
  }

  function Geometry(channel: Channel): map<string, string>
    requires Technical(channel)
  {
    match channel
    case MomentumBreakout =>
      map["breakout_confirmed" := "100.0000", "breakout_watch" := "70.0000", "pullback" := "25.0000",
          "strong_but_extended" := "15.0000", "no_viable_setup" := "20.0000"]
    case StrongStockPullback =>
      map["breakout_confirmed" := "25.0000", "breakout_watch" := "35.0000", "pullback" := "100.0000",
          "strong_but_extended" := "55.0000", "no_viable_setup" := "20.0000"]
    case TrendContinuation =>
      map["breakout_confirmed" := "85.0000", "breakout_watch" := "70.0000", "pullback" := "85.0000",
          "strong_but_extended" := "35.0000", "no_viable_setup" := "50.0000"]
  }

  function Methods(channel: Channel): Option<Method> {
    if Technical(channel) then Some(Method(Components(channel), Geometry(channel))) else None
  }

  function Weights(components: seq<Component>): (ws: seq<nat>)
    ensures |ws| == |components|
  {
    seq(|components|, i requires 0 <= i < |components| => components[i].weight)
  }

  /** The row an identifier resolves to: the last one, as a Map built from the list keeps. */
  function Resolve(rows: seq<Evidence>, id: EvidenceId): Option<Evidence> {
    if rows == [] then None
    else if rows[|rows| - 1].id == id then Some(rows[|rows| - 1])
    else Resolve(rows[..|rows| - 1], id)
  }

  function RequiredEvidence(rows: seq<Evidence>, id: EvidenceId): Result<Evidence, Error> {
    match Resolve(rows, id)
    case Some(row) => if row.available then Success(row) else Failure(EvidenceUnavailable)
    case None => Failure(EvidenceUnavailable)
  }

  /** The text a component is computed from: the setup's table entry, or its evidence row. */
  function InputText(m: Method, rows: seq<Evidence>, setup: string, c: Component): Result<string, Error>
    requires setup in m.geometry
  {
    if c.id == EntryGeometry then Success(m.geometry[setup])
    else
      match RequiredEvidence(rows, ComponentEvidence(c.id))
      case Failure(e) => Failure(e)
      case Success(row) => if row.observed.None? then Failure(ComponentUnavailable) else Success(row.observed.value)
  }

  function InputScore(m: Method, rows: seq<Evidence>, setup: string, c: Component): Result<nat, Error>
    requires setup in m.geometry
  {
    match InputText(m, rows, setup, c)
    case Failure(e) => Failure(e)
    case Success(text) =>
      match D.Decimal4(text)
      case None => Failure(MalformedDecimal)
      case Some(v) => Success(v)
  }

  function RowOf(c: Component, x: nat): Contribution {
    Contribution(c.id, D.Format4(x), c.weight, D.Format4(RoundHalfEven(Weighted(x, c.weight), BPS)))
  }

  /** The values of the first `n` components in table order, or the first error among them. */
  function InputScores(m: Method, rows: seq<Evidence>, setup: string, n: nat): (r: Result<seq<nat>, Error>)
    requires setup in m.geometry && n <= |m.components|
    ensures r.Success? ==> |r.value| == n
  {
    if n == 0 then Success([])
    else
      match InputScores(m, rows, setup, n - 1)
      case Failure(e) => Failure(e)
      case Success(xs) =>
        match InputScore(m, rows, setup, m.components[n - 1])
        case Failure(e) => Failure(e)
        case Success(x) => Success(xs + [x])
  }

  /** The method applies and the entry setup has a table score. */
  predicate SetupKnown(item: Assessment) {
    && Technical(item.channel)
    && RequiredEvidence(item.evidence, EntryTechnicalSetup).Success?
    && var setup := RequiredEvidence(item.evidence, EntryTechnicalSetup).value.observed;
    && setup.Some? && setup.value in Geometry(item.channel)
  }

  function Inputs(item: Assessment): (r: Result<seq<nat>, Error>)
    requires SetupKnown(item)
    ensures r.Success? ==> |r.value| == |Components(item.channel)|
  {
    var setup := RequiredEvidence(item.evidence, EntryTechnicalSetup).value.observed.value;
    var m := Method(Components(item.channel), Geometry(item.channel));
    InputScores(m, item.evidence, setup, |m.components|)
  }

  /** The published score is the exact weighted total, rounded half-even, of readable inputs. */
  predicate Reconstructs(item: Assessment) {
    && SetupKnown(item) && Inputs(item).Success?
    && item.score.Some?
    && D.Decimal4(item.score.value)
       == Some(RoundHalfEven(Dot(Inputs(item).value, Weights(Components(item.channel))), BPS))
  }

  /** Nothing to reconstruct: the channel has no frozen method, or the item carries no score. */
  predicate NotApplicable(item: Assessment) {
    !Technical(item.channel) || item.score.None?
  }

  function Rows(components: seq<Component>, xs: seq<nat>): (rows: seq<Contribution>)
    requires |xs| <= |components|
    ensures |rows| == |xs|
  {
    seq(|xs|, i requires 0 <= i < |xs| => RowOf(components[i], xs[i]))
  }

  /** The component loop: one row per component while the unrounded total accumulates. */
  method ComponentRows(m: Method, evidence: seq<Evidence>, setup: string)
    returns (result: Result<(seq<Contribution>, nat), Error>)
    requires setup in m.geometry
    ensures match InputScores(m, evidence, setup, |m.components|)
            case Failure(e) => result == Failure(e)
            case Success(xs) => result == Success((Rows(m.components, xs), Dot(xs, Weights(m.components))))
  {
    hide RoundHalfEven, Weighted, InputScore, InputScores, Rows, RowOf, Dot;
    assert InputScores(m, evidence, setup, 0) == Success([]) && Rows(m.components, []) == [] && Dot([], []) == 0 by {
      NothingYet(m, evidence, setup);
    }
    ghost var xs: seq<nat> := [];
    ghost var ws := Weights(m.components);
    var unroundedTotal: nat := 0;
    var rows: seq<Contribution> := [];
    var i := 0;
    while i < |m.components|
      invariant 0 <= i <= |m.components|
      invariant InputScores(m, evidence, setup, i) == Success(xs)
      invariant rows == Rows(m.components, xs)
      invariant unroundedTotal == Dot(xs, ws[..i])
    {
      var c := m.components[i];
      var input := InputScore(m, evidence, setup, c);
      InputScoresStep(m, evidence, setup, i, xs, input);
      if input.Failure? {
        FirstErrorStays(m, evidence, setup, i + 1, |m.components|);
        return Failure(input.error);
      }
      var unrounded := Weighted(input.value, c.weight);
      DotExtends(xs, ws[..i], input.value, c.weight);
      TakeOneMore(ws, i);
      RowsExtend(m.components, xs, input.value);
      unroundedTotal := unroundedTotal + unrounded;
      rows := rows + [RowOf(c, input.value)];
      xs := xs + [input.value];
      i := i + 1;
    }
    assert ws[..i] == ws;
    return Success((rows, unroundedTotal));
  }

  lemma NothingYet(m: Method, evidence: seq<Evidence>, setup: string)
    requires setup in m.geometry
    ensures InputScores(m, evidence, setup, 0) == Success([]) && Rows(m.components, []) == [] && Dot([], []) == 0
  {}

  lemma {:induction false} InputScoresStep(m: Method, rows: seq<Evidence>, setup: string, n: nat, xs: seq<nat>,
                                           input: Result<nat, Error>)
    requires setup in m.geometry && n < |m.components| && InputScores(m, rows, setup, n) == Success(xs)
    requires input == InputScore(m, rows, setup, m.components[n])
    ensures InputScores(m, rows, setup, n + 1)
         == match input case Failure(e) => Failure(e) case Success(x) => Success(xs + [x])
  {}

  lemma {:induction false} FirstErrorStays(m: Method, rows: seq<Evidence>, setup: string, i: nat, n: nat)
    requires setup in m.geometry && i <= n <= |m.components|
    requires InputScores(m, rows, setup, i).Failure?
    ensures InputScores(m, rows, setup, n) == InputScores(m, rows, setup, i)
  {
    if i < n { FirstErrorStays(m, rows, setup, i, n - 1); }
  }

  lemma TakeOneMore(ws: seq<nat>, i: nat)
    requires i < |ws|
    ensures ws[..i + 1] == ws[..i] + [ws[i]]
  {}

  lemma RowsExtend(components: seq<Component>, xs: seq<nat>, x: nat)
    requires |xs| < |components|
    ensures Rows(components, xs + [x]) == Rows(components, xs) + [RowOf(components[|xs|], x)]
  {}

  lemma {:induction false} DotExtends(xs: seq<nat>, ws: seq<nat>, x: nat, w: nat)
    requires |xs| == |ws|
    ensures Dot(xs + [x], ws + [w]) == Dot(xs, ws) + Weighted(x, w)
  {
    assert (xs + [x])[..|xs|] == xs && (ws + [w])[..|ws|] == ws;
  }

  /** Why a score is refused: what its evidence lacks first, in table order, then its text, then
      its value. */
  ghost function Refusal(item: Assessment): Error
    requires !NotApplicable(item) && !Reconstructs(item)
  {
    if RequiredEvidence(item.evidence, EntryTechnicalSetup).Failure? then EvidenceUnavailable
    else if !SetupKnown(item) then UnknownGeometry
    else if Inputs(item).Failure? then Inputs(item).error
    else if !D.Accepted(item.score.value) then MalformedDecimal
    else ScoreDiffers
  }

  // ---------- what evidence a score is read from ----------

  /** The last row of `id`. */
  ghost predicate LastRow(rows: seq<Evidence>, id: EvidenceId, k: int) {
    0 <= k < |rows| && rows[k].id == id && forall j :: k < j < |rows| ==> rows[j].id != id
  }

  ghost predicate Observes(rows: seq<Evidence>, id: EvidenceId, text: string) {
    exists k :: LastRow(rows, id, k) && rows[k].available && rows[k].observed == Some(text)
  }

  ghost predicate NoAvailableRow(rows: seq<Evidence>, id: EvidenceId) {
    forall k :: LastRow(rows, id, k) ==> !rows[k].available
  }

  ghost predicate SetupObserved(item: Assessment, setup: string) {
    Technical(item.channel) && Observes(item.evidence, EntryTechnicalSetup, setup) && setup in Geometry(item.channel)
  }

  /** `text` is what the component is to be computed from: the table's entry for the observed setup, or what its
      own evidence row observed. */
  ghost predicate ReadsFor(item: Assessment, id: ComponentId, text: string) {
    if id == EntryGeometry then exists setup :: SetupObserved(item, setup) && Geometry(item.channel)[setup] == text
    else Observes(item.evidence, ComponentEvidence(id), text)
  }

  ghost predicate ReadsAs(item: Assessment, id: ComponentId, x: nat) {
    exists text :: ReadsFor(item, id, text) && D.Decimal4(text) == Some(x)
  }

  /** `xs` are the decimals the components' evidence writes, in table order. */
  ghost predicate ReadFrom(item: Assessment, xs: seq<nat>) {
    && Technical(item.channel) && |xs| == |Components(item.channel)|
    && forall k :: 0 <= k < |xs| ==> ReadsAs(item, Components(item.channel)[k].id, xs[k])
  }

  ghost predicate Readable(item: Assessment, id: ComponentId) {
    exists x :: ReadsAs(item, id, x)
  }

  /** The components before the `k`-th are readable and it is not. */
  ghost predicate FirstUnreadable(item: Assessment, k: int) {
    && (exists setup :: SetupObserved(item, setup))
    && 0 <= k < |Components(item.channel)|
    && (forall j :: 0 <= j < k ==> Readable(item, Components(item.channel)[j].id))
    && !Readable(item, Components(item.channel)[k].id)
  }

  ghost predicate Unreadable(item: Assessment, id: ComponentId, e: Error) {
    match e
    case EvidenceUnavailable => id != EntryGeometry && NoAvailableRow(item.evidence, ComponentEvidence(id))
    case ComponentUnavailable =>
      && id != EntryGeometry
      && exists k :: LastRow(item.evidence, ComponentEvidence(id), k) && item.evidence[k].available && item.evidence[k].observed.None?
    case MalformedDecimal => exists text :: ReadsFor(item, id, text) && D.Decimal4(text).None?
    case _ => false
  }

  ghost predicate ComponentRefused(item: Assessment, k: int, e: Error) {
    FirstUnreadable(item, k) && Unreadable(item, Components(item.channel)[k].id, e)
  }

  /** The total of the inputs, each a ten-thousandth times its weight, rounded once. */
  function Total(channel: Channel, xs: seq<nat>): nat
    requires Technical(channel) && |xs| == |Components(channel)|
  {
    RoundHalfEven(Dot(xs, Weights(Components(channel))), BPS)
  }

  /** Why a score is refused: no setup, an unknown one, the first component in table order that cannot be
      read, the score's own text, or its value. */
  ghost predicate RefusedFor(item: Assessment, e: Error)
    requires item.score.Some?
  {
    || (e == EvidenceUnavailable && NoAvailableRow(item.evidence, EntryTechnicalSetup))
    || (e == UnknownGeometry
        && exists k :: LastRow(item.evidence, EntryTechnicalSetup, k) && item.evidence[k].available
                       && forall setup :: !SetupObserved(item, setup))
    || (exists k :: ComponentRefused(item, k, e))
    || (e == MalformedDecimal && (exists xs :: ReadFrom(item, xs)) && D.Decimal4(item.score.value).None?)
    || (e == ScoreDiffers
        && exists xs, y :: ReadFrom(item, xs) && D.Decimal4(item.score.value) == Some(y) && y != Total(item.channel, xs))
  }

  lemma {:induction false} ResolveIsLast(rows: seq<Evidence>, id: EvidenceId)
    ensures Resolve(rows, id).None? <==> forall k :: 0 <= k < |rows| ==> rows[k].id != id
    ensures Resolve(rows, id).Some? ==> exists k :: LastRow(rows, id, k) && rows[k] == Resolve(rows, id).value
  {
    if rows != [] {
      var init := rows[..|rows| - 1];
      ResolveIsLast(init, id);
      if rows[|rows| - 1].id == id {
        assert LastRow(rows, id, |rows| - 1);
      } else {
        assert forall k :: 0 <= k < |init| ==> rows[k] == init[k];
        if Resolve(rows, id).Some? {
          var k :| LastRow(init, id, k) && init[k] == Resolve(init, id).value;
          assert LastRow(rows, id, k) && rows[k] == init[k];
        }
      }
    }
  }

  /** Looking an identifier up by its last row is what the statements about evidence say. */
  lemma RequiredMeans(rows: seq<Evidence>, id: EvidenceId)
    ensures match RequiredEvidence(rows, id)
            case Success(row) =>
              && (exists k :: LastRow(rows, id, k) && rows[k].available && rows[k] == row) && !NoAvailableRow(rows, id)
              && forall text :: Observes(rows, id, text) <==> row.observed == Some(text)
            case Failure(e) => e == EvidenceUnavailable && NoAvailableRow(rows, id) && forall text :: !Observes(rows, id, text)
  {
    ResolveIsLast(rows, id);
    assert forall j, k :: LastRow(rows, id, j) && LastRow(rows, id, k) ==> j == k;
  }

  lemma SetupMeans(item: Assessment)
    requires Technical(item.channel)
    ensures SetupKnown(item) <==> exists setup :: SetupObserved(item, setup)
    ensures SetupKnown(item) ==>
              forall setup :: SetupObserved(item, setup)
                <==> setup == RequiredEvidence(item.evidence, EntryTechnicalSetup).value.observed.value
  {
    hide RequiredEvidence, Geometry, NoAvailableRow;
    RequiredMeans(item.evidence, EntryTechnicalSetup);
    var row := RequiredEvidence(item.evidence, EntryTechnicalSetup);
    if SetupKnown(item) { assert SetupObserved(item, row.value.observed.value); }
  }

  /** One component's value, or why it has none. */
  lemma InputMeans(item: Assessment, c: Component)
    requires SetupKnown(item)
    ensures var setup := RequiredEvidence(item.evidence, EntryTechnicalSetup).value.observed.value;
            var m := Method(Components(item.channel), Geometry(item.channel));
            match InputScore(m, item.evidence, setup, c)
            case Success(x) => ReadsAs(item, c.id, x) && forall y :: ReadsAs(item, c.id, y) ==> x == y
            case Failure(e) => Unreadable(item, c.id, e) && forall y :: !ReadsAs(item, c.id, y)
  {
    hide D.Decimal4, Geometry, SetupKnown, SetupObserved, Observes, RequiredEvidence, Components;
    SetupIsKnown(item);
    var setup := RequiredEvidence(item.evidence, EntryTechnicalSetup).value.observed.value;
    var m := Method(Components(item.channel), Geometry(item.channel));
    SetupMeans(item);
    RequiredMeans(item.evidence, ComponentEvidence(c.id));
    var text := InputText(m, item.evidence, setup, c);
    assert text.Success? ==> ReadsFor(item, c.id, text.value);
    assert forall other :: ReadsFor(item, c.id, other) ==> text == Success(other);
  }

  lemma SetupIsKnown(item: Assessment)
    requires SetupKnown(item)
    ensures Technical(item.channel) && RequiredEvidence(item.evidence, EntryTechnicalSetup).Success?
    ensures var setup := RequiredEvidence(item.evidence, EntryTechnicalSetup).value.observed;
            setup.Some? && setup.value in Geometry(item.channel)
  {}

  lemma NothingRead(item: Assessment)
    requires SetupKnown(item)
    ensures var setup := RequiredEvidence(item.evidence, EntryTechnicalSetup).value.observed.value;
            InputScores(Method(Components(item.channel), Geometry(item.channel)), item.evidence, setup, 0) == Success([])
  {}

  /** The loop's first `n` values, or the component it stops at. */
  lemma {:induction false} InputScoresMean(item: Assessment, n: nat)
    requires SetupKnown(item) && n <= |Components(item.channel)|
    ensures var setup := RequiredEvidence(item.evidence, EntryTechnicalSetup).value.observed.value;
            var m := Method(Components(item.channel), Geometry(item.channel));
            match InputScores(m, item.evidence, setup, n)
            case Success(xs) =>
              && |xs| == n
              && (forall k :: 0 <= k < n ==> ReadsAs(item, m.components[k].id, xs[k]))
              && forall k, y :: 0 <= k < n && ReadsAs(item, m.components[k].id, y) ==> xs[k] == y
            case Failure(e) => exists k :: 0 <= k < n && ComponentRefused(item, k, e)
  {
    hide ReadsAs, Unreadable, InputScore, InputScores, Geometry, Components, RequiredEvidence, SetupKnown, SetupObserved;
    SetupIsKnown(item);
    SetupMeans(item);
    NothingRead(item);
    if n > 0 {
      InputScoresMean(item, n - 1);
      var c := Components(item.channel)[n - 1];
      InputMeans(item, c);
      var setup := RequiredEvidence(item.evidence, EntryTechnicalSetup).value.observed.value;
      var m := Method(Components(item.channel), Geometry(item.channel));
      var before, last := InputScores(m, item.evidence, setup, n - 1), InputScore(m, item.evidence, setup, c);
      if before.Failure? {
        FirstErrorStays(m, item.evidence, setup, n - 1, n);
        var k :| 0 <= k < n - 1 && ComponentRefused(item, k, before.error);
      } else if last.Success? {
        InputScoresStep(m, item.evidence, setup, n - 1, before.value, last);
      } else {
        InputScoresStep(m, item.evidence, setup, n - 1, before.value, last);
        forall j | 0 <= j < n - 1 ensures Readable(item, Components(item.channel)[j].id) {
          assert ReadsAs(item, m.components[j].id, before.value[j]);
        }
        assert FirstUnreadable(item, n - 1);
        assert ComponentRefused(item, n - 1, last.error);
      }
    }
  }

  /** The inputs are what the evidence writes, and the only such values; or some component has none. */
  lemma InputsMean(item: Assessment)
    requires SetupKnown(item)
    ensures match Inputs(item)
            case Success(xs) => ReadFrom(item, xs) && forall ys :: ReadFrom(item, ys) ==> xs == ys
            case Failure(e) => (forall ys :: !ReadFrom(item, ys)) && exists k :: ComponentRefused(item, k, e)
  {
    hide ReadsAs, Unreadable, InputScores, Geometry, Components, RequiredEvidence, SetupKnown;
    SetupIsKnown(item);
    InputScoresMean(item, |Components(item.channel)|);
    if Inputs(item).Success? {
      var xs := Inputs(item).value;
      forall ys | ReadFrom(item, ys) ensures xs == ys {
        assert forall k :: 0 <= k < |xs| ==> xs[k] == ys[k];
      }
    } else {
      var k :| ComponentRefused(item, k, Inputs(item).error);
    }
  }

  lemma NoSetupNoInputs(item: Assessment)
    requires Technical(item.channel) && !SetupKnown(item)
    ensures forall xs :: !ReadFrom(item, xs)
  {
    SetupMeans(item);
    var last := |Components(item.channel)| - 1;
    assert Components(item.channel)[last].id == EntryGeometry;
    assert forall x :: !ReadsAs(item, EntryGeometry, x);
    assert forall xs :: ReadFrom(item, xs) ==> ReadsAs(item, Components(item.channel)[last].id, xs[last]);
  }

  /** A score reconstructs exactly when its decimal is the rounded total of what the evidence writes. */
  lemma ReconstructsFromEvidence(item: Assessment)
    ensures Reconstructs(item)
       <==> item.score.Some? && exists xs :: ReadFrom(item, xs) && D.Decimal4(item.score.value) == Some(Total(item.channel, xs))
    ensures Reconstructs(item) ==> ReadFrom(item, Inputs(item).value)
  {
    hide ReadsAs, Geometry, Components, RequiredEvidence, Weights, RoundHalfEven, Dot, D.Decimal4, SetupKnown, Inputs;
    if SetupKnown(item) {
      SetupIsKnown(item);
      InputsMean(item);
    } else if Technical(item.channel) {
      NoSetupNoInputs(item);
    }
  }

  lemma RefusalMeans(item: Assessment)
    requires !NotApplicable(item) && !Reconstructs(item)
    ensures RefusedFor(item, Refusal(item))
  {
    hide ReadsAs, Geometry, Components, RequiredEvidence, Weights, RoundHalfEven, Dot, D.Decimal4, Inputs, SetupObserved;
    RequiredMeans(item.evidence, EntryTechnicalSetup);
    SetupMeans(item);
    if SetupKnown(item) { InputsMean(item); }
  }

  /** No score, or a channel whose score has no frozen formula. */
  ghost predicate NothingFrozen(item: Assessment) {
    item.score.None? || item.channel in {TechnicalReversal, FundamentalValueReversal, DefensiveRotation}
  }

  /** The rows show the inputs `xs`, the weights and each product rounded on its own, in table order. */
  ghost predicate ShownAs(item: Assessment, xs: seq<nat>, rows: seq<Contribution>) {
    && ReadFrom(item, xs) && |rows| == |xs|
    && forall k :: 0 <= k < |rows| ==> ShowsRow(Components(item.channel)[k], xs[k], rows[k])
  }

  ghost predicate ShowsRow(c: Component, x: nat, row: Contribution) {
    row == Contribution(c.id, D.Format4(x), c.weight, D.Format4(RoundHalfEven(x * c.weight, 10_000)))
  }

  lemma RowsShow(item: Assessment, xs: seq<nat>)
    requires ReadFrom(item, xs)
    ensures ShownAs(item, xs, Rows(Components(item.channel), xs))
  {
    hide Components, D.Format4, RoundHalfEven, ReadFrom;
    assert ReadFrom(item, xs);
    FromEvidence(item, xs);
  }

  lemma FromEvidence(item: Assessment, xs: seq<nat>)
    requires ReadFrom(item, xs)
    ensures Technical(item.channel) && |xs| == |Components(item.channel)|
  {}

  /** Accepts exactly the scores that reconstruct, and returns the rows they reconstruct from. */
  method StrategyScoreBreakdown(item: Assessment, parameterFingerprint: string)
    returns (result: Result<seq<Contribution>, Error>)
    ensures parameterFingerprint != PARAMETER_FINGERPRINT <==> result == Failure(UnsupportedParameters)
    ensures parameterFingerprint == PARAMETER_FINGERPRINT && NothingFrozen(item) ==> result == Success([])
    ensures parameterFingerprint == PARAMETER_FINGERPRINT && !NothingFrozen(item) ==>
              && (result.Success? <==> Reconstructs(item))
              && (result.Success? <==> exists xs :: ReadFrom(item, xs) && D.Decimal4(item.score.value) == Some(Total(item.channel, xs)))
              && (result.Success? ==> exists xs :: ShownAs(item, xs, result.value))
              && (result.Failure? ==> RefusedFor(item, result.error))
  {
    hide ReadFrom, ShownAs, RefusedFor, ReadsAs, D.Decimal4, D.Format4, RoundHalfEven, Weights, Dot, Components, Geometry,
      InputScores;
    if parameterFingerprint != PARAMETER_FINGERPRINT { return Failure(UnsupportedParameters); }
    if NotApplicable(item) { return Success([]); }
    ReconstructsFromEvidence(item);
    if !Reconstructs(item) { RefusalMeans(item); }
    var m := Methods(item.channel).value;
    var setupRow := RequiredEvidence(item.evidence, EntryTechnicalSetup);
    if setupRow.Failure? { return Failure(setupRow.error); }
    var setup := setupRow.value.observed;
    if setup.None? || setup.value !in m.geometry { return Failure(UnknownGeometry); }
    var table := ComponentRows(m, item.evidence, setup.value);
    if table.Failure? { ErrorsAreNotFingerprint(m, item.evidence, setup.value, |m.components|); return Failure(table.error); }
    var published := D.Decimal4(item.score.value);
    if published.None? { return Failure(MalformedDecimal); }
    var total := RoundHalfEven(table.value.1, BPS);
    D.PrintIsInjective(total, published.value);
    if D.Format4(total) != D.Format4(published.value) { return Failure(ScoreDiffers); }
    RowsShow(item, Inputs(item).value);
    return Success(table.value.0);
  }

  lemma {:induction false} ErrorsAreNotFingerprint(m: Method, rows: seq<Evidence>, setup: string, n: nat)
    requires setup in m.geometry && n <= |m.components|
    ensures InputScores(m, rows, setup, n) != Failure(UnsupportedParameters)
  {
    if n > 0 { ErrorsAreNotFingerprint(m, rows, setup, n - 1); }
  }

  /** The frozen formulas, in ten-thousandths of an input. */
  lemma FrozenFormulas(channel: Channel, xs: seq<nat>)
    requires Technical(channel) && |xs| == |Components(channel)|
    ensures |xs| == (if channel.MomentumBreakout? then 4 else 5)
    ensures Dot(xs, Weights(Components(channel)))
         == match channel
            case MomentumBreakout => 3500 * xs[0] + 2500 * xs[1] + 1500 * xs[2] + 2500 * xs[3]
            case StrongStockPullback => 3000 * xs[0] + 2500 * xs[1] + 1500 * xs[2] + 1000 * xs[3] + 2000 * xs[4]
            case TrendContinuation => 3500 * xs[0] + 3500 * xs[1] + 1500 * xs[2] + 1000 * xs[3] + 500 * xs[4]
  {
    hide Dot;
    if channel.MomentumBreakout? { DotOfFour(xs, Weights(Components(channel))); } else { DotOfFive(xs, Weights(Components(channel))); }
  }

  lemma DotOfFour(xs: seq<nat>, ws: seq<nat>)
    requires |xs| == |ws| == 4
    ensures Dot(xs, ws) == xs[0] * ws[0] + xs[1] * ws[1] + xs[2] * ws[2] + xs[3] * ws[3]
  {
    assert xs[..3][..2] == xs[..2] && ws[..3][..2] == ws[..2];
    assert xs[..2][..1] == xs[..1] && ws[..2][..1] == ws[..1];
    assert xs[..1][..0] == [] && ws[..1][..0] == [];
    assert Dot(xs[..1], ws[..1]) == Weighted(xs[0], ws[0]);
    assert Dot(xs[..2], ws[..2]) == Dot(xs[..1], ws[..1]) + Weighted(xs[1], ws[1]);
    assert Dot(xs[..3], ws[..3]) == Dot(xs[..2], ws[..2]) + Weighted(xs[2], ws[2]);
  }

  lemma DotOfFive(xs: seq<nat>, ws: seq<nat>)
    requires |xs| == |ws| == 5
    ensures Dot(xs, ws) == xs[0] * ws[0] + xs[1] * ws[1] + xs[2] * ws[2] + xs[3] * ws[3] + xs[4] * ws[4]
  {
    DotOfFour(xs[..4], ws[..4]);
  }

  /** Each frozen table weighs one whole. */
  lemma WeightsAreWhole(channel: Channel)
    requires Technical(channel)
    ensures Sum(Weights(Components(channel))) == BPS
  {
    var ws := Weights(Components(channel));
    if channel == MomentumBreakout {
      assert ws == [3500, 2500, 1500, 2500];
      SumOfFour(3500, 2500, 1500, 2500);
    } else if channel == StrongStockPullback {
      assert ws == [3000, 2500, 1500, 1000, 2000];
      SumOfFive(3000, 2500, 1500, 1000, 2000);
    } else {
      assert ws == [3500, 3500, 1500, 1000, 500];
      SumOfFive(3500, 3500, 1500, 1000, 500);
    }
  }

  lemma SumExtends(ws: seq<nat>, w: nat)
    ensures Sum(ws + [w]) == Sum(ws) + w
  {
    assert (ws + [w])[..|ws|] == ws;
  }

  lemma SumOfFour(a: nat, b: nat, c: nat, d: nat)
    ensures Sum([a, b, c, d]) == a + b + c + d
  {
    SumExtends([], a);
    SumExtends([a], b);
    SumExtends([a, b], c);
    SumExtends([a, b, c], d);
    assert [] + [a] == [a] && [a] + [b] == [a, b] && [a, b] + [c] == [a, b, c] && [a, b, c] + [d] == [a, b, c, d];
  }

  lemma SumOfFive(a: nat, b: nat, c: nat, d: nat, e: nat)
    ensures Sum([a, b, c, d, e]) == a + b + c + d + e
  {
    SumOfFour(a, b, c, d);
    SumExtends([a, b, c, d], e);
    assert [a, b, c, d] + [e] == [a, b, c, d, e];
  }

  /** An accepted score lies between the smallest and the largest of its inputs. */
  lemma {:induction false} AcceptedScoreIsWithinInputs(item: Assessment, lo: nat, hi: nat)
    ensures Reconstructs(item) ==>
              (forall i :: 0 <= i < |Inputs(item).value| ==> lo <= Inputs(item).value[i] <= hi) ==>
              lo <= D.Decimal4(item.score.value).value <= hi
  {
    hide RoundHalfEven, Sum, Dot, Weights, Components, Geometry, Inputs, D.Decimal4;
    if Reconstructs(item) && (forall i :: 0 <= i < |Inputs(item).value| ==> lo <= Inputs(item).value[i] <= hi) {
      WeightsAreWhole(item.channel);
      ScoreWithinInputs(Inputs(item).value, Weights(Components(item.channel)), lo, hi);
    }
  }

  /** The displayed contributions add up to an accepted score within half a unit per row plus half. */
  lemma {:induction false} AcceptedContributionsReconcile(item: Assessment)
    ensures Reconstructs(item) ==>
              var xs, ws := Inputs(item).value, Weights(Components(item.channel));
              Abs(Sum(RoundedTerms(xs, ws)) - D.Decimal4(item.score.value).value) <= (|xs| + 1) / 2
  {
    hide RoundHalfEven, Sum, Dot, RoundedTerms, Abs, Weights, Components, Geometry, Inputs, D.Decimal4;
    if Reconstructs(item) {
      ContributionsReconcile(Inputs(item).value, Weights(Components(item.channel)));
    }
  }

  /** Between two accepted assessments of one channel, no input lower means the score not lower. */
  lemma {:induction false} AcceptedScoreIsMonotone(a: Assessment, b: Assessment)
    ensures Reconstructs(a) && Reconstructs(b) && a.channel == b.channel ==>
              (forall i :: 0 <= i < |Inputs(a).value| ==> Inputs(a).value[i] <= Inputs(b).value[i]) ==>
              D.Decimal4(a.score.value).value <= D.Decimal4(b.score.value).value
  {
    hide RoundHalfEven, Sum, Dot, Components, Geometry, D.Decimal4;
    if Reconstructs(a) && Reconstructs(b) && a.channel == b.channel
       && forall i :: 0 <= i < |Inputs(a).value| ==> Inputs(a).value[i] <= Inputs(b).value[i] {
      ScoreIsMonotone(Inputs(a).value, Inputs(b).value, Weights(Components(a.channel)));
    }
  }

  /** For given evidence exactly one value is acceptable, in any spelling: a score text is accepted
      if and only if its canonical four-decimal form is the printed weighted total. */
  lemma AcceptedScoreIsDetermined(item: Assessment, text: string)
    ensures SetupKnown(item) && Inputs(item).Success? ==>
              var total := RoundHalfEven(Dot(Inputs(item).value, Weights(Components(item.channel))), BPS);
              Reconstructs(item.(score := Some(text))) <==> D.Accepted(text) && D.Canonical(text) == D.Format4(total)
  {
    hide RoundHalfEven, Dot, Weights, Components, D.Decimal4, D.Format4, D.Canonical;
    if SetupKnown(item) && Inputs(item).Success? && D.Accepted(text) {
      D.PrintOfParse(text);
      D.PrintIsInjective(D.Decimal4(text).value,
                         RoundHalfEven(Dot(Inputs(item).value, Weights(Components(item.channel))), BPS));
    }
  }

  /** Every displayed row reads back as the exact input and the separately rounded product. */
  lemma {:induction false} RowsReadBack(components: seq<Component>, xs: seq<nat>, k: nat)
    requires |xs| == |components| && k < |xs|
    ensures D.Decimal4(Rows(components, xs)[k].input) == Some(xs[k])
    ensures D.Decimal4(Rows(components, xs)[k].contribution) == Some(RoundedTerms(xs, Weights(components))[k])
  {
    hide RoundHalfEven, D.Decimal4, D.Format4, Weighted;
    D.ParseOfPrint(xs[k]);
    D.ParseOfPrint(RoundHalfEven(Weighted(xs[k], components[k].weight), BPS));
  }
}

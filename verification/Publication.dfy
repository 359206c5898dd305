/** Acceptance of a candidate universe: identifiers published once and in order, displayed
    identifiers all published, and lane counts reconciling with the hard-gate count. */
module Publication {
  import opened Ordering
  import opened Doubles

  // ---------- the order check on identifiers ----------

  predicate IsHex(c: char) { '0' <= c <= '9' || 'a' <= c <= 'f' || 'A' <= c <= 'F' }

  /** The accepted identifier shape: 8-4-4-4-12 hexadecimal digits, version 1 to 5, variant 8 to b. */
  predicate IsUuid(s: string) {
    && |s| == 36
    && (forall i :: 0 <= i < 36 ==> if i == 8 || i == 13 || i == 18 || i == 23 then s[i] == '-' else IsHex(s[i]))
    && '1' <= s[14] <= '5'
    && s[19] in {'8', '9', 'a', 'b', 'A', 'B'}
  }

  ghost predicate AllHex(s: string) { forall c :: c in s ==> c in "0123456789abcdefABCDEF" }

  /** Five groups of hexadecimal digits between dashes, the third led by its version, the fourth by its variant. */
  ghost predicate UuidWritten(s: string, a: string, b: string, c: string, d: string, e: string) {
    && |a| == 8 && |b| == 4 && |c| == 4 && |d| == 4 && |e| == 12
    && AllHex(a) && AllHex(b) && AllHex(c) && AllHex(d) && AllHex(e)
    && c[0] in "12345" && d[0] in "89abAB"
    && s == a + "-" + b + "-" + c + "-" + d + "-" + e
  }

  lemma HexDigits(c: char)
    ensures IsHex(c) <==> c in "0123456789abcdefABCDEF"
  {}

  lemma UuidMeans(s: string)
    ensures IsUuid(s) <==> exists a, b, c, d, e :: UuidWritten(s, a, b, c, d, e)
  {
    hide IsUuid, UuidWritten;
    if IsUuid(s) { UuidIsWritten(s); }
    if a, b, c, d, e :| UuidWritten(s, a, b, c, d, e) { WrittenIsUuid(s, a, b, c, d, e); }
  }

  lemma HexPart(s: string, i: nat, j: nat)
    requires i <= j <= |s| && forall k :: i <= k < j ==> IsHex(s[k])
    ensures AllHex(s[i..j])
  {
    hide IsHex;
    forall c | c in s[i..j] ensures c in "0123456789abcdefABCDEF" { HexDigits(c); }
  }

  lemma DashesJoin(s: string)
    requires |s| == 36 && s[8] == '-' && s[13] == '-' && s[18] == '-' && s[23] == '-'
    ensures s == s[0..8] + "-" + s[9..13] + "-" + s[14..18] + "-" + s[19..23] + "-" + s[24..36]
  {}

  lemma UuidIsWritten(s: string)
    requires IsUuid(s)
    ensures |s| == 36 && UuidWritten(s, s[0..8], s[9..13], s[14..18], s[19..23], s[24..36])
  {
    hide IsHex, AllHex;
    HexPart(s, 0, 8);
    HexPart(s, 9, 13);
    HexPart(s, 14, 18);
    HexPart(s, 19, 23);
    HexPart(s, 24, 36);
    DashesJoin(s);
  }

  lemma WrittenIsUuid(s: string, a: string, b: string, c: string, d: string, e: string)
    requires UuidWritten(s, a, b, c, d, e)
    ensures IsUuid(s)
  {
    hide IsHex;
    forall c ensures IsHex(c) <==> c in "0123456789abcdefABCDEF" { HexDigits(c); }
    assert s[..8] == a && s[9..13] == b && s[14..18] == c && s[19..23] == d && s[24..] == e;
    forall i | 0 <= i < 36 ensures if i == 8 || i == 13 || i == 18 || i == 23 then s[i] == '-' else IsHex(s[i]) {
      if i < 8 { assert a[i] in a; } else if 8 < i < 13 { assert b[i - 9] in b; } else if 13 < i < 18 {
        assert c[i - 14] in c;
      } else if 18 < i < 23 { assert d[i - 19] in d; } else if 23 < i { assert e[i - 24] in e; }
    }
  }

  /** The elements written one after another with a bar between neighbours. */
  function JoinBar(ids: seq<string>): string {
    if ids == [] then "" else if |ids| == 1 then ids[0] else ids[0] + "|" + JoinBar(ids[1..])
  }

  predicate NoBars(ids: seq<string>) { forall i :: 0 <= i < |ids| ==> '|' !in ids[i] }

  /** The check as made: as many distinct identifiers as identifiers, and joining the sorted list
      gives the same text as joining the list. */
  predicate OrderChecked(ids: seq<string>) {
    |set id | id in ids| == |ids| && JoinBar(Sort(StringLeq, ids)) == JoinBar(ids)
  }

  ghost predicate StrictlyIncreasing(ids: seq<string>) {
    forall i, j :: 0 <= i < j < |ids| ==> StringLess(ids[i], ids[j])
  }

  lemma FirstBar(a: string, x: string, b: string, y: string)
    requires '|' !in a && '|' !in b && a + "|" + x == b + "|" + y
    ensures a == b && x == y
  {
    var s := a + "|" + x;
    assert s[|a|] == '|' && s[|b|] == '|';
    assert forall i :: 0 <= i < |a| ==> s[i] == a[i];
    assert forall i :: 0 <= i < |b| ==> s[i] == b[i];
    assert |a| == |b|;
    assert a == s[..|a|] && b == s[..|b|] && x == s[|a| + 1..] && y == s[|b| + 1..];
  }

  /** Lists of one length whose elements hold no bar are told apart by their joined texts. */
  lemma {:induction false} JoinIsInjective(a: seq<string>, b: seq<string>)
    requires |a| == |b| && NoBars(a) && NoBars(b) && JoinBar(a) == JoinBar(b)
    ensures a == b
  {
    if |a| > 1 {
      FirstBar(a[0], JoinBar(a[1..]), b[0], JoinBar(b[1..]));
      JoinIsInjective(a[1..], b[1..]);
      assert a == [a[0]] + a[1..] && b == [b[0]] + b[1..];
    }
  }

  lemma UuidsHoldNoBars(ids: seq<string>)
    requires forall i :: 0 <= i < |ids| ==> IsUuid(ids[i])
    ensures NoBars(ids)
  {}

  lemma {:induction false} DistinctIffCounted(s: seq<string>)
    ensures |set x | x in s| <= |s|
    ensures |set x | x in s| == |s| <==> Distinct(s)
  {
    if s != [] {
      var init, last := s[..|s| - 1], s[|s| - 1];
      DistinctIffCounted(init);
      assert s == init + [last];
      assert (set x | x in s) == (set x | x in init) + {last};
      if Distinct(s) {
        assert last !in init;
      } else if Distinct(init) {
        var i, j :| 0 <= i < j < |s| && s[i] == s[j];
        assert j == |s| - 1 && init[i] == last;
      }
    }
  }

  /** For identifiers without a bar the textual check is exactly strict increase. */
  lemma OrderCheckedIffIncreasing(ids: seq<string>)
    requires NoBars(ids)
    ensures OrderChecked(ids) <==> StrictlyIncreasing(ids)
  {
    hide StringLeq, Sort, JoinBar;
    StringOrder();
    var sorted := Sort(StringLeq, ids);
    SortSorts(StringLeq, ids);
    SameElements(sorted, ids);
    DistinctIffCounted(ids);
    assert NoBars(sorted) by {
      forall i | 0 <= i < |sorted| ensures '|' !in sorted[i] { assert sorted[i] in ids; }
    }
    if OrderChecked(ids) {
      JoinIsInjective(sorted, ids);
    }
    if StrictlyIncreasing(ids) {
      SortedUnique(StringLeq, sorted, ids);
    }
  }

  // ---------- universes ----------

  datatype RiskMode = Conservative | Balanced | Aggressive
  datatype LaneName = ReviewNow | WatchTrigger | WaitReset | OtherResearch

  const MODES: seq<RiskMode> := [Conservative, Balanced, Aggressive]
  const LANES: seq<LaneName> := [ReviewNow, WatchTrigger, WaitReset, OtherResearch]

  datatype RiskResult = RiskResult(mode: RiskMode, eligible: nat, displayCap: nat, displayed: seq<string>)
  datatype Lane = Lane(lane: LaneName, qualifying: nat, displayCap: nat, displayed: seq<string>)
  datatype EntryMode = EntryMode(mode: RiskMode, hardGateQualified: nat, lanes: seq<Lane>)
  datatype Universe = Universe(members: nat, covered: nat, missing: nat, risks: seq<RiskResult>, ids: seq<string>,
                               entries: seq<EntryMode>)

  function Min(a: nat, b: nat): nat { if a < b then a else b }

  ghost predicate AllIn(xs: seq<string>, ids: seq<string>) { forall i :: 0 <= i < |xs| ==> xs[i] in ids }

  ghost predicate RiskOk(r: RiskResult, mode: RiskMode, ids: seq<string>) {
    && r.mode == mode && |r.displayed| <= r.eligible && |r.displayed| <= r.displayCap
    && (|r.displayed| == r.eligible || |r.displayed| == r.displayCap)
    && Distinct(r.displayed) && AllIn(r.displayed, ids)
  }

  /** What both parsers ask of the identifiers and the risk results. */
  ghost predicate CommonOk(u: Universe) {
    && Plus(u.covered, u.missing) == u.members
    && |u.risks| == 3 && (forall k :: 0 <= k < 3 ==> RiskOk(u.risks[k], MODES[k], u.ids))
    && (forall i :: 0 <= i < |u.ids| ==> IsUuid(u.ids[i])) && StrictlyIncreasing(u.ids)
  }

  /** The lanes' counts added up in order. */
  function Qualifying(lanes: seq<Lane>): nat {
    if lanes == [] then 0 else Plus(Qualifying(lanes[..|lanes| - 1]), lanes[|lanes| - 1].qualifying)
  }

  /** Entry modes in order with their four lanes in order, showing published identifiers only. */
  ghost predicate EntriesListed(u: Universe) {
    && |u.entries| == 3
    && forall k :: 0 <= k < 3 ==>
         && u.entries[k].mode == MODES[k] && |u.entries[k].lanes| == 4
         && forall l :: 0 <= l < 4 ==> u.entries[k].lanes[l].lane == LANES[l] && AllIn(u.entries[k].lanes[l].displayed, u.ids)
  }

  /** Lanes within their caps, without repeats, and adding up to the hard-gate count. */
  ghost predicate LanesReconcile(e: EntryMode) {
    && (forall l :: 0 <= l < |e.lanes| ==> |e.lanes[l].displayed| <= e.lanes[l].displayCap && Distinct(e.lanes[l].displayed))
    && Qualifying(e.lanes) == e.hardGateQualified
  }

  ghost predicate FullAccepts(u: Universe, hasEntry: bool) {
    CommonOk(u) && (hasEntry ==> EntriesListed(u) && forall k :: 0 <= k < |u.entries| ==> LanesReconcile(u.entries[k]))
  }

  ghost predicate SummaryAccepts(u: Universe) { CommonOk(u) && EntriesListed(u) }

  method AllPublished(xs: seq<string>, ids: seq<string>) returns (ok: bool)
    ensures ok <==> AllIn(xs, ids)
  {
    for i := 0 to |xs|
      invariant forall k :: 0 <= k < i ==> xs[k] in ids
    {
      if xs[i] !in ids { return false; }
    }
    return true;
  }

  method NoRepeats(xs: seq<string>) returns (ok: bool)
    ensures ok <==> Distinct(xs)
  {
    DistinctIffCounted(xs);
    var seen := set x | x in xs;
    ok := |seen| == |xs|;
  }

  method CheckCommon(u: Universe) returns (ok: bool)
    ensures ok <==> CommonOk(u)
  {
    if Plus(u.covered, u.missing) != u.members || |u.risks| != 3 { return false; }
    for k := 0 to 3
      invariant forall j :: 0 <= j < k ==> RiskOk(u.risks[j], MODES[j], u.ids)
    {
      var r := u.risks[k];
      var distinct := NoRepeats(r.displayed);
      var published := AllPublished(r.displayed, u.ids);
      if r.mode != MODES[k] || |r.displayed| != Min(r.eligible, r.displayCap) || !distinct || !published { return false; }
    }
    for i := 0 to |u.ids|
      invariant forall j :: 0 <= j < i ==> IsUuid(u.ids[j])
    {
      if !IsUuid(u.ids[i]) { return false; }
    }
    UuidsHoldNoBars(u.ids);
    OrderCheckedIffIncreasing(u.ids);
    ok := OrderChecked(u.ids);
  }

  /** One entry mode of the full publication, its qualifying count accumulated lane by lane. */
  method CheckEntry(e: EntryMode, mode: RiskMode, ids: seq<string>) returns (ok: bool)
    ensures ok <==> e.mode == mode && |e.lanes| == 4
                    && (forall l :: 0 <= l < 4 ==> e.lanes[l].lane == LANES[l] && AllIn(e.lanes[l].displayed, ids))
                    && LanesReconcile(e)
  {
    if e.mode != mode || |e.lanes| != 4 { return false; }
    var qualifying := 0;
    for l := 0 to 4
      invariant qualifying == Qualifying(e.lanes[..l])
      invariant forall j :: 0 <= j < l ==> e.lanes[j].lane == LANES[j] && AllIn(e.lanes[j].displayed, ids)
      invariant forall j :: 0 <= j < l ==> |e.lanes[j].displayed| <= e.lanes[j].displayCap && Distinct(e.lanes[j].displayed)
    {
      var lane := e.lanes[l];
      if lane.lane != LANES[l] { return false; }
      assert e.lanes[..l + 1][..l] == e.lanes[..l];
      qualifying := Plus(qualifying, lane.qualifying);
      var distinct := NoRepeats(lane.displayed);
      var published := AllPublished(lane.displayed, ids);
      if |lane.displayed| > lane.displayCap || !distinct || !published { return false; }
    }
    assert e.lanes[..4] == e.lanes;
    ok := qualifying == e.hardGateQualified;
  }

  method ParseUniverse(u: Universe, hasEntry: bool) returns (ok: bool)
    ensures ok <==> FullAccepts(u, hasEntry)
  {
    ok := CheckCommon(u);
    if !ok || !hasEntry { return; }
    if |u.entries| != 3 { return false; }
    for k := 0 to 3
      invariant forall j :: 0 <= j < k ==> u.entries[j].mode == MODES[j] && |u.entries[j].lanes| == 4
      invariant forall j :: 0 <= j < k ==>
        forall l :: 0 <= l < 4 ==> u.entries[j].lanes[l].lane == LANES[l] && AllIn(u.entries[j].lanes[l].displayed, u.ids)
      invariant forall j :: 0 <= j < k ==> LanesReconcile(u.entries[j])
    {
      var entry := CheckEntry(u.entries[k], MODES[k], u.ids);
      if !entry { return false; }
    }
  }

  method ParseSummaryUniverse(u: Universe) returns (ok: bool)
    ensures ok <==> SummaryAccepts(u)
  {
    ok := CheckCommon(u);
    if !ok { return; }
    if |u.entries| != 3 { return false; }
    for k := 0 to 3
      invariant forall j :: 0 <= j < k ==> u.entries[j].mode == MODES[j] && |u.entries[j].lanes| == 4
      invariant forall j :: 0 <= j < k ==>
        forall l :: 0 <= l < 4 ==> u.entries[j].lanes[l].lane == LANES[l] && AllIn(u.entries[j].lanes[l].displayed, u.ids)
    {
      if u.entries[k].mode != MODES[k] || |u.entries[k].lanes| != 4 { return false; }
      for l := 0 to 4
        invariant forall j :: 0 <= j < l ==> u.entries[k].lanes[j].lane == LANES[j] && AllIn(u.entries[k].lanes[j].displayed, u.ids)
      {
        var published := AllPublished(u.entries[k].lanes[l].displayed, u.ids);
        if u.entries[k].lanes[l].lane != LANES[l] || !published { return false; }
      }
    }
  }

  /** Some ranking or some lane shows `id`. */
  ghost predicate Displays(u: Universe, id: string)
    requires |u.risks| == 3 && EntriesListed(u)
  {
    || (exists k :: 0 <= k < 3 && id in u.risks[k].displayed)
    || (exists k, l :: 0 <= k < 3 && 0 <= l < 4 && id in u.entries[k].lanes[l].displayed)
  }

  /** Exactly one position holds `id`. */
  ghost predicate ResolvesOnce(ids: seq<string>, id: string) {
    exists i :: 0 <= i < |ids| && ids[i] == id && forall j :: 0 <= j < |ids| && j != i ==> ids[j] != id
  }

  /** In an accepted universe every displayed identifier belongs to exactly one published card. */
  lemma DisplayedIdsResolveOnce(u: Universe, id: string)
    requires SummaryAccepts(u) && Displays(u, id)
    ensures ResolvesOnce(u.ids, id)
  {
    DisplayedIsPublished(u, id);
    PublishedResolvesOnce(u.ids, id);
  }

  lemma DisplayedIsPublished(u: Universe, id: string)
    requires SummaryAccepts(u) && Displays(u, id)
    ensures id in u.ids
  {
    hide StrictlyIncreasing, IsUuid;
    if k :| 0 <= k < 3 && id in u.risks[k].displayed {
      assert RiskOk(u.risks[k], MODES[k], u.ids);
    }
  }

  lemma PublishedResolvesOnce(ids: seq<string>, id: string)
    requires StrictlyIncreasing(ids) && id in ids
    ensures ResolvesOnce(ids, id)
  {
    hide StringLess;
    IncreasingIsDistinct(ids);
    var i :| 0 <= i < |ids| && ids[i] == id;
    assert forall j :: 0 <= j < |ids| && j != i ==> ids[j] != id;
  }

  lemma IncreasingIsDistinct(ids: seq<string>)
    requires StrictlyIncreasing(ids)
    ensures Distinct(ids)
  {}

  /** The full parser with entries accepts exactly what the summary parser accepts and whose lane
      counts reconcile. The summary parser does not ask for that: it takes an empty universe whose
      hard-gate counts are all `wrong`, whatever `wrong` is, where the full parser takes only 0. */
  lemma SummarySkipsReconciliation(u: Universe, wrong: nat)
    ensures FullAccepts(u, true) <==> SummaryAccepts(u) && forall k :: 0 <= k < 3 ==> LanesReconcile(u.entries[k])
    ensures SummaryAccepts(EmptyUniverse(wrong))
    ensures FullAccepts(EmptyUniverse(wrong), true) <==> wrong == 0
  {
    hide Nearest, Plus;
    NearestIsExact(0);
    NothingAdded();
    var lanes := EmptyUniverse(wrong).entries[0].lanes;
    assert lanes[..3][..2] == lanes[..2] && lanes[..2][..1] == lanes[..1] && lanes[..1][..0] == [];
    assert Qualifying(lanes[..1]) == 0;
    assert Qualifying(lanes[..2]) == 0;
    assert Qualifying(lanes[..3]) == 0;
    assert Qualifying(lanes) == 0;
    assert LanesReconcile(EmptyUniverse(wrong).entries[0]) <==> wrong == 0;
  }

  function ExactQualifying(lanes: seq<Lane>): nat {
    if lanes == [] then 0 else ExactQualifying(lanes[..|lanes| - 1]) + lanes[|lanes| - 1].qualifying
  }

  lemma {:induction false} QualifyingIsExact(lanes: seq<Lane>)
    ensures Qualifying(lanes) < EXACT ==> Qualifying(lanes) == ExactQualifying(lanes)
    ensures ExactQualifying(lanes) >= EXACT ==> Qualifying(lanes) >= EXACT
  {
    hide Nearest, Plus;
    if lanes != [] {
      var before, last := lanes[..|lanes| - 1], lanes[|lanes| - 1].qualifying;
      QualifyingIsExact(before);
      PlusIsExact(Qualifying(before), last);
      PlusGrows(Qualifying(before), last);
    }
  }

  /** Below the limit of exact counts an accepted universe reconciles exactly: covered and missing members
      are all members, and each mode's lanes hold all its hard-gate count. At it they need not: a universe is
      accepted with one member too many. */
  lemma AcceptedCountsAreExact(u: Universe)
    ensures CommonOk(u) && u.members < EXACT ==> u.covered + u.missing == u.members
    ensures FullAccepts(u, true) ==> forall k :: 0 <= k < 3 && u.entries[k].hardGateQualified < EXACT ==>
              ExactQualifying(u.entries[k].lanes) == u.entries[k].hardGateQualified
    ensures FullAccepts(LossyUniverse(), true) && LossyUniverse().covered + LossyUniverse().missing == LossyUniverse().members + 1
  {
    hide Nearest, Plus, StrictlyIncreasing, IsUuid, RiskOk, AllIn;
    PlusIsExact(u.covered, u.missing);
    LossyIsAccepted();
    if FullAccepts(u, true) {
      forall k | 0 <= k < 3 && u.entries[k].hardGateQualified < EXACT
        ensures ExactQualifying(u.entries[k].lanes) == u.entries[k].hardGateQualified {
        assert LanesReconcile(u.entries[k]);
        QualifyingIsExact(u.entries[k].lanes);
      }
    }
  }

  function LossyUniverse(): Universe { EmptyUniverse(0).(members := EXACT, covered := EXACT, missing := 1) }

  lemma LossyIsAccepted()
    ensures FullAccepts(LossyUniverse(), true)
  {
    hide Nearest, Plus, LanesReconcile;
    OneIsLost();
    SummarySkipsReconciliation(EmptyUniverse(0), 0);
    assert FullAccepts(EmptyUniverse(0), true);
  }

  function EmptyUniverse(hardGate: nat): Universe {
    var lanes := seq(4, l requires 0 <= l < 4 => Lane(LANES[l], 0, 0, []));
    Universe(0, 0, 0, seq(3, k requires 0 <= k < 3 => RiskResult(MODES[k], 0, 0, [])), [],
             seq(3, k requires 0 <= k < 3 => EntryMode(MODES[k], hardGate, lanes)))
  }
}

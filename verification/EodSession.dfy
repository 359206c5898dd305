/** Validation of one session's price bars: one pass that fills a key set and a count table,
    against what acceptance means for all records at once. */
module EodSession {
  import opened Outcomes
  import opened Ordering

  datatype Bar = Bar(instrumentId: string, sessionDate: string, source: string, revision: int,
                     isLatest: bool, content: string)

  /** Identifies one revision of one bar. */
  datatype BusinessKey = BusinessKey(logical: LogicalKey, revision: int)

  /** Identifies a bar across its revisions. */
  datatype LogicalKey = LogicalKey(instrumentId: string, sessionDate: string, source: string)

  function LogicalOf(b: Bar): LogicalKey { LogicalKey(b.instrumentId, b.sessionDate, b.source) }

  function BusinessOf(b: Bar): BusinessKey { BusinessKey(LogicalOf(b), b.revision) }

  ghost predicate SameBar(a: Bar, b: Bar) {
    a.instrumentId == b.instrumentId && a.sessionDate == b.sessionDate && a.source == b.source
  }

  ghost predicate SameRevision(a: Bar, b: Bar) { SameBar(a, b) && a.revision == b.revision }

  /** `a` comes before `b` by instrument, then date, then source, then revision. */
  ghost predicate Before(a: Bar, b: Bar) {
    || StringLess(a.instrumentId, b.instrumentId)
    || (a.instrumentId == b.instrumentId
        && (|| StringLess(a.sessionDate, b.sessionDate)
            || (a.sessionDate == b.sessionDate
                && (|| StringLess(a.source, b.source)
                    || (a.source == b.source && a.revision < b.revision)))))
  }

  /** The canonical order: by instrument, date, source and revision. */
  predicate NotAfter(a: Bar, b: Bar) {
    if a.instrumentId != b.instrumentId then StringLeq(a.instrumentId, b.instrumentId)
    else if a.sessionDate != b.sessionDate then StringLeq(a.sessionDate, b.sessionDate)
    else if a.source != b.source then StringLeq(a.source, b.source)
    else a.revision <= b.revision
  }

  datatype SessionError = OutsideSession | DuplicateKey | ContradictoryLatest

  /** Some record claims to be the latest revision of `key`. */
  ghost predicate ClaimsLatest(bars: seq<Bar>, key: LogicalKey) {
    exists i :: 0 <= i < |bars| && bars[i].isLatest && LogicalOf(bars[i]) == key
  }

  ghost predicate DatesMatch(bars: seq<Bar>, date: string) { forall i :: 0 <= i < |bars| ==> bars[i].sessionDate == date }

  ghost predicate KeysDistinct(bars: seq<Bar>) {
    forall i, j :: 0 <= i < j < |bars| ==> !SameRevision(bars[i], bars[j])
  }

  /** No two records both claim to be the latest revision of the same bar. */
  ghost predicate OneLatest(bars: seq<Bar>) {
    forall i, j :: 0 <= i < j < |bars| && bars[i].isLatest && bars[j].isLatest ==> !SameBar(bars[i], bars[j])
  }

  ghost predicate Valid(bars: seq<Bar>, date: string) {
    DatesMatch(bars, date) && KeysDistinct(bars) && OneLatest(bars)
  }

  /** Ascending canonical order with no key twice. */
  ghost predicate Canonical(bars: seq<Bar>) {
    forall i, j :: 0 <= i < j < |bars| ==> Before(bars[i], bars[j])
  }

  ghost predicate SeenKey(bars: seq<Bar>, b: Bar) {
    exists i :: 0 <= i < |bars| && BusinessOf(bars[i]) == BusinessOf(b)
  }

  /** What is wrong with a record coming after `bars`, checked in this order. */
  ghost function Fault(bars: seq<Bar>, b: Bar, date: string): Option<SessionError> {
    if b.sessionDate != date then Some(OutsideSession)
    else if SeenKey(bars, b) then Some(DuplicateKey)
    else if b.isLatest && ClaimsLatest(bars, LogicalOf(b)) then Some(ContradictoryLatest)
    else None
  }

  /** The error of the first record that has one: everything before it is valid. */
  ghost predicate FirstFault(bars: seq<Bar>, date: string, e: SessionError, i: int) {
    0 <= i < |bars| && Valid(bars[..i], date) && Fault(bars[..i], bars[i], date) == Some(e)
  }

  method ValidateOneSessionRecords(records: seq<Bar>, sessionDate: string) returns (r: Result<seq<Bar>, SessionError>)
    ensures r.Success? <==> Valid(records, sessionDate)
    ensures r.Success? ==> multiset(r.value) == multiset(records) && Canonical(r.value)
    ensures r.Failure? ==> exists i :: FirstFault(records, sessionDate, r.error, i)
  {
    hide NotAfter, Sort;
    var businessKeys: set<BusinessKey> := {};
    var latestCounts: map<LogicalKey, nat> := map[];
    for i := 0 to |records|
      invariant businessKeys == set k | 0 <= k < i :: BusinessOf(records[k])
      invariant forall key :: key in latestCounts <==> ClaimsLatest(records[..i], key)
      invariant forall key :: key in latestCounts ==> latestCounts[key] == 1
      invariant DatesMatch(records[..i], sessionDate) && KeysDistinct(records[..i]) && OneLatest(records[..i])
    {
      var record := records[i];
      assert records[..i + 1] == records[..i] + [record];
      FaultIsInvalid(records, i, sessionDate);
      if record.sessionDate != sessionDate {
        assert FirstFault(records, sessionDate, OutsideSession, i);
        return Failure(OutsideSession);
      }
      var key := BusinessOf(record);
      SeenIsSeen(records, i);
      if key in businessKeys {
        assert FirstFault(records, sessionDate, DuplicateKey, i);
        return Failure(DuplicateKey);
      }
      businessKeys := businessKeys + {key};
      forall k ensures ClaimsLatest(records[..i + 1], k) <==>
                       ClaimsLatest(records[..i], k) || (record.isLatest && LogicalOf(record) == k) {
        ClaimsGrow(records[..i], record, k);
      }
      if record.isLatest {
        var latestKey := LogicalOf(record);
        latestCounts := latestCounts[latestKey := (if latestKey in latestCounts then latestCounts[latestKey] else 0) + 1];
        if latestCounts[latestKey] > 1 {
          assert FirstFault(records, sessionDate, ContradictoryLatest, i);
          return Failure(ContradictoryLatest);
        }
      }
    }
    assert records[..|records|] == records;
    SortedIsCanonical(records);
    return Success(Sort(NotAfter, records));
  }

  lemma ClaimsGrow(bars: seq<Bar>, b: Bar, key: LogicalKey)
    ensures ClaimsLatest(bars + [b], key) <==> ClaimsLatest(bars, key) || (b.isLatest && LogicalOf(b) == key)
  {
    var more := bars + [b];
    assert more[|bars|] == b;
    if ClaimsLatest(bars, key) {
      var i :| 0 <= i < |bars| && bars[i].isLatest && LogicalOf(bars[i]) == key;
      assert more[i] == bars[i];
    }
  }

  lemma SeenIsSeen(bars: seq<Bar>, i: nat)
    requires i < |bars|
    ensures SeenKey(bars[..i], bars[i]) <==> BusinessOf(bars[i]) in set k | 0 <= k < i :: BusinessOf(bars[k])
  {
    if SeenKey(bars[..i], bars[i]) {
      var k :| 0 <= k < i && BusinessOf(bars[..i][k]) == BusinessOf(bars[i]);
      assert bars[..i][k] == bars[k];
    }
    if BusinessOf(bars[i]) in set k | 0 <= k < i :: BusinessOf(bars[k]) {
      var k :| 0 <= k < i && BusinessOf(bars[k]) == BusinessOf(bars[i]);
      assert bars[..i][k] == bars[k];
    }
  }

  lemma FaultIsInvalid(bars: seq<Bar>, i: nat, date: string)
    requires i < |bars|
    ensures Fault(bars[..i], bars[i], date).Some? ==> !Valid(bars, date)
  {
    if SeenKey(bars[..i], bars[i]) {
      var k :| 0 <= k < i && BusinessOf(bars[..i][k]) == BusinessOf(bars[i]);
      assert bars[k] == bars[..i][k];
    }
    if bars[i].isLatest && ClaimsLatest(bars[..i], LogicalOf(bars[i])) {
      var k :| 0 <= k < i && bars[..i][k].isLatest && LogicalOf(bars[..i][k]) == LogicalOf(bars[i]);
      assert bars[k] == bars[..i][k];
    }
  }

  lemma NotAfterIsOrder(bars: seq<Bar>)
    ensures Orders(NotAfter, bars)
    ensures forall a, b :: NotAfter(a, b) && NotAfter(b, a) ==> BusinessOf(a) == BusinessOf(b)
  {
    hide StringLeq;
    StringOrder();
    forall a: Bar, b: Bar ensures NotAfter(a, b) || NotAfter(b, a)
                          ensures NotAfter(a, b) && NotAfter(b, a) ==> BusinessOf(a) == BusinessOf(b) {
      TextTotal(a.instrumentId, b.instrumentId);
      TextTotal(a.sessionDate, b.sessionDate);
      TextTotal(a.source, b.source);
    }
    forall a: Bar, b: Bar, c: Bar | NotAfter(a, b) && NotAfter(b, c) ensures NotAfter(a, c) {
      NotAfterTransitive(a, b, c);
    }
  }

  lemma TextTotal(x: string, y: string)
    ensures StringLeq(x, y) || StringLeq(y, x)
    ensures StringLeq(x, y) && StringLeq(y, x) ==> x == y
  {
    LexTotal(CharLess, x, y);
  }

  lemma TextTransitive(x: string, y: string, z: string)
    ensures StringLeq(x, y) && StringLeq(y, z) ==> StringLeq(x, z)
  {
    if StringLeq(x, y) && StringLeq(y, z) { LexTransitive(CharLess, x, y, z); }
  }

  lemma NotAfterTransitive(a: Bar, b: Bar, c: Bar)
    requires NotAfter(a, b) && NotAfter(b, c)
    ensures NotAfter(a, c)
  {
    hide StringLeq;
    TextTransitive(a.instrumentId, b.instrumentId, c.instrumentId);
    TextTransitive(a.sessionDate, b.sessionDate, c.sessionDate);
    TextTransitive(a.source, b.source, c.source);
    TextTotal(a.instrumentId, b.instrumentId);
    TextTotal(b.instrumentId, c.instrumentId);
    TextTotal(a.sessionDate, b.sessionDate);
    TextTotal(b.sessionDate, c.sessionDate);
    TextTotal(a.source, b.source);
    TextTotal(b.source, c.source);
  }

  lemma SortedIsCanonical(bars: seq<Bar>)
    requires KeysDistinct(bars)
    ensures Canonical(Sort(NotAfter, bars))
  {
    hide NotAfter, Sort;
    NotAfterIsOrder(bars);
    SortSorts(NotAfter, bars);
    var sorted := Sort(NotAfter, bars);
    SameElements(sorted, bars);
    assert Distinct(bars) by {
      forall i, j | 0 <= i < j < |bars| ensures bars[i] != bars[j] { assert BusinessOf(bars[i]) != BusinessOf(bars[j]); }
    }
    SortDistinct(NotAfter, bars);
    forall i, j | 0 <= i < j < |sorted| ensures NotAfter(sorted[i], sorted[j]) && !NotAfter(sorted[j], sorted[i]) {
      DifferentKeys(bars, sorted[i], sorted[j]);
    }
    forall i, j | 0 <= i < j < |sorted| ensures Before(sorted[i], sorted[j]) { StrictIsBefore(sorted[i], sorted[j]); }
  }

  lemma StrictIsBefore(a: Bar, b: Bar)
    ensures NotAfter(a, b) && !NotAfter(b, a) ==> Before(a, b)
  {
    hide StringLeq;
  }

  lemma DifferentKeys(bars: seq<Bar>, a: Bar, b: Bar)
    requires KeysDistinct(bars) && a in bars && b in bars && a != b
    ensures BusinessOf(a) != BusinessOf(b)
  {
    var i :| 0 <= i < |bars| && bars[i] == a;
    var j :| 0 <= j < |bars| && bars[j] == b;
  }

  /** Whether a session's records are accepted does not depend on the order the provider sends them
      in, and neither does what is returned. */
  lemma ValidityForgetsOrder(a: seq<Bar>, b: seq<Bar>, date: string)
    requires multiset(a) == multiset(b) && Valid(a, date)
    ensures Valid(b, date) && Sort(NotAfter, a) == Sort(NotAfter, b)
  {
    hide NotAfter, Sort;
    SameElements(a, b);
    DistinctRecords(a);
    DistinctBag(a);
    BagDistinct(b);
    forall i | 0 <= i < |b| ensures b[i].sessionDate == date {
      assert b[i] in a;
      var k :| 0 <= k < |a| && a[k] == b[i];
    }
    forall i, j | 0 <= i < j < |b| ensures BusinessOf(b[i]) != BusinessOf(b[j])
                 ensures b[i].isLatest && b[j].isLatest ==> LogicalOf(b[i]) != LogicalOf(b[j]) {
      assert b[i] in a && b[j] in a && b[i] != b[j];
      DifferentKeys(a, b[i], b[j]);
      var k :| 0 <= k < |a| && a[k] == b[i];
      var l :| 0 <= l < |a| && a[l] == b[j];
    }
    NotAfterIsOrder(a);
    forall x, y | x in a && y in a && NotAfter(x, y) && NotAfter(y, x) ensures x == y {
      if x != y { DifferentKeys(a, x, y); }
    }
    SortForgetsOrder(NotAfter, a, b);
  }

  lemma DistinctRecords(bars: seq<Bar>)
    requires KeysDistinct(bars)
    ensures Distinct(bars)
  {
    forall i, j | 0 <= i < j < |bars| ensures bars[i] != bars[j] { assert BusinessOf(bars[i]) != BusinessOf(bars[j]); }
  }
}

/** One client's rate limit: a list of recent times, pruned whenever it is touched, against the
    full history of everything ever recorded. Times are reals; the clock never runs backwards
    but may advance between any two of its readings. */
module SlidingWindow {
  import opened Outcomes

  const WINDOW: real := 60.0

  function Prune(xs: seq<real>, cut: real): seq<real> {
    if xs == [] then []
    else Prune(xs[..|xs| - 1], cut) + (if xs[|xs| - 1] > cut then [xs[|xs| - 1]] else [])
  }

  /** Pruning with the clock read again for every item, as recording does. */
  function PruneEach(xs: seq<real>, readings: seq<real>): seq<real> {
    if xs == [] || readings == [] then xs
    else (if xs[0] > readings[0] - WINDOW then [xs[0]] else []) + PruneEach(xs[1..], readings[1..])
  }

  datatype Recording = Recording(readings: seq<real>, at: real)

  /** A handler's use of the limiter: check first, record only if not limited and if at all. */
  datatype Attempt = Attempt(checkAt: real, recording: Option<Recording>)

  function Limited(xs: seq<real>, at: real, limit: nat): bool {
    |Prune(xs, at - WINDOW)| >= limit
  }

  function Records(xs: seq<real>, a: Attempt, limit: nat): bool {
    a.recording.Some? && !Limited(xs, a.checkAt, limit)
  }

  function Recorded(xs: seq<real>, r: Recording): seq<real> {
    PruneEach(xs, r.readings) + [r.at]
  }

  /** The stored list after one attempt. */
  function Attempted(xs: seq<real>, a: Attempt, limit: nat): seq<real> {
    var kept := Prune(xs, a.checkAt - WINDOW);
    if Records(xs, a, limit) then Recorded(kept, a.recording.value) else kept
  }

  /** The stored list after a run of attempts. */
  function After(h: seq<Attempt>, limit: nat): seq<real> {
    if h == [] then [] else Attempted(After(h[..|h| - 1], limit), h[|h| - 1], limit)
  }

  /** Every time ever recorded in the run, pruned by nothing. */
  function History(h: seq<Attempt>, limit: nat): seq<real> {
    if h == [] then []
    else
      var init, a := h[..|h| - 1], h[|h| - 1];
      History(init, limit) + (if Records(After(init, limit), a, limit) then [a.recording.value.at] else [])
  }

  // ---------- clock readings ----------

  ghost predicate Ascending(xs: seq<real>) {
    forall i, j :: 0 <= i <= j < |xs| ==> xs[i] <= xs[j]
  }

  ghost predicate Within(xs: seq<real>, lo: real, hi: real) {
    forall i :: 0 <= i < |xs| ==> lo <= xs[i] <= hi
  }

  function EndOf(a: Attempt): real {
    if a.recording.Some? then a.recording.value.at else a.checkAt
  }

  /** The readings an attempt takes come in order, the first not before `start`. */
  ghost predicate Timely(start: real, a: Attempt) {
    && start <= a.checkAt <= EndOf(a)
    && (a.recording.Some? ==> Within(a.recording.value.readings, a.checkAt, EndOf(a)))
  }

  function Now(h: seq<Attempt>, start: real): real {
    if h == [] then start else EndOf(h[|h| - 1])
  }

  /** A run whose clock readings never go backwards, the first not before `start`. */
  ghost predicate Legal(h: seq<Attempt>, start: real) {
    h != [] ==> Legal(h[..|h| - 1], start) && Timely(Now(h[..|h| - 1], start), h[|h| - 1])
  }

  ghost predicate UpTo(xs: seq<real>, hi: real) {
    forall i :: 0 <= i < |xs| ==> xs[i] <= hi
  }

  // ---------- pruning ----------

  lemma {:induction false} PruneTwice(xs: seq<real>, a: real, b: real)
    requires a <= b
    ensures Prune(Prune(xs, a), b) == Prune(xs, b)
  {
    if xs != [] {
      var init := xs[..|xs| - 1];
      PruneTwice(init, a, b);
      PruneAppend(Prune(init, a), xs[|xs| - 1], b);
      assert Prune(init, a) + [] == Prune(init, a) && Prune(init, b) + [] == Prune(init, b);
    }
  }

  lemma PruneAppend(xs: seq<real>, y: real, cut: real)
    ensures Prune(xs + [y], cut) == Prune(xs, cut) + (if y > cut then [y] else [])
  {
    assert (xs + [y])[..|xs|] == xs;
  }

  lemma {:induction false} PruneConcat(xs: seq<real>, ys: seq<real>, cut: real)
    ensures Prune(xs + ys, cut) == Prune(xs, cut) + Prune(ys, cut)
  {
    if ys == [] {
      assert xs + ys == xs;
    } else {
      var init, y := ys[..|ys| - 1], ys[|ys| - 1];
      PruneConcat(xs, init, cut);
      assert xs + ys == (xs + init) + [y];
      PruneAppend(xs + init, y, cut);
      assert ys == init + [y];
      PruneAppend(init, y, cut);
    }
  }

  /** Pruning item by item drops nothing a later check would count. */
  lemma {:induction false} PruneAfterEach(xs: seq<real>, readings: seq<real>, cut: real)
    requires UpTo(readings, cut + WINDOW)
    ensures Prune(PruneEach(xs, readings), cut) == Prune(xs, cut)
    ensures |PruneEach(xs, readings)| <= |xs|
  {
    if xs != [] && readings != [] {
      PruneAfterEach(xs[1..], readings[1..], cut);
      PruneConcat([xs[0]], xs[1..], cut);
      assert xs == [xs[0]] + xs[1..];
      if xs[0] > readings[0] - WINDOW {
        PruneConcat([xs[0]], PruneEach(xs[1..], readings[1..]), cut);
      } else {
        PruneUpTo([xs[0]], cut, xs[0]);
        assert PruneEach(xs, readings) == PruneEach(xs[1..], readings[1..]);
      }
    }
  }

  lemma {:induction false} EachExtends(xs: seq<real>, readings: seq<real>, x: real, reading: real)
    requires |xs| == |readings|
    ensures PruneEach(xs + [x], readings + [reading])
         == PruneEach(xs, readings) + (if x > reading - WINDOW then [x] else [])
  {
    if xs == [] {
      assert PruneEach([], []) == [];
    } else {
      EachExtends(xs[1..], readings[1..], x, reading);
      assert (xs + [x])[1..] == xs[1..] + [x] && (readings + [reading])[1..] == readings[1..] + [reading];
    }
  }

  lemma {:induction false} PruneAscends(xs: seq<real>, cut: real)
    requires Ascending(xs)
    ensures Ascending(Prune(xs, cut)) && |Prune(xs, cut)| <= |xs|
    ensures xs != [] ==> UpTo(Prune(xs, cut), xs[|xs| - 1])
  {
    if xs != [] { PruneAscends(xs[..|xs| - 1], cut); }
  }

  lemma {:induction false} PruneUpTo(xs: seq<real>, cut: real, hi: real)
    requires UpTo(xs, hi)
    ensures UpTo(Prune(xs, cut), hi)
    ensures hi <= cut ==> Prune(xs, cut) == []
  {
    if xs != [] { PruneUpTo(xs[..|xs| - 1], cut, hi); }
  }

  lemma {:induction false} EachAscends(xs: seq<real>, readings: seq<real>)
    requires Ascending(xs)
    ensures Ascending(PruneEach(xs, readings))
    ensures xs != [] ==> forall i :: 0 <= i < |PruneEach(xs, readings)| ==> xs[0] <= PruneEach(xs, readings)[i]
  {
    if xs != [] && readings != [] { EachAscends(xs[1..], readings[1..]); }
  }

  lemma {:induction false} EachUpTo(xs: seq<real>, readings: seq<real>, hi: real)
    requires UpTo(xs, hi)
    ensures UpTo(PruneEach(xs, readings), hi)
  {
    if xs != [] && readings != [] { EachUpTo(xs[1..], readings[1..], hi); }
  }

  /** In an ascending list everything from the first survivor on survives. */
  lemma {:induction false} SurvivorsAreSuffix(xs: seq<real>, cut: real, i: nat)
    requires Ascending(xs) && i < |xs|
    ensures xs[i] > cut <==> |Prune(xs, cut)| >= |xs| - i
  {
    var last := xs[|xs| - 1];
    if last <= cut {
      PruneUpTo(xs, cut, last);
    } else if i < |xs| - 1 {
      SurvivorsAreSuffix(xs[..|xs| - 1], cut, i);
    }
  }

  // ---------- the invariant of every run ----------

  /** Any `limit + 1` consecutive recordings span at least a whole window. */
  ghost predicate Spaced(full: seq<real>, limit: nat) {
    forall j :: limit <= j < |full| ==> full[j] >= full[j - limit] + WINDOW
  }

  /** No check at `now` or later tells the two lists apart. */
  ghost predicate Agree(xs: seq<real>, full: seq<real>, now: real) {
    forall cut :: cut >= now - WINDOW ==> Prune(xs, cut) == Prune(full, cut)
  }

  /** What the stored list `xs` says about the full history at any time not before `now`. */
  ghost predicate Tracks(xs: seq<real>, full: seq<real>, now: real, limit: nat) {
    && Ascending(xs) && |xs| <= limit
    && Ascending(full) && UpTo(xs, now) && UpTo(full, now)
    && Agree(xs, full, now)
    && Spaced(full, limit)
  }

  lemma CheckTracks(xs: seq<real>, full: seq<real>, now: real, limit: nat, at: real)
    requires Tracks(xs, full, now, limit) && now <= at
    ensures Tracks(Prune(xs, at - WINDOW), full, at, limit)
  {
    PruneAscends(xs, at - WINDOW);
    PruneUpTo(xs, at - WINDOW, at);
    forall cut | cut >= at - WINDOW ensures Prune(Prune(xs, at - WINDOW), cut) == Prune(full, cut) {
      PruneTwice(xs, at - WINDOW, cut);
    }
  }

  /** Not being limited means the recording `limit` places back has left the window. */
  lemma RecordingIsSpaced(full: seq<real>, checkAt: real, limit: nat, at: real)
    requires Ascending(full) && Spaced(full, limit) && limit > 0
    requires |Prune(full, checkAt - WINDOW)| < limit && checkAt <= at
    ensures Spaced(full + [at], limit)
  {
    if |full| >= limit {
      SurvivorsAreSuffix(full, checkAt - WINDOW, |full| - limit);
    }
  }

  lemma RecordAgrees(kept: seq<real>, full: seq<real>, checkAt: real, r: Recording)
    requires Agree(kept, full, checkAt) && checkAt <= r.at && Within(r.readings, checkAt, r.at)
    ensures Agree(Recorded(kept, r), full + [r.at], r.at)
  {
    var each := PruneEach(kept, r.readings);
    forall cut | cut >= r.at - WINDOW ensures Prune(each + [r.at], cut) == Prune(full + [r.at], cut) {
      PruneAfterEach(kept, r.readings, cut);
      PruneAppend(each, r.at, cut);
      PruneAppend(full, r.at, cut);
    }
  }

  lemma RecordTracks(kept: seq<real>, full: seq<real>, checkAt: real, limit: nat, r: Recording)
    requires Tracks(kept, full, checkAt, limit) && |kept| < limit
    requires |Prune(full, checkAt - WINDOW)| < limit
    requires checkAt <= r.at && Within(r.readings, checkAt, r.at)
    ensures Tracks(Recorded(kept, r), full + [r.at], r.at, limit)
  {
    hide Agree, PruneEach, Spaced;
    EachAscends(kept, r.readings);
    EachUpTo(kept, r.readings, checkAt);
    PruneAfterEach(kept, r.readings, r.at - WINDOW);
    RecordingIsSpaced(full, checkAt, limit, r.at);
    RecordAgrees(kept, full, checkAt, r);
  }

  lemma SameKept(xs: seq<real>, full: seq<real>, now: real, limit: nat, at: real)
    requires Tracks(xs, full, now, limit) && now <= at
    ensures Prune(xs, at - WINDOW) == Prune(full, at - WINDOW)
  {
    hide Prune;
  }

  lemma LaterTracks(xs: seq<real>, full: seq<real>, now: real, limit: nat, later: real)
    requires Tracks(xs, full, now, limit) && now <= later
    ensures Tracks(xs, full, later, limit)
  {
    hide Prune;
  }

  lemma AttemptTracks(xs: seq<real>, full: seq<real>, now: real, limit: nat, a: Attempt)
    requires Tracks(xs, full, now, limit) && limit > 0 && Timely(now, a)
    ensures Tracks(Attempted(xs, a, limit), if Records(xs, a, limit) then full + [a.recording.value.at] else full,
                   EndOf(a), limit)
  {
    hide Tracks, Prune, PruneEach, Within;
    var kept := Prune(xs, a.checkAt - WINDOW);
    SameKept(xs, full, now, limit, a.checkAt);
    CheckTracks(xs, full, now, limit, a.checkAt);
    if Records(xs, a, limit) {
      RecordTracks(kept, full, a.checkAt, limit, a.recording.value);
    } else {
      LaterTracks(kept, full, a.checkAt, limit, EndOf(a));
    }
  }

  /** In every run the stored list tracks the full history. */
  lemma {:induction false} RunTracks(h: seq<Attempt>, limit: nat, start: real)
    requires Legal(h, start) && limit > 0
    ensures Tracks(After(h, limit), History(h, limit), Now(h, start), limit)
  {
    hide Tracks, Timely, Attempted, Records;
    if h == [] {
      NothingYet(limit, start);
    } else {
      var init := h[..|h| - 1];
      RunTracks(init, limit, start);
      AttemptTracks(After(init, limit), History(init, limit), Now(init, start), limit, h[|h| - 1]);
      assert History(init, limit) + [] == History(init, limit);
    }
  }

  lemma NothingYet(limit: nat, start: real)
    ensures Tracks([], [], start, limit)
  {}

  // ---------- what a run promises ----------

  /** The recordings in the half-open window `(lo, hi]`. */
  function InWindow(full: seq<real>, lo: real, hi: real): seq<real> {
    if full == [] then []
    else
      var x := full[|full| - 1];
      InWindow(full[..|full| - 1], lo, hi) + (if lo < x <= hi then [x] else [])
  }

  lemma {:induction false} AllBelow(full: seq<real>, lo: real, hi: real)
    requires UpTo(full, hi)
    ensures InWindow(full, lo, hi) == Prune(full, lo)
  {
    if full != [] { AllBelow(full[..|full| - 1], lo, hi); }
  }

  lemma {:induction false} SpacedBound(full: seq<real>, limit: nat, t: real)
    requires Ascending(full) && Spaced(full, limit)
    ensures |InWindow(full, t - WINDOW, t)| <= limit
  {
    if full != [] {
      if full[|full| - 1] > t {
        SpacedBound(full[..|full| - 1], limit, t);
      } else {
        AllBelow(full, t - WINDOW, t);
        PruneAscends(full, t - WINDOW);
        if |full| > limit {
          SurvivorsAreSuffix(full, t - WINDOW, |full| - 1 - limit);
        }
      }
    }
  }

  /** No window of the run, wherever it ends, holds more than `limit` recordings. */
  lemma {:induction false} WindowNeverExceeded(h: seq<Attempt>, limit: nat, start: real, t: real)
    requires Legal(h, start) && limit > 0
    ensures |InWindow(History(h, limit), t - WINDOW, t)| <= limit
  {
    RunTracks(h, limit, start);
    SpacedBound(History(h, limit), limit, t);
  }

  /** Checking the pruned list answers as counting the full history in the window would. */
  lemma {:induction false} CheckIsExact(h: seq<Attempt>, limit: nat, start: real, at: real)
    requires Legal(h, start) && limit > 0 && Now(h, start) <= at
    ensures Limited(After(h, limit), at, limit) <==> |InWindow(History(h, limit), at - WINDOW, at)| >= limit
    ensures |After(h, limit)| <= limit && Ascending(After(h, limit))
  {
    RunTracks(h, limit, start);
    AllBelow(History(h, limit), at - WINDOW, at);
  }

  /** One more attempt is recorded exactly when it comes to that and fewer than the limit were recorded in the
      window before its check. */
  lemma RecordedIffRoom(h: seq<Attempt>, a: Attempt, limit: nat, start: real)
    requires Legal(h + [a], start) && limit > 0
    ensures var full := History(h, limit);
            var room := |InWindow(full, a.checkAt - 60.0, a.checkAt)| < limit;
            History(h + [a], limit) == if a.recording.Some? && room then full + [a.recording.value.at] else full
  {
    hide Limited, History;
    assert (h + [a])[..|h|] == h;
    CheckIsExact(h, limit, start, a.checkAt);
    OneMore(h, a, limit);
  }

  lemma OneMore(h: seq<Attempt>, a: Attempt, limit: nat)
    ensures History(h + [a], limit)
         == History(h, limit) + if Records(After(h, limit), a, limit) then [a.recording.value.at] else []
  {
    assert (h + [a])[..|h|] == h;
  }
}

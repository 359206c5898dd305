/** The session table, evicting lazily, against a specification that looks only at the history
    of what was asked of it. */
module Sessions {

  const TTL: real := 604800.0

  datatype Source = CredentialEntry | GuestEntry

  datatype Session = Session(expiresAt: real, source: Source, counted: bool)

  type Table = map<string, Session>

  /** One use of the table, with the clock readings it takes and the random token it draws. */
  datatype Event =
    | Create(token: string, source: Source, cleanupAt: real, stampAt: real)
    | Check(token: string, at: real)
    | Logout(token: string)
    | Visit(token: string, at: real, persisted: bool)
    | Sweep(at: real)

  datatype Answer = Granted | Full | Known(ok: bool) | LoggedOut | Swept
                  | Unauthorized | Unavailable | Shown | Counted

  // ---------- the table ----------

  function Cleanup(t: Table, now: real): Table {
    map k | k in t && t[k].expiresAt > now :: t[k]
  }

  function Created(t: Table, e: Event, max: nat): (Table, Answer)
    requires e.Create?
  {
    var kept := Cleanup(t, e.cleanupAt);
    if |kept| >= max then (kept, Full)
    else (kept[e.token := Session(e.stampAt + TTL, e.source, false)], Granted)
  }

  function Checked(t: Table, token: string, at: real): (Table, bool) {
    if token !in t then (t, false)
    else if t[token].expiresAt <= at then (t - {token}, false)
    else (t, true)
  }

  function Visited(t: Table, e: Event): (Table, Answer)
    requires e.Visit?
  {
    var (kept, ok) := Checked(t, e.token, e.at);
    if !ok then (kept, Unauthorized)
    else if kept[e.token].source != GuestEntry || kept[e.token].counted then (kept, Shown)
    else if e.persisted then (kept[e.token := kept[e.token].(counted := true)], Counted)
    else (kept, Unavailable)
  }

  function Apply(t: Table, e: Event, max: nat): (Table, Answer) {
    match e
    case Create(_, _, _, _) => Created(t, e, max)
    case Check(token, at) => var (kept, ok) := Checked(t, token, at); (kept, Known(ok))
    case Logout(token) => (t - {token}, LoggedOut)
    case Visit(_, _, _) => Visited(t, e)
    case Sweep(at) => (Cleanup(t, at), Swept)
  }

  function After(h: seq<Event>, max: nat): Table {
    if h == [] then map[] else Apply(After(h[..|h| - 1], max), h[|h| - 1], max).0
  }

  // ---------- the history specification ----------

  /** The event at `i` created `token`: it was a creation, and it was granted. */
  ghost predicate CreatedAt(h: seq<Event>, max: nat, i: int, token: string)
    decreases |h|, 1
  {
    && 0 <= i < |h| && h[i].Create? && h[i].token == token
    && SpecAnswer(h[..i], max, h[i]) == Granted
  }

  /** `token` was created, its lifetime has not run out at `n`, and no logout of it came since. */
  ghost predicate Live(h: seq<Event>, max: nat, token: string, n: real)
    decreases |h|, 2
  {
    exists i :: CreatedAt(h, max, i, token) && n < h[i].stampAt + TTL
                && forall j :: i < j < |h| ==> h[j] != Logout(token)
  }

  ghost predicate CreatedAsGuest(h: seq<Event>, max: nat, token: string)
    decreases |h|, 2
  {
    exists i :: CreatedAt(h, max, i, token) && h[i].source == GuestEntry
  }

  ghost predicate CountedAt(h: seq<Event>, max: nat, i: int, token: string)
    decreases |h|, 1
  {
    && 0 <= i < |h| && h[i].Visit? && h[i].token == token
    && SpecAnswer(h[..i], max, h[i]) == Counted
  }

  ghost predicate AlreadyCounted(h: seq<Event>, max: nat, token: string)
    decreases |h|, 2
  {
    exists i :: 0 <= i < |h| && h[i].Visit? && CountedAt(h, max, i, token)
  }

  ghost function TokensDrawn(h: seq<Event>): set<string> {
    set i | 0 <= i < |h| && h[i].Create? :: h[i].token
  }

  ghost function LiveTokens(h: seq<Event>, max: nat, n: real): set<string>
    decreases |h|, 3
  {
    set token | token in TokensDrawn(h) && Live(h, max, token, n)
  }

  /** The answer the history calls for, without any table. */
  ghost function SpecAnswer(h: seq<Event>, max: nat, e: Event): Answer
    decreases |h|, 4
  {
    match e
    case Create(_, _, cleanupAt, _) => if |LiveTokens(h, max, cleanupAt)| >= max then Full else Granted
    case Check(token, at) => Known(Live(h, max, token, at))
    case Logout(_) => LoggedOut
    case Sweep(_) => Swept
    case Visit(token, at, persisted) =>
      if !Live(h, max, token, at) then Unauthorized
      else if !CreatedAsGuest(h, max, token) || AlreadyCounted(h, max, token) then Shown
      else if persisted then Counted else Unavailable
  }

  // ---------- legal runs ----------

  /** The last clock reading an event takes, if it takes any. */
  function EndOf(e: Event, before: real): real {
    match e
    case Create(_, _, _, stampAt) => stampAt
    case Check(_, at) => at
    case Logout(_) => before
    case Visit(_, at, _) => at
    case Sweep(at) => at
  }

  predicate Timely(before: real, e: Event) {
    match e
    case Create(_, _, cleanupAt, stampAt) => before <= cleanupAt <= stampAt
    case Check(_, at) => before <= at
    case Logout(_) => true
    case Visit(_, at, _) => before <= at
    case Sweep(at) => before <= at
  }

  function Now(h: seq<Event>, start: real): real {
    if h == [] then start else EndOf(h[|h| - 1], Now(h[..|h| - 1], start))
  }

  /** The clock never runs backwards, and every creation draws a token never drawn before. */
  ghost predicate Legal(h: seq<Event>, start: real) {
    h != [] ==>
      var init, e := h[..|h| - 1], h[|h| - 1];
      Legal(init, start) && Timely(Now(init, start), e) && (e.Create? ==> e.token !in TokensDrawn(init))
  }

  // ---------- how the specification grows by one event ----------

  lemma CreatedAtGrows(h: seq<Event>, e: Event, max: nat, i: int, token: string)
    ensures CreatedAt(h + [e], max, i, token) <==>
              CreatedAt(h, max, i, token) || (i == |h| && e.Create? && e.token == token && SpecAnswer(h, max, e) == Granted)
  {
    var g := h + [e];
    if 0 <= i <= |h| { assert g[..i] == h[..i]; }
    assert h[..|h|] == h;
  }

  lemma CountedAtGrows(h: seq<Event>, e: Event, max: nat, i: int, token: string)
    ensures CountedAt(h + [e], max, i, token) <==>
              CountedAt(h, max, i, token) || (i == |h| && e.Visit? && e.token == token && SpecAnswer(h, max, e) == Counted)
  {
    var g := h + [e];
    if 0 <= i <= |h| { assert g[..i] == h[..i]; }
    assert h[..|h|] == h;
  }

  lemma CreatedWasDrawn(h: seq<Event>, max: nat, i: int, token: string)
    ensures CreatedAt(h, max, i, token) ==> token in TokensDrawn(h)
  {}

  lemma LiveGrows(h: seq<Event>, e: Event, max: nat, token: string, n: real)
    requires e.Create? ==> e.token !in TokensDrawn(h)
    ensures Live(h + [e], max, token, n) <==>
              if e.Create? && e.token == token then SpecAnswer(h, max, e) == Granted && n < e.stampAt + TTL
              else e != Logout(token) && Live(h, max, token, n)
  {
    var g := h + [e];
    assert g[|h|] == e;
    if Live(h, max, token, n) && !(e.Create? && e.token == token) && e != Logout(token) {
      var i :| CreatedAt(h, max, i, token) && n < h[i].stampAt + TTL && forall j :: i < j < |h| ==> h[j] != Logout(token);
      CreatedAtGrows(h, e, max, i, token);
      assert CreatedAt(g, max, i, token) && n < g[i].stampAt + TTL;
      assert forall j :: i < j < |g| ==> g[j] != Logout(token);
    }
    if Live(g, max, token, n) {
      var i :| CreatedAt(g, max, i, token) && n < g[i].stampAt + TTL && forall j :: i < j < |g| ==> g[j] != Logout(token);
      CreatedAtGrows(h, e, max, i, token);
      CreatedWasDrawn(h, max, i, token);
      if i < |h| { assert forall j :: i < j < |h| ==> h[j] == g[j]; }
    }
    if e.Create? && e.token == token && SpecAnswer(h, max, e) == Granted && n < e.stampAt + TTL {
      CreatedAtGrows(h, e, max, |h|, token);
      assert CreatedAt(g, max, |h|, token);
    }
  }

  lemma GuestGrows(h: seq<Event>, e: Event, max: nat, token: string)
    requires e.Create? ==> e.token !in TokensDrawn(h)
    ensures CreatedAsGuest(h + [e], max, token) <==>
              if e.Create? && e.token == token then SpecAnswer(h, max, e) == Granted && e.source == GuestEntry
              else CreatedAsGuest(h, max, token)
  {
    var g := h + [e];
    assert g[|h|] == e;
    if CreatedAsGuest(h, max, token) {
      var i :| CreatedAt(h, max, i, token) && h[i].source == GuestEntry;
      CreatedAtGrows(h, e, max, i, token);
      CreatedWasDrawn(h, max, i, token);
      assert CreatedAt(g, max, i, token) && g[i] == h[i];
    }
    if CreatedAsGuest(g, max, token) {
      var i :| CreatedAt(g, max, i, token) && g[i].source == GuestEntry;
      CreatedAtGrows(h, e, max, i, token);
    }
    if e.Create? && e.token == token && SpecAnswer(h, max, e) == Granted {
      CreatedAtGrows(h, e, max, |h|, token);
      assert CreatedAt(g, max, |h|, token);
      forall i | CreatedAt(g, max, i, token) ensures i == |h| {
        CreatedAtGrows(h, e, max, i, token);
        CreatedWasDrawn(h, max, i, token);
      }
    }
  }

  lemma CountedGrows(h: seq<Event>, e: Event, max: nat, token: string)
    ensures AlreadyCounted(h + [e], max, token) <==>
              AlreadyCounted(h, max, token) || (e.Visit? && e.token == token && SpecAnswer(h, max, e) == Counted)
  {
    var g := h + [e];
    assert g[|h|] == e;
    CountedAtGrows(h, e, max, |h|, token);
    if AlreadyCounted(h, max, token) {
      var i :| 0 <= i < |h| && h[i].Visit? && CountedAt(h, max, i, token);
      CountedAtGrows(h, e, max, i, token);
      assert g[i] == h[i];
    }
    if AlreadyCounted(g, max, token) {
      var i :| 0 <= i < |g| && g[i].Visit? && CountedAt(g, max, i, token);
      CountedAtGrows(h, e, max, i, token);
    }
  }

  // ---------- refinement ----------

  /** What the table must hold, at and after `now`, to answer as the history does. Entries it
      has not evicted yet have expired already. */
  ghost predicate Agrees(t: Table, h: seq<Event>, max: nat, now: real) {
    && (forall token, n: real :: n >= now ==> (Live(h, max, token, n) <==> Holds(t, token, n)))
    && (forall token :: token in t ==> Describes(t[token], h, max, token))
    && (forall token :: AlreadyCounted(h, max, token) ==> token in TokensDrawn(h))
    && |t| <= max
  }

  predicate Holds(t: Table, token: string, n: real) {
    token in t && n < t[token].expiresAt
  }

  ghost predicate Describes(s: Session, h: seq<Event>, max: nat, token: string) {
    && token in TokensDrawn(h)
    && (s.source == GuestEntry <==> CreatedAsGuest(h, max, token))
    && (s.counted <==> AlreadyCounted(h, max, token))
  }

  lemma CleanupAgrees(t: Table, h: seq<Event>, max: nat, now: real, at: real)
    requires Agrees(t, h, max, now) && now <= at
    ensures Agrees(Cleanup(t, at), h, max, at)
    ensures Cleanup(t, at).Keys == LiveTokens(h, max, at)
  {
    var kept := Cleanup(t, at);
    forall token, n: real | n >= at ensures Live(h, max, token, n) <==> Holds(kept, token, n) {
      assert Live(h, max, token, n) <==> Holds(t, token, n);
    }
    forall token ensures token in kept <==> token in LiveTokens(h, max, at) {
      assert Live(h, max, token, at) <==> Holds(t, token, at);
      if Live(h, max, token, at) { assert Describes(t[token], h, max, token); }
    }
    assert kept.Keys <= t.Keys;
    SubsetSize(kept.Keys, t.Keys);
  }

  lemma SubsetSize<T>(a: set<T>, b: set<T>)
    requires a <= b
    ensures |a| <= |b|
  {
    assert b == a + (b - a);
  }

  lemma CheckAgrees(t: Table, h: seq<Event>, max: nat, now: real, token: string, at: real)
    requires Agrees(t, h, max, now) && now <= at
    ensures var (kept, ok) := Checked(t, token, at);
            Agrees(kept, h, max, at) && (ok <==> Live(h, max, token, at)) && (ok ==> token in kept && kept == t)
  {
    assert Live(h, max, token, at) <==> Holds(t, token, at);
    var kept := Checked(t, token, at).0;
    forall x, n: real | n >= at ensures Live(h, max, x, n) <==> Holds(kept, x, n) {
      assert Live(h, max, x, n) <==> Holds(t, x, n);
    }
    SubsetSize(kept.Keys, t.Keys);
  }

  lemma AnswerAgrees(t: Table, h: seq<Event>, max: nat, now: real, e: Event)
    requires Agrees(t, h, max, now) && Timely(now, e) && (e.Create? ==> e.token !in TokensDrawn(h))
    ensures Apply(t, e, max).1 == SpecAnswer(h, max, e)
  {
    match e
    case Create(_, _, cleanupAt, _) =>
      CleanupAgrees(t, h, max, now, cleanupAt);
      assert |Cleanup(t, cleanupAt)| == |Cleanup(t, cleanupAt).Keys|;
    case Check(token, at) => CheckAgrees(t, h, max, now, token, at);
    case Logout(_) =>
    case Sweep(_) =>
    case Visit(token, at, _) =>
      CheckAgrees(t, h, max, now, token, at);
      if token in t { assert Describes(t[token], h, max, token); }
  }

  lemma DrawnGrows(h: seq<Event>, e: Event)
    ensures TokensDrawn(h + [e]) == TokensDrawn(h) + (if e.Create? then {e.token} else {})
  {
    var g := h + [e];
    assert g[|h|] == e;
    forall token ensures token in TokensDrawn(g) <==> token in TokensDrawn(h) || (e.Create? && token == e.token) {
      if token in TokensDrawn(h) {
        var i :| 0 <= i < |h| && h[i].Create? && h[i].token == token;
        assert g[i] == h[i];
      }
    }
  }

  ghost predicate CanFollow(t: Table, h: seq<Event>, max: nat, now: real, e: Event) {
    Agrees(t, h, max, now) && Timely(now, e) && (e.Create? ==> e.token !in TokensDrawn(h))
  }

  lemma StepHolds(t: Table, h: seq<Event>, max: nat, now: real, e: Event, token: string, n: real)
    requires CanFollow(t, h, max, now, e) && n >= EndOf(e, now)
    ensures Live(h + [e], max, token, n) <==> Holds(Apply(t, e, max).0, token, n)
  {
    hide SpecAnswer, Live, CreatedAsGuest, AlreadyCounted, TokensDrawn;
    AnswerAgrees(t, h, max, now, e);
    LiveGrows(h, e, max, token, n);
    assert Live(h, max, token, n) <==> Holds(t, token, n);
  }

  lemma StepDescribes(t: Table, h: seq<Event>, max: nat, now: real, e: Event, token: string)
    requires CanFollow(t, h, max, now, e) && token in Apply(t, e, max).0
    ensures Describes(Apply(t, e, max).0[token], h + [e], max, token)
  {
    hide SpecAnswer, Live, CreatedAsGuest, AlreadyCounted, TokensDrawn;
    AnswerAgrees(t, h, max, now, e);
    if token in t { assert Describes(t[token], h, max, token); }
    GuestGrows(h, e, max, token);
    CountedGrows(h, e, max, token);
    DrawnGrows(h, e);
  }

  lemma StepSize(t: Table, e: Event, max: nat)
    requires |t| <= max
    ensures |Apply(t, e, max).0| <= max
  {
    if e.Create? {
      SubsetSize(Cleanup(t, e.cleanupAt).Keys, t.Keys);
    } else {
      SubsetSize(Apply(t, e, max).0.Keys, t.Keys);
    }
  }

  /** One event keeps table and history in agreement. */
  lemma StepAgrees(t: Table, h: seq<Event>, max: nat, now: real, e: Event)
    requires CanFollow(t, h, max, now, e)
    ensures Agrees(Apply(t, e, max).0, h + [e], max, EndOf(e, now))
  {
    hide SpecAnswer, Live, CreatedAsGuest, AlreadyCounted, TokensDrawn, Apply, Holds, Describes;
    var t', g := Apply(t, e, max).0, h + [e];
    forall token, n: real | n >= EndOf(e, now) ensures Live(g, max, token, n) <==> Holds(t', token, n) {
      StepHolds(t, h, max, now, e, token, n);
    }
    forall token | token in t' ensures Describes(t'[token], g, max, token) {
      StepDescribes(t, h, max, now, e, token);
    }
    forall token | AlreadyCounted(g, max, token) ensures token in TokensDrawn(g) {
      CountedGrows(h, e, max, token);
      DrawnGrows(h, e);
      if token !in TokensDrawn(h) { CountedWasDrawn(t, h, max, now, e); }
    }
    StepSize(t, e, max);
  }

  lemma CountedWasDrawn(t: Table, h: seq<Event>, max: nat, now: real, e: Event)
    requires CanFollow(t, h, max, now, e) && e.Visit? && SpecAnswer(h, max, e) == Counted
    ensures e.token in TokensDrawn(h)
  {
    assert Live(h, max, e.token, e.at) by {
      AnswerAgrees(t, h, max, now, e);
      CheckAgrees(t, h, max, now, e.token, e.at);
    }
    var i :| CreatedAt(h, max, i, e.token) && e.at < h[i].stampAt + TTL
             && forall j :: i < j < |h| ==> h[j] != Logout(e.token);
    CreatedWasDrawn(h, max, i, e.token);
  }

  /** In every legal run the table agrees with the history. */
  lemma {:induction false} RunAgrees(h: seq<Event>, max: nat, start: real)
    requires Legal(h, start)
    ensures Agrees(After(h, max), h, max, Now(h, start))
  {
    hide Agrees;
    if h == [] {
      NothingYet(max, start);
    } else {
      var init, e := h[..|h| - 1], h[|h| - 1];
      RunAgrees(init, max, start);
      StepAgrees(After(init, max), init, max, Now(init, start), e);
      assert h == init + [e];
    }
  }

  lemma NothingYet(max: nat, start: real)
    ensures Agrees(map[], [], max, start)
  {}

  /** The table answers every legal next event exactly as the history specification does. */
  lemma AnswersRefineHistory(h: seq<Event>, max: nat, start: real, e: Event)
    requires Legal(h + [e], start)
    ensures Apply(After(h, max), e, max).1 == SpecAnswer(h, max, e)
    ensures |After(h, max)| <= max
  {
    assert (h + [e])[..|h|] == h;
    RunAgrees(h, max, start);
    AnswerAgrees(After(h, max), h, max, Now(h, start), e);
  }

  /** The table, as the events before `i` left it, answered the event at `i` as counted. */
  ghost predicate AnsweredCounted(h: seq<Event>, max: nat, i: int, token: string) {
    0 <= i < |h| && h[i].Visit? && h[i].token == token && Apply(After(h[..i], max), h[i], max).1 == Counted
  }

  /** However often a token is checked, evicted and visited, the table answers it as counted once. */
  lemma CountedOnce(h: seq<Event>, max: nat, start: real, token: string, i: int, j: int)
    requires Legal(h, start) && AnsweredCounted(h, max, i, token) && AnsweredCounted(h, max, j, token)
    ensures i == j
  {
    hide Apply, SpecAnswer;
    AnsweredIsCounted(h, max, start, token, i);
    AnsweredIsCounted(h, max, start, token, j);
    if i < j { CountedEarlier(h, max, token, i, j); }
    if j < i { CountedEarlier(h, max, token, j, i); }
  }

  lemma AnsweredIsCounted(h: seq<Event>, max: nat, start: real, token: string, i: int)
    requires Legal(h, start) && AnsweredCounted(h, max, i, token)
    ensures CountedAt(h, max, i, token)
  {
    hide Apply, SpecAnswer;
    LegalPrefix(h, start, i + 1);
    assert h[..i + 1] == h[..i] + [h[i]];
    AnswersRefineHistory(h[..i], max, start, h[i]);
  }

  lemma {:induction false} LegalPrefix(h: seq<Event>, start: real, n: nat)
    requires Legal(h, start) && n <= |h|
    ensures Legal(h[..n], start)
  {
    if n < |h| {
      LegalPrefix(h[..|h| - 1], start, n);
      assert h[..|h| - 1][..n] == h[..n];
    } else {
      assert h[..n] == h;
    }
  }

  lemma CountedEarlier(h: seq<Event>, max: nat, token: string, i: int, j: int)
    requires CountedAt(h, max, i, token) && i < j < |h|
    ensures !CountedAt(h, max, j, token)
  {
    var before := h[..j];
    assert before[..i] == h[..i] && before[i] == h[i];
    assert CountedAt(before, max, i, token);
    assert AlreadyCounted(before, max, token);
  }

  // ---------- what the counter counts ----------

  /** The number of visits answered as counted. */
  ghost function CountedVisits(h: seq<Event>, max: nat): nat {
    if h == [] then 0
    else
      var init, e := h[..|h| - 1], h[|h| - 1];
      CountedVisits(init, max) + (if e.Visit? && SpecAnswer(init, max, e) == Counted then 1 else 0)
  }

  ghost function CountedTokens(h: seq<Event>, max: nat): set<string> {
    set token | token in TokensDrawn(h) && AlreadyCounted(h, max, token)
  }

  ghost predicate CountsGuests(h: seq<Event>, max: nat) {
    && CountedVisits(h, max) == |CountedTokens(h, max)|
    && forall token :: token in CountedTokens(h, max) ==> CreatedAsGuest(h, max, token)
  }

  lemma CountStep(t: Table, h: seq<Event>, max: nat, now: real, e: Event)
    requires CanFollow(t, h, max, now, e)
    ensures CountedTokens(h + [e], max)
         == CountedTokens(h, max) + (if e.Visit? && SpecAnswer(h, max, e) == Counted then {e.token} else {})
    ensures e.Visit? && SpecAnswer(h, max, e) == Counted ==> e.token !in CountedTokens(h, max) && CreatedAsGuest(h, max, e.token)
  {
    hide Live, CreatedAsGuest, AlreadyCounted, TokensDrawn;
    DrawnGrows(h, e);
    forall token ensures token in CountedTokens(h + [e], max) <==>
                         token in CountedTokens(h, max) || (e.Visit? && e.token == token && SpecAnswer(h, max, e) == Counted) {
      CountedGrows(h, e, max, token);
      if e.Visit? && SpecAnswer(h, max, e) == Counted { CountedWasDrawn(t, h, max, now, e); }
    }
  }

  /** In every legal run the counted visits are exactly as many as the tokens counted, each of
      them a guest's: the count never exceeds the guest entries granted. */
  lemma {:induction false} CountedVisitsAreGuests(h: seq<Event>, max: nat, start: real)
    requires Legal(h, start)
    ensures CountsGuests(h, max)
  {
    hide Live, CreatedAsGuest, AlreadyCounted, TokensDrawn, Apply, SpecAnswer, CountedTokens;
    if h == [] {
      NothingCounted(max);
    } else {
      var init, e := h[..|h| - 1], h[|h| - 1];
      CountedVisitsAreGuests(init, max, start);
      RunAgrees(init, max, start);
      CountStep(After(init, max), init, max, Now(init, start), e);
      assert h == init + [e];
      forall token | token in CountedTokens(h, max) ensures CreatedAsGuest(h, max, token) {
        GuestStays(init, e, max, token);
      }
    }
  }

  lemma NothingCounted(max: nat)
    ensures CountedTokens([], max) == {}
  {}

  lemma GuestStays(h: seq<Event>, e: Event, max: nat, token: string)
    requires CreatedAsGuest(h, max, token) && (e.Create? ==> e.token !in TokensDrawn(h))
    ensures CreatedAsGuest(h + [e], max, token)
  {
    hide SpecAnswer;
    GuestGrows(h, e, max, token);
    var i :| CreatedAt(h, max, i, token) && h[i].source == GuestEntry;
    CreatedWasDrawn(h, max, i, token);
  }
}

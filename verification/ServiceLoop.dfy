/** The service at work: requests dispatched to the handlers one after another. What a process did is a
    legal history of the server, and of the persisted count, so the theorems about those hold of it. */
module ServiceLoop {
  import opened Outcomes
  import opened AuthService
  import C = VisitorCounter
  import S = Sessions
  import W = SlidingWindow
  import Srv = AuthServer

  /** A request as it arrives, with the token that would be drawn for it. */
  datatype Incoming =
    | PostLogin(sameOrigin: bool, client: string, body: LoginBody, drawn: string)
    | PostGuest(sameOrigin: bool, isJson: bool, client: string, readable: bool, drawn: string)
    | PostLogout(cookie: Option<string>)
    | PostVisit(sameOrigin: bool, cookie: Option<string>)
    | GetStatus(cookie: Option<string>)
    | NotFound

  ghost function Drawn(m: Incoming): set<string> {
    match m
    case PostLogin(_, _, _, drawn) => {drawn}
    case PostGuest(_, _, _, _, drawn) => {drawn}
    case _ => {}
  }

  ghost predicate DrawnApart(ms: seq<Incoming>) {
    forall i, j :: 0 <= i < j < |ms| ==> Drawn(ms[i]) !! Drawn(ms[j])
  }

  ghost function DrawnBy(ms: seq<Incoming>): set<string> {
    set i, token | 0 <= i < |ms| && token in Drawn(ms[i]) :: token
  }

  /** The request was a visit that its history calls counted. */
  ghost predicate Counts(t: S.Table, request: Srv.Request, max: nat) {
    var events := Srv.EventsOf(request);
    events != [] && events[0].Visit? && S.Apply(t, events[0], max).1 == S.Counted
  }

  ghost function TokenIn(cookie: Option<string>): Option<string> {
    if cookie == Some("") then None else cookie
  }

  /** What each arriving request does to a server with tables `s`: which passwords are recorded as wrong,
      and which sessions are created, is decided by the limits, the body and nothing else. */
  ghost predicate Answers(s: Srv.State, m: Incoming, r: Srv.Request) {
    match m
    case PostLogin(sameOrigin, client, body, drawn) =>
      if !sameOrigin then r.Refused?
      else
        && r.Login? && r.client == client
        && var limited := W.Limited(Srv.ListOf(s.failures, client), r.attempt.checkAt, Srv.LOGIN_LIMIT);
        && (r.attempt.recording.Some? <==> body.WrongPassword? && !limited)
        && (r.create.Some? <==> body.RightPassword? && !limited)
        && (r.create.Some? ==> Creates(r.create.value, drawn, S.CredentialEntry))
    case PostGuest(sameOrigin, isJson, client, readable, drawn) =>
      if !sameOrigin || !isJson then r.Refused?
      else
        && r.Guest? && r.client == client
        && var limited := W.Limited(Srv.ListOf(s.guests, client), r.attempt.checkAt, Srv.GUEST_LIMIT);
        && (r.attempt.recording.Some? <==> readable && !limited)
        && (r.create.Some? <==> readable && !limited)
        && (r.create.Some? ==> Creates(r.create.value, drawn, S.GuestEntry))
    case PostLogout(cookie) => r == if TokenIn(cookie).Some? then Srv.Bare(S.Logout(cookie.value)) else Srv.Refused
    case PostVisit(sameOrigin, cookie) =>
      if !sameOrigin || TokenIn(cookie).None? then r.Refused?
      else r.Bare? && r.event.Visit? && r.event.token == cookie.value
    case GetStatus(cookie) =>
      if TokenIn(cookie).None? then r.Refused? else r.Bare? && r.event.Check? && r.event.token == cookie.value
    case NotFound => r.Refused?
  }

  ghost predicate Creates(e: S.Event, drawn: string, source: S.Source) {
    e.Create? && e.token == drawn && e.source == source
  }

  /** A visit that was to be counted and could not be written. */
  ghost predicate Unwritten(r: Srv.Request) {
    r.Bare? && r.event.Visit? && !r.event.persisted
  }

  /** What each arriving request is told, by a server with tables `s` before and `s'` after. */
  ghost predicate RepliesTo(s: Srv.State, s': Srv.State, max: nat, m: Incoming, r: Srv.Request, reply: Reply) {
    match m
    case PostLogin(sameOrigin, client, body, drawn) =>
      if !sameOrigin then reply == Forbidden
      else if !r.Login? then false
      else if W.Limited(Srv.ListOf(s.failures, client), r.attempt.checkAt, Srv.LOGIN_LIMIT) then reply == TooManyRequests
      else if body.Malformed? then reply == BadRequest
      else if body.WrongPassword? then reply == WrongCredentials
      else r.create.Some? && EntersBy(s, s', max, r.create.value, S.CredentialEntry, drawn, reply)
    case PostGuest(sameOrigin, isJson, client, readable, drawn) =>
      if !sameOrigin then reply == Forbidden
      else if !isJson then reply == UnsupportedMedia
      else if !r.Guest? then false
      else if W.Limited(Srv.ListOf(s.guests, client), r.attempt.checkAt, Srv.GUEST_LIMIT) then reply == TooManyRequests
      else if !readable then reply == BadRequest
      else r.create.Some? && EntersBy(s, s', max, r.create.value, S.GuestEntry, drawn, reply)
    case PostLogout(_) => reply == LoggedOut
    case PostVisit(sameOrigin, cookie) =>
      if !sameOrigin then reply == Forbidden
      else if TokenIn(cookie).None? then reply == Unauthorized
      else r.Bare? && r.event.Visit? && Shows(s.sessions, s'.sessions, cookie.value, r.event.at, reply)
    case GetStatus(cookie) =>
      if TokenIn(cookie).None? then reply == Unauthorized
      else r.Bare? && r.event.Check? && reply == if Known(s, cookie.value, r.event.at) then Authenticated else Unauthorized
    case NotFound => reply == NoSuchPage
  }

  ghost predicate EntersBy(s: Srv.State, s': Srv.State, max: nat, e: S.Event, source: S.Source, drawn: string, reply: Reply) {
    e.Create? && Enters(s.sessions, s'.sessions, max, e.cleanupAt, e.stampAt, drawn, source, reply)
  }

  ghost predicate Known(s: Srv.State, token: string, at: real) {
    token in s.sessions && s.sessions[token].expiresAt > at
  }

  lemma EntryEnds(r: Srv.Request, before: real)
    requires (r.Login? || r.Guest?) && r.create.Some? && r.create.value.Create?
    ensures Srv.EndOf(r, before) == r.create.value.stampAt
  {}

  /** One request, dispatched by method and path. */
  method Dispatch(state: AuthState, m: Incoming, ghost answered: nat, ghost starts: nat)
    returns (reply: Reply, ghost request: Srv.Request, ghost run: seq<C.Action>)
    requires state.clock as object != state.counter as object && state.counter.directory as object? != state.clock as object
    requires state.counter.directory as object? != state
    modifies state, state.clock, state.counter`recorded, state.counter.directory
    ensures state.Performs(request) && Answers(old(state.Tables()), m, request)
    ensures RepliesTo(old(state.Tables()), state.Tables(), state.maxActiveSessions, m, request, reply)
    ensures reply.Visits? ==> reply.count == state.counter.baseline + state.counter.recorded
    ensures Unwritten(request) ==> state.counter.directory != null && WriteFailedIn(run)
    ensures forall e :: e in Srv.EventsOf(request) && e.Create? ==> e.token in Drawn(m)
    ensures var counted := if Counts(old(state.sessions), request, state.maxActiveSessions) then 1 else 0;
            && state.counter.recorded == old(state.counter.recorded) + counted
            && (state.counter.directory != null ==>
                  && C.Legal(old(state.counter.Serving(answered, starts)), run)
                  && C.After(old(state.counter.Serving(answered, starts)), run) == state.counter.Serving(answered + counted, starts))
  {
    hide S.Apply, Srv.Step, Srv.Timely, Srv.EndOf, W.Limited;
    run := [];
    match m {
      case PostLogin(sameOrigin, client, body, drawn) =>
        reply, request := state.HandleLogin(sameOrigin, client, body, drawn);
        if request.Login? && request.create.Some? { EntryEnds(request, old(state.clock.time)); }
      case PostGuest(sameOrigin, isJson, client, readable, drawn) =>
        reply, request := state.HandleGuest(sameOrigin, isJson, client, readable, drawn);
        if request.Guest? && request.create.Some? { EntryEnds(request, old(state.clock.time)); }
      case PostLogout(cookie) =>
        request := state.HandleLogout(cookie);
        reply := LoggedOut;
      case PostVisit(sameOrigin, cookie) =>
        reply, request, run := state.HandleVisit(sameOrigin, cookie, answered, starts);
      case GetStatus(cookie) =>
        var ok;
        ok, request := state.HandleCheck(cookie);
        reply := if ok then Authenticated else Unauthorized;
      case NotFound =>
        request, reply := Srv.Refused, NoSuchPage;
        NothingPerformed(state.Tables(), state.clock.time, state.maxActiveSessions);
    }
  }

  lemma NothingPerformed(s: Srv.State, now: real, max: nat)
    ensures Srv.Step(s, Srv.Refused, max) == s && Srv.Timely(now, Srv.Refused) && Srv.EndOf(Srv.Refused, now) == now
  {}

  // ---------- a process from start to any later request ----------

  lemma TimelyEarlier(r: Srv.Request, earlier: real, before: real)
    requires Srv.Timely(before, r) && earlier <= before
    ensures Srv.Timely(earlier, r) && Srv.EndOf(r, earlier) <= Srv.EndOf(r, before)
  {}

  lemma HistoryGrows(h: seq<Srv.Request>, r: Srv.Request, start: real, before: real, max: nat)
    requires Srv.Legal(h, start) && Srv.Now(h, start) <= before && Srv.Timely(before, r)
    requires forall e :: e in Srv.EventsOf(r) ==> Srv.Fresh(e, Srv.Events(h))
    ensures Srv.Legal(h + [r], start) && Srv.Now(h + [r], start) <= Srv.EndOf(r, before)
    ensures Srv.After(h + [r], max) == Srv.Step(Srv.After(h, max), r, max)
    ensures Srv.Events(h + [r]) == Srv.Events(h) + Srv.EventsOf(r)
  {
    hide Srv.Timely, Srv.EndOf, Srv.Step, Srv.EventsOf, Srv.Fresh;
    assert (h + [r])[..|h|] == h;
    TimelyEarlier(r, Srv.Now(h, start), before);
  }

  lemma DrawnGrow(events: seq<S.Event>, r: Srv.Request, drawn: set<string>)
    requires |Srv.EventsOf(r)| <= 1 && forall e :: e in Srv.EventsOf(r) && e.Create? ==> e.token in drawn
    ensures S.TokensDrawn(events + Srv.EventsOf(r)) <= S.TokensDrawn(events) + drawn
  {
    hide Srv.EventsOf, S.TokensDrawn;
    if Srv.EventsOf(r) == [] {
      assert events + Srv.EventsOf(r) == events;
    } else {
      var e := Srv.EventsOf(r)[0];
      assert Srv.EventsOf(r) == [e] && e in Srv.EventsOf(r);
      S.DrawnGrows(events, e);
    }
  }

  /** The session answer a request gets is the one its history calls for, so the visits counted by the
      table are those counted by the history. */
  lemma CountGrows(h: seq<Srv.Request>, r: Srv.Request, max: nat, start: real)
    requires Srv.Legal(h + [r], start) && Srv.Legal(h, start) && |Srv.EventsOf(r)| <= 1
    requires Srv.Events(h + [r]) == Srv.Events(h) + Srv.EventsOf(r)
    ensures S.CountedVisits(Srv.Events(h + [r]), max) == S.CountedVisits(Srv.Events(h), max)
              + (if Counts(Srv.After(h, max).sessions, r, max) then 1 else 0)
  {
    hide S.Apply, S.SpecAnswer, Srv.Legal, S.Legal, Srv.After, S.After, Srv.Events;
    var events := Srv.Events(h);
    if Srv.EventsOf(r) == [] {
      assert events + Srv.EventsOf(r) == events;
    } else {
      var e := Srv.EventsOf(r)[0];
      assert Srv.EventsOf(r) == [e];
      Srv.SessionsAreLegal(h + [r], start);
      S.AnswersRefineHistory(events, max, start, e);
      Srv.SessionsSeparate(h, max);
      OneMoreVisit(events, e, max);
    }
  }

  lemma OneMoreVisit(events: seq<S.Event>, e: S.Event, max: nat)
    ensures S.CountedVisits(events + [e], max)
         == S.CountedVisits(events, max) + (if e.Visit? && S.SpecAnswer(events, max, e) == S.Counted then 1 else 0)
  {
    hide S.SpecAnswer;
    assert (events + [e])[..|events|] == events;
  }

  /** What the `i`-th request did, and what it was told, given the history before it; a visit is shown `base` and
      the visits counted so far. */
  ghost predicate ServedAt(h: seq<Srv.Request>, ms: seq<Incoming>, replies: seq<Reply>, max: nat, base: nat, i: int)
    requires |h| <= |ms| && |h| == |replies|
  {
    0 <= i < |h| ==>
      && Answers(Srv.After(h[..i], max), ms[i], h[i])
      && RepliesTo(Srv.After(h[..i], max), Srv.After(h[..i + 1], max), max, ms[i], h[i], replies[i])
      && (replies[i].Visits? ==> replies[i].count == base + S.CountedVisits(Srv.Events(h[..i + 1]), max))
  }

  ghost predicate ServedAll(h: seq<Srv.Request>, ms: seq<Incoming>, replies: seq<Reply>, max: nat, base: nat) {
    |h| == |replies| <= |ms| && forall i :: 0 <= i < |h| ==> ServedAt(h, ms, replies, max, base, i)
  }

  lemma ServedStays(h: seq<Srv.Request>, r: Srv.Request, ms: seq<Incoming>, replies: seq<Reply>, reply: Reply, max: nat, base: nat)
    requires |h| < |ms| && ServedAll(h, ms, replies, max, base)
    requires ServedAt(h + [r], ms, replies + [reply], max, base, |h|)
    ensures ServedAll(h + [r], ms, replies + [reply], max, base)
  {
    hide ServedAt;
    forall i | 0 <= i < |h| ensures ServedAt(h + [r], ms, replies + [reply], max, base, i) {
      ServedStaysAt(h, r, ms, replies, reply, max, base, i);
    }
  }

  lemma ServedStaysAt(h: seq<Srv.Request>, r: Srv.Request, ms: seq<Incoming>, replies: seq<Reply>, reply: Reply, max: nat, base: nat,
                      i: nat)
    requires i < |h| < |ms| && |h| == |replies| && ServedAt(h, ms, replies, max, base, i)
    ensures ServedAt(h + [r], ms, replies + [reply], max, base, i)
  {
    hide Answers, RepliesTo, Srv.After, Srv.Events, S.CountedVisits;
    assert (h + [r])[..i] == h[..i] && (h + [r])[..i + 1] == h[..i + 1];
    assert (h + [r])[i] == h[i] && (replies + [reply])[i] == replies[i];
  }

  lemma ServedLast(h: seq<Srv.Request>, r: Srv.Request, ms: seq<Incoming>, replies: seq<Reply>, reply: Reply, max: nat, base: nat,
                   after: Srv.State, counted: nat)
    requires |h| < |ms| && |h| == |replies| && after == Srv.After(h + [r], max)
    requires Answers(Srv.After(h, max), ms[|h|], r) && RepliesTo(Srv.After(h, max), after, max, ms[|h|], r, reply)
    requires counted == S.CountedVisits(Srv.Events(h + [r]), max) && (reply.Visits? ==> reply.count == base + counted)
    ensures ServedAt(h + [r], ms, replies + [reply], max, base, |h|)
  {
    hide Answers, RepliesTo, Srv.After, Srv.Events, S.CountedVisits;
    PrefixesStay(h, r);
    assert (h + [r])[..|h| + 1] == h + [r];
  }

  /** Serving any requests from a start: the tables are those of a legal history of the server, each request did and
      was told what that history calls for, and the memory's count, and the persisted system's answered visits,
      grew by exactly the visits that history counts. */
  method Serve(state: AuthState, incoming: seq<Incoming>, ghost answered: nat, ghost starts: nat)
    returns (replies: seq<Reply>, ghost h: seq<Srv.Request>, ghost run: seq<C.Action>)
    requires state.clock as object != state.counter as object && state.counter.directory as object? != state.clock as object
    requires state.counter.directory as object? != state
    requires state.Tables() == Srv.INITIAL && DrawnApart(incoming)
    modifies state, state.clock, state.counter`recorded, state.counter.directory
    ensures Srv.Legal(h, old(state.clock.time))
    ensures |h| == |replies| == |incoming|
    ensures ServedAll(h, incoming, replies, state.maxActiveSessions, state.counter.baseline + old(state.counter.recorded))
    ensures state.counter.directory == null ==> forall i :: 0 <= i < |h| ==> !Unwritten(h[i])
    ensures state.Tables() == Srv.After(h, state.maxActiveSessions)
    ensures Srv.Now(h, old(state.clock.time)) <= state.clock.time
    ensures var counted := S.CountedVisits(Srv.Events(h), state.maxActiveSessions);
            && state.counter.recorded == old(state.counter.recorded) + counted
            && (state.counter.directory != null ==>
                  && C.Legal(old(state.counter.Serving(answered, starts)), run)
                  && C.After(old(state.counter.Serving(answered, starts)), run) == state.counter.Serving(answered + counted, starts))
  {
    hide S.Apply, Srv.Step, Srv.Timely, Srv.EndOf, Srv.EventsOf, C.Legal, C.After, Srv.Legal, S.CountedVisits, S.TokensDrawn, Srv.Now,
      Answers, RepliesTo, ServedAt, ServedAll, Counts, Unwritten, Srv.After, DrawnBy, DrawnApart, Srv.Events, Srv.Fresh, Drawn, WriteFailedIn;
    ghost var max, start, base := state.maxActiveSessions, state.clock.time, state.counter.baseline + state.counter.recorded;
    h, run, replies := [], [], [];
    Nothing(max, start, if state.counter.directory != null then Some(state.counter.Serving(answered, starts)) else None);
    ghost var counted := 0;
    var i := 0;
    while i < |incoming|
      invariant 0 <= i <= |incoming| && |h| == |replies| == i
      invariant ServedAll(h, incoming, replies, max, base)
      invariant state.counter.directory == null ==> forall j :: 0 <= j < i ==> !Unwritten(h[j])
      invariant Srv.Legal(h, start) && Srv.Now(h, start) <= state.clock.time
      invariant state.Tables() == Srv.After(h, max)
      invariant S.TokensDrawn(Srv.Events(h)) <= DrawnBy(incoming[..i])
      invariant counted == S.CountedVisits(Srv.Events(h), max)
      invariant state.counter.recorded == old(state.counter.recorded) + counted
      invariant state.counter.directory != null ==>
                  && C.Legal(old(state.counter.Serving(answered, starts)), run)
                  && C.After(old(state.counter.Serving(answered, starts)), run) == state.counter.Serving(answered + counted, starts)
    {
      ghost var before := state.clock.time;
      var reply;
      ghost var request, more;
      reply, request, more := Dispatch(state, incoming[i], answered + counted, starts);
      DrawnAreFresh(incoming, i, request, Srv.Events(h));
      HistoryGrows(h, request, start, before, max);
      Srv.StepSessions(Srv.After(h, max), request, max);
      DrawnGrow(Srv.Events(h), request, Drawn(incoming[i]));
      CountGrows(h, request, max, start);
      if state.counter.directory != null {
        C.Continued(old(state.counter.Serving(answered, starts)), run, more);
      }
      counted := counted + (if Counts(Srv.After(h, max).sessions, request, max) then 1 else 0);
      ServedLast(h, request, incoming, replies, reply, max, base, state.Tables(), counted);
      ServedStays(h, request, incoming, replies, reply, max, base);
      PrefixesStay(h, request);
      h, run, replies := h + [request], run + more, replies + [reply];
      i := i + 1;
    }
  }

  lemma PrefixesStay(h: seq<Srv.Request>, r: Srv.Request)
    ensures forall j :: 0 <= j < |h| ==> (h + [r])[..j] == h[..j]
    ensures (h + [r])[..|h|] == h
  {}

  lemma Nothing(max: nat, start: real, s: Option<C.System>)
    ensures Srv.Legal([], start) && Srv.Now([], start) == start && S.TokensDrawn([]) == {} && S.CountedVisits([], max) == 0
    ensures Srv.Events([]) == [] && Srv.After([], max) == Srv.INITIAL
    ensures forall ms, base :: ServedAll([], ms, [], max, base)
    ensures s.Some? ==> C.Legal(s.value, []) && C.After(s.value, []) == s.value
  {}

  lemma DrawnAreFresh(ms: seq<Incoming>, i: nat, r: Srv.Request, events: seq<S.Event>)
    requires i < |ms| && DrawnApart(ms) && S.TokensDrawn(events) <= DrawnBy(ms[..i])
    requires forall e :: e in Srv.EventsOf(r) && e.Create? ==> e.token in Drawn(ms[i])
    ensures forall e :: e in Srv.EventsOf(r) ==> Srv.Fresh(e, events)
    ensures DrawnBy(ms[..i + 1]) == DrawnBy(ms[..i]) + Drawn(ms[i])
  {
    hide S.TokensDrawn;
    forall token | token in DrawnBy(ms[..i]) ensures token !in Drawn(ms[i]) {
      var j :| 0 <= j < i && token in Drawn(ms[..i][j]);
      assert ms[..i][j] == ms[j];
    }
    var more := ms[..i + 1];
    forall token ensures token in DrawnBy(more) <==> token in DrawnBy(ms[..i]) || token in Drawn(ms[i]) {
      if token in DrawnBy(ms[..i]) {
        var j :| 0 <= j < i && token in Drawn(ms[..i][j]);
        assert more[j] == ms[..i][j];
      }
      assert more[i] == ms[i];
      if token in DrawnBy(more) {
        var j :| 0 <= j < |more| && token in Drawn(more[j]);
        if j < i { assert ms[..i][j] == more[j]; }
      }
    }
  }

  lemma {:induction false} LegalPrefix(h: seq<Srv.Request>, start: real, n: nat)
    requires Srv.Legal(h, start) && n <= |h|
    ensures Srv.Legal(h[..n], start)
  {
    hide Srv.Timely, Srv.Fresh, Srv.EventsOf;
    if n < |h| {
      LegalPrefix(h[..|h| - 1], start, n);
      assert h[..|h| - 1][..n] == h[..n];
    } else {
      assert h[..n] == h;
    }
  }

  /** Among the requests served, a wrong password counts against its client exactly when fewer than five of
      that client's wrong passwords were recorded in the 60 seconds before: refused attempts never do. */
  lemma WrongPasswordRecordedIff(h: seq<Srv.Request>, max: nat, start: real, i: nat, client: string, drawn: string)
    requires Srv.Legal(h, start) && i < |h|
    requires Answers(Srv.After(h[..i], max), PostLogin(true, client, WrongPassword, drawn), h[i])
    ensures var at := h[i].attempt.checkAt;
            var recorded := W.History(Srv.Logins(h[..i], client), Srv.LOGIN_LIMIT);
            h[i].attempt.recording.Some? <==> |W.InWindow(recorded, at - W.WINDOW, at)| < Srv.LOGIN_LIMIT
  {
    hide W.InWindow, W.History, W.Limited;
    LegalPrefix(h, start, i + 1);
    assert h[..i + 1][..i] == h[..i];
    Srv.RefusalsAreExact(h[..i], max, start, client, h[i].attempt.checkAt);
  }

  /** A request that was told its token had a session created for it. */
  lemma EnteredIsGranted(h: seq<Srv.Request>, ms: seq<Incoming>, replies: seq<Reply>, max: nat, base: nat, i: nat, token: string)
    requires ServedAll(h, ms, replies, max, base) && i < |h| && replies[i] == Entered(token)
    ensures Srv.Grants(Srv.After(h[..i], max), h[i], max, token)
  {
    hide Srv.After, W.Limited, Enters;
    assert ServedAt(h, ms, replies, max, base, i);
    var s, s' := Srv.After(h[..i], max), Srv.After(h[..i + 1], max);
    EntersMeansGranted(s.sessions, s'.sessions, max, h[i].create.value, token);
  }

  lemma EntersMeansGranted(before: S.Table, after: S.Table, max: nat, e: S.Event, token: string)
    requires e.Create?
    ensures Enters(before, after, max, e.cleanupAt, e.stampAt, e.token, e.source, Entered(token)) ==>
              token == e.token && S.Apply(before, e, max).1 == S.Granted
  {
    var live := set k | k in before && before[k].expiresAt > e.cleanupAt;
    assert S.Cleanup(before, e.cleanupAt).Keys == live;
  }

  /** Logging a token out is what such a request does, and no other. */
  lemma LogsOut(s: Srv.State, m: Incoming, r: Srv.Request, token: string)
    requires Answers(s, m, r) && token != ""
    ensures S.Logout(token) in Srv.EventsOf(r) <==> m == PostLogout(Some(token))
  {
    hide W.Limited;
  }

  lemma LogoutsAreAsked(h: seq<Srv.Request>, ms: seq<Incoming>, replies: seq<Reply>, max: nat, base: nat, i: nat, k: nat, token: string)
    requires ServedAll(h, ms, replies, max, base) && i < k <= |h| && token != ""
    ensures Srv.LoggedOutSince(h[..k], i, token) <==> exists j :: i < j < k && ms[j] == PostLogout(Some(token))
  {
    hide Answers, RepliesTo, Srv.EventsOf;
    forall j | i < j < k ensures S.Logout(token) in Srv.EventsOf(h[..k][j]) <==> ms[j] == PostLogout(Some(token)) {
      assert ServedAt(h, ms, replies, max, base, j);
      LogsOut(Srv.After(h[..j], max), ms[j], h[j], token);
    }
    if Srv.LoggedOutSince(h[..k], i, token) {
      var j :| 0 <= i < j < |h[..k]| && S.Logout(token) in Srv.EventsOf(h[..k][j]);
      assert ms[j] == PostLogout(Some(token));
    }
    if j :| i < j < k && ms[j] == PostLogout(Some(token)) {
      assert S.Logout(token) in Srv.EventsOf(h[..k][j]);
    }
  }

  /** Over everything a process serves: a token handed out at an entry checks as authenticated later exactly while
      its lifetime lasts and nobody has logged it out. */
  lemma EnteredTokenChecks(h: seq<Srv.Request>, ms: seq<Incoming>, replies: seq<Reply>, max: nat, base: nat, start: real,
                           i: nat, k: nat, token: string)
    requires Srv.Legal(h, start) && ServedAll(h, ms, replies, max, base)
    requires i < k < |h| && replies[i] == Entered(token) && token != "" && ms[k] == GetStatus(Some(token))
    ensures Srv.Grants(Srv.After(h[..i], max), h[i], max, token) && h[k].Bare? && h[k].event.Check?
    ensures replies[k] == Authenticated
       <==> && h[k].event.at < h[i].create.value.stampAt + 604800.0
            && forall j :: i < j < k ==> ms[j] != PostLogout(Some(token))
  {
    hide Srv.After, Srv.Grants, Srv.LoggedOutSince, Srv.Fresh, W.Limited;
    EnteredIsGranted(h, ms, replies, max, base, i, token);
    LegalPrefix(h, start, k);
    LegalPrefix(h, start, k + 1);
    assert h[..k][..i] == h[..i] && h[..k + 1][..k] == h[..k];
    Srv.GrantedLasts(h[..k], i, max, start, token);
    LogoutsAreAsked(h, ms, replies, max, base, i, k, token);
    assert ServedAt(h, ms, replies, max, base, k);
  }

  // ---------- one process after another ----------

  /** A process: when it starts, what it is asked, and how it ends. */
  datatype Life = Life(start: real, incoming: seq<Incoming>, end: End)

  ghost function EndAction(end: End): C.Action {
    if end.Killed? then C.Kill else C.PowerLoss(end.replacementKept)
  }

  ghost function Stopped(d: C.Disk, answered: nat, starts: nat): C.System {
    C.System(C.Down, 0, d, answered, starts, false)
  }

  /** What a process serves, and what that does to the state file. */
  ghost predicate ServedIn(h: seq<Srv.Request>, life: Life, max: nat) {
    && Srv.Legal(h, life.start) && |h| == |life.incoming|
    && forall i :: 0 <= i < |h| ==> Answers(Srv.After(h[..i], max), life.incoming[i], h[i])
  }

  lemma ServedAnswers(h: seq<Srv.Request>, replies: seq<Reply>, life: Life, max: nat, base: nat)
    requires Srv.Legal(h, life.start) && |h| == |life.incoming| && ServedAll(h, life.incoming, replies, max, base)
    ensures ServedIn(h, life, max)
  {
    hide Answers, RepliesTo, Srv.Legal;
    forall i | 0 <= i < |h| ensures Answers(Srv.After(h[..i], max), life.incoming[i], h[i]) {
      assert ServedAt(h, life.incoming, replies, max, base, i);
    }
  }

  ghost predicate ServedOrNot(served: bool, h: seq<Srv.Request>, life: Life, max: nat) {
    if served then ServedIn(h, life, max) else h == []
  }

  ghost predicate LeadsTo(s: C.System, run: seq<C.Action>, t: C.System) {
    C.Legal(s, run) && C.After(s, run) == t
  }

  /** A process that has its counter, serving with new tables. */
  method ServeAll(counter: GuestVisitorCounter, max: nat, life: Life, ghost answered: nat, ghost starts: nat)
    returns (ghost h: seq<Srv.Request>, ghost run: seq<C.Action>)
    requires counter.directory != null && DrawnApart(life.incoming)
    modifies counter`recorded, counter.directory
    ensures ServedIn(h, life, max)
    ensures LeadsTo(old(counter.Serving(answered, starts)), run,
              counter.Serving(answered + S.CountedVisits(Srv.Events(h), max), starts))
  {
    hide S.Apply, Srv.EventsOf, C.Legal, C.After, Srv.Legal, S.CountedVisits, Answers, ServedAll;
    var clock := new Clock(life.start);
    var state := new AuthState(clock, counter, max);
    var replies;
    replies, h, run := Serve(state, life.incoming, answered, starts);
    ServedAnswers(h, replies, life, max, counter.baseline + old(counter.recorded));
  }

  /** A process from start to end over the state file: it serves everything it is asked, unless it cannot
      write a missing state file. */
  method RunProcess(directory: StateDirectory, baseline: nat, max: nat, life: Life, ghost answered: nat, ghost starts: nat)
    returns (ghost h: seq<Srv.Request>, ghost run: seq<C.Action>, ghost served: bool)
    requires directory.disk.temp.None? && !directory.disk.visible.content.Torn? && DrawnApart(life.incoming)
    modifies directory
    ensures ServedOrNot(served, h, life, max) && (!served ==> old(directory.disk).visible.content.Missing? && C.Fail in run)
    ensures directory.disk.temp.None?
    ensures var counted := S.CountedVisits(Srv.Events(h), max);
            LeadsTo(Stopped(old(directory.disk), answered, starts), run,
              Stopped(directory.disk, answered + counted, if served then starts + 1 else starts))
  {
    hide ServedIn, C.Legal, C.After, S.CountedVisits, DrawnApart;
    ghost var before := Stopped(directory.disk, answered, starts);
    var counter := new GuestVisitorCounter(directory, baseline);
    var loaded;
    loaded, run := counter.LoadOrInitialize(answered, starts);
    h, served := [], loaded.Success?;
    Nothing(max, life.start, None);
    if loaded.Success? {
      ghost var more;
      h, more := ServeAll(counter, max, life, answered, starts + 1);
      C.Continued(before, run, more);
      run := run + more;
    }
    Ends(C.After(before, run), life.end);
    C.Continued(before, run, [EndAction(life.end)]);
    run := run + [EndAction(life.end)];
    directory.Abandon(life.end);
  }

  lemma Ends(s: C.System, end: End)
    ensures C.Legal(s, [EndAction(end)])
    ensures C.After(s, [EndAction(end)])
         == Stopped(if end.Killed? then C.DropTemp(s.disk) else C.LosePower(s.disk, end.replacementKept), s.answered, s.starts)
  {
    C.Prepend(s, EndAction(end), []);
    assert [EndAction(end)] + [] == [EndAction(end)];
  }

  /** The visits the histories call counted, over all processes. */
  ghost function AllCounted(hs: seq<seq<Srv.Request>>, max: nat): nat {
    if hs == [] then 0 else AllCounted(hs[..|hs| - 1], max) + S.CountedVisits(Srv.Events(hs[|hs| - 1]), max)
  }

  lemma CountedSoFar(hs: seq<seq<Srv.Request>>, h: seq<Srv.Request>, max: nat)
    ensures AllCounted(hs + [h], max) == AllCounted(hs, max) + S.CountedVisits(Srv.Events(h), max)
  {
    hide S.CountedVisits;
    assert (hs + [h])[..|hs|] == hs;
  }

  lemma NeverTorn(run: seq<C.Action>)
    requires C.Legal(C.FRESH, run)
    ensures !C.After(C.FRESH, run).disk.visible.content.Torn?
  {
    C.RunKeepsInv(C.FRESH, run);
  }

  ghost function Starts(served: seq<bool>): nat {
    if served == [] then 0 else Starts(served[..|served| - 1]) + (if served[|served| - 1] then 1 else 0)
  }

  lemma StartsSoFar(served: seq<bool>, one: bool)
    ensures Starts(served + [one]) == Starts(served) + (if one then 1 else 0)
  {
    assert (served + [one])[..|served|] == served;
  }

  /** Any number of processes one after another over one state file, each ended by a kill or a loss of power:
      the visits answered as counted are those their histories call counted, and the file shows them all,
      with at most one more for each process that served. */
  method RunProcesses(directory: StateDirectory, baseline: nat, max: nat, lives: seq<Life>)
    returns (ghost hs: seq<seq<Srv.Request>>, ghost served: seq<bool>)
    requires directory.disk == C.FRESH.disk && forall k :: 0 <= k < |lives| ==> DrawnApart(lives[k].incoming)
    modifies directory
    ensures |hs| == |served| == |lives| && forall k :: 0 <= k < |lives| ==> ServedOrNot(served[k], hs[k], lives[k], max)
    ensures var counted := AllCounted(hs, max);
            counted <= C.Entries(directory.disk.visible.content) <= counted + Starts(served)
  {
    hide ServedOrNot, ServedIn, S.CountedVisits, DrawnApart, C.Legal, C.After, AllCounted, Starts, C.Inv, C.LosePower;
    hs, served := [], [];
    ghost var run: seq<C.Action> := [];
    StartsFresh(max);
    var i := 0;
    while i < |lives|
      invariant 0 <= i <= |lives| && |hs| == |served| == i
      invariant forall k :: 0 <= k < i ==> ServedOrNot(served[k], hs[k], lives[k], max)
      invariant directory.disk.temp.None?
      invariant LeadsTo(C.FRESH, run, Stopped(directory.disk, AllCounted(hs, max), Starts(served)))
    {
      NeverTorn(run);
      ghost var h, more, one;
      h, more, one := RunProcess(directory, baseline, max, lives[i], AllCounted(hs, max), Starts(served));
      C.Continued(C.FRESH, run, more);
      CountedSoFar(hs, h, max);
      StartsSoFar(served, one);
      hs, run, served := hs + [h], run + more, served + [one];
      i := i + 1;
    }
    C.CountIsNeverLost(run, true);
  }

  lemma StartsFresh(max: nat)
    ensures AllCounted([], max) == 0 && Starts([]) == 0
    ensures LeadsTo(C.FRESH, [], Stopped(C.FRESH.disk, 0, 0))
  {}
}

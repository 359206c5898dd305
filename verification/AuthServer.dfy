/** The authentication server as one transition system: every request, of any client, against the
    three tables at once, with the clock readings the requests take. */
module AuthServer {
  import opened Outcomes
  import W = SlidingWindow
  import S = Sessions

  const LOGIN_LIMIT: nat := 5
  const GUEST_LIMIT: nat := 10

  /** A login and a guest entry check their limit first; whichever of recording and creating a
      session they go on to do comes after. `Bare` is a request that touches sessions only. */
  datatype Request =
    | Login(client: string, attempt: W.Attempt, create: Option<S.Event>)
    | Guest(client: string, attempt: W.Attempt, create: Option<S.Event>)
    | Bare(event: S.Event)
    | Refused

  type Lists = map<string, seq<real>>

  datatype State = State(sessions: S.Table, failures: Lists, guests: Lists)

  const INITIAL: State := State(map[], map[], map[])

  function ListOf(m: Lists, client: string): seq<real> {
    if client in m then m[client] else []
  }

  function Step(s: State, r: Request, max: nat): State {
    match r
    case Login(c, a, create) =>
      var t := s.(failures := s.failures[c := W.Attempted(ListOf(s.failures, c), a, LOGIN_LIMIT)]);
      if create.Some? then t.(sessions := S.Apply(s.sessions, create.value, max).0) else t
    case Guest(c, a, create) =>
      var t := s.(guests := s.guests[c := W.Attempted(ListOf(s.guests, c), a, GUEST_LIMIT)]);
      if create.Some? then t.(sessions := S.Apply(s.sessions, create.value, max).0) else t
    case Bare(e) => s.(sessions := S.Apply(s.sessions, e, max).0)
    case Refused => s
  }

  function After(h: seq<Request>, max: nat): State {
    if h == [] then INITIAL else Step(After(h[..|h| - 1], max), h[|h| - 1], max)
  }

  // ---------- what each table sees of a run ----------

  function EventsOf(r: Request): seq<S.Event> {
    match r
    case Login(_, _, create) => if create.Some? then [create.value] else []
    case Guest(_, _, create) => if create.Some? then [create.value] else []
    case Bare(e) => [e]
    case Refused => []
  }

  function Events(h: seq<Request>): seq<S.Event> {
    if h == [] then [] else Events(h[..|h| - 1]) + EventsOf(h[|h| - 1])
  }

  function Logins(h: seq<Request>, client: string): seq<W.Attempt> {
    if h == [] then []
    else
      var r := h[|h| - 1];
      Logins(h[..|h| - 1], client) + (if r.Login? && r.client == client then [r.attempt] else [])
  }

  function Guests(h: seq<Request>, client: string): seq<W.Attempt> {
    if h == [] then []
    else
      var r := h[|h| - 1];
      Guests(h[..|h| - 1], client) + (if r.Guest? && r.client == client then [r.attempt] else [])
  }

  // ---------- legal runs ----------

  function EndOf(r: Request, before: real): real {
    match r
    case Login(_, a, create) => if create.Some? then S.EndOf(create.value, W.EndOf(a)) else W.EndOf(a)
    case Guest(_, a, create) => if create.Some? then S.EndOf(create.value, W.EndOf(a)) else W.EndOf(a)
    case Bare(e) => S.EndOf(e, before)
    case Refused => before
  }

  ghost predicate Timely(before: real, r: Request) {
    match r
    case Login(_, a, create) => W.Timely(before, a) && (create.Some? ==> S.Timely(W.EndOf(a), create.value))
    case Guest(_, a, create) => W.Timely(before, a) && (create.Some? ==> S.Timely(W.EndOf(a), create.value))
    case Bare(e) => S.Timely(before, e)
    case Refused => true
  }

  function Now(h: seq<Request>, start: real): real {
    if h == [] then start else EndOf(h[|h| - 1], Now(h[..|h| - 1], start))
  }

  ghost predicate Fresh(e: S.Event, events: seq<S.Event>) {
    e.Create? ==> e.token !in S.TokensDrawn(events)
  }

  /** One clock that never runs backwards across all requests, and tokens never drawn twice. */
  ghost predicate Legal(h: seq<Request>, start: real) {
    h != [] ==>
      var init, r := h[..|h| - 1], h[|h| - 1];
      && Legal(init, start) && Timely(Now(init, start), r)
      && forall e :: e in EventsOf(r) ==> Fresh(e, Events(init))
  }

  // ---------- each table runs on its own ----------

  lemma {:induction false} SessionsSeparate(h: seq<Request>, max: nat)
    ensures After(h, max).sessions == S.After(Events(h), max)
  {
    hide EventsOf, Step;
    if h != [] {
      var init, r := h[..|h| - 1], h[|h| - 1];
      SessionsSeparate(init, max);
      StepSessions(After(init, max), r, max);
      EventsExtend(Events(init), r, max);
    }
  }

  lemma StepSessions(s: State, r: Request, max: nat)
    ensures |EventsOf(r)| <= 1
    ensures Step(s, r, max).sessions == if EventsOf(r) == [] then s.sessions else S.Apply(s.sessions, EventsOf(r)[0], max).0
  {}

  lemma EventsExtend(events: seq<S.Event>, r: Request, max: nat)
    requires |EventsOf(r)| <= 1
    ensures S.After(events + EventsOf(r), max)
         == if EventsOf(r) == [] then S.After(events, max) else S.Apply(S.After(events, max), EventsOf(r)[0], max).0
  {
    hide EventsOf, S.Apply;
    if EventsOf(r) == [] {
      assert events + EventsOf(r) == events;
    } else {
      assert (events + EventsOf(r))[..|events|] == events;
    }
  }

  lemma {:induction false} FailuresSeparate(h: seq<Request>, max: nat, client: string)
    ensures ListOf(After(h, max).failures, client) == W.After(Logins(h, client), LOGIN_LIMIT)
  {
    hide W.Attempted, S.Apply;
    if h != [] {
      var init, r := h[..|h| - 1], h[|h| - 1];
      FailuresSeparate(init, max, client);
      AttemptList(Logins(init, client), r, r.Login? && r.client == client, LOGIN_LIMIT);
    }
  }

  lemma {:induction false} GuestsSeparate(h: seq<Request>, max: nat, client: string)
    ensures ListOf(After(h, max).guests, client) == W.After(Guests(h, client), GUEST_LIMIT)
  {
    hide W.Attempted, S.Apply;
    if h != [] {
      var init, r := h[..|h| - 1], h[|h| - 1];
      GuestsSeparate(init, max, client);
      AttemptList(Guests(init, client), r, r.Guest? && r.client == client, GUEST_LIMIT);
    }
  }

  lemma AttemptList(before: seq<W.Attempt>, r: Request, mine: bool, limit: nat)
    requires mine ==> r.Login? || r.Guest?
    ensures mine ==> W.After(before + [r.attempt], limit) == W.Attempted(W.After(before, limit), r.attempt, limit)
    ensures before + [] == before
  {
    if mine { assert (before + [r.attempt])[..|before|] == before; }
  }

  lemma {:induction false} EndsInOrder(h: seq<Request>, start: real)
    requires Legal(h, start)
    ensures start <= Now(h, start)
  {
    if h != [] { EndsInOrder(h[..|h| - 1], start); }
  }

  lemma {:induction false} SessionsAreLegal(h: seq<Request>, start: real)
    requires Legal(h, start)
    ensures S.Legal(Events(h), start) && S.Now(Events(h), start) <= Now(h, start)
  {
    if h != [] {
      var init, r := h[..|h| - 1], h[|h| - 1];
      SessionsAreLegal(init, start);
      if EventsOf(r) == [] {
        assert Events(h) == Events(init);
      } else {
        var e := EventsOf(r)[0];
        assert e in EventsOf(r);
        assert Events(h) == Events(init) + [e];
        assert Events(h)[..|Events(h)| - 1] == Events(init);
        EarlierIsTimely(e, S.Now(Events(init), start), Now(init, start), r);
      }
    }
  }

  lemma EarlierIsTimely(e: S.Event, earlier: real, before: real, r: Request)
    requires EventsOf(r) == [e] && Timely(before, r) && earlier <= before
    ensures S.Timely(earlier, e) && S.EndOf(e, earlier) <= EndOf(r, before)
  {}

  lemma {:induction false} LoginsAreLegal(h: seq<Request>, start: real, client: string)
    requires Legal(h, start)
    ensures W.Legal(Logins(h, client), start) && W.Now(Logins(h, client), start) <= Now(h, start)
  {
    if h != [] {
      var init, r := h[..|h| - 1], h[|h| - 1];
      LoginsAreLegal(init, start, client);
      if r.Login? && r.client == client {
        assert Logins(h, client)[..|Logins(h, client)| - 1] == Logins(init, client);
      } else {
        assert Logins(h, client) == Logins(init, client);
      }
    }
  }

  lemma {:induction false} GuestsAreLegal(h: seq<Request>, start: real, client: string)
    requires Legal(h, start)
    ensures W.Legal(Guests(h, client), start) && W.Now(Guests(h, client), start) <= Now(h, start)
  {
    if h != [] {
      var init, r := h[..|h| - 1], h[|h| - 1];
      GuestsAreLegal(init, start, client);
      if r.Guest? && r.client == client {
        assert Guests(h, client)[..|Guests(h, client)| - 1] == Guests(init, client);
      } else {
        assert Guests(h, client) == Guests(init, client);
      }
    }
  }

  // ---------- what every run of the server promises ----------

  /** Whatever the other clients do, no 60-second window ever holds more than five recorded
      failures of one client, nor more than ten of its guest entries. */
  lemma LimitsHoldForEveryClient(h: seq<Request>, start: real, client: string, t: real)
    requires Legal(h, start)
    ensures |W.InWindow(W.History(Logins(h, client), LOGIN_LIMIT), t - W.WINDOW, t)| <= LOGIN_LIMIT
    ensures |W.InWindow(W.History(Guests(h, client), GUEST_LIMIT), t - W.WINDOW, t)| <= GUEST_LIMIT
  {
    LoginsAreLegal(h, start, client);
    GuestsAreLegal(h, start, client);
    W.WindowNeverExceeded(Logins(h, client), LOGIN_LIMIT, start, t);
    W.WindowNeverExceeded(Guests(h, client), GUEST_LIMIT, start, t);
  }

  /** A login, or guest entry, checked at `at` is turned away exactly when the client's full
      history holds its limit's worth of recordings in the 60 seconds before. */
  lemma RefusalsAreExact(h: seq<Request>, max: nat, start: real, client: string, at: real)
    requires Legal(h, start) && Now(h, start) <= at
    ensures W.Limited(ListOf(After(h, max).failures, client), at, LOGIN_LIMIT)
       <==> |W.InWindow(W.History(Logins(h, client), LOGIN_LIMIT), at - W.WINDOW, at)| >= LOGIN_LIMIT
    ensures W.Limited(ListOf(After(h, max).guests, client), at, GUEST_LIMIT)
       <==> |W.InWindow(W.History(Guests(h, client), GUEST_LIMIT), at - W.WINDOW, at)| >= GUEST_LIMIT
    ensures |ListOf(After(h, max).failures, client)| <= LOGIN_LIMIT
    ensures |ListOf(After(h, max).guests, client)| <= GUEST_LIMIT
  {
    FailuresSeparate(h, max, client);
    GuestsSeparate(h, max, client);
    LoginsAreLegal(h, start, client);
    GuestsAreLegal(h, start, client);
    W.CheckIsExact(Logins(h, client), LOGIN_LIMIT, start, at);
    W.CheckIsExact(Guests(h, client), GUEST_LIMIT, start, at);
  }

  /** Any session question after any run is answered as its history calls for. */
  lemma SessionAnswersAreExact(h: seq<Request>, max: nat, start: real, e: S.Event)
    requires Legal(h, start) && S.Timely(Now(h, start), e) && Fresh(e, Events(h))
    ensures S.Apply(After(h, max).sessions, e, max).1 == S.SpecAnswer(Events(h), max, e)
    ensures |After(h, max).sessions| <= max
  {
    SessionsSeparate(h, max);
    SessionsAreLegal(h, start);
    S.RunAgrees(Events(h), max, start);
    S.AnswerAgrees(S.After(Events(h), max), Events(h), max, S.Now(Events(h), start), e);
  }

  // ---------- how long a session lasts ----------

  /** The request created a session for `token`. */
  ghost predicate Grants(before: State, r: Request, max: nat, token: string) {
    && (r.Login? || r.Guest?) && r.create.Some? && r.create.value.Create? && r.create.value.token == token
    && S.Apply(before.sessions, r.create.value, max).1 == S.Granted
  }

  /** What there is of a session that expires at `end`: it is there, or it was logged out, or its time is over. */
  ghost predicate Lasts(t: S.Table, token: string, end: real, loggedOut: bool, now: real) {
    && (token in t ==> !loggedOut && t[token].expiresAt == end)
    && (token !in t ==> loggedOut || end <= now)
  }

  lemma EventLasts(t: S.Table, e: S.Event, max: nat, token: string, end: real, loggedOut: bool, now: real)
    requires Lasts(t, token, end, loggedOut, now) && S.Timely(now, e) && (e.Create? ==> e.token != token)
    ensures Lasts(S.Apply(t, e, max).0, token, end, loggedOut || e == S.Logout(token), S.EndOf(e, now))
    ensures now <= S.EndOf(e, now)
  {}

  lemma GrantLasts(t: S.Table, e: S.Event, max: nat)
    requires e.Create? && S.Apply(t, e, max).1 == S.Granted
    ensures Lasts(S.Apply(t, e, max).0, e.token, e.stampAt + 604800.0, false, e.stampAt)
  {}

  ghost predicate LoggedOutSince(h: seq<Request>, i: int, token: string) {
    exists j :: 0 <= i < j < |h| && S.Logout(token) in EventsOf(h[j])
  }

  lemma LogoutGrows(h: seq<Request>, i: int, token: string)
    requires 0 <= i < |h| - 1
    ensures LoggedOutSince(h, i, token) <==> LoggedOutSince(h[..|h| - 1], i, token) || S.Logout(token) in EventsOf(h[|h| - 1])
  {
    if LoggedOutSince(h, i, token) {
      var j :| 0 <= i < j < |h| && S.Logout(token) in EventsOf(h[j]);
      if j < |h| - 1 { assert h[..|h| - 1][j] == h[j]; }
    }
    if LoggedOutSince(h[..|h| - 1], i, token) {
      var j :| 0 <= i < j < |h| - 1 && S.Logout(token) in EventsOf(h[..|h| - 1][j]);
      assert S.Logout(token) in EventsOf(h[j]);
    }
  }

  lemma {:induction false} DrawnStays(h: seq<Request>, i: nat, max: nat, token: string)
    requires i < |h| && Grants(After(h[..i], max), h[i], max, token)
    ensures token in S.TokensDrawn(Events(h))
  {
    hide S.Apply;
    var init, r := h[..|h| - 1], h[|h| - 1];
    if i < |init| {
      assert init[..i] == h[..i];
      DrawnStays(init, i, max, token);
      var x :| 0 <= x < |Events(init)| && Events(init)[x].Create? && Events(init)[x].token == token;
      assert Events(h)[x] == Events(init)[x];
    } else {
      assert Events(h)[|Events(init)|] == r.create.value;
    }
  }

  /** From its creation on a session is there until it is logged out or its lifetime is over, whatever else is
      asked of the server. */
  lemma {:induction false} GrantedLasts(h: seq<Request>, i: nat, max: nat, start: real, token: string)
    requires Legal(h, start) && i < |h| && Grants(After(h[..i], max), h[i], max, token)
    ensures Lasts(After(h, max).sessions, token, h[i].create.value.stampAt + 604800.0, LoggedOutSince(h, i, token), Now(h, start))
  {
    hide S.Apply, Lasts, EventsOf, S.Timely, Timely, EndOf, S.EndOf, Fresh;
    var init, r := h[..|h| - 1], h[|h| - 1];
    if i == |init| {
      assert h[..i] == init;
      GrantLasts(After(init, max).sessions, r.create.value, max);
      GrantEnds(r, Now(init, start));
    } else {
      assert init[..i] == h[..i];
      GrantedLasts(init, i, max, start, token);
      DrawnStays(init, i, max, token);
      LogoutGrows(h, i, token);
      RequestLasts(After(init, max), r, max, token, h[i].create.value.stampAt + 604800.0, LoggedOutSince(init, i, token),
                   Now(init, start), Events(init));
    }
  }

  lemma GrantEnds(r: Request, before: real)
    requires (r.Login? || r.Guest?) && r.create.Some? && r.create.value.Create?
    ensures EndOf(r, before) == r.create.value.stampAt
  {}

  lemma RequestLasts(s: State, r: Request, max: nat, token: string, end: real, loggedOut: bool, now: real, events: seq<S.Event>)
    requires Lasts(s.sessions, token, end, loggedOut, now) && Timely(now, r) && token in S.TokensDrawn(events)
    requires forall e :: e in EventsOf(r) ==> Fresh(e, events)
    ensures Lasts(Step(s, r, max).sessions, token, end, loggedOut || S.Logout(token) in EventsOf(r), EndOf(r, now))
  {
    hide S.Apply, Lasts;
    match r {
      case Login(_, a, create) => EntryLasts(s.sessions, create, max, token, end, loggedOut, now, W.EndOf(a), events);
      case Guest(_, a, create) => EntryLasts(s.sessions, create, max, token, end, loggedOut, now, W.EndOf(a), events);
      case Bare(e) =>
        assert e in EventsOf(r);
        EventLasts(s.sessions, e, max, token, end, loggedOut, now);
      case Refused =>
    }
  }

  lemma EntryLasts(t: S.Table, create: Option<S.Event>, max: nat, token: string, end: real, loggedOut: bool, now: real,
                   later: real, events: seq<S.Event>)
    requires Lasts(t, token, end, loggedOut, now) && now <= later && token in S.TokensDrawn(events)
    requires create.Some? ==> S.Timely(later, create.value) && Fresh(create.value, events)
    ensures var after := if create.Some? then S.Apply(t, create.value, max).0 else t;
            Lasts(after, token, end, loggedOut || create == Some(S.Logout(token)),
                  if create.Some? then S.EndOf(create.value, later) else later)
  {
    LaterLasts(t, token, end, loggedOut, now, later);
    if create.Some? { EventLasts(t, create.value, max, token, end, loggedOut, later); }
  }

  lemma LaterLasts(t: S.Table, token: string, end: real, loggedOut: bool, now: real, later: real)
    requires Lasts(t, token, end, loggedOut, now) && now <= later
    ensures Lasts(t, token, end, loggedOut, later)
  {}
}

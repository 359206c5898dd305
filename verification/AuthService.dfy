/** The service's objects, updated in place: the clock, the state file, the visitor counter and
    the authentication state, with the handlers that drive them one request at a time. */
module AuthService {
  import opened Outcomes
  import C = VisitorCounter
  import W = SlidingWindow
  import S = Sessions
  import Srv = AuthServer

  /** A clock that may advance before any reading and never runs backwards. */
  class Clock {
    var time: real

    constructor (start: real)
      ensures time == start
    {
      time := start;
    }

    method Now() returns (t: real)
      modifies this
      ensures old(time) <= time == t
    {
      var step: real := *;
      if step > 0.0 { time := time + step; }
      t := time;
    }
  }

  // ---------- the persisted visitor count ----------

  datatype End = Killed | PowerLost(replacementKept: bool)

  /** The state directory. Every operation may fail, and then changes nothing. */
  class StateDirectory {
    var disk: C.Disk

    constructor (d: C.Disk)
      ensures disk == d
    {
      disk := d;
    }

    method MakeTemp() returns (ok: bool)
      modifies this
      ensures disk == if ok then C.MakeTemp(old(disk)) else old(disk)
    {
      ok := *;
      if ok { disk := C.MakeTemp(disk); }
    }

    method WriteTemp(n: nat) returns (ok: bool)
      modifies this
      ensures disk == if ok then C.WriteTemp(old(disk), n) else old(disk)
    {
      ok := *;
      if ok { disk := C.WriteTemp(disk, n); }
    }

    method SyncTemp() returns (ok: bool)
      requires disk.temp.Some?
      modifies this
      ensures disk == if ok then C.SyncTemp(old(disk)) else old(disk)
    {
      ok := *;
      if ok { disk := C.SyncTemp(disk); }
    }

    method Replace() returns (ok: bool)
      requires disk.temp.Some?
      modifies this
      ensures disk == if ok then C.Replace(old(disk)) else old(disk)
    {
      ok := *;
      if ok { disk := C.Replace(disk); }
    }

    method SyncDirectory() returns (ok: bool)
      modifies this
      ensures disk == if ok then C.SyncDirectory(old(disk)) else old(disk)
    {
      ok := *;
      if ok { disk := C.SyncDirectory(disk); }
    }

    method DropTemp()
      modifies this
      ensures disk == C.DropTemp(old(disk))
    {
      disk := C.DropTemp(disk);
    }

    /** What a process that is killed, or loses power, leaves. */
    method Abandon(end: End)
      modifies this
      ensures disk == if end.Killed? then C.DropTemp(old(disk)) else C.LosePower(old(disk), end.replacementKept)
    {
      disk := if end.Killed? then C.DropTemp(disk) else C.LosePower(disk, end.replacementKept);
    }
  }

  datatype CounterError = WriteFailed | StateInvalid

  /** The run went into a write of the state file and out through its failure. */
  ghost predicate WriteFailedIn(run: seq<C.Action>) {
    run != [] && run[0] == C.BeginVisit && run[|run| - 1] == C.Fail
  }

  class GuestVisitorCounter {
    const directory: StateDirectory?
    const baseline: nat
    var recorded: nat

    constructor (directory: StateDirectory?, baseline: nat)
      ensures this.directory == directory && this.baseline == baseline && recorded == 0
    {
      this.directory := directory;
      this.baseline := baseline;
      recorded := 0;
    }

    function DisplayCount(): nat
      reads this
    {
      baseline + recorded
    }

    /** The persisted system this process is part of, while it serves. */
    ghost function Serving(answered: nat, starts: nat): C.System
      requires directory != null
      reads this, directory
    {
      C.System(C.Serving, recorded, directory.disk, answered, starts, false)
    }

    /** Writes the count the memory holds; `stages` are the actions that succeeded. */
    method Persist() returns (ok: bool, ghost stages: nat)
      requires directory != null
      modifies directory
      ensures stages <= 5 && (ok <==> stages == 5)
      ensures var d := old(directory.disk);
              directory.disk == C.DropTemp(Progress(d, recorded, stages)) && directory.disk.temp.None?
    {
      var d0 := directory.disk;
      stages := 0;
      ok := directory.MakeTemp();
      if ok {
        stages := 1;
        ok := directory.WriteTemp(recorded);
        if ok {
          stages := 2;
          ok := directory.SyncTemp();
          if ok {
            stages := 3;
            ok := directory.Replace();
            if ok {
              stages := 4;
              ok := directory.SyncDirectory();
              if ok { stages := 5; }
            }
          }
        }
      }
      directory.DropTemp();
    }

    /** Counts one visit: on success in memory and on disk, on failure in memory not at all. */
    method Increment(ghost answered: nat, ghost starts: nat)
      returns (r: Result<nat, CounterError>, ghost run: seq<C.Action>)
      modifies this`recorded, directory
      ensures recorded == old(recorded) + (if r.Success? then 1 else 0)
      ensures r.Success? ==> r.value == baseline + recorded
      ensures r.Failure? ==> directory != null && WriteFailedIn(run)
      ensures directory != null ==>
                && C.Legal(old(Serving(answered, starts)), run)
                && C.After(old(Serving(answered, starts)), run)
                   == Serving(if r.Success? then answered + 1 else answered, starts)
    {
      run := [];
      var previous := recorded;
      recorded := recorded + 1;
      if directory != null {
        ghost var s := C.System(C.Serving, previous, directory.disk, answered, starts, false);
        var ok;
        ghost var stages;
        ok, stages := Persist();
        run := [C.BeginVisit] + WriteActions(stages);
        VisitRuns(s, stages);
        if !ok {
          recorded := previous;
          return Failure(WriteFailed), run;
        }
      }
      return Success(DisplayCount()), run;
    }

    /** Start-up: a missing file is initialized to zero, a valid one is loaded, any other refused. */
    method LoadOrInitialize(ghost answered: nat, ghost starts: nat)
      returns (r: Result<nat, CounterError>, ghost run: seq<C.Action>)
      requires directory != null && recorded == 0 && directory.disk.temp.None?
      modifies this`recorded, directory
      ensures var before := C.System(C.Down, 0, old(directory.disk), answered, starts, false);
              match r
              case Success(n) => n == recorded && C.Legal(before, run) && C.After(before, run) == Serving(answered, starts + 1)
              case Failure(StateInvalid) => old(directory.disk).visible.content.Torn? && directory.disk == old(directory.disk)
              case Failure(WriteFailed) => old(directory.disk).visible.content.Missing? && run != [] && run[|run| - 1] == C.Fail
                                           && C.Legal(before, run) && C.After(before, run)
                                           == C.System(C.Down, 0, directory.disk, answered, starts, false)
    {
      ghost var before := C.System(C.Down, 0, directory.disk, answered, starts, false);
      run := [];
      match directory.disk.visible.content {
        case Torn => return Failure(StateInvalid), [];
        case Count(entries) =>
          recorded := entries;
          run := [C.Boot];
          C.Prepend(before, C.Boot, []);
          return Success(entries), run;
        case Missing =>
          var ok;
          ghost var stages;
          ok, stages := Persist();
          run := [C.Boot] + WriteActions(stages);
          BootRuns(before, stages);
          if !ok { return Failure(WriteFailed), run; }
          return Success(0), run;
      }
    }
  }

  // ---------- authentication state ----------

  datatype Refusal = CapacityReached

  /** A login body as the handler meets it: unreadable, or readable with a password that matches or not. */
  datatype LoginBody = Malformed | WrongPassword | RightPassword

  datatype Reply = Forbidden | UnsupportedMedia | TooManyRequests | BadRequest | WrongCredentials | Unavailable
                 | Entered(token: string) | Unauthorized | Visits(count: nat, counted: bool)
                 | Authenticated | LoggedOut | NoSuchPage

  class AuthState {
    const clock: Clock
    const counter: GuestVisitorCounter
    const maxActiveSessions: nat
    var sessions: S.Table
    var failures: Srv.Lists
    var guestRequests: Srv.Lists

    constructor (clock: Clock, counter: GuestVisitorCounter, maxActiveSessions: nat)
      ensures this.clock == clock && this.counter == counter && this.maxActiveSessions == maxActiveSessions
      ensures Tables() == Srv.INITIAL
    {
      this.clock := clock;
      this.counter := counter;
      this.maxActiveSessions := maxActiveSessions;
      sessions := map[];
      failures := map[];
      guestRequests := map[];
    }

    ghost function Tables(): Srv.State
      reads this
    {
      Srv.State(sessions, failures, guestRequests)
    }

    method CleanupExpired() returns (ghost at: real)
      modifies this`sessions, clock
      ensures old(clock.time) <= at == clock.time
      ensures sessions == S.Cleanup(old(sessions), at)
    {
      var now := clock.Now();
      at := now;
      var items := sessions;
      var todo := sessions.Keys;
      while todo != {}
        invariant todo <= items.Keys
        invariant sessions == map k | k in items && (k in todo || items[k].expiresAt > now) :: items[k]
        invariant clock.time == now
        decreases todo
      {
        var token :| token in todo;
        if items[token].expiresAt <= now { sessions := sessions - {token}; }
        todo := todo - {token};
      }
    }

    /** `drawn` is the random token; it is used only when there is room. */
    method CreateSession(source: S.Source, drawn: string) returns (r: Result<string, Refusal>, ghost e: S.Event)
      modifies this`sessions, clock
      ensures e.Create? && e.token == drawn && e.source == source && S.Timely(old(clock.time), e)
      ensures S.EndOf(e, old(clock.time)) == clock.time
      ensures (sessions, if r.Success? then S.Granted else S.Full) == S.Apply(old(sessions), e, maxActiveSessions)
      ensures r.Success? ==> r.value == drawn
    {
      ghost var cleanupAt := CleanupExpired();
      e := S.Create(drawn, source, cleanupAt, clock.time);
      if |sessions| >= maxActiveSessions { return Failure(CapacityReached), e; }
      var stamp := clock.Now();
      e := S.Create(drawn, source, cleanupAt, stamp);
      sessions := sessions[drawn := S.Session(stamp + S.TTL, source, false)];
      return Success(drawn), e;
    }

    method CheckSession(token: string) returns (ok: bool, ghost at: real)
      modifies this`sessions, clock
      ensures old(clock.time) <= at == clock.time
      ensures (sessions, ok) == S.Checked(old(sessions), token, at)
    {
      at := clock.time;
      if token !in sessions { return false, at; }
      var now := clock.Now();
      at := now;
      if sessions[token].expiresAt <= now {
        sessions := sessions - {token};
        return false, at;
      }
      return true, at;
    }

    method Logout(token: string)
      modifies this`sessions
      ensures sessions == old(sessions) - {token}
    {
      sessions := sessions - {token};
    }

    /** `None` when the session is unknown; otherwise the count and whether this visit was counted. */
    method RecordWorkspaceVisit(token: string, ghost answered: nat, ghost starts: nat)
      returns (r: Result<Option<(nat, bool)>, CounterError>, ghost e: S.Event, ghost run: seq<C.Action>)
      requires clock as object != counter as object && counter.directory as object? != clock as object
      modifies this`sessions, clock, counter`recorded, counter.directory
      ensures e.Visit? && e.token == token && S.Timely(old(clock.time), e) && e.at == clock.time
      ensures (sessions, AnswerOf(r)) == S.Apply(old(sessions), e, maxActiveSessions)
      ensures r.Success? && r.value.Some? ==> r.value.value.0 == counter.baseline + counter.recorded
      ensures counter.recorded == old(counter.recorded) + (if AnswerOf(r) == S.Counted then 1 else 0)
      ensures e.persisted <==> r.Success?
      ensures r.Failure? ==> counter.directory != null && WriteFailedIn(run)
      ensures counter.directory != null ==>
                && C.Legal(old(counter.Serving(answered, starts)), run)
                && C.After(old(counter.Serving(answered, starts)), run)
                   == counter.Serving(if AnswerOf(r) == S.Counted then answered + 1 else answered, starts)
    {
      run := [];
      var ok;
      ghost var at;
      ok, at := CheckSession(token);
      e := S.Visit(token, at, true);
      if !ok { return Success(None), e, run; }
      var session := sessions[token];
      if session.source != S.GuestEntry || session.counted {
        return Success(Some((counter.DisplayCount(), false))), e, run;
      }
      var count;
      count, run := counter.Increment(answered, starts);
      if count.Failure? { return Failure(count.error), S.Visit(token, at, false), run; }
      sessions := sessions[token := session.(counted := true)];
      return Success(Some((count.value, true))), e, run;
    }

    // ---------- rate limits ----------

    static method Recent(items: seq<real>, now: real) returns (kept: seq<real>)
      ensures kept == W.Prune(items, now - W.WINDOW)
    {
      kept := [];
      var i := 0;
      while i < |items|
        invariant 0 <= i <= |items| && kept == W.Prune(items[..i], now - W.WINDOW)
      {
        assert items[..i + 1][..i] == items[..i];
        if items[i] > now - W.WINDOW { kept := kept + [items[i]]; }
        i := i + 1;
      }
      assert items[..i] == items;
    }

    /** Keeps the items still in the window, reading the clock again for each. */
    method RecentByItem(items: seq<real>) returns (kept: seq<real>, ghost readings: seq<real>)
      modifies clock
      ensures old(clock.time) <= clock.time
      ensures |readings| == |items| && W.Within(readings, old(clock.time), clock.time)
      ensures kept == W.PruneEach(items, readings)
    {
      kept, readings := [], [];
      var i := 0;
      while i < |items|
        invariant 0 <= i <= |items| == |items[..i]| + |items[i..]| && |readings| == i
        invariant old(clock.time) <= clock.time && W.Within(readings, old(clock.time), clock.time)
        invariant kept == W.PruneEach(items[..i], readings)
      {
        var now := clock.Now();
        assert items[..i + 1] == items[..i] + [items[i]];
        W.EachExtends(items[..i], readings, items[i], now);
        if items[i] > now - W.WINDOW { kept := kept + [items[i]]; }
        readings := readings + [now];
        i := i + 1;
      }
      assert items[..i] == items;
    }

    method RateLimited(client: string) returns (limited: bool, ghost at: real)
      modifies this`failures, clock
      ensures old(clock.time) <= at == clock.time
      ensures failures == old(failures)[client := W.Prune(Srv.ListOf(old(failures), client), at - W.WINDOW)]
      ensures limited <==> W.Limited(Srv.ListOf(old(failures), client), at, Srv.LOGIN_LIMIT)
    {
      var now := clock.Now();
      at := now;
      var attempts := Recent(Srv.ListOf(failures, client), now);
      failures := failures[client := attempts];
      limited := |attempts| >= Srv.LOGIN_LIMIT;
    }

    method RecordFailure(client: string) returns (ghost r: W.Recording)
      modifies this`failures, clock
      ensures old(clock.time) <= r.at == clock.time && W.Within(r.readings, old(clock.time), r.at)
      ensures failures == old(failures)[client := W.Recorded(Srv.ListOf(old(failures), client), r)]
    {
      var attempts;
      ghost var readings;
      attempts, readings := RecentByItem(Srv.ListOf(failures, client));
      var now := clock.Now();
      r := W.Recording(readings, now);
      failures := failures[client := attempts + [now]];
    }

    method GuestRateLimited(client: string) returns (limited: bool, ghost at: real)
      modifies this`guestRequests, clock
      ensures old(clock.time) <= at == clock.time
      ensures guestRequests == old(guestRequests)[client := W.Prune(Srv.ListOf(old(guestRequests), client), at - W.WINDOW)]
      ensures limited <==> W.Limited(Srv.ListOf(old(guestRequests), client), at, Srv.GUEST_LIMIT)
    {
      var now := clock.Now();
      at := now;
      var attempts := Recent(Srv.ListOf(guestRequests, client), now);
      guestRequests := guestRequests[client := attempts];
      limited := |attempts| >= Srv.GUEST_LIMIT;
    }

    method RecordGuestRequest(client: string) returns (ghost r: W.Recording)
      modifies this`guestRequests, clock
      ensures old(clock.time) <= r.at == clock.time && W.Within(r.readings, old(clock.time), r.at)
      ensures guestRequests == old(guestRequests)[client := W.Recorded(Srv.ListOf(old(guestRequests), client), r)]
    {
      var attempts;
      ghost var readings;
      attempts, readings := RecentByItem(Srv.ListOf(guestRequests, client));
      var now := clock.Now();
      r := W.Recording(readings, now);
      guestRequests := guestRequests[client := attempts + [now]];
    }

    // ---------- handlers ----------

    /** Every handler performs exactly one step of the server's transition system. */
    twostate predicate Performs(request: Srv.Request)
      reads this, clock
    {
      && Tables() == Srv.Step(old(Tables()), request, maxActiveSessions)
      && Srv.Timely(old(clock.time), request)
      && Srv.EndOf(request, old(clock.time)) == clock.time
    }

    method HandleLogin(sameOrigin: bool, client: string, body: LoginBody, drawn: string)
      returns (reply: Reply, ghost request: Srv.Request)
      modifies this, clock
      ensures Performs(request)
      ensures !sameOrigin <==> request == Srv.Refused
      ensures reply == Forbidden <==> !sameOrigin
      ensures sameOrigin ==>
                && request.Login? && request.client == client
                && (reply == TooManyRequests <==>
                      W.Limited(Srv.ListOf(old(failures), client), request.attempt.checkAt, Srv.LOGIN_LIMIT))
                && (request.attempt.recording.Some? <==> reply == WrongCredentials)
                && (request.create.Some? <==> reply != TooManyRequests && body.RightPassword?)
                && (request.create.Some? ==> request.create.value.Create? && request.create.value.token == drawn
                                             && request.create.value.source == S.CredentialEntry)
                && (reply != TooManyRequests ==>
                      match body
                      case Malformed => reply == BadRequest
                      case WrongPassword => reply == WrongCredentials
                      case RightPassword => Enters(old(sessions), sessions, maxActiveSessions, request.create.value.cleanupAt,
                                                   clock.time, drawn, S.CredentialEntry, reply))
      ensures !(sameOrigin && request.create.Some?) ==> sessions == old(sessions)
    {
      hide W.Prune, W.PruneEach, W.Recorded, W.Within, S.Apply, Enters;
      request := Srv.Refused;
      if !sameOrigin { return Forbidden, request; }
      var limited;
      ghost var at;
      limited, at := RateLimited(client);
      request := Srv.Login(client, W.Attempt(at, None), None);
      if limited { return TooManyRequests, request; }
      if body.Malformed? { return BadRequest, request; }
      if body.WrongPassword? {
        ghost var recording := RecordFailure(client);
        return WrongCredentials, Srv.Login(client, W.Attempt(at, Some(recording)), None);
      }
      var session;
      ghost var e;
      session, e := CreateSession(S.CredentialEntry, drawn);
      request := Srv.Login(client, W.Attempt(at, None), Some(e));
      CreatedEnters(old(sessions), e, maxActiveSessions, if session.Success? then Entered(drawn) else Unavailable);
      if session.Failure? { return Unavailable, request; }
      return Entered(session.value), request;
    }

    method HandleGuest(sameOrigin: bool, isJson: bool, client: string, bodyReadable: bool, drawn: string)
      returns (reply: Reply, ghost request: Srv.Request)
      modifies this, clock
      ensures Performs(request)
      ensures !sameOrigin || !isJson <==> request == Srv.Refused
      ensures !sameOrigin <==> reply == Forbidden
      ensures sameOrigin && !isJson <==> reply == UnsupportedMedia
      ensures sameOrigin && isJson ==>
                && request.Guest? && request.client == client
                && (reply == TooManyRequests <==>
                      W.Limited(Srv.ListOf(old(guestRequests), client), request.attempt.checkAt, Srv.GUEST_LIMIT))
                && (request.attempt.recording.Some? <==> bodyReadable && reply != TooManyRequests)
                && (request.create.Some? <==> bodyReadable && reply != TooManyRequests)
                && (request.create.Some? ==> request.create.value.Create? && request.create.value.token == drawn
                                             && request.create.value.source == S.GuestEntry)
                && (reply != TooManyRequests ==>
                      if !bodyReadable then reply == BadRequest
                      else Enters(old(sessions), sessions, maxActiveSessions, request.create.value.cleanupAt,
                                  clock.time, drawn, S.GuestEntry, reply))
      ensures !(sameOrigin && isJson && request.create.Some?) ==> sessions == old(sessions)
    {
      hide W.Prune, W.PruneEach, W.Recorded, W.Within, S.Apply, Enters;
      request := Srv.Refused;
      if !sameOrigin { return Forbidden, request; }
      if !isJson { return UnsupportedMedia, request; }
      var limited;
      ghost var at;
      limited, at := GuestRateLimited(client);
      request := Srv.Guest(client, W.Attempt(at, None), None);
      if limited { return TooManyRequests, request; }
      if !bodyReadable { return BadRequest, request; }
      ghost var recording := RecordGuestRequest(client);
      var session;
      ghost var e;
      session, e := CreateSession(S.GuestEntry, drawn);
      request := Srv.Guest(client, W.Attempt(at, Some(recording)), Some(e));
      CreatedEnters(old(sessions), e, maxActiveSessions, if session.Success? then Entered(drawn) else Unavailable);
      if session.Failure? { return Unavailable, request; }
      return Entered(session.value), request;
    }

    method HandleVisit(sameOrigin: bool, token: Option<string>, ghost answered: nat, ghost starts: nat)
      returns (reply: Reply, ghost request: Srv.Request, ghost run: seq<C.Action>)
      requires clock as object != counter as object && counter.directory as object? != clock as object
      requires counter.directory as object? != this
      modifies this, clock, counter`recorded, counter.directory
      ensures Performs(request)
      ensures reply == Forbidden <==> !sameOrigin
      ensures !sameOrigin ==> request == Srv.Refused
      ensures reply.Visits? ==> reply.count == counter.baseline + counter.recorded
      ensures sameOrigin ==>
                if token.None? || token.value == "" then reply == Unauthorized && request == Srv.Refused
                else request.Bare? && request.event.Visit? && request.event.token == token.value
                     && Shows(old(sessions), sessions, token.value, request.event.at, reply)
                     && (reply.Visits? && reply.counted <==> S.Apply(old(sessions), request.event, maxActiveSessions).1 == S.Counted)
      ensures counter.recorded == old(counter.recorded) + (if reply.Visits? && reply.counted then 1 else 0)
      ensures reply == Unavailable <==> request.Bare? && !request.event.persisted
      ensures reply == Unavailable ==> counter.directory != null && WriteFailedIn(run)
      ensures counter.directory != null ==>
                && C.Legal(old(counter.Serving(answered, starts)), run)
                && C.After(old(counter.Serving(answered, starts)), run)
                   == counter.Serving(if reply.Visits? && reply.counted then answered + 1 else answered, starts)
    {
      request, run := Srv.Refused, [];
      if !sameOrigin { return Forbidden, request, run; }
      if token.None? || token.value == "" { return Unauthorized, request, run; }
      var result;
      ghost var e;
      result, e, run := RecordWorkspaceVisit(token.value, answered, starts);
      request := Srv.Bare(e);
      match result {
        case Failure(_) => return Unavailable, request, run;
        case Success(None) => return Unauthorized, request, run;
        case Success(Some((count, counted))) => return Visits(count, counted), request, run;
      }
    }

    /** GET /check and /status: a missing or empty cookie never reaches the table. */
    method HandleCheck(token: Option<string>) returns (ok: bool, ghost request: Srv.Request)
      modifies this, clock
      ensures Performs(request)
      ensures if token.None? || token.value == "" then !ok && request == Srv.Refused
              else request.Bare? && request.event.Check? && request.event.token == token.value
                   && (ok <==> token.value in old(sessions) && old(sessions)[token.value].expiresAt > request.event.at)
    {
      request := Srv.Refused;
      if token.None? || token.value == "" { return false, request; }
      ghost var at;
      ok, at := CheckSession(token.value);
      request := Srv.Bare(S.Check(token.value, at));
    }

    method HandleLogout(token: Option<string>) returns (ghost request: Srv.Request)
      modifies this, clock
      ensures Performs(request)
      ensures request == if token.Some? && token.value != "" then Srv.Bare(S.Logout(token.value)) else Srv.Refused
    {
      request := Srv.Refused;
      if token.Some? && token.value != "" {
        Logout(token.value);
        request := Srv.Bare(S.Logout(token.value));
      }
    }
  }

  /** The history's name for what a recorded visit returned. */
  ghost function AnswerOf(r: Result<Option<(nat, bool)>, CounterError>): S.Answer {
    match r
    case Failure(_) => S.Unavailable
    case Success(None) => S.Unauthorized
    case Success(Some((_, counted))) => if counted then S.Counted else S.Shown
  }

  /** A session is asked for, after a sweep at `at`: when fewer than `max` are left, the reply names the drawn token,
      stored as a session of `source` that lives its lifetime from `stamp`; otherwise it is refused and nothing is
      added. Either way exactly the sessions that outlive the sweep stay as they were. */
  ghost predicate Enters(before: S.Table, after: S.Table, max: nat, at: real, stamp: real, drawn: string, source: S.Source,
                         reply: Reply) {
    var live := set k | k in before && before[k].expiresAt > at;
    && (forall k :: k in after && k != drawn ==> k in live)
    && (forall k :: k in live && k != drawn ==> k in after && after[k] == before[k])
    && if |live| < max then
         reply == Entered(drawn) && drawn in after && after[drawn] == S.Session(stamp + 604800.0, source, false)
       else
         reply == Unavailable && (drawn in after <==> drawn in live) && (drawn in after ==> after[drawn] == before[drawn])
  }

  lemma CreatedEnters(before: S.Table, e: S.Event, max: nat, reply: Reply)
    requires e.Create?
    requires reply == if S.Apply(before, e, max).1 == S.Granted then Entered(e.token) else Unavailable
    ensures Enters(before, S.Apply(before, e, max).0, max, e.cleanupAt, e.stampAt, e.token, e.source, reply)
  {
    var live := set k | k in before && before[k].expiresAt > e.cleanupAt;
    assert S.Cleanup(before, e.cleanupAt).Keys == live;
  }

  /** A visit at `at`: unknown or expired tokens are not authorized; sessions that are not a guest's, or already
      counted, are shown the count; any other is counted and marked, unless the count could not be written. */
  ghost predicate Shows(before: S.Table, after: S.Table, token: string, at: real, reply: Reply) {
    if token !in before || before[token].expiresAt <= at then
      reply == Unauthorized && after == before - {token}
    else if before[token].source != S.GuestEntry || before[token].counted then
      reply.Visits? && !reply.counted && after == before
    else
      || (reply.Visits? && reply.counted && after == before[token := before[token].(counted := true)])
      || (reply == Unavailable && after == before)
  }

  /** The disk after the first `stages` operations of a write of `n`. */
  ghost function Progress(d: C.Disk, n: nat, stages: nat): C.Disk {
    if stages == 0 then d
    else if stages == 1 then C.MakeTemp(d)
    else if stages == 2 then C.WriteTemp(C.MakeTemp(d), n)
    else
      var synced := C.SyncTemp(C.WriteTemp(C.MakeTemp(d), n));
      if stages == 3 then synced
      else if stages == 4 then C.Replace(synced)
      else C.SyncDirectory(C.Replace(synced))
  }

  /** The actions a write performs once begun, when `stages` of its operations succeed. */
  ghost function WriteActions(stages: nat): seq<C.Action> {
    if stages <= 1 then [C.Fail]
    else if stages == 2 then [C.Write, C.Fail]
    else if stages == 3 then [C.Write, C.Flush, C.Fail]
    else if stages == 4 then [C.Write, C.Flush, C.Rename, C.Fail]
    else [C.Write, C.Flush, C.Rename, C.SyncDir]
  }

  /** From the moment a write has its temporary file, its actions are legal and end where the
      process either kept the count or rolled it back. */
  lemma WriteRuns(s: C.System, n: nat, stages: nat)
    requires s.disk.temp.Some? && s.pc == C.Writing(n, C.Opened) && stages <= 5
    requires s.disk == C.MakeTemp(s.disk)
    ensures C.Legal(s, WriteActions(stages))
    ensures C.After(s, WriteActions(stages)) == Ended(s, n, stages)
  {
    var s1 := C.Next(s, C.Write);
    var s2 := C.Next(s1, C.Flush);
    var s3 := C.Next(s2, C.Rename);
    if stages <= 1 {
      C.Prepend(s, C.Fail, []);
    } else if stages == 2 {
      C.Prepend(s1, C.Fail, []);
      C.Prepend(s, C.Write, [C.Fail]);
      assert [C.Write] + [C.Fail] == WriteActions(stages);
    } else if stages == 3 {
      C.Prepend(s2, C.Fail, []);
      C.Prepend(s1, C.Flush, [C.Fail]);
      assert [C.Flush] + [C.Fail] == [C.Flush, C.Fail];
      C.Prepend(s, C.Write, [C.Flush, C.Fail]);
      assert [C.Write] + [C.Flush, C.Fail] == WriteActions(stages);
    } else {
      var last := if stages == 4 then C.Fail else C.SyncDir;
      C.Prepend(s3, last, []);
      C.Prepend(s2, C.Rename, [last]);
      assert [C.Rename] + [last] == [C.Rename, last];
      C.Prepend(s1, C.Flush, [C.Rename, last]);
      assert [C.Flush] + [C.Rename, last] == [C.Flush, C.Rename, last];
      C.Prepend(s, C.Write, [C.Flush, C.Rename, last]);
      assert [C.Write] + [C.Flush, C.Rename, last] == WriteActions(stages);
    }
  }

  /** Where a write of `n` begun from `s` ends: completed, or failed after `stages` operations. */
  ghost function Ended(s: C.System, n: nat, stages: nat): C.System {
    var d := C.DropTemp(Progress(s.disk, n, if stages == 0 then 1 else stages));
    if stages < 5 then s.(pc := if s.booting then C.Down else C.Serving, disk := d, booting := false)
    else if s.booting then s.(pc := C.Serving, disk := d, starts := s.starts + 1, booting := false)
    else s.(pc := C.Serving, disk := d, recorded := n, answered := s.answered + 1)
  }

  lemma VisitRuns(s: C.System, stages: nat)
    requires s.pc.Serving? && !s.booting && stages <= 5
    ensures C.Legal(s, [C.BeginVisit] + WriteActions(stages))
    ensures C.After(s, [C.BeginVisit] + WriteActions(stages)) == Ended(C.Next(s, C.BeginVisit), s.recorded + 1, stages)
  {
    WriteRuns(C.Next(s, C.BeginVisit), s.recorded + 1, stages);
    C.Prepend(s, C.BeginVisit, WriteActions(stages));
  }

  lemma BootRuns(s: C.System, stages: nat)
    requires s.pc.Down? && s.disk.visible.content.Missing? && stages <= 5
    ensures C.Legal(s, [C.Boot] + WriteActions(stages))
    ensures C.After(s, [C.Boot] + WriteActions(stages)) == Ended(C.Next(s, C.Boot), 0, stages)
  {
    WriteRuns(C.Next(s, C.Boot), 0, stages);
    C.Prepend(s, C.Boot, WriteActions(stages));
  }
}

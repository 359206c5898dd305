/** The detail-shard cache: an insertion-ordered map used as a least-recently-used cache, with
    the fetch between a miss and the insertion interleaving freely with other requests. */
module DetailCache {
  import opened Outcomes
  import opened Ordering
  import opened Recency

  datatype Entry<V> = Entry(key: string, value: V)

  function Keys<V>(es: seq<Entry<V>>): (ks: seq<string>)
    ensures |ks| == |es| && forall i :: 0 <= i < |es| ==> ks[i] == es[i].key
  {
    seq(|es|, i requires 0 <= i < |es| => es[i].key)
  }

  // ---------- the insertion-ordered map ----------

  function MapGet<V>(es: seq<Entry<V>>, k: string): Option<V> {
    if es == [] then None else if es[0].key == k then Some(es[0].value) else MapGet(es[1..], k)
  }

  function MapDelete<V>(es: seq<Entry<V>>, k: string): seq<Entry<V>> {
    if es == [] then [] else if es[0].key == k then MapDelete(es[1..], k) else [es[0]] + MapDelete(es[1..], k)
  }

  /** A present key keeps its position; a new one goes last. */
  function MapSet<V>(es: seq<Entry<V>>, k: string, v: V): seq<Entry<V>> {
    if es == [] then [Entry(k, v)]
    else if es[0].key == k then [Entry(k, v)] + es[1..]
    else [es[0]] + MapSet(es[1..], k, v)
  }

  // ---------- the two halves of a detail request ----------

  /** A hit is deleted and set again; a miss changes nothing. */
  function Touched<V>(es: seq<Entry<V>>, k: string): seq<Entry<V>> {
    match MapGet(es, k)
    case Some(v) => MapSet(MapDelete(es, k), k, v)
    case None => es
  }

  /** A completed fetch is set, and the first key deleted when there are now too many. */
  function Stored<V>(es: seq<Entry<V>>, k: string, v: V): seq<Entry<V>> {
    var grown := MapSet(es, k, v);
    if |grown| > LIMIT then MapDelete(grown, grown[0].key) else grown
  }

  datatype DetailError = NotDeclared | FetchFailed

  /** The module-level cache, updated in place by each half of a request. */
  class DetailShardCache<V> {
    var entries: seq<Entry<V>>

    constructor ()
      ensures entries == []
    {
      entries := [];
    }

    method Lookup(k: string) returns (value: Option<V>)
      modifies this
      ensures value == MapGet(old(entries), k)
      ensures entries == Touched(old(entries), k)
    {
      value := MapGet(entries, k);
      if value.Some? {
        entries := MapDelete(entries, k);
        entries := MapSet(entries, k, value.value);
      }
    }

    method Complete(k: string, v: V)
      modifies this
      ensures entries == Stored(old(entries), k, v)
    {
      entries := MapSet(entries, k, v);
      if |entries| > LIMIT {
        var oldest := entries[0].key;
        entries := MapDelete(entries, oldest);
      }
    }

    /** One request with nothing else in flight; `fetched` is what a fetch would bring. */
    method GetDetail(publication: string, file: string, declared: seq<string>, fetched: Option<V>)
      returns (value: Result<V, DetailError>)
      modifies this
      ensures file !in declared ==> value == Failure(NotDeclared) && entries == old(entries)
      ensures file in declared && Unique(old(entries)) ==>
                forall e :: e in old(entries) && e.key == DetailKey(publication, file) ==> value == Success(e.value)
      ensures file in declared && DetailKey(publication, file) !in Keys(old(entries)) ==>
                value == if fetched.Some? then Success(fetched.value) else Failure(FetchFailed)
      ensures file in declared ==>
                var outcome := Request(old(entries), DetailKey(publication, file), fetched);
                entries == outcome.0 && value == match outcome.1 case Some(v) => Success(v) case None => Failure(FetchFailed)
    {
      if file !in declared { return Failure(NotDeclared); }
      GetMeans(entries, DetailKey(publication, file));
      var key := DetailKey(publication, file);
      var hit := Lookup(key);
      if hit.Some? { return Success(hit.value); }
      if fetched.None? { return Failure(FetchFailed); }
      Complete(key, fetched.value);
      return Success(fetched.value);
    }
  }

  /** A whole request run alone: the new cache, and the value unless the fetch failed. */
  function Request<V>(es: seq<Entry<V>>, k: string, fetched: Option<V>): (seq<Entry<V>>, Option<V>) {
    match MapGet(es, k)
    case Some(v) => (Touched(es, k), Some(v))
    case None => if fetched.Some? then (Stored(es, k, fetched.value), fetched) else (es, None)
  }

  // ---------- cache keys ----------

  function DetailKey(publication: string, file: string): string { publication + "|" + file }

  /** Declared files carry no separator, so a cache key names one publication and one file. */
  lemma DetailKeyIsInjective(p: string, f: string, p': string, f': string)
    requires '|' !in f && '|' !in f'
    ensures DetailKey(p, f) == DetailKey(p', f') <==> p == p' && f == f'
  {
    var s, s' := DetailKey(p, f), DetailKey(p', f');
    assert s[|p|] == '|' && s'[|p'|] == '|';
    assert forall i :: |p| < i < |s| ==> s[i] == f[i - |p| - 1];
    assert forall i :: |p'| < i < |s'| ==> s'[i] == f'[i - |p'| - 1];
    if s == s' {
      assert |p| == |p'|;
      assert p == s[..|p|] && p' == s'[..|p'|] && f == s[|p| + 1..] && f' == s'[|p'| + 1..];
    }
  }

  /** Declared shards are `u0-` or `u1-` and one hexadecimal digit, and name their files. */
  ghost predicate IsShard(s: string) {
    |s| == 4 && s[0] == 'u' && (s[1] == '0' || s[1] == '1') && s[2] == '-' && ('0' <= s[3] <= '9' || 'a' <= s[3] <= 'f')
  }

  const FILE_HEAD := "opportunity-candidate-details-"
  const FILE_TAIL := ".json"

  function DetailFile(shard: string): string { FILE_HEAD + (shard + FILE_TAIL) }

  /** Whatever text a publication identifier is, keys of declared files never collide. */
  lemma DeclaredKeysNeverCollide(p: string, s: string, p': string, s': string)
    requires IsShard(s) && IsShard(s')
    ensures DetailKey(p, DetailFile(s)) == DetailKey(p', DetailFile(s')) <==> p == p' && s == s'
  {
    assert '|' !in FILE_HEAD && '|' !in FILE_TAIL && '|' !in s && '|' !in s';
    DetailKeyIsInjective(p, DetailFile(s), p', DetailFile(s'));
    assert DetailFile(s)[|FILE_HEAD|..][..4] == s && DetailFile(s')[|FILE_HEAD|..][..4] == s';
  }

  // ---------- the map keeps unique keys ----------

  ghost predicate Unique<V>(es: seq<Entry<V>>) { Distinct(Keys(es)) }

  lemma KeysCons<V>(es: seq<Entry<V>>)
    requires es != []
    ensures es == [es[0]] + es[1..] && Keys(es) == [es[0].key] + Keys(es[1..])
  {}

  lemma {:induction false} GetFinds<V>(es: seq<Entry<V>>, k: string)
    ensures MapGet(es, k).Some? <==> k in Keys(es)
    ensures MapGet(es, k).Some? ==> Entry(k, MapGet(es, k).value) in es
  {
    if es != [] {
      GetFinds(es[1..], k);
      assert Keys(es) == [es[0].key] + Keys(es[1..]);
    }
  }

  /** With unique keys a lookup finds the one entry of the key. */
  lemma GetMeans<V>(es: seq<Entry<V>>, k: string)
    ensures k !in Keys(es) ==> MapGet(es, k).None?
    ensures Unique(es) ==> forall e :: e in es && e.key == k ==> MapGet(es, k) == Some(e.value)
  {
    GetFinds(es, k);
    if Unique(es) {
      forall e | e in es && e.key == k ensures MapGet(es, k) == Some(e.value) { UniqueGet(es, e); }
    }
  }

  lemma {:induction false} DeleteKeys<V>(es: seq<Entry<V>>, k: string)
    ensures Keys(MapDelete(es, k)) == Without(Keys(es), k)
  {
    if es != [] {
      DeleteKeys(es[1..], k);
      KeysCons(es);
      if es[0].key != k {
        assert Keys([es[0]] + MapDelete(es[1..], k)) == [es[0].key] + Keys(MapDelete(es[1..], k));
      }
    }
  }

  lemma {:induction false} DeleteMembers<V>(es: seq<Entry<V>>, k: string)
    ensures forall e :: e in MapDelete(es, k) ==> e in es
  {
    if es != [] {
      DeleteMembers(es[1..], k);
      assert es == [es[0]] + es[1..];
    }
  }

  lemma {:induction false} SetAbsent<V>(es: seq<Entry<V>>, k: string, v: V)
    requires k !in Keys(es)
    ensures MapSet(es, k, v) == es + [Entry(k, v)]
  {
    hide Keys;
    if es == [] {
      assert es + [Entry(k, v)] == [Entry(k, v)];
    } else {
      KeysCons(es);
      SetAbsent(es[1..], k, v);
      assert es + [Entry(k, v)] == [es[0]] + (es[1..] + [Entry(k, v)]);
    }
  }

  lemma {:induction false} SetPresentKeys<V>(es: seq<Entry<V>>, k: string, v: V)
    requires k in Keys(es)
    ensures Keys(MapSet(es, k, v)) == Keys(es)
  {
    hide Keys;
    var rest, set' := es[1..], MapSet(es, k, v);
    KeysCons(es);
    KeysCons(set');
    if es[0].key == k {
      assert set'[1..] == rest;
    } else {
      SetPresentKeys(rest, k, v);
      assert set'[1..] == MapSet(rest, k, v);
    }
  }

  lemma KeyOf<V>(es: seq<Entry<V>>, e: Entry<V>)
    requires e in es
    ensures e.key in Keys(es)
  {
    var i :| 0 <= i < |es| && es[i] == e;
    assert Keys(es)[i] == e.key;
  }

  lemma {:induction false} SetMember<V>(es: seq<Entry<V>>, k: string, v: V, e: Entry<V>)
    requires Unique(es)
    ensures e in MapSet(es, k, v) <==> e == Entry(k, v) || (e in es && e.key != k)
  {
    hide Keys;
    if es != [] {
      var rest := es[1..];
      KeysCons(es);
      TailDistinct(Keys(es));
      assert e in es <==> e == es[0] || e in rest;
      if es[0].key == k {
        if e in rest { KeyOf(rest, e); }
      } else {
        SetMember(rest, k, v, e);
      }
    }
  }

  lemma TailDistinct<T>(s: seq<T>)
    requires s != [] && Distinct(s)
    ensures Distinct(s[1..])
  {}

  lemma KeysAppend<V>(es: seq<Entry<V>>, e: Entry<V>)
    ensures Keys(es + [e]) == Keys(es) + [e.key]
  {}

  /** A hit moves its key to the end and keeps every entry. */
  lemma TouchedHit<V>(es: seq<Entry<V>>, k: string)
    requires k in Keys(es) && Unique(es)
    ensures MapGet(es, k).Some? && Keys(Touched(es, k)) == Without(Keys(es), k) + [k]
    ensures forall e :: e in Touched(es, k) ==> e in es
    ensures Unique(Touched(es, k))
  {
    hide MapGet, MapDelete, MapSet, Without;
    GetFinds(es, k);
    DeleteKeys(es, k);
    DeleteMembers(es, k);
    WithoutMembers(Keys(es), k);
    var v := MapGet(es, k).value;
    var kept := MapDelete(es, k);
    SetAbsent(kept, k, v);
    KeysAppend(kept, Entry(k, v));
    WithoutDistinct(Keys(es), k);
  }

  lemma {:induction false} DropFirst<V>(es: seq<Entry<V>>)
    requires es != [] && Unique(es)
    ensures MapDelete(es, es[0].key) == es[1..]
  {
    assert Keys(es)[1..] == Keys(es[1..]);
    DeleteAbsent(es[1..], es[0].key);
  }

  lemma {:induction false} DeleteAbsent<V>(es: seq<Entry<V>>, k: string)
    requires k !in Keys(es)
    ensures MapDelete(es, k) == es
  {
    hide Keys;
    if es != [] {
      KeysCons(es);
      DeleteAbsent(es[1..], k);
    }
  }

  /** Storing a new key appends it, then forgets the first one when the cache is over full. */
  lemma StoredNew<V>(es: seq<Entry<V>>, k: string, v: V)
    requires k !in Keys(es) && Unique(es)
    ensures var grown := es + [Entry(k, v)];
            Stored(es, k, v) == if |grown| > LIMIT then grown[1..] else grown
    ensures var keys := Keys(es) + [k];
            Keys(Stored(es, k, v)) == if |keys| > LIMIT then keys[1..] else keys
    ensures Unique(Stored(es, k, v))
  {
    SetAbsent(es, k, v);
    KeysAppend(es, Entry(k, v));
    var grown := es + [Entry(k, v)];
    assert Unique(grown);
    DropFirst(grown);
    TailDistinct(Keys(grown));
    assert Keys(grown[1..]) == Keys(grown)[1..];
  }

  // ---------- sequential runs: exactly least-recently-used ----------

  datatype Access<V> = Access(key: string, fetched: Option<V>)

  /** The cache after a run of requests, each finished before the next starts. */
  function AfterRun<V>(h: seq<Access<V>>): seq<Entry<V>> {
    if h == [] then [] else Request(AfterRun(h[..|h| - 1]), h[|h| - 1].key, h[|h| - 1].fetched).0
  }

  /** Fewer than eight distinct other keys were answered since `k` last was. */
  ghost predicate Kept(ks: seq<string>, k: string) { k in ks && |AccessedSince(ks, k)| < LIMIT }

  /** The keys of the requests that were answered with a value, in order: those kept, and those whose fetch
      brought something. */
  ghost function Answered<V>(h: seq<Access<V>>): seq<string> {
    if h == [] then []
    else
      var ks, last := Answered(h[..|h| - 1]), h[|h| - 1];
      if last.fetched.Some? || Kept(ks, last.key) then ks + [last.key] else ks
  }

  /** Map order is recency order, cut to the newest eight. */
  lemma {:induction false} RunIsLru<V>(h: seq<Access<V>>)
    ensures Unique(AfterRun(h))
    ensures Keys(AfterRun(h)) == Newest(RecencyOrder(Answered(h)))
  {
    if h != [] {
      var init, last := h[..|h| - 1], h[|h| - 1];
      RunIsLru(init);
      var es, ks := AfterRun(init), Answered(init);
      GetFinds(es, last.key);
      KeptIffRecent(ks, last.key);
      RecencyOrderIsDistinct(ks);
      if last.key in Keys(es) {
        TouchedHit(es, last.key);
        HitKeepsNewest(RecencyOrder(ks), last.key);
        LastAccess(ks, last.key);
      } else if last.fetched.Some? {
        StoredNew(es, last.key, last.fetched.value);
        MissKeepsNewest(RecencyOrder(ks), last.key);
        LastAccess(ks, last.key);
      }
    }
  }

  lemma LastAccess(ks: seq<string>, k: string)
    ensures RecencyOrder(ks + [k]) == Without(RecencyOrder(ks), k) + [k]
  {
    assert (ks + [k])[..|ks|] == ks;
  }

  /** A key is cached exactly when it was answered and fewer than eight distinct other keys were
      answered since it last was. */
  lemma CachedIffRecentlyAnswered<V>(h: seq<Access<V>>, k: string)
    ensures MapGet(AfterRun(h), k).Some? <==> k in Answered(h) && |AccessedSince(Answered(h), k)| < LIMIT
  {
    GetFinds(AfterRun(h), k);
    RunIsLru(h);
    KeptIffRecent(Answered(h), k);
  }

  /** The `i`-th request asked `k` when it was not kept, and its fetch brought something. */
  ghost predicate Fetches<V>(h: seq<Access<V>>, i: int, k: string) {
    0 <= i < |h| && h[i].key == k && h[i].fetched.Some? && !Kept(Answered(h[..i]), k)
  }

  ghost predicate LastFetch<V>(h: seq<Access<V>>, i: int, k: string) {
    Fetches(h, i, k) && forall j :: i < j < |h| ==> !Fetches(h, j, k)
  }

  lemma FetchesGrow<V>(h: seq<Access<V>>, i: int, k: string)
    requires h != []
    ensures i < |h| - 1 ==> (Fetches(h, i, k) <==> Fetches(h[..|h| - 1], i, k))
  {
    if 0 <= i < |h| - 1 { assert h[..|h| - 1][..i] == h[..i]; }
  }

  lemma LastFetchStays<V>(h: seq<Access<V>>, i: int, k: string)
    requires h != [] && LastFetch(h[..|h| - 1], i, k) && !Fetches(h, |h| - 1, k)
    ensures LastFetch(h, i, k)
  {
    hide Fetches;
    forall j | i <= j < |h| - 1 ensures Fetches(h, j, k) <==> Fetches(h[..|h| - 1], j, k) { FetchesGrow(h, j, k); }
    assert i < |h| - 1 by { FetchIndex(h[..|h| - 1], i, k); }
  }

  lemma FetchIndex<V>(h: seq<Access<V>>, i: int, k: string)
    requires Fetches(h, i, k)
    ensures 0 <= i < |h|
  {}

  /** Every entry holds what the latest fetch of its key brought. */
  ghost predicate HoldsFetches<V>(h: seq<Access<V>>) {
    forall e :: e in AfterRun(h) ==> exists i :: Brought(h, i, e)
  }

  ghost predicate Brought<V>(h: seq<Access<V>>, i: int, e: Entry<V>) {
    LastFetch(h, i, e.key) && h[i].fetched == Some(e.value)
  }

  lemma {:induction false} RunHoldsFetches<V>(h: seq<Access<V>>)
    ensures HoldsFetches(h)
  {
    hide Brought, AfterRun;
    if h == [] {
      StartsEmpty<V>();
    } else {
      RunHoldsFetches(h[..|h| - 1]);
      forall e | e in AfterRun(h) ensures exists i :: Brought(h, i, e) {
        EntryHoldsFetch(h, e);
      }
    }
  }

  lemma StartsEmpty<V>()
    ensures AfterRun<V>([]) == []
  {}

  lemma EntryHoldsFetch<V>(h: seq<Access<V>>, e: Entry<V>)
    requires h != [] && HoldsFetches(h[..|h| - 1]) && e in AfterRun(h)
    ensures exists i :: Brought(h, i, e)
  {
    hide LastFetch, AfterRun, Fetches;
    var init := h[..|h| - 1];
    LastEntry(h, e);
    if Fetches(h, |h| - 1, e.key) {
      JustFetched(h, e.key);
      assert Brought(h, |h| - 1, e);
    } else {
      var i :| Brought(init, i, e);
      BroughtStays(h, i, e);
    }
  }

  lemma BroughtStays<V>(h: seq<Access<V>>, i: int, e: Entry<V>)
    requires h != [] && Brought(h[..|h| - 1], i, e) && !Fetches(h, |h| - 1, e.key)
    ensures Brought(h, i, e)
  {
    hide LastFetch, Fetches;
    LastFetchStays(h, i, e.key);
    LastFetchIndex(h[..|h| - 1], i, e.key);
    assert h[i] == h[..|h| - 1][i];
  }

  lemma LastFetchIndex<V>(h: seq<Access<V>>, i: int, k: string)
    requires LastFetch(h, i, k)
    ensures 0 <= i < |h|
  {}

  /** The last request fetched the entry, or left it as it was. */
  lemma LastEntry<V>(h: seq<Access<V>>, e: Entry<V>)
    requires h != [] && e in AfterRun(h)
    ensures var last := h[|h| - 1];
            if Fetches(h, |h| - 1, e.key) then last.fetched == Some(e.value) else e in AfterRun(h[..|h| - 1])
  {
    hide AfterRun, Stored, Touched, Kept, Answered;
    var init, last := h[..|h| - 1], h[|h| - 1];
    var es := AfterRun(init);
    RunIsLru(init);
    CachedIffRecentlyAnswered(init, last.key);
    CachedIsKept(init, last.key);
    LastStep(h);
    GetFinds(es, last.key);
    if last.key in Keys(es) {
      TouchedHit(es, last.key);
    } else if last.fetched.Some? {
      StoredNew(es, last.key, last.fetched.value);
      if e in es { KeyOf(es, e); }
    }
  }

  lemma LastStep<V>(h: seq<Access<V>>)
    requires h != []
    ensures AfterRun(h) == Request(AfterRun(h[..|h| - 1]), h[|h| - 1].key, h[|h| - 1].fetched).0
  {}

  lemma CachedIsKept<V>(h: seq<Access<V>>, k: string)
    ensures MapGet(AfterRun(h), k).Some? <==> Kept(Answered(h), k)
  {
    CachedIffRecentlyAnswered(h, k);
  }

  lemma JustFetched<V>(h: seq<Access<V>>, k: string)
    requires h != [] && Fetches(h, |h| - 1, k)
    ensures LastFetch(h, |h| - 1, k)
  {}

  /** After any requests, one more is answered with what the latest fetch of its key brought while the key is
      kept, and with what its own fetch brings otherwise. */
  lemma RequestAnswers<V>(h: seq<Access<V>>, k: string, fetched: Option<V>)
    ensures var answer := Request(AfterRun(h), k, fetched).1;
            if Kept(Answered(h), k) then exists i :: LastFetch(h, i, k) && answer == h[i].fetched else answer == fetched
  {
    hide LastFetch;
    CachedIsKept(h, k);
    RunHoldsFetches(h);
    GetFinds(AfterRun(h), k);
  }

  // ---------- interleaved runs ----------

  /** A request looks its key up; on a miss its fetch completes or fails at some later time. */
  datatype Event<V> = Look(req: nat, key: string) | Complete(req: nat, value: V) | Abort(req: nat)

  datatype State<V> = State(entries: seq<Entry<V>>, inFlight: map<nat, string>)

  predicate Enabled<V>(s: State<V>, e: Event<V>) {
    if e.Look? then e.req !in s.inFlight else e.req in s.inFlight
  }

  function Next<V>(s: State<V>, e: Event<V>): State<V>
    requires Enabled(s, e)
  {
    match e
    case Look(req, key) =>
      if MapGet(s.entries, key).Some? then s.(entries := Touched(s.entries, key))
      else s.(inFlight := s.inFlight[req := key])
    case Complete(req, value) => State(Stored(s.entries, s.inFlight[req], value), s.inFlight - {req})
    case Abort(req) => s.(inFlight := s.inFlight - {req})
  }

  predicate Legal<V>(h: seq<Event<V>>)
    decreases |h|, 0
  {
    h != [] ==> Legal(h[..|h| - 1]) && Enabled(After(h[..|h| - 1]), h[|h| - 1])
  }

  function After<V>(h: seq<Event<V>>): State<V>
    requires Legal(h)
    decreases |h|, 1
  {
    if h == [] then State([], map[]) else Next(After(h[..|h| - 1]), h[|h| - 1])
  }

  /** What the most recently completed fetch of `k` brought. */
  ghost function LatestFetch<V>(h: seq<Event<V>>, k: string): Option<V>
    requires Legal(h)
  {
    if h == [] then None
    else
      var init, e := h[..|h| - 1], h[|h| - 1];
      if e.Complete? && After(init).inFlight[e.req] == k then Some(e.value) else LatestFetch(init, k)
  }

  ghost predicate Sound<V>(h: seq<Event<V>>)
    requires Legal(h)
  {
    && |After(h).entries| <= LIMIT
    && Unique(After(h).entries)
    && forall e :: e in After(h).entries ==> LatestFetch(h, e.key) == Some(e.value)
  }

  lemma StoredSound<V>(es: seq<Entry<V>>, k: string, v: V)
    requires Unique(es) && |es| <= LIMIT
    ensures |Stored(es, k, v)| <= LIMIT && Unique(Stored(es, k, v)) && Entry(k, v) in Stored(es, k, v)
    ensures forall e :: e in Stored(es, k, v) ==> e == Entry(k, v) || (e in es && e.key != k)
  {
    hide Keys, MapSet, MapDelete;
    if k in Keys(es) {
      SetPresentKeys(es, k, v);
      forall e ensures e in MapSet(es, k, v) <==> e == Entry(k, v) || (e in es && e.key != k) { SetMember(es, k, v, e); }
      assert |Keys(MapSet(es, k, v))| == |Keys(es)|;
    } else {
      StoredNew(es, k, v);
      var grown := es + [Entry(k, v)];
      assert grown[|es|] == Entry(k, v);
      if |grown| > LIMIT { assert grown[1..][|es| - 1] == Entry(k, v); }
      forall e | e in es ensures e.key != k { KeyOf(es, e); }
    }
  }

  /** In every interleaving: at most eight entries, one per key, each holding what the latest
      completed fetch of its own key brought. */
  lemma {:induction false} InterleavingsAreSound<V>(h: seq<Event<V>>)
    requires Legal(h)
    ensures Sound(h)
  {
    if h != [] {
      var init, e := h[..|h| - 1], h[|h| - 1];
      InterleavingsAreSound(init);
      var es := After(init).entries;
      match e {
        case Look(_, key) =>
          GetFinds(es, key);
          if key in Keys(es) {
            TouchedHit(es, key);
            WithoutDistinct(Keys(es), key);
            assert |Keys(Touched(es, key))| == |Keys(es)|;
          }
        case Complete(req, value) => StoredSound(es, After(init).inFlight[req], value);
        case Abort(_) =>
      }
    }
  }

  lemma {:induction false} UniqueGet<V>(es: seq<Entry<V>>, e: Entry<V>)
    requires Unique(es) && e in es
    ensures MapGet(es, e.key) == Some(e.value)
  {
    GetFinds(es, e.key);
    var i :| 0 <= i < |es| && es[i] == e;
    assert Keys(es)[i] == e.key;
    var f := Entry(e.key, MapGet(es, e.key).value);
    var j :| 0 <= j < |es| && es[j] == f;
    assert Keys(es)[j] == e.key;
  }

  lemma StoredKeeps<V>(es: seq<Entry<V>>, k: string, v: V)
    requires Unique(es) && |es| <= LIMIT
    ensures forall e :: e in es && e.key != k && e !in Stored(es, k, v) ==> e == es[0] && |es| == 8 && k !in Keys(es)
  {
    hide Keys, MapSet, MapDelete;
    if k in Keys(es) {
      SetPresentKeys(es, k, v);
      forall e ensures e in MapSet(es, k, v) <==> e == Entry(k, v) || (e in es && e.key != k) { SetMember(es, k, v, e); }
      assert |Keys(MapSet(es, k, v))| == |Keys(es)|;
    } else {
      StoredNew(es, k, v);
      var grown := es + [Entry(k, v)];
      assert es == grown[..|es|];
      forall e | e in es ensures e in grown && (e != es[0] ==> e in grown[1..]) {
        var i :| 0 <= i < |es| && es[i] == e;
        assert grown[i] == e;
        if i > 0 { assert grown[1..][i - 1] == e; }
      }
    }
  }

  lemma OneMore<V>(h: seq<Event<V>>, e: Event<V>)
    requires Legal(h) && Enabled(After(h), e)
    ensures Legal(h + [e]) && After(h + [e]) == Next(After(h), e)
  {
    assert (h + [e])[..|h|] == h;
  }

  /** A lookup that finds its key moves it to the end and starts nothing; one that does not starts a fetch of it. */
  lemma LookFindsOrFetches<V>(h: seq<Event<V>>, req: nat, k: string)
    requires Legal(h) && req !in After(h).inFlight
    ensures Legal(h + [Look(req, k)])
    ensures var s, s' := After(h), After(h + [Look(req, k)]);
            if k in Keys(s.entries) then
              && s'.inFlight == s.inFlight && Keys(s'.entries) == Without(Keys(s.entries), k) + [k]
              && forall e :: e in s'.entries ==> e in s.entries
            else s'.entries == s.entries && s'.inFlight == s.inFlight[req := k]
  {
    hide Keys, Touched;
    OneMore(h, Look(req, k));
    InterleavingsAreSound(h);
    GetFinds(After(h).entries, k);
    if k in Keys(After(h).entries) { TouchedHit(After(h).entries, k); }
  }

  /** The eviction a completion causes never hits the key just completed; only the first of eight others goes, and
      only for a new key; and the fetch is over. */
  lemma CompletedKeyIsKept<V>(h: seq<Event<V>>, req: nat, value: V)
    requires Legal(h) && req in After(h).inFlight
    ensures Legal(h + [Complete(req, value)])
    ensures var s, s' := After(h), After(h + [Complete(req, value)]);
            && MapGet(s'.entries, s.inFlight[req]) == Some(value) && s'.inFlight == s.inFlight - {req}
            && forall e :: e in s.entries && e.key != s.inFlight[req] && e !in s'.entries ==>
                 e == s.entries[0] && |s.entries| == 8 && s.inFlight[req] !in Keys(s.entries)
  {
    OneMore(h, Complete(req, value));
    InterleavingsAreSound(h);
    var k := After(h).inFlight[req];
    StoredSound(After(h).entries, k, value);
    StoredKeeps(After(h).entries, k, value);
    UniqueGet(Stored(After(h).entries, k, value), Entry(k, value));
  }

  /** The `i`-th event completed a fetch of `k`: one whose request last looked `k` up. */
  ghost predicate Completes<V>(h: seq<Event<V>>, i: int, k: string) {
    0 <= i < |h| && h[i].Complete? && exists l :: LookedAt(h, l, i, h[i].req, k)
  }

  ghost predicate LastCompletion<V>(h: seq<Event<V>>, i: int, k: string) {
    Completes(h, i, k) && forall j :: i < j < |h| ==> !Completes(h, j, k)
  }

  /** `req` looked `k` up at `l`, and did nothing between that and `i`. */
  ghost predicate LookedAt<V>(h: seq<Event<V>>, l: int, i: int, req: nat, k: string) {
    0 <= l < i <= |h| && h[l] == Look(req, k) && forall j :: l < j < i ==> h[j].req != req
  }

  lemma {:induction false} InFlightLooked<V>(h: seq<Event<V>>, req: nat)
    requires Legal(h)
    ensures req in After(h).inFlight ==> exists l :: LookedAt(h, l, |h|, req, After(h).inFlight[req])
  {
    if h != [] {
      var init, e := h[..|h| - 1], h[|h| - 1];
      InFlightLooked(init, req);
      if req in After(h).inFlight {
        var k := After(h).inFlight[req];
        if e.req == req {
          assert LookedAt(h, |h| - 1, |h|, req, k);
        } else {
          var l :| LookedAt(init, l, |init|, req, k);
          assert LookedAt(h, l, |h|, req, k);
        }
      }
    }
  }

  lemma LookedOnce<V>(h: seq<Event<V>>, l: int, m: int, i: int, req: nat, k: string, k': string)
    requires LookedAt(h, l, i, req, k) && LookedAt(h, m, i, req, k')
    ensures k == k'
  {}

  lemma LookedPrefix<V>(h: seq<Event<V>>, l: int, i: int, n: int, req: nat, k: string)
    requires 0 <= i <= n <= |h|
    ensures LookedAt(h[..n], l, i, req, k) <==> LookedAt(h, l, i, req, k)
  {}

  /** The recursive reading of a history, by positions in it. */
  lemma {:induction false} LatestFetchMeans<V>(h: seq<Event<V>>, k: string)
    requires Legal(h)
    ensures match LatestFetch(h, k)
            case None => forall i :: !Completes(h, i, k)
            case Some(v) => exists i :: LastCompletion(h, i, k) && h[i].value == v
  {
    hide Next, Completes;
    if h == [] {
      forall i ensures !Completes(h, i, k) { CompletionIndex(h, i, k); }
    } else {
      var init, e := h[..|h| - 1], h[|h| - 1];
      LatestFetchMeans(init, k);
      CompletesLast(h, k);
      forall i ensures i < |init| ==> (Completes(h, i, k) <==> Completes(init, i, k)) { CompletesPrefix(h, i, k); }
      forall i ensures Completes(h, i, k) ==> 0 <= i < |h| { CompletionIndex(h, i, k); }
      forall i ensures Completes(init, i, k) ==> 0 <= i < |init| && init[i].Complete? { CompletionIndex(init, i, k); }
      if Completes(h, |init|, k) {
        assert LastCompletion(h, |init|, k);
      } else if LatestFetch(init, k).Some? {
        var i :| LastCompletion(init, i, k) && init[i].value == LatestFetch(init, k).value;
        assert LastCompletion(h, i, k);
      }
    }
  }

  lemma CompletionIndex<V>(h: seq<Event<V>>, i: int, k: string)
    ensures Completes(h, i, k) ==> 0 <= i < |h| && h[i].Complete?
  {}

  lemma CompletesPrefix<V>(h: seq<Event<V>>, i: int, k: string)
    requires h != []
    ensures i < |h| - 1 ==> (Completes(h, i, k) <==> Completes(h[..|h| - 1], i, k))
  {
    hide LookedAt;
    if 0 <= i < |h| - 1 {
      var init := h[..|h| - 1];
      assert init[i] == h[i];
      forall l ensures LookedAt(init, l, i, h[i].req, k) <==> LookedAt(h, l, i, h[i].req, k) {
        LookedPrefix(h, l, i, |init|, h[i].req, k);
      }
    }
  }

  lemma CompletesLast<V>(h: seq<Event<V>>, k: string)
    requires Legal(h) && h != []
    ensures var e := h[|h| - 1];
            Completes(h, |h| - 1, k) <==> e.Complete? && After(h[..|h| - 1]).inFlight[e.req] == k
  {
    hide LookedAt, Next;
    var init, e := h[..|h| - 1], h[|h| - 1];
    if e.Complete? {
      var own := After(init).inFlight[e.req];
      InFlightLooked(init, e.req);
      var l :| LookedAt(init, l, |init|, e.req, own);
      LookedPrefix(h, l, |init|, |init|, e.req, own);
      forall m, other | LookedAt(h, m, |init|, e.req, other) ensures other == own {
        LookedOnce(h, m, l, |init|, e.req, other, own);
      }
    }
  }

  /** What a lookup finds is the latest completed fetch of that key, however requests interleaved. */
  lemma HitIsLatestFetch<V>(h: seq<Event<V>>, k: string)
    requires Legal(h) && MapGet(After(h).entries, k).Some?
    ensures exists i :: LastCompletion(h, i, k) && MapGet(After(h).entries, k) == Some(h[i].value)
  {
    hide LastCompletion;
    InterleavingsAreSound(h);
    GetFinds(After(h).entries, k);
    LatestFetchMeans(h, k);
  }

  /** Where interleaving departs from recency order: a completion makes its key the newest exactly
      when the key was not cached meanwhile, or already was the newest. */
  lemma CompletionRefreshesUnlessCached<V>(es: seq<Entry<V>>, k: string, v: V)
    requires Unique(es) && |es| <= LIMIT
    ensures var after := Stored(es, k, v);
            after != [] && (after[|after| - 1].key == k <==> k !in Keys(es) || es[|es| - 1].key == k)
  {
    hide MapSet, MapDelete;
    if k in Keys(es) {
      SetPresentKeys(es, k, v);
      var set' := MapSet(es, k, v);
      assert |set'| == |Keys(set')| == |es|;
      assert Keys(set')[|es| - 1] == Keys(es)[|es| - 1];
    } else {
      StoredNew(es, k, v);
    }
  }
}

/** The Redis session middleware of `app/session.py`, serving several clients whose requests interleave. */
module RedisSessions {
  import opened Options

  type SessionId = string
  type Client = string

  /** A session dictionary: its keys with their values as JSON text. */
  type Data = map<string, string>

  /** A stored value: a dictionary, or something else that cannot be used as a session. */
  datatype Stored = Dict(data: Data) | Unusable

  type Store = map<SessionId, Stored>

  /** The session as the application leaves it. */
  datatype AppSession = Session(data: Data) | NotSerializable

  datatype SetCookie = NoCookie | Keep(sid: SessionId) | Delete(sid: SessionId)

  predicate UrlSafe(c: char) {
    'A' <= c <= 'Z' || 'a' <= c <= 'z' || '0' <= c <= '9' || c == '_' || c == '-'
  }

  predicate IsValidSessionId(value: string) {
    22 <= |value| <= 128 && forall i :: 0 <= i < |value| ==> UrlSafe(value[i])
  }

  /** What `token_urlsafe(32)` returns: 43 URL-safe characters. */
  predicate IsToken(value: string) {
    |value| == 43 && forall i :: 0 <= i < |value| ==> UrlSafe(value[i])
  }

  // ---------- One request ----------

  /** The session a request starts with: the id is there only if the store has a dictionary for the cookie. */
  datatype Loaded = Loaded(sid: Option<SessionId>, data: Data)

  function Load(store: Store, cookie: Option<SessionId>, fails: bool): Loaded {
    if cookie.None? || !IsValidSessionId(cookie.value) || fails then Loaded(None, map[])
    else if cookie.value in store && store[cookie.value].Dict? then Loaded(cookie, store[cookie.value].data)
    else Loaded(None, map[])
  }

  /** What `send_wrapper` does when the response starts: the store afterwards and the cookie it sets. A Redis write
      that fails has no effect. */
  function Respond(store: Store, loaded: Loaded, left: AppSession, token: SessionId, fails: bool): (Store, SetCookie) {
    if left.NotSerializable? then (store, NoCookie)
    else
      var session := left.data;
      if session == map[] && loaded.sid.Some? then
        (if fails then store else store - {loaded.sid.value}, Delete(loaded.sid.value))
      else if session != loaded.data || (session != map[] && loaded.sid.None?) then
        var sid := if loaded.sid.Some? then loaded.sid.value else token;
        if fails then (store, NoCookie) else (store[sid := Dict(session)], Keep(sid))
      else if session != map[] && loaded.sid.Some? then
        (store, if fails then NoCookie else Keep(loaded.sid.value))
      else (store, NoCookie)
  }

  // ---------- Many clients ----------

  /** The store, each client's cookie, and the session each request in flight was given. */
  datatype System = System(store: Store, jars: map<Client, Option<SessionId>>, inFlight: map<Client, Loaded>)

  /** A client's request is loaded, or its response starts. A client has one request at a time. */
  datatype Event =
    | Begin(c: Client, loadFails: bool)
    | End(c: Client, left: AppSession, token: SessionId, writeFails: bool)

  function Step(s: System, e: Event): System {
    match e
    case Begin(c, loadFails) =>
      if c !in s.jars || c in s.inFlight then s
      else s.(inFlight := s.inFlight[c := Load(s.store, s.jars[c], loadFails)])
    case End(c, left, token, writeFails) =>
      if c !in s.jars || c !in s.inFlight then s
      else
        var (store, cookie) := Respond(s.store, s.inFlight[c], left, token, writeFails);
        System(store, s.jars[c := AfterCookie(s.jars[c], cookie)], s.inFlight - {c})
  }

  function AfterCookie(jar: Option<SessionId>, cookie: SetCookie): Option<SessionId> {
    match cookie
    case NoCookie => jar
    case Keep(sid) => Some(sid)
    case Delete(_) => None
  }

  /** The session a client is entitled to: what the latest response with a Set-Cookie left, nothing if that was a
      deletion. `given` is what it was before this event. */
  function Entitled(s: System, given: Data, c: Client, e: Event): Data {
    if e.End? && e.c == c && c in s.jars && c in s.inFlight then
      match Respond(s.store, s.inFlight[c], e.left, e.token, e.writeFails).1
      case NoCookie => given
      case Delete(_) => map[]
      case Keep(_) => if e.left.Session? then e.left.data else given
    else given
  }

  function Run(s: System, events: seq<Event>): System {
    if events == [] then s else Step(Run(s, events[..|events| - 1]), events[|events| - 1])
  }

  /** The session client `c` is entitled to after a run that starts with `given`. */
  function EntitledAfter(s: System, given: Data, c: Client, events: seq<Event>): Data {
    if events == [] then given
    else
      var before := events[..|events| - 1];
      Entitled(Run(s, before), EntitledAfter(s, given, c, before), c, events[|events| - 1])
  }

  /** What a request of the client would be given now, if loading works. */
  function View(s: System, c: Client): Data
    requires c in s.jars
  {
    Load(s.store, s.jars[c], false).data
  }

  /** Generated ids are new: no stored session and no client has them. */
  ghost predicate TokenIsNew(s: System, e: Event) {
    e.End? ==> IsToken(e.token) && e.token !in s.store && forall c :: c in s.jars ==> s.jars[c] != Some(e.token)
  }

  ghost predicate TokensAreNew(s: System, events: seq<Event>) {
    forall k :: 0 <= k < |events| ==> TokenIsNew(Run(s, events[..k]), events[k])
  }

  /** No two clients send the same cookie. */
  ghost predicate SeparateCookies(s: System) {
    forall c, d :: c in s.jars && d in s.jars && c != d && s.jars[c].Some? ==> s.jars[c] != s.jars[d]
  }

  /** A request in flight still holds what the store has for its client's cookie. */
  predicate FlightInv(s: System, c: Client) {
    c in s.inFlight ==>
      && c in s.jars
      && (s.inFlight[c].sid.None? ==> s.inFlight[c].data == map[])
      && (s.inFlight[c].sid.Some? ==>
            && s.jars[c] == s.inFlight[c].sid
            && Load(s.store, s.jars[c], false) == s.inFlight[c])
  }

  ghost predicate Inv(s: System) {
    SeparateCookies(s) && forall c :: FlightInv(s, c)
  }

  lemma ResponseGivesEntitled(s: System, c: Client, e: Event)
    requires Inv(s) && c in s.jars && c in s.inFlight && e.End? && e.c == c && TokenIsNew(s, e)
    ensures View(Step(s, e), c) == Entitled(s, View(s, c), c, e)
  {
    assert FlightInv(s, c);
    assert IsToken(e.token) ==> IsValidSessionId(e.token);
  }

  /** A response changes the store only under its own client's id or under a new one. */
  lemma ResponseIsLocal(s: System, c: Client, e: Event, d: Client)
    requires Inv(s) && c in s.jars && c in s.inFlight && e.End? && e.c == c && TokenIsNew(s, e)
    requires d in s.jars && d != c
    ensures Step(s, e).jars[d] == s.jars[d]
    ensures Load(Step(s, e).store, s.jars[d], false) == Load(s.store, s.jars[d], false)
    ensures s.jars[d].Some? ==> Step(s, e).jars[c] != s.jars[d]
  {
    assert FlightInv(s, c);
  }

  lemma StepKeepsInv(s: System, e: Event)
    requires Inv(s) && TokenIsNew(s, e)
    ensures Inv(Step(s, e)) && Step(s, e).jars.Keys == s.jars.Keys
    ensures forall c :: c in s.jars ==> View(Step(s, e), c) == Entitled(s, View(s, c), c, e)
  {
    var t := Step(s, e);
    if e.End? && e.c in s.jars && e.c in s.inFlight {
      forall d | d in s.jars
        ensures View(t, d) == Entitled(s, View(s, d), d, e)
        ensures FlightInv(t, d)
      {
        assert FlightInv(s, d);
        if d == e.c {
          ResponseGivesEntitled(s, d, e);
        } else {
          ResponseIsLocal(s, e.c, e, d);
        }
      }
      forall c, d | c in t.jars && d in t.jars && c != d && t.jars[c].Some? ensures t.jars[c] != t.jars[d] {
        if c == e.c {
          ResponseIsLocal(s, e.c, e, d);
        } else if d == e.c {
          ResponseIsLocal(s, e.c, e, c);
        }
      }
      forall c ensures FlightInv(t, c) {
        assert FlightInv(s, c);
      }
    } else {
      forall c ensures FlightInv(t, c) {
        assert FlightInv(s, c);
      }
    }
  }

  /** Over every interleaving of the clients' requests, with loads and writes failing at will and unserializable
      sessions in between, a request whose load works is given exactly the session left by its own client's latest
      response that set a cookie. */
  lemma {:induction false} RequestsSeeTheLatestSession(s: System, events: seq<Event>, c: Client)
    requires s.inFlight == map[] && SeparateCookies(s) && c in s.jars
    requires TokensAreNew(s, events)
    ensures var now := Run(s, events);
            && Inv(now) && c in now.jars
            && Load(now.store, now.jars[c], false).data == EntitledAfter(s, View(s, c), c, events)
  {
    if events != [] {
      var n := |events| - 1;
      forall k | 0 <= k < n ensures TokenIsNew(Run(s, events[..n][..k]), events[..n][k]) {
        assert events[..n][..k] == events[..k];
      }
      RequestsSeeTheLatestSession(s, events[..n], c);
      assert TokenIsNew(Run(s, events[..n]), events[n]);
      StepKeepsInv(Run(s, events[..n]), events[n]);
    }
  }

  /** In particular nobody else's activity is ever visible: a run in which client `c` does nothing leaves what it
      would be given unchanged. */
  lemma {:induction false} OthersDoNotInterfere(s: System, events: seq<Event>, c: Client)
    requires s.inFlight == map[] && SeparateCookies(s) && c in s.jars
    requires TokensAreNew(s, events) && forall e :: e in events ==> e.c != c
    ensures c in Run(s, events).jars && View(Run(s, events), c) == View(s, c)
  {
    RequestsSeeTheLatestSession(s, events, c);
    IdleClientKeepsEntitlement(s, View(s, c), events, c);
  }

  lemma {:induction false} IdleClientKeepsEntitlement(s: System, given: Data, events: seq<Event>, c: Client)
    requires forall e :: e in events ==> e.c != c
    ensures EntitledAfter(s, given, c, events) == given
  {
    if events != [] {
      IdleClientKeepsEntitlement(s, given, events[..|events| - 1], c);
    }
  }

  // ---------- What a response does to the session ----------

  /** The response of a client's request in flight starts. */
  ghost predicate Ends(s: System, c: Client, e: Event) {
    Inv(s) && c in s.jars && c in s.inFlight && e.End? && e.c == c && TokenIsNew(s, e)
  }

  /** A request that begins is given what the client's cookie stands for, nothing when loading fails; nothing else
      changes. */
  lemma RequestIsGiven(s: System, c: Client, loadFails: bool)
    requires c in s.jars && c !in s.inFlight
    ensures var t := Step(s, Begin(c, loadFails));
            && t.store == s.store && t.jars == s.jars && t.inFlight.Keys == s.inFlight.Keys + {c}
            && (forall d :: d in s.inFlight ==> t.inFlight[d] == s.inFlight[d])
            && t.inFlight[c].data == (if loadFails then map[] else View(s, c))
            && (!loadFails && View(s, c) != map[] ==> t.inFlight[c].sid == s.jars[c] && s.jars[c].Some?)
  {
  }

  /** What the application leaves is what the client's next request is given, and a non-empty session has a cookie,
      whether it is new, changed or as it was. A request that was given nothing leaves nothing behind when its own
      session stays empty. */
  lemma SessionIsSaved(s: System, c: Client, e: Event)
    requires Ends(s, c, e) && e.left.Session? && !e.writeFails
    requires e.left.data != map[] || s.inFlight[c].sid.Some?
    ensures var t := Step(s, e);
            && c in t.jars && c !in t.inFlight
            && View(t, c) == e.left.data
            && (t.jars[c].Some? <==> e.left.data != map[])
            && (t.jars[c].Some? ==> t.jars[c].value in t.store && t.store[t.jars[c].value] == Dict(e.left.data))
  {
    assert FlightInv(s, c);
    assert IsValidSessionId(e.token);
  }

  /** A new session is stored under the generated id, a session that was there stays under its own. */
  lemma SessionKeepsItsId(s: System, c: Client, e: Event)
    requires Ends(s, c, e) && e.left.Session? && !e.writeFails && e.left.data != map[]
    ensures Step(s, e).jars[c] == (if s.inFlight[c].sid.Some? then s.inFlight[c].sid else Some(e.token))
    ensures forall sid :: sid in s.store && Some(sid) != s.inFlight[c].sid ==>
              sid in Step(s, e).store && Step(s, e).store[sid] == s.store[sid]
  {
    assert FlightInv(s, c);
  }

  /** A session that cannot be serialized, a non-empty one whose write fails, and an empty one that was given nothing
      leave store and cookie alone. */
  lemma NothingIsSaved(s: System, c: Client, e: Event)
    requires Ends(s, c, e)
    requires || e.left.NotSerializable?
             || (e.writeFails && e.left.data != map[])
             || (e.left.data == map[] && s.inFlight[c].sid.None?)
    ensures var t := Step(s, e);
            && t.store == s.store && t.jars == s.jars && View(t, c) == View(s, c)
  {
    assert FlightInv(s, c);
    assert s.jars[c := s.jars[c]] == s.jars;
  }

  /** A cleared session takes the cookie away even when deleting it fails, and then the stored one is out of reach. */
  lemma ClearedSessionIsGone(s: System, c: Client, e: Event)
    requires Ends(s, c, e) && e.left == Session(map[]) && s.inFlight[c].sid.Some?
    ensures var t, sid := Step(s, e), s.inFlight[c].sid.value;
            && t.jars[c] == None && View(t, c) == map[]
            && t.store == (if e.writeFails then s.store else s.store - {sid})
            && forall d :: d in t.jars ==> t.jars[d] != Some(sid)
  {
    assert FlightInv(s, c);
  }

  /** A non-empty session that was not changed stays as it is, cookie and store alike. */
  lemma UnchangedSessionStays(s: System, c: Client, e: Event)
    requires Ends(s, c, e) && e.left == Session(s.inFlight[c].data) && s.inFlight[c].data != map[]
    ensures Step(s, e).store == s.store && Step(s, e).jars == s.jars
  {
    assert FlightInv(s, c);
    assert s.jars[c := s.jars[c]] == s.jars;
  }

  /** A request is given an empty session when loading fails, and when its cookie is not between 22 and 128 characters
      long. */
  lemma FreshSession(store: Store, cookie: Option<SessionId>, fails: bool)
    requires fails || cookie.None? || |cookie.value| < 22 || |cookie.value| > 128
    ensures Load(store, cookie, fails) == Loaded(None, map[])
  {
  }

  // ---------- The code ----------

  class RedisSessionMiddleware {
    var redis: Store

    constructor (redis: Store)
      ensures this.redis == redis
    {
      this.redis := redis;
    }

    /** The first half of `__call__`. */
    method LoadSession(cookie: Option<SessionId>, fails: bool) returns (sid: Option<SessionId>, initial: Data)
      ensures Loaded(sid, initial) == Load(redis, cookie, fails)
    {
      sid, initial := None, map[];
      if cookie.Some? && IsValidSessionId(cookie.value) {
        if !fails {
          if cookie.value in redis {
            var raw := redis[cookie.value];
            if raw.Dict? {
              sid, initial := cookie, raw.data;
            }
          }
        }
      }
    }

    /** `send_wrapper` on the start of the response. */
    method SendStart(sid: Option<SessionId>, initial: Data, left: AppSession, token: SessionId, fails: bool)
      returns (cookie: SetCookie)
      modifies this
      ensures (redis, cookie) == Respond(old(redis), Loaded(sid, initial), left, token, fails)
    {
      cookie := NoCookie;
      if left.NotSerializable? {
        return;
      }
      var session := left.data;
      if session == map[] && sid.Some? {
        if !fails {
          redis := redis - {sid.value};
        }
        cookie := Delete(sid.value);
      } else if session != initial || (session != map[] && sid.None?) {
        var key := if sid.Some? then sid.value else token;
        if !fails {
          redis := redis[key := Dict(session)];
          cookie := Keep(key);
        }
      } else if session != map[] && sid.Some? {
        if !fails {
          cookie := Keep(sid.value);
        }
      }
    }
  }
}

/**
 Admission of plugin-protocol observations: four counted scopes (global, plugin,
 user, token), acquired one after the other with rollback, and leases that give
 their places back once.
 */
module ObservationLimiter {
  import Text

  datatype Identity = Identity(plugin: string, user: int, token: int)

  datatype Limits = Limits(global: int, perPlugin: int, perUser: int, perToken: int)

  datatype Counters = Counters(global: int, plugin: map<string, int>, user: map<int, int>, token: map<int, int>)

  const NONE := Counters(0, map[], map[], map[])

  /** A scope, and within it one counted thing. */
  datatype Scope = Global | Plugin(p: string) | User(u: int) | Token(t: int)

  datatype Outcome =
    | Granted
    | MissingPlugin | BadUser | BadToken
    | Full(scope: Scope, limit: int)

  // -------------------------------------------------------------- counter algebra

  /** A missing entry counts as 0. */
  function Get<K>(m: map<K, int>, k: K): int {
    if k in m then m[k] else 0
  }

  function Put<K>(m: map<K, int>, k: K, n: int): map<K, int> {
    if n == 0 then m - {k} else m[k := n]
  }

  function Counter(c: Counters, s: Scope): int {
    match s
    case Global => c.global
    case Plugin(p) => Get(c.plugin, p)
    case User(u) => Get(c.user, u)
    case Token(t) => Get(c.token, t)
  }

  function LimitOf(l: Limits, s: Scope): int {
    match s
    case Global => l.global
    case Plugin(_) => l.perPlugin
    case User(_) => l.perUser
    case Token(_) => l.perToken
  }

  predicate In(id: Identity, s: Scope) {
    match s
    case Global => true
    case Plugin(p) => id.plugin == p
    case User(u) => id.user == u
    case Token(t) => id.token == t
  }

  predicate HasRoom(c: Counters, l: Limits, s: Scope) {
    Counter(c, s) < LimitOf(l, s)
  }

  /** The simple form of admission: the first scope without room decides. */
  function Decide(c: Counters, l: Limits, id: Identity): Outcome {
    if id.plugin == "" then MissingPlugin
    else if id.user <= 0 then BadUser
    else if id.token <= 0 then BadToken
    else if !HasRoom(c, l, Global) then Full(Global, l.global)
    else if !HasRoom(c, l, Plugin(id.plugin)) then Full(Plugin(id.plugin), l.perPlugin)
    else if !HasRoom(c, l, User(id.user)) then Full(User(id.user), l.perUser)
    else if !HasRoom(c, l, Token(id.token)) then Full(Token(id.token), l.perToken)
    else Granted
  }

  function Shifted(c: Counters, id: Identity, d: int): Counters {
    Counters(c.global + d,
             Put(c.plugin, id.plugin, Get(c.plugin, id.plugin) + d),
             Put(c.user, id.user, Get(c.user, id.user) + d),
             Put(c.token, id.token, Get(c.token, id.token) + d))
  }

  ghost predicate NoZero<K>(m: map<K, int>) {
    forall k :: k in m ==> m[k] > 0
  }

  ghost predicate Tidy(c: Counters) {
    c.global >= 0 && NoZero(c.plugin) && NoZero(c.user) && NoZero(c.token)
  }

  /** Taking a place and giving it back restores the map, whether or not it had an entry. */
  lemma Increment<K>(m: map<K, int>, k: K)
    requires NoZero(m)
    ensures m[k := Get(m, k) + 1] == Put(m, k, Get(m, k) + 1)
    ensures NoZero(m[k := Get(m, k) + 1])
    ensures Put(m[k := Get(m, k) + 1], k, Get(m, k)) == m
  {
  }

  // ------------------------------------------------------------- the limiter object

  class Lease {
    const id: Identity
    var released: bool

    constructor (id: Identity)
      ensures this.id == id && !released
    {
      this.id := id;
      released := false;
    }
  }

  class Limiter {
    const limits: Limits
    var global: int
    var plugin: map<string, int>
    var user: map<int, int>
    var token: map<int, int>

    function State(): Counters
      reads this
    {
      Counters(global, plugin, user, token)
    }

    constructor (limits: Limits)
      ensures this.limits == limits && State() == NONE
    {
      this.limits := limits;
      global, plugin, user, token := 0, map[], map[], map[];
    }

    /** The step-by-step acquisition with rollback refines the simple decision: it grants exactly
        when `Decide` does, a granted call takes one place in each scope, and a rejected call
        leaves the counters as they were. */
    method Acquire(pluginKey: string, userId: int, tokenId: int) returns (outcome: Outcome, lease: Lease?)
      requires Tidy(State())
      modifies this
      ensures
        var id := Identity(Text.Trim(pluginKey), userId, tokenId);
        && outcome == Decide(old(State()), limits, id)
        && State() == (if outcome.Granted? then Shifted(old(State()), id, 1) else old(State()))
        && (outcome.Granted? <==> lease != null)
        && (lease != null ==> fresh(lease) && lease.id == id && !lease.released)
      ensures Tidy(State())
    {
      lease := null;
      var key := Text.Trim(pluginKey);
      if key == "" {
        return MissingPlugin, null;
      } else if userId <= 0 {
        return BadUser, null;
      } else if tokenId <= 0 {
        return BadToken, null;
      }
      outcome := TakePlaces(Identity(key, userId, tokenId));
      if outcome.Granted? {
        lease := new Lease(Identity(key, userId, tokenId));
      }
    }

    method TakePlaces(id: Identity) returns (outcome: Outcome)
      requires Tidy(State())
      requires id.plugin != "" && id.user > 0 && id.token > 0
      modifies this
      ensures outcome == Decide(old(State()), limits, id)
      ensures State() == (if outcome.Granted? then Shifted(old(State()), id, 1) else old(State()))
      ensures Tidy(State())
    {
      Increment(plugin, id.plugin);
      Increment(user, id.user);
      Increment(token, id.token);
      if global >= limits.global {
        return Full(Global, limits.global);
      }
      global := global + 1;
      if Get(plugin, id.plugin) >= limits.perPlugin {
        global := global - 1;
        return Full(Plugin(id.plugin), limits.perPlugin);
      }
      plugin := plugin[id.plugin := Get(plugin, id.plugin) + 1];
      if Get(user, id.user) >= limits.perUser {
        global := global - 1;
        ReleasePlugin(id.plugin);
        return Full(User(id.user), limits.perUser);
      }
      user := user[id.user := Get(user, id.user) + 1];
      if Get(token, id.token) >= limits.perToken {
        global := global - 1;
        ReleasePlugin(id.plugin);
        ReleaseUser(id.user);
        return Full(Token(id.token), limits.perToken);
      }
      token := token[id.token := Get(token, id.token) + 1];
      outcome := Granted;
    }

    method ReleasePlugin(key: string)
      modifies this`plugin
      ensures plugin == Put(old(plugin), key, Get(old(plugin), key) - 1)
    {
      plugin := plugin[key := Get(plugin, key) - 1];
      if plugin[key] == 0 {
        plugin := plugin - {key};
      }
    }

    method ReleaseUser(userId: int)
      modifies this`user
      ensures user == Put(old(user), userId, Get(old(user), userId) - 1)
    {
      user := user[userId := Get(user, userId) - 1];
      if user[userId] == 0 {
        user := user - {userId};
      }
    }

    /** The release closure: the first call gives all four places back, any later call does nothing. */
    method Release(lease: Lease)
      modifies this, lease
      ensures lease.released
      ensures State() == if old(lease.released) then old(State()) else Shifted(old(State()), lease.id, -1)
    {
      if lease.released {
        return;
      }
      lease.released := true;
      global := global - 1;
      ReleasePlugin(lease.id.plugin);
      ReleaseUser(lease.id.user);
      token := token[lease.id.token := Get(token, lease.id.token) - 1];
      if token[lease.id.token] == 0 {
        token := token - {lease.id.token};
      }
    }
  }

  // ------------------------------------------------------------------- whole runs

  datatype Event = Acquire(key: string, user: int, token: int) | Release(lease: nat)

  /** The counters, and every lease ever granted with whether it is still held. */
  datatype World = World(counters: Counters, leases: seq<(Identity, bool)>)

  function Step(l: Limits, w: World, e: Event): World {
    match e
    case Acquire(key, user, token) =>
      var id := Identity(Text.Trim(key), user, token);
      if Decide(w.counters, l, id).Granted?
      then World(Shifted(w.counters, id, 1), w.leases + [(id, true)])
      else w
    case Release(i) =>
      if i < |w.leases| && w.leases[i].1
      then World(Shifted(w.counters, w.leases[i].0, -1), w.leases[i := (w.leases[i].0, false)])
      else w
  }

  function After(l: Limits, events: seq<Event>): World {
    if events == [] then World(NONE, []) else Step(l, After(l, events[..|events| - 1]), events[|events| - 1])
  }

  /** The number of held leases in a scope. */
  function Held(leases: seq<(Identity, bool)>, s: Scope): nat {
    if leases == [] then 0
    else Held(leases[..|leases| - 1], s) + Place(leases[|leases| - 1], s)
  }

  function Place(lease: (Identity, bool), s: Scope): nat {
    if lease.1 && In(lease.0, s) then 1 else 0
  }

  lemma {:induction false} HeldUpdate(leases: seq<(Identity, bool)>, i: nat, x: (Identity, bool), s: Scope)
    requires i < |leases|
    ensures Held(leases[i := x], s) == Held(leases, s) - Place(leases[i], s) + Place(x, s)
    ensures Place(leases[i], s) <= Held(leases, s)
    decreases |leases|
  {
    var n := |leases| - 1;
    if i == n {
      assert leases[i := x][..n] == leases[..n];
    } else {
      HeldUpdate(leases[..n], i, x, s);
      assert leases[i := x][..n] == leases[..n][i := x];
    }
  }

  lemma HeldAppend(leases: seq<(Identity, bool)>, x: (Identity, bool), s: Scope)
    ensures Held(leases + [x], s) == Held(leases, s) + Place(x, s)
  {
    assert (leases + [x])[..|leases|] == leases;
  }

  lemma ShiftedCounter(c: Counters, id: Identity, d: int, s: Scope)
    ensures Counter(Shifted(c, id, d), s) == Counter(c, s) + if In(id, s) then d else 0
  {
  }

  ghost predicate Exact(l: Limits, w: World, s: Scope) {
    && Counter(w.counters, s) == Held(w.leases, s)
    && (Counter(w.counters, s) <= LimitOf(l, s) || Counter(w.counters, s) == 0)
  }

  lemma ExactAcquire(l: Limits, w: World, id: Identity, s: Scope)
    requires Exact(l, w, s) && Decide(w.counters, l, id).Granted?
    ensures Exact(l, World(Shifted(w.counters, id, 1), w.leases + [(id, true)]), s)
  {
    ShiftedCounter(w.counters, id, 1, s);
    HeldAppend(w.leases, (id, true), s);
  }

  lemma ExactRelease(l: Limits, w: World, i: nat, s: Scope)
    requires Exact(l, w, s) && i < |w.leases| && w.leases[i].1
    ensures Exact(l, World(Shifted(w.counters, w.leases[i].0, -1), w.leases[i := (w.leases[i].0, false)]), s)
  {
    ShiftedCounter(w.counters, w.leases[i].0, -1, s);
    HeldUpdate(w.leases, i, (w.leases[i].0, false), s);
  }

  lemma ExactStep(l: Limits, w: World, e: Event, s: Scope)
    requires Exact(l, w, s)
    ensures Exact(l, Step(l, w, e), s)
  {
    match e
    case Acquire(key, user, token) =>
      var id := Identity(Text.Trim(key), user, token);
      if Decide(w.counters, l, id).Granted? {
        ExactAcquire(l, w, id, s);
      }
    case Release(i) =>
      if i < |w.leases| && w.leases[i].1 {
        ExactRelease(l, w, i, s);
      }
  }

  /** After every run of acquires and repeated releases, each of the four kinds of counter is the
      number of leases held in its scope, and never exceeds the limit. */
  lemma {:induction false} CountersExact(l: Limits, events: seq<Event>, s: Scope)
    ensures Exact(l, After(l, events), s)
    decreases |events|
  {
    if events != [] {
      CountersExact(l, events[..|events| - 1], s);
      ExactStep(l, After(l, events[..|events| - 1]), events[|events| - 1], s);
    }
  }

  lemma PutNoZero<K>(m: map<K, int>, k: K, n: int)
    requires NoZero(m) && n >= 0
    ensures NoZero(Put(m, k, n))
  {
  }

  lemma ShiftedTidy(c: Counters, id: Identity, d: int)
    requires Tidy(c) && c.global + d >= 0
    requires Get(c.plugin, id.plugin) + d >= 0 && Get(c.user, id.user) + d >= 0 && Get(c.token, id.token) + d >= 0
    ensures Tidy(Shifted(c, id, d))
  {
    PutNoZero(c.plugin, id.plugin, Get(c.plugin, id.plugin) + d);
    PutNoZero(c.user, id.user, Get(c.user, id.user) + d);
    PutNoZero(c.token, id.token, Get(c.token, id.token) + d);
  }

  /** No map ever keeps a zero or negative entry. */
  lemma {:induction false} AlwaysTidy(l: Limits, events: seq<Event>)
    ensures Tidy(After(l, events).counters)
    decreases |events|
  {
    if events != [] {
      var p := events[..|events| - 1];
      var e := events[|events| - 1];
      var w := After(l, p);
      AlwaysTidy(l, p);
      if e.Release? && e.lease < |w.leases| && w.leases[e.lease].1 {
        var id := w.leases[e.lease].0;
        HeldInAll(l, p, e.lease);
        ShiftedTidy(w.counters, id, -1);
      } else if e.Acquire? {
        ShiftedTidy(w.counters, Identity(Text.Trim(e.key), e.user, e.token), 1);
      }
    }
  }

  lemma HeldInAll(l: Limits, events: seq<Event>, i: nat)
    requires i < |After(l, events).leases| && After(l, events).leases[i].1
    ensures
      var c := After(l, events).counters;
      var id := After(l, events).leases[i].0;
      c.global >= 1 && Get(c.plugin, id.plugin) >= 1 && Get(c.user, id.user) >= 1 && Get(c.token, id.token) >= 1
  {
    var w := After(l, events);
    var id := w.leases[i].0;
    HeldInScope(l, events, i, Global);
    HeldInScope(l, events, i, Plugin(id.plugin));
    HeldInScope(l, events, i, User(id.user));
    HeldInScope(l, events, i, Token(id.token));
  }

  lemma HeldInScope(l: Limits, events: seq<Event>, i: nat, s: Scope)
    requires i < |After(l, events).leases| && After(l, events).leases[i].1 && In(After(l, events).leases[i].0, s)
    ensures Counter(After(l, events).counters, s) >= 1
  {
    CountersExact(l, events, s);
    HeldUpdate(After(l, events).leases, i, After(l, events).leases[i], s);
  }

  /** Acquisition succeeds if and only if the identity is valid and, counting held leases, every one
      of its four scopes has room; otherwise, and on a repeated release, the world is unchanged. */
  lemma AcquireIffRoom(l: Limits, events: seq<Event>, key: string, user: int, token: int)
    ensures
      var w := After(l, events);
      var id := Identity(Text.Trim(key), user, token);
      var after := Step(l, w, Acquire(key, user, token));
      var granted := after == World(Shifted(w.counters, id, 1), w.leases + [(id, true)]);
      && (granted <==>
            && id.plugin != "" && user > 0 && token > 0
            && Held(w.leases, Global) < l.global && Held(w.leases, Plugin(id.plugin)) < l.perPlugin
            && Held(w.leases, User(user)) < l.perUser && Held(w.leases, Token(token)) < l.perToken)
      && (!granted ==> after == w)
  {
    var w := After(l, events);
    var id := Identity(Text.Trim(key), user, token);
    CountersExact(l, events, Global);
    CountersExact(l, events, Plugin(id.plugin));
    CountersExact(l, events, User(user));
    CountersExact(l, events, Token(token));
    assert |w.leases + [(id, true)]| != |w.leases|;
  }

  /** No room in a scope, counting the leases held in it. */
  predicate NoRoom(l: Limits, w: World, s: Scope) {
    Held(w.leases, s) >= match s
                         case Global => l.global
                         case Plugin(_) => l.perPlugin
                         case User(_) => l.perUser
                         case Token(_) => l.perToken
  }

  /** Which refusal is given, after any run: a blank plugin key before a bad user before a bad token, then
      the first of the global, plugin, user and token scopes without room, with its limit. */
  lemma RefusalExact(l: Limits, events: seq<Event>, key: string, user: int, token: int)
    requires Text.Trim(key) != "" && user > 0 && token > 0
    ensures
      var w, plugin := After(l, events), Text.Trim(key);
      var outcome := Decide(w.counters, l, Identity(plugin, user, token));
      var g, p := NoRoom(l, w, Global), NoRoom(l, w, Plugin(plugin));
      var u, t := NoRoom(l, w, User(user)), NoRoom(l, w, Token(token));
      && (outcome == Full(Global, l.global) <==> g)
      && (outcome == Full(Plugin(plugin), l.perPlugin) <==> !g && p)
      && (outcome == Full(User(user), l.perUser) <==> !g && !p && u)
      && (outcome == Full(Token(token), l.perToken) <==> !g && !p && !u && t)
      && (outcome == Granted <==> !g && !p && !u && !t)
  {
    CountersExact(l, events, Global);
    CountersExact(l, events, Plugin(Text.Trim(key)));
    CountersExact(l, events, User(user));
    CountersExact(l, events, Token(token));
  }

  lemma IdentityRefused(c: Counters, l: Limits, key: string, user: int, token: int)
    ensures
      var outcome := Decide(c, l, Identity(Text.Trim(key), user, token));
      && (outcome == MissingPlugin <==> Text.Trim(key) == "")
      && (outcome == BadUser <==> Text.Trim(key) != "" && user <= 0)
      && (outcome == BadToken <==> Text.Trim(key) != "" && user > 0 && token <= 0)
  {
  }

  /** Releasing a lease twice is releasing it once. */
  lemma ReleaseOnce(l: Limits, w: World, i: nat)
    ensures Step(l, Step(l, w, Release(i)), Release(i)) == Step(l, w, Release(i))
  {
  }
}

/** The OAuth token verifier (`generic_token_verifier.rs`): its configuration, the JWKS key cache,
    and the cache that lets a recent remote verdict stand in for a new one. The key server, the
    signature check and the remote endpoints are given as functions of the time of asking. */
module TokenVerifier {
  import opened Sequences
  import J = JwtCache

  // Times are in milliseconds.
  const JWKS_REFRESH_TIME: nat := 24 * 60 * 60 * 1000
  const REMOTE_VERIFICATION_INTERVAL: nat := 15 * 60 * 1000
  const JWT_CACHE_CAPACITY: nat := 1000

  // ---------- Configuration ----------

  datatype Strategy = Introspection(uri: string) | Jwks(uri: string) | UserInfo(uri: string)

  datatype Endpoints = Endpoints(introspection: Option<string>, jwks: Option<string>, userinfo: Option<string>)

  const NO_ENDPOINTS := Endpoints(None, None, None)

  /** The address of the last strategy of a kind, parsed. */
  function LastOf(strategies: seq<Strategy>, kind: Strategy -> bool, parse: string -> Option<string>): Option<string> {
    if strategies == [] then None
    else if kind(strategies[|strategies| - 1]) then parse(strategies[|strategies| - 1].uri)
    else LastOf(strategies[..|strategies| - 1], kind, parse)
  }

  /** The endpoints that a list of strategies asks for: a later strategy overrides an earlier one. */
  function EndpointsOf(strategies: seq<Strategy>, parse: string -> Option<string>): Endpoints {
    Endpoints(LastOf(strategies, (s: Strategy) => s.Introspection?, parse),
              LastOf(strategies, (s: Strategy) => s.Jwks?, parse),
              LastOf(strategies, (s: Strategy) => s.UserInfo?, parse))
  }

  /** If every address parses, an endpoint is set exactly when some strategy is of its kind. */
  lemma {:induction false} LastOfIsSome(strategies: seq<Strategy>, kind: Strategy -> bool,
                                        parse: string -> Option<string>)
    requires forall i :: 0 <= i < |strategies| ==> parse(strategies[i].uri).Some?
    ensures LastOf(strategies, kind, parse).Some? <==> exists i :: 0 <= i < |strategies| && kind(strategies[i])
  {
    if strategies != [] {
      var front := strategies[..|strategies| - 1];
      LastOfIsSome(front, kind, parse);
      if i :| 0 <= i < |strategies| && kind(strategies[i]) {
        assert i < |front| ==> kind(front[i]);
      }
      if kind(strategies[|strategies| - 1]) {
        assert kind(strategies[|strategies| - 1]);
      } else if LastOf(front, kind, parse).Some? {
        var i :| 0 <= i < |front| && kind(front[i]);
        assert kind(strategies[i]);
      }
    }
  }

  /** No strategy after `i` is of the kind. */
  ghost predicate LastAt(strategies: seq<Strategy>, kind: Strategy -> bool, i: nat) {
    i < |strategies| && kind(strategies[i]) && forall k :: i < k < |strategies| ==> !kind(strategies[k])
  }

  lemma {:induction false} LastOfIs(strategies: seq<Strategy>, kind: Strategy -> bool,
                                    parse: string -> Option<string>, i: nat)
    requires LastAt(strategies, kind, i)
    ensures LastOf(strategies, kind, parse) == parse(strategies[i].uri)
  {
    if i < |strategies| - 1 {
      LastOfIs(strategies[..|strategies| - 1], kind, parse, i);
    }
  }

  /** Each endpoint is the address of the last strategy of its own kind. */
  lemma EndpointIsOfItsKind(strategies: seq<Strategy>, parse: string -> Option<string>, i: nat)
    ensures LastAt(strategies, (s: Strategy) => s.Introspection?, i) ==>
              EndpointsOf(strategies, parse).introspection == parse(strategies[i].uri)
    ensures LastAt(strategies, (s: Strategy) => s.Jwks?, i) ==>
              EndpointsOf(strategies, parse).jwks == parse(strategies[i].uri)
    ensures LastAt(strategies, (s: Strategy) => s.UserInfo?, i) ==>
              EndpointsOf(strategies, parse).userinfo == parse(strategies[i].uri)
  {
    if LastAt(strategies, (s: Strategy) => s.Introspection?, i) {
      LastOfIs(strategies, (s: Strategy) => s.Introspection?, parse, i);
    }
    if LastAt(strategies, (s: Strategy) => s.Jwks?, i) {
      LastOfIs(strategies, (s: Strategy) => s.Jwks?, parse, i);
    }
    if LastAt(strategies, (s: Strategy) => s.UserInfo?, i) {
      LastOfIs(strategies, (s: Strategy) => s.UserInfo?, parse, i);
    }
  }

  /** JWKS together with a remote method. */
  predicate Cacheable(e: Endpoints) {
    e.jwks.Some? && (e.introspection.Some? || e.userinfo.Some?)
  }

  /** `unpack`: fails on the first address that does not parse; otherwise every strategy named
      ends up as an endpoint, and remote verdicts are cached iff JWKS comes with a remote method. */
  method Unpack(strategies: seq<Strategy>, parse: string -> Option<string>)
    returns (r: Result<(Endpoints, bool), string>)
    ensures match r
            case Ok((e, cacheable)) =>
              && (forall i :: 0 <= i < |strategies| ==> parse(strategies[i].uri).Some?)
              && e == EndpointsOf(strategies, parse)
              && (cacheable <==> Cacheable(e))
            case Err(uri) =>
              exists i :: 0 <= i < |strategies| && strategies[i].uri == uri && parse(uri).None? &&
                          forall k :: 0 <= k < i ==> parse(strategies[k].uri).Some?
  {
    var e := NO_ENDPOINTS;
    var hasJwks, hasOther := false, false;
    for i := 0 to |strategies|
      invariant forall k :: 0 <= k < i ==> parse(strategies[k].uri).Some?
      invariant e == EndpointsOf(strategies[..i], parse)
      invariant hasJwks == e.jwks.Some?
      invariant hasOther == (e.introspection.Some? || e.userinfo.Some?)
    {
      var url := parse(strategies[i].uri);
      if url.None? {
        return Err(strategies[i].uri);
      }
      assert strategies[..i + 1][..i] == strategies[..i];
      match strategies[i]
      case Introspection(_) =>
        e, hasOther := e.(introspection := url), true;
      case Jwks(_) =>
        e, hasJwks := e.(jwks := url), true;
      case UserInfo(_) =>
        e, hasOther := e.(userinfo := url), true;
    }
    assert strategies[..|strategies|] == strategies;
    return Ok((e, hasJwks && hasOther));
  }

  // ---------- The outside world ----------

  datatype KeySet = KeySet(id: nat)

  /** The key server, the signature check (giving a token's unique id), introspection (giving the
      unique id in its response) and the user-info endpoint. */
  datatype World = World(
    fetch: int -> Option<KeySet>,
    check: (KeySet, string, int) -> Option<string>,
    introspect: (string, nat) -> Option<string>,
    userinfo: (string, nat) -> bool)

  // ---------- The JWKS check with its key cache ----------

  datatype Keys = Keys(updated: int, keySet: KeySet)

  /** Time since the keys were fetched; a wall clock set back counts as no time. */
  function Age(k: Keys, wall: int): nat {
    if wall < k.updated then 0 else wall - k.updated
  }

  /** `verify_jwks`: the unique id if the token passes, and the keys held afterwards. */
  function CheckJwks(w: World, keys: Option<Keys>, token: string, wall: int): (Option<string>, Option<Keys>) {
    if keys.Some? && Age(keys.value, wall) < JWKS_REFRESH_TIME then (w.check(keys.value.keySet, token, wall), keys)
    else
      match w.fetch(wall)
      case None => (None, keys)
      case Some(fetched) => (w.check(fetched, token, wall), Some(Keys(wall, fetched)))
  }

  /** The keys that a token is checked against: those held while they are less than a day old, else
      those that the key server hands out now. */
  predicate InForce(w: World, keys: Option<Keys>, wall: int, k: KeySet) {
    if keys.Some? && wall - keys.value.updated < 86_400_000 then k == keys.value.keySet else w.fetch(wall) == Some(k)
  }

  /** A token passes iff there are keys in force and they accept it; and the keys held change exactly
      when new ones had to be fetched and were. */
  lemma TokenPassesIff(w: World, keys: Option<Keys>, token: string, wall: int, uid: string)
    ensures var (passed, after) := CheckJwks(w, keys, token, wall);
            && (passed == Some(uid) <==> exists k :: InForce(w, keys, wall, k) && w.check(k, token, wall) == Some(uid))
            && (keys.Some? && wall - keys.value.updated < 86_400_000 ==> after == keys)
            && (forall k :: InForce(w, keys, wall, k) ==> after.Some? && after.value.keySet == k)
            && ((forall k :: !InForce(w, keys, wall, k)) ==> after == keys)
  {
    if keys.Some? && Age(keys.value, wall) < JWKS_REFRESH_TIME {
      assert InForce(w, keys, wall, keys.value.keySet);
    } else if w.fetch(wall).Some? {
      assert InForce(w, keys, wall, w.fetch(wall).value);
    }
  }

  /** Keys that the key server handed out at the time they carry. */
  predicate Genuine(w: World, keys: Option<Keys>) {
    keys.Some? ==> w.fetch(keys.value.updated) == Some(keys.value.keySet)
  }

  /** A token passes only against keys that the server handed out less than a day before, by the
      wall clock; and the keys held stay genuine. */
  lemma JwksKeysAreFresh(w: World, keys: Option<Keys>, token: string, wall: int)
    requires Genuine(w, keys)
    ensures var (uid, after) := CheckJwks(w, keys, token, wall);
            && Genuine(w, after)
            && (uid.Some? ==>
                  && after.Some? && wall - after.value.updated < 86_400_000
                  && w.check(after.value.keySet, token, wall) == uid)
  {
  }

  // ---------- The remote check ----------

  /** What the remote endpoint says of a token whose JWKS id is `uid`: the id to record, if accepted. */
  function AskRemote(e: Endpoints, w: World, token: string, uid: string, now: nat): Option<string> {
    if e.introspection.Some? then w.introspect(token, now)
    else if e.userinfo.Some? && w.userinfo(token, now) then Some(uid)
    else None
  }

  predicate RemoteAccepts(e: Endpoints, w: World, token: string, now: nat) {
    if e.introspection.Some? then w.introspect(token, now).Some?
    else e.userinfo.Some? && w.userinfo(token, now)
  }

  // ---------- The verifier ----------

  /** A call's clock readings: the wall clock, the cache lookup, the remote request, and the two of `record`. */
  datatype Times = Times(wall: int, lookup: nat, asked: nat, t1: nat, t2: nat)

  class Verifier {
    const e: Endpoints
    const w: World
    const cache: J.Cache?
    var keys: Option<Keys>

    ghost predicate Valid()
      reads this, cache
    {
      && (cache != null <==> Cacheable(e))
      && (cache != null ==> cache.Valid() && cache.c.interval == REMOTE_VERIFICATION_INTERVAL)
    }

    constructor (e: Endpoints, cacheable: bool, capacity: Option<nat>, w: World)
      requires cacheable <==> Cacheable(e)
      ensures Valid() && this.e == e && this.w == w && keys == None
      ensures cacheable ==> fresh(cache) && cache.View() == J.EMPTY
      ensures cacheable ==> cache.c == J.Config(REMOTE_VERIFICATION_INTERVAL,
                                                if capacity.Some? then capacity.value else JWT_CACHE_CAPACITY)
    {
      this.e, this.w, keys := e, w, None;
      if cacheable {
        cache := new J.Cache(REMOTE_VERIFICATION_INTERVAL,
                             if capacity.Some? then capacity.value else JWT_CACHE_CAPACITY);
      } else {
        cache := null;
      }
    }

    /** `verify_jwks`: keys less than a day old serve as they are, else they are fetched anew. */
    method VerifyJwks(token: string, wall: int) returns (uid: Option<string>)
      modifies this`keys
      ensures (uid, keys) == CheckJwks(w, old(keys), token, wall)
    {
      if keys.Some? && Age(keys.value, wall) < JWKS_REFRESH_TIME {
        return w.check(keys.value.keySet, token, wall);
      }
      var fetched := w.fetch(wall);
      if fetched.None? {
        return None;
      }
      keys := Some(Keys(wall, fetched.value));
      return w.check(fetched.value, token, wall);
    }

    /** `verify_token`. With a cache, the call is a `Begin` step of the protocol below and, if that
        leaves it waiting, a `Finish` step; accepting on the JWKS check alone is for verifiers
        without a remote method. */
    method VerifyToken(token: string, t: Times) returns (accepted: bool)
      requires Valid()
      modifies this, cache
      ensures Valid()
      ensures e.jwks.None? ==> keys == old(keys) && accepted == RemoteAccepts(e, w, token, t.asked)
      ensures e.jwks.Some? && !Cacheable(e) ==>
                var (uid, newKeys) := CheckJwks(w, old(keys), token, t.wall);
                accepted == uid.Some? && keys == newKeys
      ensures Cacheable(e) ==>
                (accepted, keys, cache.View()) ==
                CachedVerify(e, w, cache.c, old(keys), old(cache.View()), token, t)
    {
      if e.jwks.Some? {
        var uid := VerifyJwks(token, t.wall);
        if uid.None? {
          return false;
        }
        if cache != null {
          var recent := cache.Recent(uid.value, t.lookup);
          if recent {
            return true;
          }
          if e.introspection.Some? {
            var answer := w.introspect(token, t.asked);
            if answer.None? {
              return false;
            }
            cache.RecordKey(answer.value, t.t1, t.t2);
            return true;
          }
          if e.userinfo.Some? {
            if !w.userinfo(token, t.asked) {
              return false;
            }
            cache.RecordKey(uid.value, t.t1, t.t2);
            return true;
          }
          assert false;
        }
        return true;
      }
      if e.introspection.Some? {
        return w.introspect(token, t.asked).Some?;
      }
      return e.userinfo.Some? && w.userinfo(token, t.asked);
    }
  }

  /** `GenericOauthTokenVerifier::new`: a verifier caches exactly when its strategies include JWKS and
      a remote method. */
  method NewVerifier(strategies: seq<Strategy>, parse: string -> Option<string>, capacity: Option<nat>, w: World)
    returns (r: Result<Verifier, string>)
    ensures r.Err? <==> exists i :: 0 <= i < |strategies| && parse(strategies[i].uri).None?
    ensures r.Ok? ==>
              var v := r.value;
              && fresh(v) && v.Valid() && v.w == w && v.e == EndpointsOf(strategies, parse)
              && (v.cache != null <==>
                    && (exists i :: 0 <= i < |strategies| && strategies[i].Jwks?)
                    && (exists i :: 0 <= i < |strategies| && !strategies[i].Jwks?))
              && (v.cache != null ==> fresh(v.cache) && v.cache.View() == J.EMPTY)
  {
    var options := Unpack(strategies, parse);
    if options.Err? {
      return Err(options.error);
    }
    var (e, cacheable) := options.value;
    LastOfIsSome(strategies, (s: Strategy) => s.Introspection?, parse);
    LastOfIsSome(strategies, (s: Strategy) => s.Jwks?, parse);
    LastOfIsSome(strategies, (s: Strategy) => s.UserInfo?, parse);
    var v := new Verifier(e, cacheable, capacity, w);
    r := Ok(v);
  }

  /** One uninterrupted call of the caching verifier: its verdict, keys and cache. */
  function CachedVerify(e: Endpoints, w: World, c: J.Config, keys: Option<Keys>, cache: J.State, token: string,
                        t: Times)
    : (bool, Option<Keys>, J.State)
  {
    var (uid, newKeys) := CheckJwks(w, keys, token, t.wall);
    if uid.None? then (false, newKeys, cache)
    else if J.IsRecent(c, cache, uid.value, t.lookup) then (true, newKeys, cache)
    else
      match AskRemote(e, w, token, uid.value, t.asked)
      case None => (false, newKeys, cache)
      case Some(id) => (true, newKeys, J.Record(c, cache, id, t.t1, t.t2))
  }

  /** A call of the caching verifier accepts iff the keys in force accept the token and its id was found
      recent or the remote endpoint accepts it; a rejected one records nothing. */
  lemma CallAcceptsIff(e: Endpoints, w: World, c: J.Config, keys: Option<Keys>, cache: J.State, token: string,
                       t: Times)
    requires Cacheable(e)
    ensures var (accepted, _, after) := CachedVerify(e, w, c, keys, cache, token, t);
            && (accepted <==>
                  exists k, uid ::
                    && InForce(w, keys, t.wall, k) && w.check(k, token, t.wall) == Some(uid)
                    && (J.IsRecent(c, cache, uid, t.lookup) || RemoteAccepts(e, w, token, t.asked)))
            && (!accepted ==> after == cache)
  {
    var passed := CheckJwks(w, keys, token, t.wall).0;
    hide CheckJwks, InForce, J.IsRecent, J.Record;
    if passed.Some? {
      TokenPassesIff(w, keys, token, t.wall, passed.value);
      var k :| InForce(w, keys, t.wall, k) && w.check(k, token, t.wall) == Some(passed.value);
      assert InForce(w, keys, t.wall, k) && w.check(k, token, t.wall) == Some(passed.value);
    }
    if k, uid :| InForce(w, keys, t.wall, k) && w.check(k, token, t.wall) == Some(uid) {
      TokenPassesIff(w, keys, token, t.wall, uid);
    }
  }

  // ---------- The protocol: calls interleave between lookup and record ----------

  /** A call that passed the JWKS check, missed the cache and awaits its remote verdict. */
  datatype Waiting = Waiting(token: string, uid: string, since: nat)

  datatype State = State(keys: Option<Keys>, cache: J.State, waiting: map<nat, Waiting>)

  const INIT := State(None, J.EMPTY, map[])

  datatype Step =
    | Begin(call: nat, token: string, wall: int, now: nat)
    | Finish(call: nat, asked: nat, t1: nat, t2: nat)

  datatype Verdict = Accepted | Rejected | Undecided

  /** A step of one of the concurrent calls. A `Begin` that reuses the number of a waiting call, or
      a `Finish` without a waiting call, is no step of the protocol and changes nothing. */
  function Next(e: Endpoints, w: World, c: J.Config, s: State, step: Step): (State, Verdict) {
    match step
    case Begin(call, token, wall, now) =>
      if call in s.waiting then (s, Undecided)
      else
        var (uid, keys) := CheckJwks(w, s.keys, token, wall);
        var s' := s.(keys := keys);
        if uid.None? then (s', Rejected)
        else if J.IsRecent(c, s.cache, uid.value, now) then (s', Accepted)
        else (s'.(waiting := s.waiting[call := Waiting(token, uid.value, now)]), Undecided)
    case Finish(call, asked, t1, t2) =>
      if call !in s.waiting then (s, Undecided)
      else
        var s' := s.(waiting := s.waiting - {call});
        match AskRemote(e, w, s.waiting[call].token, s.waiting[call].uid, asked)
        case None => (s', Rejected)
        case Some(id) => (s'.(cache := J.Record(c, s.cache, id, t1, t2)), Accepted)
  }

  function Run(e: Endpoints, w: World, c: J.Config, steps: seq<Step>): State {
    if steps == [] then INIT else Next(e, w, c, Run(e, w, c, steps[..|steps| - 1]), steps[|steps| - 1]).0
  }

  function VerdictAt(e: Endpoints, w: World, c: J.Config, steps: seq<Step>, i: nat): Verdict
    requires i < |steps|
  {
    Next(e, w, c, Run(e, w, c, steps[..i]), steps[i]).1
  }

  /** An uninterrupted call is a `Begin` and, when that leaves the call waiting, a `Finish`. */
  lemma VerifyIsBeginThenFinish(e: Endpoints, w: World, c: J.Config, s: State, call: nat, token: string, t: Times)
    requires call !in s.waiting
    ensures var (s1, v1) := Next(e, w, c, s, Begin(call, token, t.wall, t.lookup));
            var (s2, v2) := Next(e, w, c, s1, Finish(call, t.asked, t.t1, t.t2));
            var (accepted, keys, cache) := CachedVerify(e, w, c, s.keys, s.cache, token, t);
            && s2 == State(keys, cache, s.waiting)
            && (accepted <==> v1.Accepted? || v2.Accepted?)
            && (v1.Undecided? || v2.Undecided?)
  {
    var (s1, v1) := Next(e, w, c, s, Begin(call, token, t.wall, t.lookup));
    if v1.Undecided? {
      assert s1.waiting - {call} == s.waiting;
    }
  }

  /** In every run the keys held are keys the server handed out. */
  lemma {:induction false} RunHoldsGenuineKeys(e: Endpoints, w: World, c: J.Config, steps: seq<Step>)
    ensures Genuine(w, Run(e, w, c, steps).keys)
  {
    if steps != [] {
      var front, last := steps[..|steps| - 1], steps[|steps| - 1];
      RunHoldsGenuineKeys(e, w, c, front);
      if last.Begin? {
        JwksKeysAreFresh(w, Run(e, w, c, front).keys, last.token, last.wall);
      }
      hide CheckJwks, AskRemote, Genuine;
    }
  }

  // ---------- Where an acceptance comes from ----------

  /** The record operations that a run performs on the cache. */
  function CacheOps(e: Endpoints, w: World, c: J.Config, steps: seq<Step>): seq<J.Op> {
    if steps == [] then []
    else
      var front, last := steps[..|steps| - 1], steps[|steps| - 1];
      CacheOps(e, w, c, front) + RecordOp(e, w, Run(e, w, c, front), last)
  }

  function RecordOp(e: Endpoints, w: World, s: State, step: Step): seq<J.Op> {
    if step.Finish? && step.call in s.waiting then
      match AskRemote(e, w, s.waiting[step.call].token, s.waiting[step.call].uid, step.asked)
      case Some(id) => [J.Stamp(id, step.t1, step.t2)]
      case None => []
    else []
  }

  lemma {:induction false} CacheIsItsHistory(e: Endpoints, w: World, c: J.Config, steps: seq<Step>)
    ensures Run(e, w, c, steps).cache == J.Run(c, CacheOps(e, w, c, steps))
  {
    hide CheckJwks, AskRemote, J.IsRecent, J.Record;
    if steps != [] {
      var front, last := steps[..|steps| - 1], steps[|steps| - 1];
      CacheIsItsHistory(e, w, c, front);
      var op := RecordOp(e, w, Run(e, w, c, front), last);
      if op == [] {
        assert CacheOps(e, w, c, front) + op == CacheOps(e, w, c, front);
      } else {
        J.Snoc(c, CacheOps(e, w, c, front), op[0]);
      }
    }
  }

  /** Step `i` of a run: a remote check made just then accepted `token`, and `id` was recorded. */
  ghost predicate RecordsAt(e: Endpoints, w: World, c: J.Config, steps: seq<Step>, i: nat, token: string, id: string) {
    && i < |steps| && steps[i].Finish?
    && var s := Run(e, w, c, steps[..i]);
       && steps[i].call in s.waiting
       && s.waiting[steps[i].call].token == token
       && AskRemote(e, w, token, s.waiting[steps[i].call].uid, steps[i].asked) == Some(id)
  }

  /** An id seen by the cache was recorded by some step of the run, at the time the cache holds. */
  lemma {:induction false} SeenWasRecorded(e: Endpoints, w: World, c: J.Config, steps: seq<Step>, id: string)
    returns (i: nat, token: string)
    requires J.LastSeen(CacheOps(e, w, c, steps), id).Some?
    ensures RecordsAt(e, w, c, steps, i, token, id)
    ensures J.LastSeen(CacheOps(e, w, c, steps), id) == Some(steps[i].t2)
  {
    var front, last := steps[..|steps| - 1], steps[|steps| - 1];
    var s := Run(e, w, c, front);
    var op := RecordOp(e, w, s, last);
    if op != [] {
      var ops := CacheOps(e, w, c, front);
      assert (ops + op)[..|ops|] == ops;
      if op[0].key == id {
        return |steps| - 1, s.waiting[last.call].token;
      }
    } else {
      assert CacheOps(e, w, c, front) + op == CacheOps(e, w, c, front);
    }
    i, token := SeenWasRecorded(e, w, c, front, id);
    assert front[..i] == steps[..i];
  }

  /** Every waiting call passed the JWKS check in its own `Begin` step. */
  lemma {:induction false} WaitingPassedJwks(e: Endpoints, w: World, c: J.Config, steps: seq<Step>, call: nat)
    returns (i: nat)
    requires call in Run(e, w, c, steps).waiting
    ensures i < |steps| && steps[i].Begin? && steps[i].call == call
    ensures var a := Run(e, w, c, steps).waiting[call];
            && steps[i].token == a.token && steps[i].now == a.since
            && CheckJwks(w, Run(e, w, c, steps[..i]).keys, a.token, steps[i].wall).0 == Some(a.uid)
  {
    hide CheckJwks, AskRemote, J.IsRecent, J.Record;
    var front, last := steps[..|steps| - 1], steps[|steps| - 1];
    if call !in Run(e, w, c, front).waiting {
      return |steps| - 1;
    }
    i := WaitingPassedJwks(e, w, c, front, call);
    assert front[..i] == steps[..i];
  }

  /** The call that begins at step `n` passed the JWKS check there, and its id had been recorded for
      `token` by step `i`, at most fifteen minutes before. */
  ghost predicate FoundRecent(e: Endpoints, w: World, c: J.Config, steps: seq<Step>, n: nat, i: nat, token: string) {
    && i < n < |steps| && steps[n].Begin?
    && var uid := CheckJwks(w, Run(e, w, c, steps[..n]).keys, steps[n].token, steps[n].wall).0;
       && uid.Some?
       && RecordsAt(e, w, c, steps, i, token, uid.value)
       && steps[n].now - steps[i].t2 <= REMOTE_VERIFICATION_INTERVAL
  }

  /** The call that finishes at step `n` passed the JWKS check when it began at step `i`, and the
      remote endpoint accepts its token right then. */
  ghost predicate AskedRemote(e: Endpoints, w: World, c: J.Config, steps: seq<Step>, n: nat, i: nat, token: string) {
    && i < n < |steps| && steps[n].Finish?
    && steps[i].Begin? && steps[i].call == steps[n].call && steps[i].token == token
    && CheckJwks(w, Run(e, w, c, steps[..i]).keys, token, steps[i].wall).0.Some?
    && RemoteAccepts(e, w, token, steps[n].asked)
  }

  /** Every acceptance of every run passed the JWKS check in that call; and either the remote
      endpoint accepted the token in that call, or the token's id had been recorded, by a step whose
      remote check succeeded, at most fifteen minutes before. */
  lemma AcceptanceHasProvenance(e: Endpoints, w: World, c: J.Config, steps: seq<Step>, n: nat)
    returns (i: nat, token: string)
    requires c.interval == REMOTE_VERIFICATION_INTERVAL
    requires n < |steps| && VerdictAt(e, w, c, steps, n).Accepted?
    ensures if steps[n].Begin? then FoundRecent(e, w, c, steps, n, i, token)
            else AskedRemote(e, w, c, steps, n, i, token)
  {
    hide Run, CheckJwks, FoundRecent, AskedRemote;
    if steps[n].Begin? {
      i, token := CachedAcceptance(e, w, c, steps, n);
    } else {
      i, token := RemoteAcceptance(e, w, c, steps, n);
    }
  }

  lemma CachedAcceptance(e: Endpoints, w: World, c: J.Config, steps: seq<Step>, n: nat) returns (i: nat, token: string)
    requires c.interval == REMOTE_VERIFICATION_INTERVAL
    requires n < |steps| && steps[n].Begin? && VerdictAt(e, w, c, steps, n).Accepted?
    ensures FoundRecent(e, w, c, steps, n, i, token)
  {
    var before := steps[..n];
    hide Run, CheckJwks;
    var uid := CheckJwks(w, Run(e, w, c, before).keys, steps[n].token, steps[n].wall).0.value;
    CacheIsItsHistory(e, w, c, before);
    J.RecentIsTrue(c, CacheOps(e, w, c, before), uid, steps[n].now);
    i, token := SeenWasRecorded(e, w, c, before, uid);
    assert before[..i] == steps[..i];
  }

  lemma RemoteAcceptance(e: Endpoints, w: World, c: J.Config, steps: seq<Step>, n: nat) returns (i: nat, token: string)
    requires n < |steps| && steps[n].Finish? && VerdictAt(e, w, c, steps, n).Accepted?
    ensures AskedRemote(e, w, c, steps, n, i, token)
  {
    var before := steps[..n];
    hide Run, CheckJwks;
    i := WaitingPassedJwks(e, w, c, before, steps[n].call);
    token := Run(e, w, c, before).waiting[steps[n].call].token;
    assert before[..i] == steps[..i];
  }

  // ---------- Caching is transparent ----------

  /** A recorded id identifies one token: no other token's JWKS check yields it. */
  ghost predicate IdsIdentify(e: Endpoints, w: World) {
    && (e.introspection.Some? ==>
          forall a, t, b, k, t', id :: w.introspect(a, t) == Some(id) && w.check(k, b, t') == Some(id) ==> a == b)
    && (e.introspection.None? ==>
          forall a, k, t, b, k', t', id :: w.check(k, a, t) == Some(id) && w.check(k', b, t') == Some(id) ==> a == b)
  }

  /** Every accepting remote verdict of the run holds until fifteen minutes after it was recorded. */
  ghost predicate VerdictsLast(e: Endpoints, w: World, c: J.Config, steps: seq<Step>) {
    forall i: nat, token, id, t ::
      RecordsAt(e, w, c, steps, i, token, id) && steps[i].t2 <= t <= steps[i].t2 + REMOTE_VERIFICATION_INTERVAL ==>
        RemoteAccepts(e, w, token, t)
  }

  /** The clock of the cache does not run backwards over the steps that reach it. */
  ghost predicate InOrder(steps: seq<Step>) {
    forall i, k :: 0 <= i < k < |steps| && steps[i].Finish? && steps[k].Begin? ==> steps[i].t2 <= steps[k].now
  }

  /** A verifier that never caches: its keys, and the token of each call that passed its JWKS check. */
  datatype Asking = Asking(keys: Option<Keys>, open: map<nat, string>)

  /** Its step and its verdict: the JWKS check of the call, and the remote endpoint asked right then. */
  function Ask(e: Endpoints, w: World, a: Asking, step: Step): (Asking, bool) {
    match step
    case Begin(call, token, wall, now) =>
      var (uid, keys) := CheckJwks(w, a.keys, token, wall);
      if uid.None? then (a.(keys := keys), false)
      else (Asking(keys, a.open[call := token]), RemoteAccepts(e, w, token, now))
    case Finish(call, asked, _, _) =>
      (a.(open := a.open - {call}), call in a.open && RemoteAccepts(e, w, a.open[call], asked))
  }

  function AskRun(e: Endpoints, w: World, steps: seq<Step>): Asking {
    if steps == [] then Asking(None, map[])
    else Ask(e, w, AskRun(e, w, steps[..|steps| - 1]), steps[|steps| - 1]).0
  }

  predicate AlwaysAskAccepts(e: Endpoints, w: World, steps: seq<Step>, n: nat)
    requires n < |steps|
  {
    Ask(e, w, AskRun(e, w, steps[..n]), steps[n]).1
  }

  /** A call number stands for one call. */
  ghost predicate FreshCalls(steps: seq<Step>) {
    forall i, k :: 0 <= i < k < |steps| && steps[i].Begin? && steps[k].Begin? ==> steps[i].call != steps[k].call
  }

  /** Over the same steps, the two verifiers hold the same keys, and what waits in the one is open in
      the other with the same token. */
  ghost predicate Matches(s: State, a: Asking) {
    && s.keys == a.keys
    && forall call :: call in s.waiting ==> call in a.open && a.open[call] == s.waiting[call].token
  }

  lemma NextMatches(e: Endpoints, w: World, c: J.Config, s: State, a: Asking, step: Step)
    requires Matches(s, a) && (step.Begin? ==> step.call !in s.waiting)
    ensures Matches(Next(e, w, c, s, step).0, Ask(e, w, a, step).0)
  {
    hide CheckJwks, AskRemote, RemoteAccepts, J.IsRecent, J.Record;
  }

  lemma {:induction false} RunsMatch(e: Endpoints, w: World, c: J.Config, steps: seq<Step>)
    requires FreshCalls(steps)
    ensures Matches(Run(e, w, c, steps), AskRun(e, w, steps))
  {
    hide Next, Ask, CheckJwks;
    if steps != [] {
      var front, last := steps[..|steps| - 1], steps[|steps| - 1];
      RunsMatch(e, w, c, front);
      NewCallIsNotWaiting(e, w, c, steps);
      NextMatches(e, w, c, Run(e, w, c, front), AskRun(e, w, front), last);
    }
  }

  lemma NewCallIsNotWaiting(e: Endpoints, w: World, c: J.Config, steps: seq<Step>)
    requires FreshCalls(steps) && steps != []
    ensures var last := steps[|steps| - 1];
            last.Begin? ==> last.call !in Run(e, w, c, steps[..|steps| - 1]).waiting
  {
    hide Next, CheckJwks, Run;
    var front, last := steps[..|steps| - 1], steps[|steps| - 1];
    assert forall i :: 0 <= i < |front| ==> front[i] == steps[i];
    if last.Begin? && last.call in Run(e, w, c, front).waiting {
      var i := WaitingPassedJwks(e, w, c, front, last.call);
    }
  }

  /** The id recorded for a token and the id found by a later JWKS check can only meet on that token. */
  lemma RecordedIdIsTheTokens(e: Endpoints, w: World, c: J.Config, steps: seq<Step>, i: nat,
                              recorded: string, id: string, token: string, keys: Option<Keys>, wall: int)
    requires IdsIdentify(e, w) && RecordsAt(e, w, c, steps, i, recorded, id)
    requires CheckJwks(w, keys, token, wall).0 == Some(id)
    ensures recorded == token
  {
    if e.introspection.None? {
      var before := steps[..i];
      var b := WaitingPassedJwks(e, w, c, before, steps[i].call);
      assert before[..b] == steps[..b];
    }
  }

  /** For every run of interleaved calls, over the same steps: the caching verifier holds the keys of
      one that never caches, and whenever a call is decided, it accepts exactly when that one does. */
  lemma CachingIsTransparent(e: Endpoints, w: World, c: J.Config, steps: seq<Step>, n: nat)
    requires c.interval == REMOTE_VERIFICATION_INTERVAL && FreshCalls(steps)
    requires IdsIdentify(e, w) && VerdictsLast(e, w, c, steps) && InOrder(steps)
    requires n < |steps| && !VerdictAt(e, w, c, steps, n).Undecided?
    ensures Run(e, w, c, steps[..n]).keys == AskRun(e, w, steps[..n]).keys
    ensures VerdictAt(e, w, c, steps, n).Accepted? <==> AlwaysAskAccepts(e, w, steps, n)
  {
    RunsMatch(e, w, c, steps[..n]);
    hide Run, AskRun, CheckJwks, RecordsAt, J.IsRecent, J.Record;
    if steps[n].Begin? {
      if VerdictAt(e, w, c, steps, n).Accepted? {
        CachedTokenStillAccepted(e, w, c, steps, n);
      }
    }
  }

  lemma CachedTokenStillAccepted(e: Endpoints, w: World, c: J.Config, steps: seq<Step>, n: nat)
    requires c.interval == REMOTE_VERIFICATION_INTERVAL
    requires IdsIdentify(e, w) && VerdictsLast(e, w, c, steps) && InOrder(steps)
    requires n < |steps| && steps[n].Begin? && VerdictAt(e, w, c, steps, n).Accepted?
    ensures RemoteAccepts(e, w, steps[n].token, steps[n].now)
  {
    var i, recorded := AcceptanceHasProvenance(e, w, c, steps, n);
    var keys := Run(e, w, c, steps[..n]).keys;
    var id := CheckJwks(w, keys, steps[n].token, steps[n].wall).0.value;
    RecordedIdIsTheTokens(e, w, c, steps, i, recorded, id, steps[n].token, keys, steps[n].wall);
    hide RecordsAt, CheckJwks, Run, Next;
    assert RemoteAccepts(e, w, recorded, steps[n].now);
  }
}

/** The cache of recent remote verifications (`jwt_cache.rs`): a time-to-live map with a
    first-in-first-out bound, driven by a clock that does not go backwards. */
module JwtCache {
  import opened Sequences

  datatype Config = Config(interval: nat, capacity: nat)

  /** The two fields of the cache: when each key was last recorded, and the keys in insertion order. */
  datatype State = State(seen: map<string, nat>, order: seq<string>)

  const EMPTY := State(map[], [])

  // ---------- The operations on values ----------

  predicate Fresh(c: Config, last: nat, now: nat) {
    now - last <= c.interval
  }

  predicate IsRecent(c: Config, s: State, key: string, now: nat) {
    key in s.seen && Fresh(c, s.seen[key], now)
  }

  function ExpiredKeys(c: Config, s: State, now: nat): set<string> {
    set k | k in s.seen && !Fresh(c, s.seen[k], now)
  }

  function Without(order: seq<string>, keys: set<string>): seq<string> {
    if order == [] then [] else (if order[0] in keys then [] else [order[0]]) + Without(order[1..], keys)
  }

  function RemoveExpired(c: Config, s: State, now: nat): State {
    var expired := ExpiredKeys(c, s, now);
    State(s.seen - expired, Without(s.order, expired))
  }

  function DropOldest(s: State): State {
    if s.order == [] then s else State(s.seen - {s.order[0]}, s.order[1..])
  }

  function Insert(c: Config, s: State, key: string, now: nat): State {
    if key in s.seen then s.(seen := s.seen[key := now])
    else
      var room := if |s.seen| >= c.capacity then DropOldest(s) else s;
      State(room.seen[key := now], room.order + [key])
  }

  /** `record` reads the clock twice: once to expire, once to stamp the entry. */
  function Record(c: Config, s: State, key: string, t1: nat, t2: nat): State {
    Insert(c, RemoveExpired(c, s, t1), key, t2)
  }

  // ---------- The cache object ----------

  class Cache {
    var seen: map<string, nat>
    var order: seq<string>
    const c: Config

    ghost function View(): State
      reads this
    {
      State(seen, order)
    }

    ghost predicate Valid()
      reads this
    {
      Inv(c, View())
    }

    constructor (interval: nat, capacity: nat)
      ensures View() == EMPTY && c == Config(interval, capacity) && Valid()
    {
      seen, order, c := map[], [], Config(interval, capacity);
    }

    method Recent(key: string, now: nat) returns (recent: bool)
      ensures recent == IsRecent(c, View(), key, now)
    {
      recent := key in seen && now - seen[key] <= c.interval;
    }

    method RecordKey(key: string, t1: nat, t2: nat)
      requires Valid()
      modifies this
      ensures View() == Record(c, old(View()), key, t1, t2) && Valid()
    {
      RemoveExpiredKeepsInv(c, View(), t1);
      Expire(t1);
      ghost var s := View();
      InsertKeepsInv(c, s, key, t2);
      if key in seen {
        seen := seen[key := t2];
      } else {
        if |seen| >= c.capacity {
          if order != [] {
            seen := seen - {order[0]};
            order := order[1..];
          }
        }
        seen := seen[key := t2];
        order := order + [key];
      }
      assert View() == Insert(c, s, key, t2);
    }

    /** `remove_expired`: collect the expired keys in order, then drop them one by one. */
    method Expire(now: nat)
      requires Valid()
      modifies this
      ensures View() == RemoveExpired(c, old(View()), now)
    {
      var expired := CollectExpired(now);
      assert SetOf(expired) == ExpiredKeys(c, View(), now);
      DropAll(expired);
    }

    method CollectExpired(now: nat) returns (expired: seq<string>)
      ensures forall k :: k in expired <==> k in order && k in ExpiredKeys(c, View(), now)
    {
      expired := [];
      for i := 0 to |order|
        invariant forall k :: k in expired <==> k in order[..i] && k in ExpiredKeys(c, View(), now)
      {
        var key := order[i];
        if key in seen && now - seen[key] > c.interval {
          expired := expired + [key];
        }
      }
    }

    method DropAll(keys: seq<string>)
      modifies this
      ensures View() == State(old(seen) - SetOf(keys), Without(old(order), SetOf(keys)))
    {
      WithoutNone(order);
      assert keys[..0] == [] && SetOf([]) == {};
      for i := 0 to |keys|
        invariant View() == State(old(seen) - SetOf(keys[..i]), Without(old(order), SetOf(keys[..i])))
      {
        var key := keys[i];
        WithoutTwice(old(order), SetOf(keys[..i]), {key});
        assert SetOf(keys[..i + 1]) == SetOf(keys[..i]) + {key};
        seen := seen - {key};
        order := Without(order, {key});
      }
      assert keys[..|keys|] == keys;
    }
  }

  function SetOf(keys: seq<string>): set<string> {
    set k | k in keys
  }

  lemma {:induction false} WithoutNone(order: seq<string>)
    ensures Without(order, {}) == order
  {
    if order != [] {
      WithoutNone(order[1..]);
    }
  }

  lemma {:induction false} WithoutTwice(order: seq<string>, a: set<string>, b: set<string>)
    ensures Without(Without(order, a), b) == Without(order, a + b)
  {
    if order != [] {
      WithoutTwice(order[1..], a, b);
      var rest := Without(order[1..], a);
      if order[0] in a {
        assert [] + rest == rest;
      } else {
        assert ([order[0]] + rest)[1..] == rest;
      }
    }
  }

  // ---------- The invariant ----------

  ghost predicate NoDuplicates(order: seq<string>) {
    forall i, j :: 0 <= i < j < |order| ==> order[i] != order[j]
  }

  function EffectiveCapacity(c: Config): nat {
    if c.capacity == 0 then 1 else c.capacity
  }

  /** `order` lists exactly the keys of the map, once each, and the bound holds. */
  ghost predicate Inv(c: Config, s: State) {
    && NoDuplicates(s.order)
    && (forall k :: k in s.order <==> k in s.seen)
    && |s.order| == |s.seen| <= EffectiveCapacity(c)
  }

  lemma {:induction false} LengthIsSize(order: seq<string>)
    requires NoDuplicates(order)
    ensures |set k | k in order| == |order|
  {
    if order != [] {
      LengthIsSize(order[1..]);
      assert (set k | k in order) == {order[0]} + set k | k in order[1..];
      assert order[0] !in order[1..];
    }
  }

  lemma {:induction false} WithoutMembers(order: seq<string>, keys: set<string>)
    ensures forall k :: k in Without(order, keys) <==> k in order && k !in keys
    ensures NoDuplicates(order) ==> NoDuplicates(Without(order, keys))
  {
    if order != [] {
      WithoutMembers(order[1..], keys);
      if NoDuplicates(order) {
        assert order[0] !in order[1..];
      }
    }
  }

  lemma InvFromMembers(c: Config, s: State)
    requires NoDuplicates(s.order) && forall k :: k in s.order <==> k in s.seen
    ensures |s.order| == |s.seen|
  {
    LengthIsSize(s.order);
    assert (set k | k in s.order) == s.seen.Keys;
  }

  lemma RemoveExpiredKeepsInv(c: Config, s: State, now: nat)
    requires Inv(c, s)
    ensures Inv(c, RemoveExpired(c, s, now))
  {
    var expired := ExpiredKeys(c, s, now);
    var s' := RemoveExpired(c, s, now);
    WithoutMembers(s.order, expired);
    InvFromMembers(c, s');
    Subset(s'.seen.Keys, s.seen.Keys);
  }

  lemma Subset<T>(a: set<T>, b: set<T>)
    requires a <= b
    ensures |a| <= |b|
  {
    assert b == a + (b - a);
  }

  lemma DropOldestKeepsInv(c: Config, s: State)
    requires Inv(c, s) && s.order != []
    ensures Inv(c, DropOldest(s)) && |DropOldest(s).seen| == |s.seen| - 1
  {
    var s' := DropOldest(s);
    assert s.order[0] in s.seen;
    assert forall k :: k in s'.order <==> k in s.order && k != s.order[0];
    InvFromMembers(c, s');
  }

  lemma PushKeepsInv(c: Config, s: State, key: string, now: nat)
    requires Inv(c, s) && key !in s.seen && |s.seen| < EffectiveCapacity(c)
    ensures Inv(c, State(s.seen[key := now], s.order + [key]))
  {
    var s' := State(s.seen[key := now], s.order + [key]);
    assert forall k :: k in s'.order <==> k in s.order || k == key;
    assert key !in s.order;
    InvFromMembers(c, s');
    assert |s'.order| == |s.order| + 1;
  }

  lemma InsertKeepsInv(c: Config, s: State, key: string, now: nat)
    requires Inv(c, s)
    ensures Inv(c, Insert(c, s, key, now))
  {
    if key in s.seen {
      assert s.seen[key := now].Keys == s.seen.Keys;
    } else if |s.seen| >= c.capacity && s.order != [] {
      DropOldestKeepsInv(c, s);
      hide Inv, NoDuplicates;
      PushKeepsInv(c, DropOldest(s), key, now);
    } else {
      PushKeepsInv(c, s, key, now);
    }
  }

  // ---------- Histories ----------

  datatype Op = Stamp(key: string, t1: nat, t2: nat) | Sweep(t: nat)

  function Apply(c: Config, s: State, op: Op): State {
    match op
    case Stamp(key, t1, t2) => Record(c, s, key, t1, t2)
    case Sweep(t) => RemoveExpired(c, s, t)
  }

  function Run(c: Config, ops: seq<Op>): State {
    if ops == [] then EMPTY else Apply(c, Run(c, ops[..|ops| - 1]), ops[|ops| - 1])
  }

  function Start(op: Op): nat {
    match op case Stamp(_, t1, _) => t1 case Sweep(t) => t
  }

  function End(op: Op): nat {
    match op case Stamp(_, _, t2) => t2 case Sweep(t) => t
  }

  /** The last clock reading of a history. */
  function Clock(ops: seq<Op>): nat {
    if ops == [] then 0 else End(ops[|ops| - 1])
  }

  /** The clock never went backwards. */
  predicate Monotone(ops: seq<Op>) {
    ops == [] ||
    var front, last := ops[..|ops| - 1], ops[|ops| - 1];
    Monotone(front) && Clock(front) <= Start(last) <= End(last)
  }

  /** When `key` was last recorded: the unbounded map the cache stands in for. */
  function LastSeen(ops: seq<Op>, key: string): Option<nat> {
    if ops == [] then None
    else
      var last := ops[|ops| - 1];
      if last.Stamp? && last.key == key then Some(last.t2) else LastSeen(ops[..|ops| - 1], key)
  }

  predicate WasRecent(c: Config, ops: seq<Op>, key: string, now: nat) {
    var last := LastSeen(ops, key);
    last.Some? && Fresh(c, last.value, now)
  }

  /** After every history: no duplicates, `order` and map agree, the bound holds, and every entry
      carries the time of its key's latest record. */
  lemma {:induction false} RunInvariant(c: Config, ops: seq<Op>)
    ensures Inv(c, Run(c, ops))
    ensures forall k :: k in Run(c, ops).seen ==> LastSeen(ops, k) == Some(Run(c, ops).seen[k])
  {
    if ops != [] {
      var front, last := ops[..|ops| - 1], ops[|ops| - 1];
      RunInvariant(c, front);
      var s := Run(c, front);
      RemoveExpiredKeepsInv(c, s, Start(last));
      if last.Stamp? {
        InsertKeepsInv(c, RemoveExpired(c, s, last.t1), last.key, last.t2);
      }
      forall k | k in Run(c, ops).seen ensures LastSeen(ops, k) == Some(Run(c, ops).seen[k]) {
        ApplyTime(c, s, last, k);
      }
    }
  }

  /** An operation stamps the key it records and leaves the other entries it keeps alone. */
  lemma ApplyTime(c: Config, s: State, op: Op, k: string)
    requires k in Apply(c, s, op).seen
    ensures if op.Stamp? && op.key == k then Apply(c, s, op).seen[k] == op.t2
            else k in s.seen && Apply(c, s, op).seen[k] == s.seen[k]
  {
  }

  /** A positive answer is never wrong. */
  lemma RecentIsTrue(c: Config, ops: seq<Op>, key: string, now: nat)
    requires IsRecent(c, Run(c, ops), key, now)
    ensures WasRecent(c, ops, key, now)
  {
    RunInvariant(c, ops);
  }

  // ---------- When a negative answer is right ----------

  function KeysOf(ops: seq<Op>): set<string> {
    if ops == [] then {}
    else
      var last := ops[|ops| - 1];
      KeysOf(ops[..|ops| - 1]) + if last.Stamp? then {last.key} else {}
  }

  /** The keys that an unbounded cache would report as recent. */
  function LiveKeys(c: Config, ops: seq<Op>, now: nat): set<string> {
    set k | k in KeysOf(ops) && WasRecent(c, ops, k, now)
  }

  /** Whenever a key was recorded, it and the keys live when the call began fitted the cache. */
  ghost predicate Fits(c: Config, ops: seq<Op>) {
    ops == [] ||
    var front, last := ops[..|ops| - 1], ops[|ops| - 1];
    && Fits(c, front)
    && (last.Stamp? ==> |LiveKeys(c, front, last.t1) + {last.key}| <= EffectiveCapacity(c))
  }

  lemma {:induction false} SeenInKeys(ops: seq<Op>, key: string)
    ensures LastSeen(ops, key).Some? <==> key in KeysOf(ops)
  {
    if ops != [] {
      SeenInKeys(ops[..|ops| - 1], key);
    }
  }

  /** If what is live fits, nothing is evicted. */
  lemma NoEviction(c: Config, front: seq<Op>, key: string, t1: nat)
    requires |LiveKeys(c, front, t1) + {key}| <= EffectiveCapacity(c)
    ensures var s := RemoveExpired(c, Run(c, front), t1);
            key in s.seen || |s.seen| < c.capacity || s.order == []
  {
    var s := RemoveExpired(c, Run(c, front), t1);
    RunInvariant(c, front);
    RemoveExpiredKeepsInv(c, Run(c, front), t1);
    if key !in s.seen && s.order != [] {
      forall k | k in s.seen ensures k in LiveKeys(c, front, t1) {
        SeenInKeys(front, k);
      }
      assert |s.seen.Keys + {key}| == |s.seen| + 1;
      Subset(s.seen.Keys + {key}, LiveKeys(c, front, t1) + {key});
    }
  }

  /** While everything live fits, the cache holds every live key. */
  lemma {:induction false} LiveKeysAreHeld(c: Config, ops: seq<Op>, key: string, now: nat)
    requires Monotone(ops) && Fits(c, ops) && Clock(ops) <= now
    requires WasRecent(c, ops, key, now)
    ensures key in Run(c, ops).seen
  {
    var front, last := ops[..|ops| - 1], ops[|ops| - 1];
    if !(last.Stamp? && last.key == key) {
      LiveKeysAreHeld(c, front, key, now);
      RunInvariant(c, front);
      if last.Stamp? {
        NoEviction(c, front, last.key, last.t1);
      }
    }
  }

  /** The bounded cache answers like the unbounded map as long as what is live fits it. */
  lemma RecentIsExactWhenItFits(c: Config, ops: seq<Op>, key: string, now: nat)
    requires Monotone(ops) && Fits(c, ops) && Clock(ops) <= now
    ensures IsRecent(c, Run(c, ops), key, now) <==> WasRecent(c, ops, key, now)
  {
    RunInvariant(c, ops);
    if WasRecent(c, ops, key, now) {
      LiveKeysAreHeld(c, ops, key, now);
    }
  }

  /** In particular when the whole history has at most `capacity` distinct keys. */
  lemma {:induction false} FewKeysFit(c: Config, ops: seq<Op>)
    requires |KeysOf(ops)| <= c.capacity
    ensures Fits(c, ops)
  {
    if ops != [] {
      var front, last := ops[..|ops| - 1], ops[|ops| - 1];
      Subset(KeysOf(front), KeysOf(ops));
      FewKeysFit(c, front);
      if last.Stamp? {
        Subset(LiveKeys(c, front, last.t1) + {last.key}, KeysOf(ops));
      }
    }
  }

  /** Beyond that the bound shows: if recording a key leaves more keys live than the cache can
      hold, then right after the call some live key is reported as not recent. */
  lemma OverflowLosesALiveKey(c: Config, ops: seq<Op>, key: string, t1: nat, t2: nat) returns (lost: string)
    requires Clock(ops) <= t1 <= t2
    requires |LiveKeys(c, ops, t2) + {key}| > EffectiveCapacity(c)
    ensures WasRecent(c, ops + [Stamp(key, t1, t2)], lost, t2)
    ensures !IsRecent(c, Run(c, ops + [Stamp(key, t1, t2)]), lost, t2)
  {
    var all := ops + [Stamp(key, t1, t2)];
    assert all[..|all| - 1] == ops;
    RunInvariant(c, all);
    var held := Run(c, all).seen.Keys;
    var live := LiveKeys(c, ops, t2) + {key};
    if live <= held {
      Subset(live, held);
      assert false;
    }
    lost :| lost in live && lost !in held;
  }

  // ---------- Sweeping is invisible ----------

  lemma SweepTwice(c: Config, s: State, t: nat, now: nat)
    requires t <= now
    ensures RemoveExpired(c, RemoveExpired(c, s, t), now) == RemoveExpired(c, s, now)
  {
    var a, b := ExpiredKeys(c, s, t), ExpiredKeys(c, s, now);
    var rest := ExpiredKeys(c, RemoveExpired(c, s, t), now);
    assert a + rest == b;
    WithoutTwice(s.order, a, rest);
    assert (s.seen - a) - rest == s.seen - b;
  }

  /** Two caches that agree once swept at `now`. */
  predicate Agree(c: Config, s: State, s': State, now: nat) {
    RemoveExpired(c, s, now) == RemoveExpired(c, s', now)
  }

  lemma {:induction false} SweepKeepsAgreement(c: Config, a: seq<Op>, t: nat, b: seq<Op>, now: nat)
    requires Monotone(a + [Sweep(t)] + b) && Clock(a + [Sweep(t)] + b) <= now
    ensures Agree(c, Run(c, a + [Sweep(t)] + b), Run(c, a + b), now)
    decreases |b|
  {
    hide Run, Monotone, Clock, Apply, Agree;
    if b == [] {
      assert a + [Sweep(t)] + b == a + [Sweep(t)] && a + b == a;
      Snoc(c, a, Sweep(t));
      SweptAgrees(c, Run(c, a), t, now);
    } else {
      var front, last := b[..|b| - 1], b[|b| - 1];
      var with, without := a + [Sweep(t)] + front, a + front;
      assert a + [Sweep(t)] + b == with + [last] && a + b == without + [last];
      Snoc(c, with, last);
      Snoc(c, without, last);
      SweepKeepsAgreement(c, a, t, front, Start(last));
      SameAfter(c, Run(c, with), Run(c, without), last);
      Agreeing(c, Run(c, with + [last]), now);
    }
  }

  lemma Snoc(c: Config, ops: seq<Op>, op: Op)
    ensures Run(c, ops + [op]) == Apply(c, Run(c, ops), op)
    ensures Clock(ops + [op]) == End(op)
    ensures Monotone(ops + [op]) <==> Monotone(ops) && Clock(ops) <= Start(op) <= End(op)
  {
    assert (ops + [op])[..|ops|] == ops;
  }

  lemma SweptAgrees(c: Config, s: State, t: nat, now: nat)
    requires t <= now
    ensures Agree(c, Apply(c, s, Sweep(t)), s, now)
  {
    SweepTwice(c, s, t, now);
  }

  /** Every operation sweeps first, so it makes agreeing caches equal. */
  lemma SameAfter(c: Config, s: State, s': State, op: Op)
    requires Agree(c, s, s', Start(op))
    ensures Apply(c, s, op) == Apply(c, s', op)
  {
  }

  lemma Agreeing(c: Config, s: State, now: nat)
    ensures Agree(c, s, s, now)
  {
  }

  /** A `remove_expired` anywhere in a history changes no present or later answer. */
  lemma SweepIsInvisible(c: Config, a: seq<Op>, t: nat, b: seq<Op>, key: string, now: nat)
    requires Monotone(a + [Sweep(t)] + b) && Clock(a + [Sweep(t)] + b) <= now
    ensures IsRecent(c, Run(c, a + [Sweep(t)] + b), key, now) == IsRecent(c, Run(c, a + b), key, now)
  {
    SweepKeepsAgreement(c, a, t, b, now);
    AskIsSweep(c, Run(c, a + [Sweep(t)] + b), key, now);
    AskIsSweep(c, Run(c, a + b), key, now);
  }

  lemma AskIsSweep(c: Config, s: State, key: string, now: nat)
    ensures IsRecent(c, s, key, now) <==> key in RemoveExpired(c, s, now).seen
  {
  }

  // ---------- First in, first out ----------

  /** For every key, the index of the operation that last inserted (rather than refreshed) it. */
  function Arrival(c: Config, ops: seq<Op>): map<string, nat> {
    if ops == [] then map[]
    else
      var front, last := ops[..|ops| - 1], ops[|ops| - 1];
      if last.Stamp? && last.key !in RemoveExpired(c, Run(c, front), last.t1).seen
      then Arrival(c, front)[last.key := |front|]
      else Arrival(c, front)
  }

  ghost predicate ByArrival(order: seq<string>, arrival: map<string, nat>) {
    && (forall i :: 0 <= i < |order| ==> order[i] in arrival)
    && (forall i, j :: 0 <= i < j < |order| ==> arrival[order[i]] < arrival[order[j]])
  }

  lemma {:induction false} WithoutByArrival(order: seq<string>, keys: set<string>, arrival: map<string, nat>)
    requires ByArrival(order, arrival)
    ensures ByArrival(Without(order, keys), arrival)
  {
    if order != [] {
      WithoutByArrival(order[1..], keys, arrival);
      WithoutMembers(order[1..], keys);
      var rest := Without(order[1..], keys);
      if order[0] in keys {
        assert Without(order, keys) == rest;
      } else {
        forall j | 0 <= j < |rest| ensures arrival[order[0]] < arrival[rest[j]] {
          assert rest[j] in order[1..];
        }
        FirstByArrival(order[0], rest, arrival);
      }
    }
  }

  lemma FirstByArrival(key: string, rest: seq<string>, arrival: map<string, nat>)
    requires key in arrival && ByArrival(rest, arrival)
    requires forall j :: 0 <= j < |rest| ==> arrival[key] < arrival[rest[j]]
    ensures ByArrival([key] + rest, arrival)
  {
  }

  lemma InsertByArrival(c: Config, s: State, key: string, now: nat, arrival: map<string, nat>, n: nat)
    requires Inv(c, s) && ByArrival(s.order, arrival)
    requires forall k :: k in arrival ==> arrival[k] < n
    ensures ByArrival(Insert(c, s, key, now).order, if key in s.seen then arrival else arrival[key := n])
  {
    if key !in s.seen {
      assert key !in s.order;
    }
  }

  lemma {:induction false} ArrivalsArePast(c: Config, ops: seq<Op>)
    ensures forall k :: k in Arrival(c, ops) ==> Arrival(c, ops)[k] < |ops|
  {
    if ops != [] {
      ArrivalsArePast(c, ops[..|ops| - 1]);
    }
  }

  /** `order` is sorted by how long each key has been resident, longest first. */
  lemma {:induction false} OrderIsByArrival(c: Config, ops: seq<Op>)
    ensures ByArrival(Run(c, ops).order, Arrival(c, ops))
  {
    if ops != [] {
      var front, last := ops[..|ops| - 1], ops[|ops| - 1];
      OrderIsByArrival(c, front);
      RunInvariant(c, front);
      ArrivalsArePast(c, front);
      var s := Run(c, front);
      WithoutByArrival(s.order, ExpiredKeys(c, s, Start(last)), Arrival(c, front));
      RemoveExpiredKeepsInv(c, s, Start(last));
      if last.Stamp? {
        InsertByArrival(c, RemoveExpired(c, s, last.t1), last.key, last.t2, Arrival(c, front), |front|);
      }
      hide Insert, Inv, ByArrival, Without;
    }
  }

  /** When recording a key pushes an unexpired entry out, the cache was full and the entry pushed
      out is the one resident longest. */
  lemma EvictsLongestResident(c: Config, ops: seq<Op>, key: string, t1: nat, t2: nat, out: string)
    requires var s := RemoveExpired(c, Run(c, ops), t1);
             out in s.seen && out !in Record(c, Run(c, ops), key, t1, t2).seen
    ensures var s := RemoveExpired(c, Run(c, ops), t1);
            && |s.seen| >= c.capacity
            && out in Arrival(c, ops)
            && forall k :: k in s.seen && k != out ==> k in Arrival(c, ops) && Arrival(c, ops)[out] < Arrival(c, ops)[k]
  {
    var s := RemoveExpired(c, Run(c, ops), t1);
    RunInvariant(c, ops);
    RemoveExpiredKeepsInv(c, Run(c, ops), t1);
    OrderIsByArrival(c, ops);
    WithoutByArrival(Run(c, ops).order, ExpiredKeys(c, Run(c, ops), t1), Arrival(c, ops));
    hide RemoveExpired, Run, Arrival, Insert, Inv, ByArrival;
    OldestGoes(c, s, key, t2, out, Arrival(c, ops));
  }

  lemma OldestGoes(c: Config, s: State, key: string, now: nat, out: string, arrival: map<string, nat>)
    requires Inv(c, s) && ByArrival(s.order, arrival)
    requires out in s.seen && out !in Insert(c, s, key, now).seen
    ensures |s.seen| >= c.capacity && out in arrival
    ensures forall k :: k in s.seen && k != out ==> k in arrival && arrival[out] < arrival[k]
  {
    assert out == s.order[0];
    forall k | k in s.seen && k != out
      ensures k in arrival && arrival[out] < arrival[k]
    {
      var i :| 0 <= i < |s.order| && s.order[i] == k;
    }
  }

  // ---------- Exactly when the cache is exact ----------

  /** The cache has answered like the unbounded map at every point of a history. */
  ghost predicate AlwaysExact(c: Config, ops: seq<Op>) {
    forall n: nat :: n <= |ops| ==> ExactAfter(c, ops[..n])
  }

  ghost predicate ExactAfter(c: Config, ops: seq<Op>) {
    forall key :: IsRecent(c, Run(c, ops), key, Clock(ops)) <==> WasRecent(c, ops, key, Clock(ops))
  }

  /** For every key, the index of the last operation that recorded it when it was not live: since then
      it has been kept alive. No cache is consulted. */
  function Since(c: Config, ops: seq<Op>): map<string, nat> {
    if ops == [] then map[]
    else
      var front, last := ops[..|ops| - 1], ops[|ops| - 1];
      if last.Stamp? && !WasRecent(c, front, last.key, last.t1)
      then Since(c, front)[last.key := |front|]
      else Since(c, front)
  }

  /** Of the keys live at `now`, `key` has been live longest. */
  ghost predicate LongestLive(c: Config, ops: seq<Op>, now: nat, key: string) {
    var since := Since(c, ops);
    && key in LiveKeys(c, ops, now) && key in since
    && forall k :: k in LiveKeys(c, ops, now) && k != key ==> k in since && since[key] < since[k]
  }

  /** As long as the cache is exact, a key is resident exactly since it has been live. */
  lemma {:induction false} ResidentSinceLive(c: Config, ops: seq<Op>)
    requires Monotone(ops) && AlwaysExact(c, ops)
    ensures Arrival(c, ops) == Since(c, ops)
  {
    if ops != [] {
      var front, last := ops[..|ops| - 1], ops[|ops| - 1];
      assert ops == front + [last];
      AlwaysExactSnoc(c, front, last);
      hide ExactAfter, AlwaysExact;
      ResidentSinceLive(c, front);
      if last.Stamp? {
        HoldsTheLive(c, front, last.t1);
        SeenInKeys(front, last.key);
        hide RemoveExpired, Run, WasRecent;
        assert last.key in RemoveExpired(c, Run(c, front), last.t1).seen <==> WasRecent(c, front, last.key, last.t1);
      }
    }
  }

  /** Whenever a key was recorded, it and the keys live at the first clock reading fitted the cache,
      or the one of them live longest was no longer live at the second reading. */
  ghost predicate Spares(c: Config, ops: seq<Op>) {
    ops == [] ||
    var front, last := ops[..|ops| - 1], ops[|ops| - 1];
    Spares(c, front) && SparesNext(c, front, last)
  }

  ghost predicate SparesNext(c: Config, front: seq<Op>, op: Op) {
    op.Stamp? ==>
      || |LiveKeys(c, front, op.t1) + {op.key}| <= EffectiveCapacity(c)
      || forall k :: LongestLive(c, front, op.t1, k) ==> !WasRecent(c, front, k, op.t2)
  }

  /** An exact cache holds, once swept, exactly the live keys. */
  lemma HoldsTheLive(c: Config, ops: seq<Op>, now: nat)
    requires ExactAfter(c, ops) && Clock(ops) <= now
    ensures RemoveExpired(c, Run(c, ops), now).seen.Keys == LiveKeys(c, ops, now)
  {
    RunInvariant(c, ops);
    var s := RemoveExpired(c, Run(c, ops), now);
    forall k ensures k in s.seen <==> k in LiveKeys(c, ops, now) {
      SeenInKeys(ops, k);
      if k in LiveKeys(c, ops, now) {
        assert IsRecent(c, Run(c, ops), k, Clock(ops));
      }
    }
  }

  lemma ExactAfterSweep(c: Config, front: seq<Op>, t: nat)
    requires ExactAfter(c, front) && Clock(front) <= t
    ensures ExactAfter(c, front + [Sweep(t)])
  {
    var ops := front + [Sweep(t)];
    Snoc(c, front, Sweep(t));
    LastSeenSnoc(front, Sweep(t));
    HoldsTheLive(c, front, t);
    hide Run, Clock, LastSeen, RemoveExpired;
    forall k ensures IsRecent(c, Run(c, ops), k, t) <==> WasRecent(c, ops, k, t) {
      RecentIsTrueSnoc(c, front, Sweep(t), k);
      SeenInKeys(front, k);
      SweptKeepsTime(c, Run(c, front), k, t);
      RunInvariant(c, front);
    }
  }

  lemma LastSeenSnoc(ops: seq<Op>, op: Op)
    ensures forall k :: LastSeen(ops + [op], k) == if op.Stamp? && op.key == k then Some(op.t2) else LastSeen(ops, k)
  {
    assert (ops + [op])[..|ops|] == ops;
  }

  lemma RecentIsTrueSnoc(c: Config, front: seq<Op>, op: Op, key: string)
    ensures IsRecent(c, Run(c, front + [op]), key, End(op)) ==> WasRecent(c, front + [op], key, End(op))
  {
    RunInvariant(c, front + [op]);
  }

  lemma SweptKeepsTime(c: Config, s: State, key: string, now: nat)
    ensures key in RemoveExpired(c, s, now).seen ==> key in s.seen && RemoveExpired(c, s, now).seen[key] == s.seen[key]
  {
  }

  predicate Evicts(c: Config, s: State, key: string) {
    key !in s.seen && |s.seen| >= c.capacity && s.order != []
  }

  lemma InsertEffect(c: Config, s: State, key: string, now: nat)
    requires Inv(c, s)
    ensures var s' := Insert(c, s, key, now);
            && key in s'.seen
            && forall k :: k != key ==> (k in s'.seen <==> k in s.seen && !(Evicts(c, s, key) && k == s.order[0]))
  {
  }

  /** What a record does to an exact cache: it stays exact unless the key it evicts is still live. */
  lemma ExactAfterStamp(c: Config, front: seq<Op>, key: string, t1: nat, t2: nat)
    requires ExactAfter(c, front) && Clock(front) <= t1 <= t2
    ensures var s := RemoveExpired(c, Run(c, front), t1);
            ExactAfter(c, front + [Stamp(key, t1, t2)]) <==> !(Evicts(c, s, key) && WasRecent(c, front, s.order[0], t2))
  {
    var ops := front + [Stamp(key, t1, t2)];
    var s := RemoveExpired(c, Run(c, front), t1);
    Snoc(c, front, Stamp(key, t1, t2));
    assert Evicts(c, s, key) ==> s.order != [];
    hide Run, Clock, RemoveExpired, IsRecent, WasRecent, Evicts;
    forall k
      ensures (IsRecent(c, Run(c, ops), k, Clock(ops)) <==> WasRecent(c, ops, k, Clock(ops))) <==>
              !(Evicts(c, s, key) && k == s.order[0] && WasRecent(c, front, k, t2))
    {
      AnswerAfterStamp(c, front, key, t1, t2, k);
    }
  }

  /** The answer about one key after the record is right unless that key was evicted alive. */
  lemma AnswerAfterStamp(c: Config, front: seq<Op>, key: string, t1: nat, t2: nat, k: string)
    requires ExactAfter(c, front) && Clock(front) <= t1 <= t2
    ensures var s := RemoveExpired(c, Run(c, front), t1);
            var ops := front + [Stamp(key, t1, t2)];
            (IsRecent(c, Run(c, ops), k, t2) <==> WasRecent(c, ops, k, t2)) <==>
            !(Evicts(c, s, key) && k == s.order[0] && WasRecent(c, front, k, t2))
  {
    var ops := front + [Stamp(key, t1, t2)];
    var s := RemoveExpired(c, Run(c, front), t1);
    Snoc(c, front, Stamp(key, t1, t2));
    RunInvariant(c, front);
    RemoveExpiredKeepsInv(c, Run(c, front), t1);
    InsertEffect(c, s, key, t2);
    RecencyAfterStamp(c, front, key, t1, t2, k);
    HeldAnswers(c, ops, k, t2);
    if s.order != [] {
      FirstIsHeld(c, s);
    }
    hide Run, Clock, RemoveExpired, Insert, Inv, IsRecent, WasRecent, ExactAfter;
  }

  lemma RecencyAfterStamp(c: Config, front: seq<Op>, key: string, t1: nat, t2: nat, k: string)
    requires ExactAfter(c, front) && Clock(front) <= t1 <= t2
    ensures WasRecent(c, front + [Stamp(key, t1, t2)], k, t2) <==> k == key || WasRecent(c, front, k, t2)
    ensures WasRecent(c, front, k, t2) ==> k in RemoveExpired(c, Run(c, front), t1).seen
  {
    LastSeenSnoc(front, Stamp(key, t1, t2));
    HoldsTheLive(c, front, t1);
    SeenInKeys(front, k);
    hide Run, RemoveExpired, ExactAfter;
  }

  lemma FirstIsHeld(c: Config, s: State)
    requires Inv(c, s) && s.order != []
    ensures s.order[0] in s.seen
  {
    assert s.order[0] in s.order;
  }

  lemma HeldAnswers(c: Config, ops: seq<Op>, key: string, now: nat)
    ensures IsRecent(c, Run(c, ops), key, now) <==> WasRecent(c, ops, key, now) && key in Run(c, ops).seen
  {
    RunInvariant(c, ops);
  }

  /** An exact cache evicts iff the new key and the live ones do not fit. */
  lemma EvictsIffTooMany(c: Config, front: seq<Op>, key: string, t1: nat)
    requires ExactAfter(c, front) && Clock(front) <= t1
    ensures Evicts(c, RemoveExpired(c, Run(c, front), t1), key) <==>
            |LiveKeys(c, front, t1) + {key}| > EffectiveCapacity(c)
  {
    var s := RemoveExpired(c, Run(c, front), t1);
    HoldsTheLive(c, front, t1);
    RunInvariant(c, front);
    RemoveExpiredKeepsInv(c, Run(c, front), t1);
    hide RemoveExpired, Run, LiveKeys, ExactAfter, Evicts;
    EvictsIffFull(c, s, key);
  }

  lemma EvictsIffFull(c: Config, s: State, key: string)
    requires Inv(c, s)
    ensures Evicts(c, s, key) <==> |s.seen.Keys + {key}| > EffectiveCapacity(c)
  {
    assert |s.order| == |s.seen| == |s.seen.Keys|;
    if key in s.seen {
      assert s.seen.Keys + {key} == s.seen.Keys;
    } else {
      assert |s.seen.Keys + {key}| == |s.seen| + 1;
    }
  }

  /** The key it would evict is the one live longest. */
  lemma FirstIsLongestLive(c: Config, front: seq<Op>, t1: nat, k: string)
    requires Monotone(front) && AlwaysExact(c, front) && ExactAfter(c, front) && Clock(front) <= t1
    requires RemoveExpired(c, Run(c, front), t1).order != []
    ensures LongestLive(c, front, t1, k) <==> k == RemoveExpired(c, Run(c, front), t1).order[0]
  {
    var s := RemoveExpired(c, Run(c, front), t1);
    HoldsTheLive(c, front, t1);
    RunInvariant(c, front);
    RemoveExpiredKeepsInv(c, Run(c, front), t1);
    OrderIsByArrival(c, front);
    WithoutByArrival(Run(c, front).order, ExpiredKeys(c, Run(c, front), t1), Arrival(c, front));
    FirstIsLongest(c, s, Arrival(c, front));
    FirstIsHeld(c, s);
    ResidentSinceLive(c, front);
    hide RemoveExpired, Run, Arrival, Since, LiveKeys, ByArrival, Inv, ExactAfter, AlwaysExact, Monotone;
  }

  lemma FirstIsLongest(c: Config, s: State, arrival: map<string, nat>)
    requires Inv(c, s) && ByArrival(s.order, arrival) && s.order != []
    ensures forall k :: k in s.seen ==> k in arrival
    ensures forall k :: k in s.seen && k != s.order[0] ==> arrival[s.order[0]] < arrival[k]
  {
    forall k | k in s.seen
      ensures k in arrival && (k != s.order[0] ==> arrival[s.order[0]] < arrival[k])
    {
      var i :| 0 <= i < |s.order| && s.order[i] == k;
    }
  }

  /** The bounded cache answers like the unbounded map throughout a history iff no record ever has
      to evict a key that is still live when it stamps its own. */
  lemma {:induction false} ExactIffItSpares(c: Config, ops: seq<Op>)
    requires Monotone(ops)
    ensures AlwaysExact(c, ops) <==> Spares(c, ops)
  {
    if ops == [] {
      assert forall n: nat :: n <= |ops| ==> ops[..n] == ops;
    } else {
      var front, last := ops[..|ops| - 1], ops[|ops| - 1];
      ExactIffItSpares(c, front);
      AlwaysExactSnoc(c, front, last);
      assert ops == front + [last];
      hide ExactAfter, AlwaysExact, SparesNext;
      if AlwaysExact(c, front) {
        ExactNext(c, front, last);
      }
    }
  }

  lemma ExactNext(c: Config, front: seq<Op>, op: Op)
    requires Monotone(front) && AlwaysExact(c, front) && ExactAfter(c, front)
    requires Clock(front) <= Start(op) <= End(op)
    ensures ExactAfter(c, front + [op]) <==> SparesNext(c, front, op)
  {
    hide ExactAfter, AlwaysExact, Monotone, LongestLive, LiveKeys, Run, RemoveExpired, WasRecent, Clock;
    match op
    case Sweep(t) =>
      ExactAfterSweep(c, front, t);
    case Stamp(key, t1, t2) =>
      ExactAfterStamp(c, front, key, t1, t2);
      EvictsIffTooMany(c, front, key, t1);
      var s := RemoveExpired(c, Run(c, front), t1);
      if Evicts(c, s, key) {
        forall k ensures LongestLive(c, front, t1, k) <==> k == s.order[0] {
          FirstIsLongestLive(c, front, t1, k);
        }
      }
  }

  lemma AlwaysExactSnoc(c: Config, front: seq<Op>, last: Op)
    ensures AlwaysExact(c, front + [last]) <==> AlwaysExact(c, front) && ExactAfter(c, front + [last])
    ensures AlwaysExact(c, front) ==> ExactAfter(c, front)
  {
    hide ExactAfter;
    var ops := front + [last];
    assert forall n: nat :: n <= |front| ==> front[..n] == ops[..n];
    assert ops[..|ops|] == ops && front[..|front|] == front;
  }

  /** When every call reads the clock once, that is: iff what is live always fits. */
  lemma {:induction false} SparesIffItFits(c: Config, ops: seq<Op>)
    requires Monotone(ops) && forall i :: 0 <= i < |ops| ==> Start(ops[i]) == End(ops[i])
    ensures Spares(c, ops) <==> Fits(c, ops)
  {
    if ops != [] {
      var front, last := ops[..|ops| - 1], ops[|ops| - 1];
      SparesIffItFits(c, front);
      ExactIffItSpares(c, front);
      if Spares(c, front) && last.Stamp? {
        assert front[..|front|] == front;
        assert ExactAfter(c, front);
        EvictsIffTooMany(c, front, last.key, last.t1);
        var s := RemoveExpired(c, Run(c, front), last.t1);
        hide RemoveExpired, Run, ExactAfter, AlwaysExact;
        if Evicts(c, s, last.key) {
          FirstIsLongestLive(c, front, last.t1, s.order[0]);
          assert WasRecent(c, front, s.order[0], last.t2);
        }
      }
    }
  }

  lemma NothingLive(c: Config, now: nat)
    ensures LiveKeys(c, [], now) == {}
  {
    hide Run;
  }

  lemma OneLive(c: Config, key: string, t: nat, now: nat)
    ensures LiveKeys(c, [Stamp(key, t, t)], now) == if now <= t + c.interval then {key} else {}
  {
    hide Run;
    var first := [Stamp(key, t, t)];
    assert first[..0] == [] && KeysOf([]) == {};
    assert KeysOf(first) == {key} && LastSeen(first, key) == Some(t);
  }

  lemma FirstStamp(c: Config, key: string, t: nat)
    ensures var first := [Stamp(key, t, t)];
            Monotone(first) && Clock(first) == t && Spares(c, first) && Fits(c, first)
  {
    hide Run, LiveKeys, LongestLive, WasRecent;
    var first := [Stamp(key, t, t)];
    assert first[..0] == [] && Monotone([]) && [] + first == first;
    Snoc(c, [], Stamp(key, t, t));
    NothingLive(c, t);
    assert {} + {key} == {key};
    assert Spares(c, []) && Fits(c, []);
  }

  /** Fitting is not necessary: a live key may expire between the two readings of the record that
      evicts it. */
  lemma EvictedInTime(c: Config, a: string, b: string, t: nat)
    requires a != b && c.capacity <= 1
    ensures var ops := [Stamp(a, t, t), Stamp(b, t + c.interval, t + c.interval + 1)];
            Monotone(ops) && !Fits(c, ops) && AlwaysExact(c, ops)
  {
    hide *;
    var first, second := [Stamp(a, t, t)], Stamp(b, t + c.interval, t + c.interval + 1);
    var ops := [Stamp(a, t, t), second];
    assert ops == first + [second];
    FirstStamp(c, a, t);
    OneLive(c, a, t, t + c.interval);
    Snoc(c, first, second);
    HistorySnoc(c, first, second);
    assert Monotone(ops) by { Times(a, t, second); }
    assert |{a} + {b}| == 2;
    forall k ensures !WasRecent(c, first, k, second.t2) {
      NoneLive(c, a, t, k);
    }
    NothingToSpare(c, first, second);
    SmallCapacity(c);
    ExactIffItSpares(c, ops);
  }

  lemma SmallCapacity(c: Config)
    requires c.capacity <= 1
    ensures EffectiveCapacity(c) == 1
  {
  }

  lemma Times(a: string, t: nat, second: Op)
    requires second.Stamp? && t <= second.t1 <= second.t2
    ensures Monotone([Stamp(a, t, t)]) && Monotone([Stamp(a, t, t), second])
  {
    var first := [Stamp(a, t, t)];
    assert Monotone([]) && Clock([]) == 0;
    assert first[..|first| - 1] == [] && [Stamp(a, t, t), second][..1] == first;
    assert Monotone(first);
  }

  lemma NothingToSpare(c: Config, front: seq<Op>, op: Op)
    requires op.Stamp? && forall k :: !WasRecent(c, front, k, op.t2)
    ensures SparesNext(c, front, op)
  {
    hide WasRecent, LongestLive, LiveKeys;
  }

  lemma HistorySnoc(c: Config, front: seq<Op>, op: Op)
    requires op.Stamp?
    ensures Spares(c, front + [op]) <==> Spares(c, front) && SparesNext(c, front, op)
    ensures Fits(c, front + [op]) <==>
            Fits(c, front) && |LiveKeys(c, front, op.t1) + {op.key}| <= EffectiveCapacity(c)
  {
    hide SparesNext, LiveKeys;
    assert (front + [op])[..|front|] == front;
  }

  lemma NoneLive(c: Config, key: string, t: nat, k: string)
    ensures !WasRecent(c, [Stamp(key, t, t)], k, t + c.interval + 1)
  {
    LastSeenSnoc([], Stamp(key, t, t));
    assert [] + [Stamp(key, t, t)] == [Stamp(key, t, t)];
  }
}

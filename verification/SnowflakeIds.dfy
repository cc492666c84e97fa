/** The Snowflake id generator: 41 bits of timestamp, 10 bits of machine id, 12 bits of sequence,
    masked, shifted and joined bit by bit. Calls are sequential; the clock readings each call makes
    are its input. */
module SnowflakeIds {

  const U64: nat := 0x1_0000_0000_0000_0000
  const TIMESTAMPS: nat := 0x200_0000_0000  // 2^41
  const MACHINES: nat := 0x400
  const SEQUENCES: nat := 0x1000

  // ---------- Words as bits ----------

  function And(a: nat, b: nat): nat {
    if a == 0 || b == 0 then 0 else 2 * And(a / 2, b / 2) + if a % 2 == 1 && b % 2 == 1 then 1 else 0
  }

  function Or(a: nat, b: nat): nat {
    if a == 0 then b
    else if b == 0 then a
    else 2 * Or(a / 2, b / 2) + if a % 2 == 1 || b % 2 == 1 then 1 else 0
  }

  function Power2(k: nat): (p: nat)
    ensures p > 0
  {
    if k == 0 then 1 else 2 * Power2(k - 1)
  }

  function Doubled(a: nat, k: nat): nat {
    if k == 0 then a else 2 * Doubled(a, k - 1)
  }

  /** On 64 bits. */
  function ShiftLeft(a: nat, k: nat): nat {
    Doubled(a, k) % U64
  }

  /** The lowest `k` bits. */
  function Low(a: nat, k: nat): nat {
    if k == 0 then 0 else 2 * Low(a / 2, k - 1) + a % 2
  }

  /** The bits above them. */
  function High(a: nat, k: nat): nat {
    if k == 0 then a else High(a / 2, k - 1)
  }

  lemma {:induction false} LowAndHigh(a: nat, k: nat)
    ensures a == Doubled(High(a, k), k) + Low(a, k) && Low(a, k) < Power2(k)
  {
    if k > 0 {
      LowAndHigh(a / 2, k - 1);
      assert a == 2 * (a / 2) + a % 2;
    }
  }

  /** A mask of `k` ones keeps the lowest `k` bits. */
  lemma {:induction false} AndMask(a: nat, k: nat)
    ensures And(a, Power2(k) - 1) == Low(a, k)
  {
    if k > 0 {
      var p := Power2(k - 1);
      AndMask(a / 2, k - 1);
      assert (2 * p - 1) / 2 == p - 1 && (2 * p - 1) % 2 == 1;
      hide Power2;
      assert a == 0 ==> And(a / 2, p - 1) == 0;
    }
  }

  lemma OrStep(x: nat, b: nat)
    ensures Or(2 * x, b) == 2 * Or(x, b / 2) + b % 2
  {
  }

  /** Joining bits above position `k` with bits below it is adding them. */
  lemma {:induction false} OrDisjoint(a: nat, k: nat, b: nat)
    requires b < Power2(k)
    ensures Or(Doubled(a, k), b) == Doubled(a, k) + b
  {
    if k > 0 {
      OrDisjoint(a, k - 1, b / 2);
      OrStep(Doubled(a, k - 1), b);
      hide Or;
    }
  }

  // ---------- The bit layout ----------

  function Compose(timestamp: nat, machine: nat, sequence: nat): nat {
    Or(Or(ShiftLeft(And(timestamp, 0x1FF_FFFF_FFFF), 22), ShiftLeft(And(machine, 0x3FF), 12)), And(sequence, 0xFFF))
  }

  lemma Powers()
    ensures Power2(10) == MACHINES && Power2(12) == SEQUENCES
    ensures Power2(22) == 0x40_0000 && Power2(41) == TIMESTAMPS
  {
    assert Power2(5) == 32 && Power2(10) == MACHINES;
    assert Power2(15) == 0x8000 && Power2(20) == 0x10_0000;
    assert Power2(25) == 0x200_0000 && Power2(30) == 0x4000_0000;
    assert Power2(35) == 0x8_0000_0000 && Power2(40) == 0x100_0000_0000;
  }

  lemma {:induction false} DoubledIsProduct(a: nat, k: nat)
    ensures Doubled(a, k) == a * Power2(k)
  {
    if k > 0 {
      DoubledIsProduct(a, k - 1);
      Twice(a, Power2(k - 1));
    }
  }

  lemma Twice(a: nat, p: nat)
    ensures 2 * (a * p) == a * (2 * p)
  {
  }

  lemma Doublings(a: nat)
    ensures Doubled(a, 10) == a * 0x400 && Doubled(a, 12) == a * 0x1000
    ensures Doubled(a, 22) == a * 0x40_0000 && Doubled(a, 41) == a * 0x200_0000_0000
  {
    Powers();
    hide Doubled, Power2;
    DoubledIsProduct(a, 10);
    DoubledIsProduct(a, 12);
    DoubledIsProduct(a, 22);
    DoubledIsProduct(a, 41);
  }

  /** What masking leaves, for the three widths. */
  lemma TimestampMask(t: nat)
    ensures And(t, 0x1FF_FFFF_FFFF) == t % TIMESTAMPS
  {
    hide And, Low, High, Power2, Doubled;
    Powers();
    AndMask(t, 41);
    LowAndHigh(t, 41);
    Doublings(High(t, 41));
  }

  lemma MachineMask(m: nat)
    ensures And(m, 0x3FF) == m % MACHINES
  {
    hide And, Low, High, Power2, Doubled;
    Powers();
    AndMask(m, 10);
    LowAndHigh(m, 10);
    Doublings(High(m, 10));
  }

  lemma SequenceMask(s: nat)
    ensures And(s, 0xFFF) == s % SEQUENCES
  {
    hide And, Low, High, Power2, Doubled;
    Powers();
    AndMask(s, 12);
    LowAndHigh(s, 12);
    Doublings(High(s, 12));
  }

  lemma Shifts(high: nat, middle: nat)
    requires high < TIMESTAMPS && middle < MACHINES
    ensures ShiftLeft(high, 22) == high * 0x40_0000 && ShiftLeft(middle, 12) == middle * 0x1000
  {
    Doublings(high);
    Doublings(middle);
    hide Doubled;
  }

  lemma Joins(high: nat, middle: nat, upper: nat, low: nat)
    requires middle < 0x40_0000 && low < 0x1000
    ensures Or(high * 0x40_0000, middle) == high * 0x40_0000 + middle
    ensures Or(upper * 0x1000, low) == upper * 0x1000 + low
  {
    Powers();
    Doublings(high);
    Doublings(upper);
    hide Or, Power2, Doubled;
    OrDisjoint(high, 22, middle);
    OrDisjoint(upper, 12, low);
  }

  /** The three fields do not overlap, so the bits of an id are those of a sum. */
  lemma ComposeIsSum(t: nat, m: nat, s: nat)
    ensures Compose(t, m, s) == (t % TIMESTAMPS) * 0x40_0000 + (m % MACHINES) * 0x1000 + s % SEQUENCES
  {
    TimestampMask(t);
    MachineMask(m);
    SequenceMask(s);
    var high, middle, low := t % TIMESTAMPS, m % MACHINES, s % SEQUENCES;
    Shifts(high, middle);
    Joins(high, middle * 0x1000, high * 0x400 + middle, low);
    hide And, Or, ShiftLeft;
  }

  /** An id fits 63 bits, and each part can be read back out of it. */
  lemma PartsAreRecovered(t: nat, m: nat, s: nat)
    ensures Compose(t, m, s) < U64 / 2
    ensures Compose(t, m, s) / (MACHINES * SEQUENCES) == t % TIMESTAMPS
    ensures Compose(t, m, s) / SEQUENCES % MACHINES == m % MACHINES
    ensures Compose(t, m, s) % SEQUENCES == s % SEQUENCES
  {
    ComposeIsSum(t, m, s);
    hide Compose;
    var high := (t % TIMESTAMPS) * 0x400 + m % MACHINES;
    assert Compose(t, m, s) == high * SEQUENCES + s % SEQUENCES;
    assert Compose(t, m, s) / SEQUENCES == high;
  }

  /** Generators with different machine ids never produce the same id. */
  lemma MachinesNeverCollide(t: nat, m: nat, s: nat, t': nat, m': nat, s': nat)
    requires m < MACHINES && m' < MACHINES && m != m'
    ensures Compose(t, m, s) != Compose(t', m', s')
  {
    PartsAreRecovered(t, m, s);
    PartsAreRecovered(t', m', s');
    hide Compose;
  }

  /** Ids of one machine with sequence zero are ordered, and equal, like their timestamps modulo 2^41. */
  lemma OrderedLikeTimestamps(t: nat, t': nat, m: nat)
    ensures Compose(t, m, 0) < Compose(t', m, 0) <==> t % TIMESTAMPS < t' % TIMESTAMPS
    ensures Compose(t, m, 0) == Compose(t', m, 0) <==> t % TIMESTAMPS == t' % TIMESTAMPS
  {
    ComposeIsSum(t, m, 0);
    ComposeIsSum(t', m, 0);
    hide Compose;
  }

  // ---------- The generator ----------

  /** The first of `readings` after `last`, or its length. */
  function FirstAfter(last: nat, readings: seq<nat>): (i: nat)
    ensures i <= |readings|
    ensures forall k :: 0 <= k < i ==> readings[k] <= last
    ensures i < |readings| ==> last < readings[i]
  {
    if readings == [] || last < readings[0] then 0
    else
      var i := 1 + FirstAfter(last, readings[1..]);
      assert forall k :: 0 < k < i ==> readings[k] == readings[1..][k - 1];
      i
  }

  /** The readings suffice for one call: there is one, and if it repeats the last timestamp the
      clock moves on within them. */
  predicate Suffices(last: nat, readings: seq<nat>) {
    readings != [] && (readings[0] == last ==> FirstAfter(last, readings) < |readings|)
  }

  /** The timestamp a call settles on. */
  function Settled(last: nat, readings: seq<nat>): nat
    requires Suffices(last, readings)
  {
    if readings[0] == last then readings[FirstAfter(last, readings)] else readings[0]
  }

  class Generator {
    const machine: nat
    var lastTimestamp: nat
    var sequence: nat

    ghost predicate Valid()
      reads this
    {
      machine < MACHINES && sequence < U64
    }

    /** The readings reach far enough: the call waits only if the sequence bits are zero. */
    ghost predicate Enough(readings: seq<nat>)
      reads this
    {
      readings != [] && (And(sequence, 0xFFF) == 0 ==> Suffices(lastTimestamp, readings))
    }

    constructor (machine: nat)
      requires machine < MACHINES
      ensures Valid() && this.machine == machine && lastTimestamp == 0 && sequence == 0
    {
      this.machine, lastTimestamp, sequence := machine, 0, 0;
    }

    /** `next_id`, whatever the sequence cell holds: only in the same millisecond and with sequence bits
        that are not zero is the sequence counted on. So once the cell is zero, as it is at first, it
        stays so: a call within the same millisecond waits for the next one, and every id has sequence
        zero. */
    method NextId(readings: seq<nat>) returns (id: nat)
      requires Valid() && Enough(readings)
      modifies this
      ensures Valid()
      ensures readings[0] == old(lastTimestamp) && And(old(sequence), 0xFFF) != 0 ==>
                && sequence == (old(sequence) + 1) % U64 && lastTimestamp == old(lastTimestamp)
                && id == Compose(lastTimestamp, machine, And(old(sequence), 0xFFF))
      ensures readings[0] != old(lastTimestamp) ==>
                sequence == 0 && lastTimestamp == readings[0] && id == Compose(lastTimestamp, machine, 0)
      ensures And(old(sequence), 0xFFF) == 0 ==>
                && sequence == 0 && lastTimestamp == Settled(old(lastTimestamp), readings)
                && id == Compose(lastTimestamp, machine, 0)
      ensures old(sequence) == 0 ==> And(old(sequence), 0xFFF) == 0
    {
      var timestamp := readings[0];
      var last := lastTimestamp;
      var number := 0;
      if timestamp == last {
        var seen := And(sequence, 0xFFF);
        sequence := (sequence + 1) % U64;
        if seen == 0 {
          var used := 1;
          while timestamp <= last
            invariant 1 <= used <= |readings|
            invariant timestamp == readings[used - 1]
            invariant used - 1 <= FirstAfter(last, readings)
            decreases |readings| - used
          {
            timestamp := readings[used];
            used := used + 1;
          }
          sequence := 0;
          lastTimestamp := timestamp;
        } else {
          number := seen;
        }
      } else {
        sequence := 0;
        lastTimestamp := timestamp;
      }
      id := Compose(timestamp, machine, number);
    }
  }

  // ---------- Sequences of calls ----------

  /** Each call's readings suffice, given the calls before it. */
  ghost predicate AllSuffice(last: nat, calls: seq<seq<nat>>)
    decreases |calls|
  {
    calls == [] || (Suffices(last, calls[0]) && AllSuffice(Settled(last, calls[0]), calls[1..]))
  }

  /** The timestamps the calls settle on. */
  ghost function Timestamps(last: nat, calls: seq<seq<nat>>): (ts: seq<nat>)
    requires AllSuffice(last, calls)
    ensures |ts| == |calls|
    decreases |calls|
  {
    if calls == [] then [] else [Settled(last, calls[0])] + Timestamps(Settled(last, calls[0]), calls[1..])
  }

  ghost function Ids(ts: seq<nat>, machine: nat): seq<nat> {
    seq(|ts|, i requires 0 <= i < |ts| => Compose(ts[i], machine, 0))
  }

  /** Any sequence of calls on a generator issues the ids of those timestamps. */
  method IssueAll(g: Generator, calls: seq<seq<nat>>) returns (ids: seq<nat>)
    requires g.Valid() && g.sequence == 0 && AllSuffice(g.lastTimestamp, calls)
    modifies g
    ensures g.Valid() && g.sequence == 0
    ensures ids == Ids(Timestamps(old(g.lastTimestamp), calls), g.machine)
  {
    ids := [];
    ghost var all := Timestamps(g.lastTimestamp, calls);
    assert calls[0..] == calls;
    for i := 0 to |calls|
      invariant g.Valid() && g.sequence == 0 && AllSuffice(g.lastTimestamp, calls[i..])
      invariant |ids| == i && ids == Ids(all[..i], g.machine)
      invariant all[i..] == Timestamps(g.lastTimestamp, calls[i..])
    {
      assert calls[i..][0] == calls[i] && calls[i..][1..] == calls[i + 1..];
      var id := g.NextId(calls[i]);
      assert all[i..][0] == g.lastTimestamp && all[i..][1..] == all[i + 1..];
      ids := ids + [id];
      assert all[..i + 1] == all[..i] + [all[i]];
    }
    assert all[..|calls|] == all;
  }

  /** No reading is before the timestamp settled on before it. */
  ghost predicate ClockNeverGoesBack(last: nat, calls: seq<seq<nat>>)
    requires AllSuffice(last, calls)
    decreases |calls|
  {
    calls == [] || (last <= calls[0][0] && ClockNeverGoesBack(Settled(last, calls[0]), calls[1..]))
  }

  ghost predicate IncreasingFrom(last: nat, ts: seq<nat>) {
    && (forall i :: 0 <= i < |ts| ==> last < ts[i])
    && (forall i, j :: 0 <= i < j < |ts| ==> ts[i] < ts[j])
  }

  /** Every call settles on a later millisecond than all calls before it, so that at most one id is
      issued per millisecond, iff the clock never goes back. */
  lemma {:induction false} OneIdPerMillisecondIff(last: nat, calls: seq<seq<nat>>)
    requires AllSuffice(last, calls)
    ensures IncreasingFrom(last, Timestamps(last, calls)) <==> ClockNeverGoesBack(last, calls)
    decreases |calls|
  {
    if calls != [] {
      var first := Settled(last, calls[0]);
      OneIdPerMillisecondIff(first, calls[1..]);
      var rest := Timestamps(first, calls[1..]);
      assert last <= calls[0][0] <==> last < first;
      IncreasingCons(last, first, rest);
    }
  }

  lemma IncreasingCons(last: nat, first: nat, rest: seq<nat>)
    ensures IncreasingFrom(last, [first] + rest) <==> last < first && IncreasingFrom(first, rest)
  {
    var all := [first] + rest;
    assert all[0] == first && forall i :: 0 <= i < |rest| ==> all[i + 1] == rest[i];
  }

  /** As long as the timestamps stay below 2^41 milliseconds, the ids increase strictly, from that of
      the generator's last timestamp on, iff the clock never goes back. */
  lemma IdsIncreaseIff(last: nat, calls: seq<seq<nat>>, machine: nat)
    requires AllSuffice(last, calls)
    requires last < TIMESTAMPS && forall i :: 0 <= i < |calls| ==> Timestamps(last, calls)[i] < TIMESTAMPS
    ensures IncreasingFrom(Compose(last, machine, 0), Ids(Timestamps(last, calls), machine)) <==>
            ClockNeverGoesBack(last, calls)
  {
    OneIdPerMillisecondIff(last, calls);
    IdsLikeTimestamps(last, Timestamps(last, calls), machine);
  }

  lemma IdsLikeTimestamps(last: nat, ts: seq<nat>, machine: nat)
    requires last < TIMESTAMPS && forall i :: 0 <= i < |ts| ==> ts[i] < TIMESTAMPS
    ensures IncreasingFrom(Compose(last, machine, 0), Ids(ts, machine)) <==> IncreasingFrom(last, ts)
  {
    hide Compose;
    forall i | 0 <= i < |ts|
      ensures Compose(last, machine, 0) < Compose(ts[i], machine, 0) <==> last < ts[i]
    {
      SmallTimestamps(last, ts[i], machine);
    }
    forall i, j | 0 <= i < j < |ts|
      ensures Compose(ts[i], machine, 0) < Compose(ts[j], machine, 0) <==> ts[i] < ts[j]
    {
      SmallTimestamps(ts[i], ts[j], machine);
    }
    var ids := Ids(ts, machine);
    assert forall i :: 0 <= i < |ts| ==> ids[i] == Compose(ts[i], machine, 0);
  }

  lemma SmallTimestamps(t: nat, t': nat, machine: nat)
    requires t < TIMESTAMPS && t' < TIMESTAMPS
    ensures Compose(t, machine, 0) < Compose(t', machine, 0) <==> t < t'
  {
    OrderedLikeTimestamps(t, t', machine);
    hide Compose;
  }

  /** Two calls return the same id iff the timestamps they settle on agree modulo 2^41. */
  lemma IdsRepeatIff(last: nat, calls: seq<seq<nat>>, machine: nat, i: nat, j: nat)
    requires AllSuffice(last, calls) && i < |calls| && j < |calls|
    ensures var ts := Timestamps(last, calls);
            Ids(ts, machine)[i] == Ids(ts, machine)[j] <==> ts[i] % TIMESTAMPS == ts[j] % TIMESTAMPS
  {
    var ts := Timestamps(last, calls);
    OrderedLikeTimestamps(ts[i], ts[j], machine);
    hide Compose;
  }

  /** A clock set back by a millisecond and on again issues an id twice. */
  lemma ClockSetBackRepeatsAnId(machine: nat)
    ensures AllSuffice(0, [[2], [1], [2]])
    ensures var ids := Ids(Timestamps(0, [[2], [1], [2]]), machine); |ids| == 3 && ids[0] == ids[2]
  {
    hide Compose;
    var calls: seq<seq<nat>> := [[2], [1], [2]];
    assert calls[1..] == [[1], [2]] && calls[1..][1..] == [[2]];
    assert AllSuffice(2, []);
  }
}

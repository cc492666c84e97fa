/** The in-memory event store behind stream resumption (`in_memory_event_store.rs`): a bounded queue
    of messages per session, event ids, and the replay of what a client missed. */
module EventStore {
  import opened Sequences
  import opened Text

  const MAX_EVENTS_PER_SESSION: nat := 64

  datatype Entry = Entry(stream: string, time: nat, message: string)

  // ---------- The queue of one session ----------

  /** Storing an event first drops the oldest if the queue is at its limit. */
  function Push(max: nat, queue: seq<Entry>, e: Entry): seq<Entry> {
    (if |queue| == max && queue != [] then queue[1..] else queue) + [e]
  }

  /** The queue after a session's events were stored in order. */
  function Retained(max: nat, events: seq<Entry>): seq<Entry> {
    if events == [] then [] else Push(max, Retained(max, events[..|events| - 1]), events[|events| - 1])
  }

  /** With a positive limit the queue is the last `max` events; a limit of zero never drops any. */
  lemma {:induction false} RetainedIsLast(max: nat, events: seq<Entry>)
    ensures Retained(max, events) == if 0 < max < |events| then events[|events| - max..] else events
  {
    if events != [] {
      var front, last := events[..|events| - 1], events[|events| - 1];
      RetainedIsLast(max, front);
      assert events == front + [last];
      var queue := Retained(max, front);
      hide Retained;
      if 0 < max < |events| {
        assert queue == if max < |front| then front[|front| - max..] else front;
        assert |queue| == max;
        assert events[|events| - max..] == queue[1..] + [last];
      } else {
        assert queue == front && (|queue| == max ==> queue == []);
      }
    }
  }

  // ---------- Replay ----------

  function OfStream(entries: seq<Entry>, stream: string): seq<Entry> {
    if entries == [] then []
    else (if entries[0].stream == stream then [entries[0]] else []) + OfStream(entries[1..], stream)
  }

  function InsertByTime(e: Entry, sorted: seq<Entry>): seq<Entry> {
    if sorted == [] || e.time <= sorted[0].time then [e] + sorted else [sorted[0]] + InsertByTime(e, sorted[1..])
  }

  /** A stable sort by timestamp. */
  function SortByTime(entries: seq<Entry>): seq<Entry> {
    if entries == [] then [] else InsertByTime(entries[0], SortByTime(entries[1..]))
  }

  function Texts(entries: seq<Entry>): seq<string> {
    seq(|entries|, i requires 0 <= i < |entries| => entries[i].message)
  }

  /** The first entry of that stream and time, or the length of the queue. */
  function Position(queue: seq<Entry>, stream: string, time: nat): (i: nat)
    ensures i <= |queue|
    ensures i < |queue| ==> queue[i].stream == stream && queue[i].time == time
    ensures forall k :: 0 <= k < i ==> !(queue[k].stream == stream && queue[k].time == time)
  {
    if queue == [] || (queue[0].stream == stream && queue[0].time == time) then 0
    else
      var i := 1 + Position(queue[1..], stream, time);
      assert forall k :: 0 < k < i ==> queue[k] == queue[1..][k - 1];
      i
  }

  /** `events_after`, on the queue of the session. */
  function EventsAfter(queue: seq<Entry>, stream: string, time: nat): seq<string> {
    var i := Position(queue, stream, time);
    if i + 1 < |queue| then Texts(SortByTime(OfStream(queue[i + 1..], stream))) else []
  }

  class Store {
    const max: nat
    var sessions: map<string, seq<Entry>>

    constructor (max: Option<nat>)
      ensures sessions == map[] && this.max == (if max.Some? then max.value else MAX_EVENTS_PER_SESSION)
    {
      this.max, sessions := if max.Some? then max.value else MAX_EVENTS_PER_SESSION, map[];
    }

    ghost function QueueOf(session: string): seq<Entry>
      reads this
    {
      if session in sessions then sessions[session] else []
    }

    method StoreEvent(session: string, stream: string, time: nat, message: string) returns (id: string)
      modifies this
      ensures QueueOf(session) == Push(max, old(QueueOf(session)), Entry(stream, time, message))
      ensures forall other :: other != session ==> QueueOf(other) == old(QueueOf(other))
      ensures sessions.Keys == old(sessions.Keys) + {session}
      ensures id == EventId(session, stream, time)
    {
      id := EventId(session, stream, time);
      var queue := if session in sessions then sessions[session] else [];
      if |queue| == max && queue != [] {
        queue := queue[1..];
      }
      queue := queue + [Entry(stream, time, message)];
      sessions := sessions[session := queue];
    }

    /** The events of a new session, stored in order: the queue `Retained` describes. */
    method StoreEach(session: string, events: seq<Entry>)
      requires QueueOf(session) == []
      modifies this
      ensures QueueOf(session) == Retained(max, events)
      ensures forall other :: other != session ==> QueueOf(other) == old(QueueOf(other))
    {
      for i := 0 to |events|
        invariant QueueOf(session) == Retained(max, events[..i])
        invariant forall other :: other != session ==> QueueOf(other) == old(QueueOf(other))
      {
        assert events[..i + 1][..i] == events[..i];
        var _ := StoreEvent(session, events[i].stream, events[i].time, events[i].message);
      }
      assert events[..|events|] == events;
    }

    /** The messages to replay to a client that has seen the event with this id, or nothing for an
        unknown session; an id that does not parse is an error. */
    method Replay(lastEventId: string) returns (r: Result<Option<seq<string>>, string>)
      ensures match ParseEventId(lastEventId)
              case None => r.Err?
              case Some((session, stream, time)) =>
                r == Ok(if session in sessions then Some(EventsAfter(QueueOf(session), stream, time)) else None)
    {
      match ParseEventId(lastEventId) {
        case None =>
          r := Err("Invalid Event ID format.");
        case Some((session, stream, time)) =>
          r := Ok(if session in sessions then Some(EventsAfter(sessions[session], stream, time)) else None);
      }
    }
  }

  /** The messages stored after event `i` in its stream: what a client that saw it is missing. */
  ghost function Missed(events: seq<Entry>, i: nat): seq<string>
    requires i < |events|
  {
    Texts(Later(events, i))
  }

  ghost predicate Sorted(entries: seq<Entry>) {
    forall i, k :: 0 <= i < k < |entries| ==> entries[i].time <= entries[k].time
  }

  lemma {:induction false} InsertIsSorted(e: Entry, sorted: seq<Entry>)
    requires Sorted(sorted)
    ensures Sorted(InsertByTime(e, sorted))
  {
    if sorted != [] && e.time > sorted[0].time {
      InsertIsSorted(e, sorted[1..]);
      InsertAdds(e, sorted[1..]);
      var rest := InsertByTime(e, sorted[1..]);
      hide InsertByTime;
      forall k | 0 <= k < |rest| ensures sorted[0].time <= rest[k].time {
        assert rest[k] in multiset(rest);
        assert rest[k] == e || rest[k] in sorted[1..];
      }
      assert InsertByTime(e, sorted) == [sorted[0]] + rest by {
        InsertLater(e, sorted);
      }
    }
  }

  lemma InsertLater(e: Entry, sorted: seq<Entry>)
    requires sorted != [] && e.time > sorted[0].time
    ensures InsertByTime(e, sorted) == [sorted[0]] + InsertByTime(e, sorted[1..])
  {
  }

  lemma {:induction false} InsertAdds(e: Entry, sorted: seq<Entry>)
    ensures multiset(InsertByTime(e, sorted)) == multiset(sorted) + multiset{e}
  {
    if sorted != [] && e.time > sorted[0].time {
      InsertAdds(e, sorted[1..]);
      assert sorted == [sorted[0]] + sorted[1..];
    }
  }

  /** Sorting puts the entries in order of time and loses none. */
  lemma {:induction false} SortIsSorted(entries: seq<Entry>)
    ensures Sorted(SortByTime(entries))
    ensures multiset(SortByTime(entries)) == multiset(entries)
    ensures |SortByTime(entries)| == |entries|
  {
    if entries != [] {
      SortIsSorted(entries[1..]);
      InsertIsSorted(entries[0], SortByTime(entries[1..]));
      InsertAdds(entries[0], SortByTime(entries[1..]));
      assert entries == [entries[0]] + entries[1..];
    }
    assert |multiset(SortByTime(entries))| == |multiset(entries)|;
  }

  function AtTime(entries: seq<Entry>, time: nat): seq<Entry> {
    if entries == [] then []
    else (if entries[0].time == time then [entries[0]] else []) + AtTime(entries[1..], time)
  }

  lemma AtTimeCons(e: Entry, entries: seq<Entry>, time: nat)
    ensures AtTime([e] + entries, time) == (if e.time == time then [e] else []) + AtTime(entries, time)
  {
    assert ([e] + entries)[1..] == entries;
  }

  lemma {:induction false} InsertIsStable(e: Entry, sorted: seq<Entry>, time: nat)
    requires Sorted(sorted)
    ensures AtTime(InsertByTime(e, sorted), time) == (if e.time == time then [e] else []) + AtTime(sorted, time)
  {
    hide AtTime;
    if sorted == [] || e.time <= sorted[0].time {
      AtTimeCons(e, sorted, time);
    } else {
      InsertIsStable(e, sorted[1..], time);
      var rest, first := InsertByTime(e, sorted[1..]), sorted[0];
      InsertLater(e, sorted);
      hide InsertByTime;
      AtTimeCons(first, rest, time);
      AtTimeCons(first, sorted[1..], time);
      assert sorted == [first] + sorted[1..];
      if e.time == time {
        assert first.time != time;
        assert [] + ([e] + AtTime(sorted[1..], time)) == [e] + ([] + AtTime(sorted[1..], time));
      } else {
        assert [] + AtTime(sorted[1..], time) == AtTime(sorted[1..], time);
        assert [] + AtTime(sorted, time) == AtTime(sorted, time);
      }
    }
  }

  /** Entries of the same time keep their order. */
  lemma {:induction false} SortIsStable(entries: seq<Entry>, time: nat)
    ensures AtTime(SortByTime(entries), time) == AtTime(entries, time)
  {
    if entries != [] {
      SortIsStable(entries[1..], time);
      SortIsSorted(entries[1..]);
      InsertIsStable(entries[0], SortByTime(entries[1..]), time);
    }
  }

  lemma {:induction false} SortOfSorted(entries: seq<Entry>)
    requires Sorted(entries)
    ensures SortByTime(entries) == entries
  {
    if entries != [] {
      SortOfSorted(entries[1..]);
    }
  }

  lemma {:induction false} OfStreamMembers(entries: seq<Entry>, stream: string)
    ensures forall e :: e in OfStream(entries, stream) <==> e in entries && e.stream == stream
  {
    if entries != [] {
      OfStreamMembers(entries[1..], stream);
    }
  }

  lemma {:induction false} OfStreamAppend(a: seq<Entry>, b: seq<Entry>, stream: string)
    ensures OfStream(a + b, stream) == OfStream(a, stream) + OfStream(b, stream)
  {
    if a == [] {
      assert a + b == b;
    } else {
      assert (a + b)[1..] == a[1..] + b;
      OfStreamAppend(a[1..], b, stream);
      var own := if a[0].stream == stream then [a[0]] else [];
      var more, rest := OfStream(a[1..], stream), OfStream(b, stream);
      assert OfStream(a, stream) == own + more && OfStream(a + b, stream) == own + (more + rest);
      assert own + (more + rest) == (own + more) + rest;
    }
  }

  /** Of two suffixes that an entry of the stream lies between, the longer has more of the stream. */
  lemma LongerSuffix(entries: seq<Entry>, stream: string, a: nat, k: nat, b: nat)
    requires a <= k < b <= |entries| && entries[k].stream == stream
    ensures |OfStream(entries[a..], stream)| > |OfStream(entries[b..], stream)|
  {
    assert entries[a..] == entries[a..b] + entries[b..];
    OfStreamAppend(entries[a..b], entries[b..], stream);
    OfStreamMembers(entries[a..b], stream);
    assert entries[a..b][k - a] == entries[k];
    assert entries[k] in OfStream(entries[a..b], stream);
  }

  // ---------- When replay is exact ----------

  /** The index of the oldest event still stored. */
  function Oldest(max: nat, events: seq<Entry>): nat {
    if 0 < max < |events| then |events| - max else 0
  }

  /** An earlier event that is still stored has the same event id as event `i`. */
  ghost predicate Shadowed(max: nat, events: seq<Entry>, i: nat)
    requires i < |events|
  {
    exists k :: Oldest(max, events) <= k < i && events[k].stream == events[i].stream && events[k].time == events[i].time
  }

  /** The later entries of event `i`'s stream. */
  ghost function Later(events: seq<Entry>, i: nat): seq<Entry>
    requires i < |events|
  {
    OfStream(events[i + 1..], events[i].stream)
  }

  /** What replay after the event at index `p` of the queue gives, when that is the first of its id. */
  lemma ReplayFrom(queue: seq<Entry>, p: nat)
    requires p < |queue|
    requires forall k :: 0 <= k < p ==> !(queue[k].stream == queue[p].stream && queue[k].time == queue[p].time)
    ensures EventsAfter(queue, queue[p].stream, queue[p].time) ==
            Texts(SortByTime(OfStream(queue[p + 1..], queue[p].stream)))
  {
    assert Position(queue, queue[p].stream, queue[p].time) == p;
    if p + 1 == |queue| {
      assert queue[p + 1..] == [];
    }
  }

  lemma ReplayOfNothing(queue: seq<Entry>, stream: string, time: nat)
    requires forall k :: 0 <= k < |queue| ==> !(queue[k].stream == stream && queue[k].time == time)
    ensures EventsAfter(queue, stream, time) == []
  {
  }

  /** For all timestamps whatever: the replay after event `i` is the stable sort by time of what was
      stored in its stream after the first stored event with its id, or nothing if there is none. */
  lemma ReplayIsSorted(max: nat, events: seq<Entry>, i: nat) returns (p: nat)
    requires i < |events|
    ensures Oldest(max, events) <= p <= |events|
    ensures forall k :: Oldest(max, events) <= k < p ==>
                          !(events[k].stream == events[i].stream && events[k].time == events[i].time)
    ensures p < |events| ==> events[p].stream == events[i].stream && events[p].time == events[i].time
    ensures EventsAfter(Retained(max, events), events[i].stream, events[i].time) ==
            if p < |events| then Texts(SortByTime(Later(events, p))) else []
  {
    RetainedIsLast(max, events);
    hide EventsAfter, Retained;
    var queue, oldest := Retained(max, events), Oldest(max, events);
    assert queue == events[oldest..];
    var stream, time := events[i].stream, events[i].time;
    var q := Position(queue, stream, time);
    p := oldest + q;
    assert forall k :: oldest <= k < p ==> events[k] == queue[k - oldest];
    if q < |queue| {
      ReplayFrom(queue, q);
      assert queue[q + 1..] == events[p + 1..];
    } else {
      ReplayOfNothing(queue, stream, time);
    }
  }

  /** Replay after event `i` gives exactly the messages missed, in order, iff the event is stored,
      no earlier stored event has its id and sorting by time leaves the missed messages in place;
      or it is no longer stored and nothing was missed. */
  lemma ReplayIsExactIff(max: nat, events: seq<Entry>, i: nat)
    requires i < |events|
    ensures EventsAfter(Retained(max, events), events[i].stream, events[i].time) == Missed(events, i) <==>
            if Oldest(max, events) <= i
            then !Shadowed(max, events, i) && Texts(SortByTime(Later(events, i))) == Missed(events, i)
            else Missed(events, i) == []
  {
    var p := ReplayIsSorted(max, events, i);
    hide EventsAfter, Retained, SortByTime;
    assert Oldest(max, events) <= i ==> p <= i;
    assert Oldest(max, events) <= i ==> (Shadowed(max, events, i) <==> p < i);
    if p < |events| {
      ReplayLength(events, p);
      if p < i {
        ReplayedTooMuch(events, p, i);
      } else if i < p {
        ReplayedTooMuch(events, i, p);
      }
    }
  }

  lemma ReplayLength(events: seq<Entry>, p: nat)
    requires p < |events|
    ensures |Texts(SortByTime(Later(events, p)))| == |Missed(events, p)|
  {
    SortIsSorted(Later(events, p));
  }

  lemma ReplayedTooMuch(events: seq<Entry>, p: nat, i: nat)
    requires p < i < |events| && events[p].stream == events[i].stream
    ensures |Missed(events, p)| > |Missed(events, i)|
  {
    LongerSuffix(events, events[i].stream, p + 1, i, i + 1);
  }

  /** Within each stream, times do not decrease: two events may still share one. */
  ghost predicate InOrder(events: seq<Entry>) {
    forall i, k :: 0 <= i < k < |events| && events[i].stream == events[k].stream ==> events[i].time <= events[k].time
  }

  lemma {:induction false} OfStreamSorted(entries: seq<Entry>, stream: string)
    requires InOrder(entries)
    ensures Sorted(OfStream(entries, stream))
  {
    if entries != [] {
      OfStreamSorted(entries[1..], stream);
      OfStreamMembers(entries[1..], stream);
      var rest := OfStream(entries[1..], stream);
      forall k | 0 <= k < |rest| && entries[0].stream == stream
        ensures entries[0].time <= rest[k].time
      {
        assert rest[k] in entries[1..];
      }
      assert OfStream(entries, stream) == if entries[0].stream == stream then [entries[0]] + rest else rest;
    }
  }

  /** With a clock that does not go back: exact iff the event is stored and no earlier stored event
      has its id, or it is no longer stored and nothing was missed. */
  lemma ReplayInOrderIsExactIff(max: nat, events: seq<Entry>, i: nat)
    requires i < |events| && InOrder(events)
    ensures EventsAfter(Retained(max, events), events[i].stream, events[i].time) == Missed(events, i) <==>
            if Oldest(max, events) <= i then !Shadowed(max, events, i) else Missed(events, i) == []
  {
    hide EventsAfter, Retained, SortByTime, OfStream;
    ReplayIsExactIff(max, events, i);
    OfStreamSorted(events[i + 1..], events[i].stream);
    SortOfSorted(Later(events, i));
  }

  /** With any clock, if the missed messages differ from each other: sorting leaves them in place iff
      their times do not decrease. */
  lemma SortKeepsPlacesIff(entries: seq<Entry>)
    requires forall a, b :: 0 <= a < b < |entries| ==> entries[a].message != entries[b].message
    ensures Texts(SortByTime(entries)) == Texts(entries) <==> Sorted(entries)
  {
    SortIsSorted(entries);
    var sorted := SortByTime(entries);
    if Sorted(entries) {
      SortOfSorted(entries);
    }
    hide SortByTime, Sorted;
    if Texts(sorted) == Texts(entries) {
      SameTextsSameEntries(entries, sorted);
    }
  }

  lemma SameTextsSameEntries(entries: seq<Entry>, sorted: seq<Entry>)
    requires forall a, b :: 0 <= a < b < |entries| ==> entries[a].message != entries[b].message
    requires multiset(sorted) == multiset(entries) && |sorted| == |entries| && Texts(sorted) == Texts(entries)
    ensures sorted == entries
  {
    forall k | 0 <= k < |entries| ensures sorted[k] == entries[k] {
      assert Texts(sorted)[k] == sorted[k].message && Texts(entries)[k] == entries[k].message;
      hide Texts;
      assert sorted[k] in multiset(sorted);
      assert sorted[k] in entries;
      var a :| 0 <= a < |entries| && entries[a] == sorted[k];
    }
  }

  /** Two events of one stream with one timestamp have one id: the client that saw the second is
      sent it again. */
  lemma SharedTimestampReplaysTwice(max: nat, stream: string, time: nat, first: string, second: string)
    requires max != 1
    ensures var events := [Entry(stream, time, first), Entry(stream, time, second)];
            Missed(events, 1) == [] && EventsAfter(Retained(max, events), stream, time) == [second]
  {
    var events := [Entry(stream, time, first), Entry(stream, time, second)];
    RetainedIsLast(max, events);
    ReplayFrom(events, 0);
    hide EventsAfter, Retained;
    assert events[1..] == [events[1]] && [events[1]][1..] == [] && events[2..] == [];
    assert OfStream([events[1]], stream) == [events[1]] + OfStream([], stream);
    assert SortByTime([events[1]]) == [events[1]];
  }

  // ---------- Event ids ----------

  const SEPARATOR := "-.-"

  function EventId(session: string, stream: string, time: nat): string {
    session + SEPARATOR + stream + SEPARATOR + Decimal(time)
  }

  predicate SeparatorAt(s: string, k: nat) {
    k + 3 <= |s| && s[k] == '-' && s[k + 1] == '.' && s[k + 2] == '-'
  }

  /** The first occurrence of the separator, or the length. */
  function FindSeparator(s: string, from: nat): (i: nat)
    requires from <= |s|
    ensures from <= i <= |s|
    ensures forall k :: from <= k < i ==> !SeparatorAt(s, k)
    ensures i < |s| ==> SeparatorAt(s, i)
    decreases |s| - from
  {
    if from == |s| || SeparatorAt(s, from) then from else FindSeparator(s, from + 1)
  }

  function SplitId(s: string): (parts: seq<string>)
    ensures parts != []
    decreases |s|
  {
    var i := FindSeparator(s, 0);
    if i == |s| then [s] else [s[..i]] + SplitId(s[i + 3..])
  }

  /** `parse_event_id` */
  function ParseEventId(id: string): Option<(string, string, nat)> {
    var parts := SplitId(id);
    if id == [] || 0 as char in id || |parts| != 3 || parts[0] == [] || parts[1] == [] || parts[2] == [] then None
    else match ParseUnsigned(parts[2], U128_LIMIT) case Some(time) => Some((parts[0], parts[1], time)) case None => None
  }

  /** The separator occurs neither in `p` nor across its end when the separator follows. */
  ghost predicate Unbroken(p: string) {
    forall k :: 0 <= k < |p| ==> !SeparatorAt(p + SEPARATOR, k)
  }

  /** The part in front of a separator is split off whole iff it is unbroken; else a shorter one is. */
  lemma SplitIdCons(p: string, rest: string)
    ensures var parts := SplitId(p + SEPARATOR + rest);
            if Unbroken(p) then parts == [p] + SplitId(rest) else parts[0] != p
  {
    var s := p + SEPARATOR + rest;
    assert SeparatorAt(s, |p|);
    forall k | 0 <= k < |p| ensures SeparatorAt(s, k) <==> SeparatorAt(p + SEPARATOR, k) {
      assert s[..|p| + 3] == p + SEPARATOR;
    }
    var i := FindSeparator(s, 0);
    if Unbroken(p) {
      assert i == |p| && s[..i] == p && s[i + 3..] == rest;
    } else {
      assert i < |p| && |s[..i]| < |p|;
    }
  }

  lemma SplitIdNone(p: string)
    requires '.' !in p
    ensures SplitId(p) == [p]
  {
  }

  lemma DigitsHaveNoSpecials(digits: string)
    requires AllDigits(digits)
    ensures '.' !in digits && 0 as char !in digits
  {
  }

  predicate Usable(part: string) {
    part != [] && 0 as char !in part
  }

  lemma NulIn(session: string, stream: string, digits: string)
    requires 0 as char !in digits
    ensures 0 as char in session + SEPARATOR + stream + SEPARATOR + digits <==>
            0 as char in session || 0 as char in stream
  {
    var nul := 0 as char;
    assert nul !in SEPARATOR;
    assert nul in session + SEPARATOR <==> nul in session;
    assert nul in session + SEPARATOR + stream <==> nul in session || nul in stream;
    assert nul in session + SEPARATOR + stream + SEPARATOR <==> nul in session || nul in stream;
  }

  /** An event id is read back as the session, stream and time it was made from iff session and
      stream are not empty, hold no NUL, and hold no separator, not even across their end. */
  lemma EventIdRoundTripsIff(session: string, stream: string, time: nat)
    requires time < U128_LIMIT
    ensures ParseEventId(EventId(session, stream, time)) == Some((session, stream, time)) <==>
            Usable(session) && Usable(stream) && Unbroken(session) && Unbroken(stream)
  {
    hide SplitId, Decimal, ParseUnsigned, Unbroken, AllDigits, IsDigit;
    var digits := Decimal(time);
    ParseOfDecimal(time, U128_LIMIT);
    DigitsHaveNoSpecials(digits);
    var id, rest := EventId(session, stream, time), stream + SEPARATOR + digits;
    assert id == session + SEPARATOR + rest;
    NulIn(session, stream, digits);
    SplitIdCons(session, rest);
    SplitIdCons(stream, digits);
    SplitIdNone(digits);
    if Unbroken(session) && Unbroken(stream) {
      assert SplitId(id) == [session, stream, digits];
    }
  }
}

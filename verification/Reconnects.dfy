/** Several breaks and resumptions of the standalone stream. Each connection replays what the event
    store finds after the last event whose id the client knows, without ids, while new messages are
    written live, with their ids: two tasks, in any interleaving. The store is bounded and shared with
    the session's other streams. Messages are numbered by their place in the stream. */
module Reconnects {
  import opened Sequences
  import opened LineFraming
  import opened SseParsing
  import opened SseDelivery
  import opened ClientStreams
  import opened Leftovers
  import opened Resumption
  import opened EventStore
  import opened Text

  /** The limit of the store, everything it was given for the session, and the stream in question. */
  datatype Server = Server(limit: nat, log: seq<Entry>, stream: string)

  function Stream(v: Server): seq<Entry> {
    OfStream(v.log, v.stream)
  }

  /** How many messages of the stream are among the first `n` entries. */
  function Count(v: Server, n: nat): nat
    requires n <= |v.log|
  {
    |OfStream(v.log[..n], v.stream)|
  }

  function Range(from: nat, n: nat): seq<nat> {
    seq(n, i requires 0 <= i < n => from + i)
  }

  predicate InStream(stream: seq<Entry>, places: seq<nat>) {
    forall i :: 0 <= i < |places| ==> places[i] < |stream|
  }

  function EntriesAt(stream: seq<Entry>, places: seq<nat>): seq<Entry>
    requires InStream(stream, places)
  {
    seq(|places|, i requires 0 <= i < |places| => stream[places[i]])
  }

  function MessagesAt(stream: seq<Entry>, places: seq<nat>): seq<string>
    requires InStream(stream, places)
  {
    Texts(EntriesAt(stream, places))
  }

  // ---------- What the store replays, by place ----------

  /** The first place from `from` on, below `bound`, that carries this time. */
  function FirstWithTime(stream: seq<Entry>, from: nat, bound: nat, time: nat): (j: nat)
    requires from <= bound <= |stream|
    ensures from <= j <= bound && (j < bound ==> stream[j].time == time)
    ensures forall k :: from <= k < j ==> stream[k].time != time
    decreases bound - from
  {
    if from == bound || stream[from].time == time then from else FirstWithTime(stream, from + 1, bound, time)
  }

  function InsertPlace(stream: seq<Entry>, k: nat, sorted: seq<nat>): (r: seq<nat>)
    requires k < |stream| && InStream(stream, sorted)
    ensures InStream(stream, r) && multiset(r) == multiset(sorted) + multiset{k}
  {
    if sorted == [] || stream[k].time <= stream[sorted[0]].time then [k] + sorted
    else
      assert sorted == [sorted[0]] + sorted[1..];
      [sorted[0]] + InsertPlace(stream, k, sorted[1..])
  }

  function SortPlaces(stream: seq<Entry>, places: seq<nat>): (r: seq<nat>)
    requires InStream(stream, places)
    ensures InStream(stream, r) && multiset(r) == multiset(places)
  {
    if places == [] then []
    else
      assert places == [places[0]] + places[1..];
      InsertPlace(stream, places[0], SortPlaces(stream, places[1..]))
  }

  /** How many messages of the stream the store has dropped when it holds `n` entries' worth. */
  function Evicted(v: Server, n: nat): nat
    requires n <= |v.log|
  {
    Count(v, Oldest(v.limit, v.log[..n]))
  }

  lemma CountIsMonotone(v: Server, m: nat, n: nat)
    requires m <= n <= |v.log|
    ensures Count(v, m) <= Count(v, n) <= |Stream(v)|
  {
    hide OfStream;
    assert v.log[..n] == v.log[..m] + v.log[m..n] && v.log == v.log[..n] + v.log[n..];
    OfStreamAppend(v.log[..m], v.log[m..n], v.stream);
    OfStreamAppend(v.log[..n], v.log[n..], v.stream);
  }

  /** The places that a replay sends for a timestamp, from the messages `evicted..stored` that are held. */
  function ReplayPlaces(stream: seq<Entry>, evicted: nat, stored: nat, time: nat): (r: seq<nat>)
    requires evicted <= stored <= |stream|
    ensures InStream(stream, r)
  {
    var j := FirstWithTime(stream, evicted, stored, time);
    if j == stored then [] else SortPlaces(stream, Range(j + 1, stored - j - 1))
  }

  /** What a client whose last event is at place `cur` is replayed, when the store has been given `n`
      entries. */
  function Replay(v: Server, cur: nat, n: nat): (r: seq<nat>)
    requires n <= |v.log| && cur < |Stream(v)|
  {
    CountIsMonotone(v, Oldest(v.limit, v.log[..n]), n);
    ReplayPlaces(Stream(v), Evicted(v, n), Count(v, n), Stream(v)[cur].time)
  }

  lemma {:induction false} InsertPlaceIsInsert(stream: seq<Entry>, k: nat, sorted: seq<nat>)
    requires k < |stream| && InStream(stream, sorted)
    ensures InsertByTime(stream[k], EntriesAt(stream, sorted)) == EntriesAt(stream, InsertPlace(stream, k, sorted))
  {
    var entries := EntriesAt(stream, sorted);
    if sorted == [] || stream[k].time <= stream[sorted[0]].time {
      assert EntriesAt(stream, [k] + sorted) == [stream[k]] + entries;
    } else {
      InsertPlaceIsInsert(stream, k, sorted[1..]);
      assert entries[1..] == EntriesAt(stream, sorted[1..]);
      var rest := InsertPlace(stream, k, sorted[1..]);
      assert EntriesAt(stream, [sorted[0]] + rest) == [entries[0]] + EntriesAt(stream, rest);
    }
  }

  lemma {:induction false} SortPlacesIsSort(stream: seq<Entry>, places: seq<nat>)
    requires InStream(stream, places)
    ensures SortByTime(EntriesAt(stream, places)) == EntriesAt(stream, SortPlaces(stream, places))
  {
    var entries := EntriesAt(stream, places);
    if places != [] {
      SortPlacesIsSort(stream, places[1..]);
      assert entries[1..] == EntriesAt(stream, places[1..]);
      InsertPlaceIsInsert(stream, places[0], SortPlaces(stream, places[1..]));
    }
  }

  lemma RangeOfStream(stream: seq<Entry>, from: nat, n: nat)
    requires from + n <= |stream|
    ensures InStream(stream, Range(from, n)) && EntriesAt(stream, Range(from, n)) == stream[from..from + n]
  {
  }

  /** The stream around entry `oldest + p` of the log. */
  lemma StreamAround(v: Server, oldest: nat, n: nat, p: nat)
    requires oldest + p < n <= |v.log| && v.log[oldest + p].stream == v.stream
    ensures var j := Count(v, oldest) + |OfStream(v.log[oldest..oldest + p], v.stream)|;
            && j < Count(v, n) <= |Stream(v)| && Stream(v)[j] == v.log[oldest + p]
            && Stream(v)[Count(v, oldest)..j] == OfStream(v.log[oldest..oldest + p], v.stream)
            && Stream(v)[j + 1..Count(v, n)] == OfStream(v.log[oldest + p + 1..n], v.stream)
  {
    var i := oldest + p;
    hide *;
    StreamSplit(v, oldest, n, i);
    Slices(OfStream(v.log[..oldest], v.stream), OfStream(v.log[oldest..i], v.stream), v.log[i],
           OfStream(v.log[i + 1..n], v.stream), OfStream(v.log[n..], v.stream));
  }

  lemma StreamSplit(v: Server, oldest: nat, n: nat, i: nat)
    requires oldest <= i < n <= |v.log| && v.log[i].stream == v.stream
    ensures var a, b := OfStream(v.log[..oldest], v.stream), OfStream(v.log[oldest..i], v.stream);
            var c, d := OfStream(v.log[i + 1..n], v.stream), OfStream(v.log[n..], v.stream);
            && Stream(v) == (((a + b) + [v.log[i]]) + c) + d
            && Count(v, oldest) == |a| && Count(v, n) == |a| + |b| + 1 + |c|
  {
    var s := v.stream;
    var a, b, x, c, d := v.log[..oldest], v.log[oldest..i], [v.log[i]], v.log[i + 1..n], v.log[n..];
    hide OfStream;
    OfStreamOne(v.log[i]);
    assert v.log[..n] == ((a + b) + x) + c && v.log == v.log[..n] + d;
    OfStreamAppend(a, b, s);
    OfStreamAppend(a + b, x, s);
    OfStreamAppend((a + b) + x, c, s);
    OfStreamAppend(v.log[..n], d, s);
  }

  lemma OfStreamOne(e: Entry)
    ensures OfStream([e], e.stream) == [e]
  {
    assert [e][1..] == [];
    assert OfStream([e], e.stream) == [e] + OfStream([], e.stream);
  }

  lemma Slices<T>(a: seq<T>, b: seq<T>, x: T, c: seq<T>, d: seq<T>)
    ensures var all := (((a + b) + [x]) + c) + d;
            var j := |a| + |b|;
            all[j] == x && all[|a|..j] == b && all[j + 1..j + 1 + |c|] == c
  {
  }

  /** The replay the store gives, for any timestamps, is that of the places of `Replay`. */
  lemma ReplayComesFromStore(v: Server, cur: nat, n: nat)
    requires n <= |v.log| && cur < |Stream(v)|
    ensures InStream(Stream(v), Replay(v, cur, n))
    ensures EventsAfter(Retained(v.limit, v.log[..n]), v.stream, Stream(v)[cur].time) ==
            MessagesAt(Stream(v), Replay(v, cur, n))
  {
    var events, oldest, time := v.log[..n], Oldest(v.limit, v.log[..n]), Stream(v)[cur].time;
    RetainedIsLast(v.limit, events);
    var queue := v.log[oldest..n];
    assert queue == events[oldest..] && Retained(v.limit, events) == queue;
    var p := Position(queue, v.stream, time);
    hide Retained, EventsAfter, Replay, Stream, SortPlaces, MessagesAt;
    if p < |queue| {
      ReplayFromPlace(v, cur, n, p);
    } else {
      ReplayFromNowhere(v, cur, n);
    }
  }

  lemma ReplayFromPlace(v: Server, cur: nat, n: nat, p: nat)
    requires n <= |v.log| && cur < |Stream(v)|
    requires var queue := v.log[Oldest(v.limit, v.log[..n])..n];
             p < |queue| && p == Position(queue, v.stream, Stream(v)[cur].time)
    ensures var queue := v.log[Oldest(v.limit, v.log[..n])..n];
            && InStream(Stream(v), Replay(v, cur, n))
            && EventsAfter(queue, v.stream, Stream(v)[cur].time) == MessagesAt(Stream(v), Replay(v, cur, n))
  {
    var oldest, time := Oldest(v.limit, v.log[..n]), Stream(v)[cur].time;
    var queue := v.log[oldest..n];
    assert queue[p] == v.log[oldest + p];
    hide OfStream, EventsAfter, Stream, SortByTime, Replay, MessagesAt, Texts, Count;
    ReplayFrom(queue, p);
    hide Position;
    var j := PlaceOfMatch(v, oldest, n, p, time);
    assert queue[p + 1..] == v.log[oldest + p + 1..n];
    ReplayAfterPlace(v, cur, n, j);
  }

  lemma PlaceOfMatch(v: Server, oldest: nat, n: nat, p: nat, time: nat) returns (j: nat)
    requires oldest + p < n <= |v.log|
    requires v.log[oldest + p].stream == v.stream && v.log[oldest + p].time == time
    requires forall k :: 0 <= k < p ==>
                           !(v.log[oldest..n][k].stream == v.stream && v.log[oldest..n][k].time == time)
    ensures Count(v, oldest) <= j < Count(v, n) <= |Stream(v)|
    ensures FirstWithTime(Stream(v), Count(v, oldest), Count(v, n), time) == j
    ensures Stream(v)[j + 1..Count(v, n)] == OfStream(v.log[oldest + p + 1..n], v.stream)
  {
    hide OfStream, Stream, Count;
    StreamAround(v, oldest, n, p);
    var before := v.log[oldest..oldest + p];
    assert forall k :: 0 <= k < p ==> before[k] == v.log[oldest..n][k];
    j := Count(v, oldest) + |OfStream(before, v.stream)|;
    NoEarlierMatch(before, v.stream, time);
    assert Stream(v)[Count(v, oldest)..j] == OfStream(before, v.stream);
    PlaceOfFirst(Stream(v), Count(v, oldest), j, Count(v, n), time);
  }

  lemma ReplayAfterPlace(v: Server, cur: nat, n: nat, j: nat)
    requires n <= |v.log| && cur < |Stream(v)|
    requires Evicted(v, n) <= j < Count(v, n) <= |Stream(v)|
    requires FirstWithTime(Stream(v), Evicted(v, n), Count(v, n), Stream(v)[cur].time) == j
    ensures InStream(Stream(v), Replay(v, cur, n))
    ensures MessagesAt(Stream(v), Replay(v, cur, n)) == Texts(SortByTime(Stream(v)[j + 1..Count(v, n)]))
  {
    hide OfStream, Stream, Count, SortByTime, Evicted, ReplayPlaces;
    ReplayPlacesSort(Stream(v), Evicted(v, n), Count(v, n), Stream(v)[cur].time, j);
  }

  lemma ReplayPlacesSort(stream: seq<Entry>, evicted: nat, stored: nat, time: nat, j: nat)
    requires evicted <= j < stored <= |stream| && FirstWithTime(stream, evicted, stored, time) == j
    ensures MessagesAt(stream, ReplayPlaces(stream, evicted, stored, time)) ==
            Texts(SortByTime(stream[j + 1..stored]))
  {
    hide FirstWithTime, SortByTime, SortPlaces;
    RangeOfStream(stream, j + 1, stored - j - 1);
    SortPlacesIsSort(stream, Range(j + 1, stored - j - 1));
  }

  lemma ReplayFromNowhere(v: Server, cur: nat, n: nat)
    requires n <= |v.log| && cur < |Stream(v)|
    requires var queue := v.log[Oldest(v.limit, v.log[..n])..n];
             Position(queue, v.stream, Stream(v)[cur].time) == |queue|
    ensures var queue := v.log[Oldest(v.limit, v.log[..n])..n];
            && Replay(v, cur, n) == []
            && EventsAfter(queue, v.stream, Stream(v)[cur].time) == [] == MessagesAt(Stream(v), [])
  {
    var oldest, time := Oldest(v.limit, v.log[..n]), Stream(v)[cur].time;
    var queue := v.log[oldest..n];
    ReplayOfNothing(queue, v.stream, time);
    NoEarlierMatch(queue, v.stream, time);
    StreamPrefix(v, oldest, n);
    hide OfStream, Position, EventsAfter, Stream;
    PlaceOfFirst(Stream(v), Count(v, oldest), Count(v, n), Count(v, n), time);
  }

  lemma StreamPrefix(v: Server, oldest: nat, n: nat)
    requires oldest <= n <= |v.log|
    ensures Count(v, oldest) <= Count(v, n) <= |Stream(v)|
    ensures Stream(v)[Count(v, oldest)..Count(v, n)] == OfStream(v.log[oldest..n], v.stream)
  {
    hide OfStream;
    assert v.log[..n] == v.log[..oldest] + v.log[oldest..n] && v.log == v.log[..n] + v.log[n..];
    OfStreamAppend(v.log[..oldest], v.log[oldest..n], v.stream);
    OfStreamAppend(v.log[..n], v.log[n..], v.stream);
  }

  lemma NoEarlierMatch(queue: seq<Entry>, stream: string, time: nat)
    requires forall k :: 0 <= k < |queue| ==> !(queue[k].stream == stream && queue[k].time == time)
    ensures forall k :: 0 <= k < |OfStream(queue, stream)| ==> OfStream(queue, stream)[k].time != time
  {
    OfStreamMembers(queue, stream);
    hide OfStream;
    forall k | 0 <= k < |OfStream(queue, stream)| ensures OfStream(queue, stream)[k].time != time {
      assert OfStream(queue, stream)[k] in OfStream(queue, stream);
    }
  }

  lemma PlaceOfFirst(stream: seq<Entry>, from: nat, j: nat, bound: nat, time: nat)
    requires from <= j <= bound <= |stream|
    requires forall k :: 0 <= k < |stream[from..j]| ==> stream[from..j][k].time != time
    requires j < bound ==> stream[j].time == time
    ensures FirstWithTime(stream, from, bound, time) == j
  {
    forall k | from <= k < j ensures stream[k].time != time {
      assert stream[from..j][k - from] == stream[k];
    }
  }

  // ---------- Connections ----------

  /** A connection, in entries of the log: `read` were stored when the replay was looked up, and the
      stream's messages among the entries `first..end` were written live. `order` says of each message
      that reached the client whether it was a live one; the two tasks write in any interleaving. */
  datatype Connection = Connection(read: nat, first: nat, end: nat, order: seq<bool>)

  function Lives(order: seq<bool>): (n: nat)
    ensures n <= |order|
  {
    if order == [] then 0 else Lives(order[..|order| - 1]) + if order[|order| - 1] then 1 else 0
  }

  function Replays(order: seq<bool>): nat {
    |order| - Lives(order)
  }

  /** The places received: the replayed ones and the live ones, from `first` on, as `order` mixes them. */
  function Interleaved(replay: seq<nat>, first: nat, order: seq<bool>): (r: seq<nat>)
    requires Replays(order) <= |replay|
    ensures |r| == |order|
  {
    if order == [] then []
    else
      var front := order[..|order| - 1];
      Interleaved(replay, first, front) +
      [if order[|order| - 1] then first + Lives(front) else replay[Replays(front)]]
  }

  /** Item by item. */
  lemma {:induction false} InterleavedAt(replay: seq<nat>, first: nat, order: seq<bool>, i: nat)
    requires Replays(order) <= |replay| && i < |order|
    ensures Replays(order[..i]) <= Replays(order) && Lives(order[..i]) <= Lives(order)
    ensures order[i] ==> Lives(order[..i]) < Lives(order)
    ensures !order[i] ==> Replays(order[..i]) < Replays(order)
    ensures Interleaved(replay, first, order)[i] ==
            if order[i] then first + Lives(order[..i]) else replay[Replays(order[..i])]
  {
    var front := order[..|order| - 1];
    if i < |front| {
      InterleavedAt(replay, first, front, i);
      assert front[..i] == order[..i];
    }
  }

  /** Only a live message moves the last event id on. */
  function NextCursor(v: Server, cur: nat, c: Connection): nat
    requires c.first <= |v.log|
  {
    if Lives(c.order) == 0 then cur else Count(v, c.first) + Lives(c.order) - 1
  }

  /** What can happen to a client whose last event is at place `cur`: live messages are new to it, and
      it receives no more than was written. */
  ghost predicate Possible(v: Server, cur: nat, c: Connection) {
    && c.read <= |v.log| && c.first <= c.end <= |v.log|
    && cur < Count(v, c.read) && cur < Count(v, c.first) && Count(v, c.end) <= |Stream(v)| && cur < |Stream(v)|
    && Replays(c.order) <= |Replay(v, cur, c.read)|
    && Lives(c.order) <= Count(v, c.end) - Count(v, c.first)
  }

  ghost predicate PossibleRun(v: Server, cur: nat, conns: seq<Connection>)
    decreases |conns|
  {
    conns == [] || (Possible(v, cur, conns[0]) && PossibleRun(v, NextCursor(v, cur, conns[0]), conns[1..]))
  }

  /** The places that a connection brings. */
  ghost function Brought(v: Server, cur: nat, c: Connection): seq<nat>
    requires Possible(v, cur, c)
  {
    Interleaved(Replay(v, cur, c.read), Count(v, c.first), c.order)
  }

  ghost function Arrivals(v: Server, cur: nat, conns: seq<Connection>): seq<nat>
    requires PossibleRun(v, cur, conns)
    decreases |conns|
  {
    if conns == [] then [] else Brought(v, cur, conns[0]) + Arrivals(v, NextCursor(v, cur, conns[0]), conns[1..])
  }

  ghost function FinalCursor(v: Server, cur: nat, conns: seq<Connection>): nat
    requires PossibleRun(v, cur, conns)
    decreases |conns|
  {
    if conns == [] then cur else FinalCursor(v, NextCursor(v, cur, conns[0]), conns[1..])
  }

  /** The first connection and the others. */
  lemma Unfold(v: Server, cur: nat, conns: seq<Connection>)
    requires conns != [] && PossibleRun(v, cur, conns)
    ensures conns[0].first <= |v.log| && Possible(v, cur, conns[0])
    ensures var next := NextCursor(v, cur, conns[0]);
            && PossibleRun(v, next, conns[1..])
            && Arrivals(v, cur, conns) == Brought(v, cur, conns[0]) + Arrivals(v, next, conns[1..])
            && FinalCursor(v, cur, conns) == FinalCursor(v, next, conns[1..])
  {
    hide Brought, Count, Replay, Stream, Lives;
  }

  // ---------- When a message is skipped ----------

  function SetOf(places: seq<nat>): set<nat> {
    set p | p in places
  }

  /** Everything up to the last event id has arrived. */
  ghost predicate NothingMissing(from: nat, cursor: nat, got: set<nat>) {
    forall p: nat :: from < p <= cursor ==> p in got
  }

  /** What is received is a prefix of the replay and of the live messages. */
  lemma {:induction false} InterleavedAre(replay: seq<nat>, first: nat, order: seq<bool>, p: nat)
    requires Replays(order) <= |replay|
    ensures p in Interleaved(replay, first, order) <==>
            p in replay[..Replays(order)] || first <= p < first + Lives(order)
  {
    if order != [] {
      var front := order[..|order| - 1];
      InterleavedAre(replay, first, front, p);
      if !order[|order| - 1] {
        assert replay[..Replays(order)] == replay[..Replays(front)] + [replay[Replays(front)]];
      }
    }
  }

  lemma RangeHolds(from: nat, n: nat)
    ensures forall p: nat :: p in Range(from, n) <==> from <= p < from + n
  {
    forall p: nat | from <= p < from + n ensures p in Range(from, n) {
      assert Range(from, n)[p - from] == p;
    }
  }

  lemma CursorRisesOnce(v: Server, cur: nat, c: Connection)
    requires Possible(v, cur, c)
    ensures cur <= NextCursor(v, cur, c)
  {
    hide Count, Replay, Stream;
  }

  lemma {:induction false} CursorRises(v: Server, cur: nat, conns: seq<Connection>)
    requires PossibleRun(v, cur, conns)
    ensures cur <= FinalCursor(v, cur, conns)
    decreases |conns|
  {
    if conns != [] {
      CursorRisesOnce(v, cur, conns[0]);
      hide Possible, NextCursor;
      CursorRises(v, NextCursor(v, cur, conns[0]), conns[1..]);
    }
  }

  /** The replayed messages that the connections of a run received. */
  ghost function ReplayedPlaces(v: Server, cur: nat, conns: seq<Connection>): set<nat>
    requires PossibleRun(v, cur, conns)
    decreases |conns|
  {
    if conns == [] then {}
    else
      SetOf(Replay(v, cur, conns[0].read)[..Replays(conns[0].order)]) +
      ReplayedPlaces(v, NextCursor(v, cur, conns[0]), conns[1..])
  }

  ghost function LivePlaces(v: Server, cur: nat, conns: seq<Connection>): set<nat>
    requires PossibleRun(v, cur, conns)
    decreases |conns|
  {
    if conns == [] then {}
    else
      SetOf(Range(Count(v, conns[0].first), Lives(conns[0].order))) +
      LivePlaces(v, NextCursor(v, cur, conns[0]), conns[1..])
  }

  /** If any message is live, those between the client's last event and the first live one are in `s`. */
  ghost predicate GapIn(v: Server, cur: nat, c: Connection, s: set<nat>)
    requires c.first <= |v.log|
  {
    Lives(c.order) > 0 ==> forall p: nat :: cur < p < Count(v, c.first) ==> p in s
  }

  ghost predicate GapsIn(v: Server, cur: nat, conns: seq<Connection>, s: set<nat>)
    requires PossibleRun(v, cur, conns)
    decreases |conns|
  {
    conns == [] || (GapIn(v, cur, conns[0], s) && GapsIn(v, NextCursor(v, cur, conns[0]), conns[1..], s))
  }

  lemma UnfoldPlaces(v: Server, cur: nat, conns: seq<Connection>, s: set<nat>)
    requires PossibleRun(v, cur, conns)
    ensures conns == [] ==>
              && ReplayedPlaces(v, cur, conns) == LivePlaces(v, cur, conns) == {} && Arrivals(v, cur, conns) == []
              && GapsIn(v, cur, conns, s) && FinalCursor(v, cur, conns) == cur
    ensures conns != [] ==>
              var c, rest, next := conns[0], conns[1..], NextCursor(v, cur, conns[0]);
              && c.read <= |v.log| && cur < |Stream(v)| && Possible(v, cur, c) && PossibleRun(v, next, rest)
              && Replays(c.order) <= |Replay(v, cur, c.read)|
              && ReplayedPlaces(v, cur, conns) ==
                 SetOf(Replay(v, cur, c.read)[..Replays(c.order)]) + ReplayedPlaces(v, next, rest)
              && LivePlaces(v, cur, conns) ==
                 SetOf(Range(Count(v, c.first), Lives(c.order))) + LivePlaces(v, next, rest)
              && (GapsIn(v, cur, conns, s) <==> GapIn(v, cur, c, s) && GapsIn(v, next, rest, s))
  {
    hide GapIn, SetOf, Range, Replay, Count, Stream, Lives;
  }

  /** What arrives was replayed or live. */
  lemma {:induction false} ArrivalsAre(v: Server, cur: nat, conns: seq<Connection>, p: nat)
    requires PossibleRun(v, cur, conns)
    ensures p in Arrivals(v, cur, conns) <==> p in ReplayedPlaces(v, cur, conns) || p in LivePlaces(v, cur, conns)
    decreases |conns|
  {
    hide *;
    UnfoldPlaces(v, cur, conns, {});
    if conns != [] {
      Unfold(v, cur, conns);
      ArrivalsAre(v, NextCursor(v, cur, conns[0]), conns[1..], p);
      BroughtAre(v, cur, conns[0], p);
    }
  }

  lemma BroughtAre(v: Server, cur: nat, c: Connection, p: nat)
    requires Possible(v, cur, c)
    ensures p in Brought(v, cur, c) <==>
            || p in SetOf(Replay(v, cur, c.read)[..Replays(c.order)])
            || p in SetOf(Range(Count(v, c.first), Lives(c.order)))
  {
    hide Replay, Count, Stream, Range, Interleaved, Lives;
    RangeHolds(Count(v, c.first), Lives(c.order));
    InterleavedAre(Replay(v, cur, c.read), Count(v, c.first), c.order, p);
  }

  /** One connection: the live messages up to the new last event id follow on the gap before them. */
  lemma MissingInGap(v: Server, cur: nat, c: Connection, s: set<nat>)
    requires Possible(v, cur, c) && SetOf(Range(Count(v, c.first), Lives(c.order))) <= s
    ensures NothingMissing(cur, NextCursor(v, cur, c), s) <==> GapIn(v, cur, c, s)
    ensures cur <= NextCursor(v, cur, c)
    ensures forall p: nat :: p in SetOf(Range(Count(v, c.first), Lives(c.order))) ==> cur < p <= NextCursor(v, cur, c)
    ensures Lives(c.order) > 0 ==> Count(v, c.first) <= NextCursor(v, cur, c)
  {
    hide Count, Replay, Stream, Range;
    var live := Range(Count(v, c.first), Lives(c.order));
    RangeHolds(Count(v, c.first), Lives(c.order));
    assert forall p: nat :: p in live ==> p in SetOf(live);
  }

  lemma {:induction false} MissingInGaps(v: Server, cur: nat, conns: seq<Connection>, s: set<nat>)
    requires PossibleRun(v, cur, conns) && LivePlaces(v, cur, conns) <= s
    ensures NothingMissing(cur, FinalCursor(v, cur, conns), s) <==> GapsIn(v, cur, conns, s)
    decreases |conns|
  {
    hide PossibleRun, ReplayedPlaces, LivePlaces, GapIn, GapsIn, Possible, Range, SetOf, Arrivals, FinalCursor,
         NextCursor;
    UnfoldPlaces(v, cur, conns, s);
    if conns != [] {
      Unfold(v, cur, conns);
      var c, next := conns[0], NextCursor(v, cur, conns[0]);
      MissingInGap(v, cur, c, s);
      MissingInGaps(v, next, conns[1..], s);
      CursorRises(v, next, conns[1..]);
    }
  }

  /** No live message lies in a gap. */
  lemma {:induction false} GapsAreNotLive(v: Server, cur: nat, conns: seq<Connection>, s: set<nat>, other: set<nat>)
    requires PossibleRun(v, cur, conns)
    requires forall p: nat :: cur < p ==> (p in s <==> p in other || p in LivePlaces(v, cur, conns))
    ensures GapsIn(v, cur, conns, s) <==> GapsIn(v, cur, conns, other)
    decreases |conns|
  {
    hide PossibleRun, ReplayedPlaces, LivePlaces, GapsIn, Possible, Range, SetOf, Arrivals, FinalCursor,
         NextCursor, Count;
    UnfoldPlaces(v, cur, conns, s);
    UnfoldPlaces(v, cur, conns, other);
    if conns != [] {
      Unfold(v, cur, conns);
      var c, rest, next := conns[0], conns[1..], NextCursor(v, cur, conns[0]);
      var live := SetOf(Range(Count(v, c.first), Lives(c.order)));
      MissingInGap(v, cur, c, live);
      LiveIsLater(v, next, rest);
      GapsAreNotLive(v, next, rest, s, other);
      BeforeTheLive(v, c);
      assert GapIn(v, cur, c, s) <==> GapIn(v, cur, c, other);
    }
  }

  lemma BeforeTheLive(v: Server, c: Connection)
    requires c.first <= |v.log|
    ensures forall p: nat :: p in SetOf(Range(Count(v, c.first), Lives(c.order))) ==> Count(v, c.first) <= p
  {
    hide Count, Range;
    RangeHolds(Count(v, c.first), Lives(c.order));
  }

  lemma {:induction false} LiveIsLater(v: Server, cur: nat, conns: seq<Connection>)
    requires PossibleRun(v, cur, conns)
    ensures forall p: nat :: p in LivePlaces(v, cur, conns) ==> cur < p
    decreases |conns|
  {
    hide PossibleRun, ReplayedPlaces, LivePlaces, GapsIn, Possible, Range, SetOf, Arrivals, FinalCursor,
         NextCursor, Count;
    UnfoldPlaces(v, cur, conns, {});
    if conns != [] {
      Unfold(v, cur, conns);
      var c := conns[0];
      MissingInGap(v, cur, c, SetOf(Range(Count(v, c.first), Lives(c.order))));
      LiveIsLater(v, NextCursor(v, cur, c), conns[1..]);
    }
  }

  /** Over any run of connections, with any timestamps: nothing up to the last event id is missing iff on
      every connection with a live message, each message between the client's last event and that one had
      arrived before, or is replayed on a connection of the run. */
  lemma NoGapsIff(v: Server, cur: nat, conns: seq<Connection>, got: set<nat>)
    requires PossibleRun(v, cur, conns)
    ensures NothingMissing(cur, FinalCursor(v, cur, conns), got + SetOf(Arrivals(v, cur, conns))) <==>
            GapsIn(v, cur, conns, got + ReplayedPlaces(v, cur, conns))
  {
    hide PossibleRun, ReplayedPlaces, LivePlaces, GapsIn, Arrivals, FinalCursor, NothingMissing;
    var s := got + SetOf(Arrivals(v, cur, conns));
    forall p: nat
      ensures p in s <==> p in got || p in ReplayedPlaces(v, cur, conns) || p in LivePlaces(v, cur, conns)
    {
      ArrivalsAre(v, cur, conns, p);
    }
    MissingInGaps(v, cur, conns, s);
    GapsAreNotLive(v, cur, conns, s, got + ReplayedPlaces(v, cur, conns));
  }

  // ---------- A message skipped is skipped for good ----------

  /** No earlier message that the store still holds shares the timestamp, and so the id, of the
      client's last event. */
  ghost predicate Unshadowed(v: Server, cur: nat, n: nat)
    requires n <= |v.log| && cur < |Stream(v)|
  {
    forall k: nat :: Evicted(v, n) <= k < cur ==> Stream(v)[k].time != Stream(v)[cur].time
  }

  ghost predicate UnshadowedRun(v: Server, cur: nat, conns: seq<Connection>)
    requires PossibleRun(v, cur, conns)
    decreases |conns|
  {
    conns == [] ||
    (Unshadowed(v, cur, conns[0].read) && UnshadowedRun(v, NextCursor(v, cur, conns[0]), conns[1..]))
  }

  lemma ReplayIsLater(v: Server, cur: nat, n: nat)
    requires n <= |v.log| && cur < |Stream(v)| && Unshadowed(v, cur, n)
    ensures forall i :: 0 <= i < |Replay(v, cur, n)| ==> cur < Replay(v, cur, n)[i] < Count(v, n)
  {
    CountIsMonotone(v, Oldest(v.limit, v.log[..n]), n);
    var stream, stored := Stream(v), Count(v, n);
    hide Stream, Count, Evicted;
    ReplayPlacesLater(stream, Evicted(v, n), stored, stream[cur].time, cur);
  }

  lemma ReplayPlacesLater(stream: seq<Entry>, evicted: nat, stored: nat, time: nat, cur: nat)
    requires evicted <= stored <= |stream|
    requires forall k: nat :: evicted <= k < cur && k < |stream| ==> stream[k].time != time
    ensures var r := ReplayPlaces(stream, evicted, stored, time);
            forall i :: 0 <= i < |r| ==> cur < r[i] < stored
  {
    hide SortPlaces;
    var j := FirstWithTime(stream, evicted, stored, time);
    if j < stored {
      assert cur <= j;
      var places := Range(j + 1, stored - j - 1);
      SortedWithin(stream, places, cur, stored);
      assert ReplayPlaces(stream, evicted, stored, time) == SortPlaces(stream, places);
    }
  }

  lemma SortedWithin(stream: seq<Entry>, places: seq<nat>, low: nat, high: nat)
    requires InStream(stream, places) && forall i :: 0 <= i < |places| ==> low < places[i] < high
    ensures var r := SortPlaces(stream, places); forall i :: 0 <= i < |r| ==> low < r[i] < high
  {
    hide SortPlaces;
    var r := SortPlaces(stream, places);
    forall i | 0 <= i < |r| ensures low < r[i] < high {
      assert r[i] in multiset(r);
      assert r[i] in places;
    }
  }

  /** A connection brings only what is new to the client, and all its live messages. */
  lemma BroughtIsLater(v: Server, cur: nat, c: Connection)
    requires Possible(v, cur, c) && Unshadowed(v, cur, c.read)
    ensures forall i :: 0 <= i < |Brought(v, cur, c)| ==> cur < Brought(v, cur, c)[i]
    ensures cur <= NextCursor(v, cur, c)
  {
    hide Stream, Count, Replay, Unshadowed;
    ReplayIsLater(v, cur, c.read);
    var replay, first := Replay(v, cur, c.read), Count(v, c.first);
    forall i | 0 <= i < |c.order| ensures cur < Interleaved(replay, first, c.order)[i] {
      InterleavedAt(replay, first, c.order, i);
    }
  }

  /** A message skipped is skipped for good: once the last event id has passed it, it never arrives. */
  lemma {:induction false} SkippedForGood(v: Server, cur: nat, conns: seq<Connection>, p: nat)
    requires PossibleRun(v, cur, conns) && UnshadowedRun(v, cur, conns) && p <= cur
    ensures p !in Arrivals(v, cur, conns)
    decreases |conns|
  {
    if conns != [] {
      BroughtIsLater(v, cur, conns[0]);
      hide Brought, Possible, Unshadowed, NextCursor;
      SkippedForGood(v, NextCursor(v, cur, conns[0]), conns[1..], p);
    }
  }

  /** Every message between the client's last event and the first live message had arrived before, or is
      among the replayed messages that this connection received. */
  ghost predicate FillsGap(v: Server, cur: nat, c: Connection, got: set<nat>)
    requires Possible(v, cur, c)
  {
    Lives(c.order) > 0 ==>
      forall p: nat :: cur < p < Count(v, c.first) ==>
                         p in got || p in Replay(v, cur, c.read)[..Replays(c.order)]
  }

  ghost predicate FillsGaps(v: Server, cur: nat, conns: seq<Connection>, got: set<nat>)
    requires PossibleRun(v, cur, conns)
    decreases |conns|
  {
    conns == [] ||
    (&& FillsGap(v, cur, conns[0], got)
     && FillsGaps(v, NextCursor(v, cur, conns[0]), conns[1..], got + SetOf(Brought(v, cur, conns[0]))))
  }

  lemma CompleteAfterOne(v: Server, cur: nat, c: Connection, got: set<nat>)
    requires Possible(v, cur, c)
    ensures NothingMissing(cur, NextCursor(v, cur, c), got + SetOf(Brought(v, cur, c))) <==> FillsGap(v, cur, c, got)
  {
    var first, replay := Count(v, c.first), Replay(v, cur, c.read);
    hide Count, Replay, Stream;
    forall p: nat
      ensures p in Brought(v, cur, c) <==> p in replay[..Replays(c.order)] || first <= p < first + Lives(c.order)
    {
      InterleavedAre(replay, first, c.order, p);
    }
    var all := got + SetOf(Brought(v, cur, c));
    if NothingMissing(cur, NextCursor(v, cur, c), all) && Lives(c.order) > 0 {
      forall p: nat | cur < p < first ensures p in got || p in replay[..Replays(c.order)] {
        assert p in all;
      }
    }
  }

  /** So then what comes later does not help: nothing up to the last event id is missing iff on every
      connection that received a live message everything before that message had arrived by its end. */
  lemma {:induction false} FilledInTimeIff(v: Server, cur: nat, conns: seq<Connection>, got: set<nat>)
    requires PossibleRun(v, cur, conns) && UnshadowedRun(v, cur, conns)
    ensures NothingMissing(cur, FinalCursor(v, cur, conns), got + SetOf(Arrivals(v, cur, conns))) <==>
            FillsGaps(v, cur, conns, got)
    decreases |conns|
  {
    if conns != [] {
      var c, rest, next := conns[0], conns[1..], NextCursor(v, cur, conns[0]);
      var brought, later := Brought(v, cur, c), Arrivals(v, next, rest);
      var got' := got + SetOf(brought);
      FilledInTimeIff(v, next, rest, got');
      CompleteAfterOne(v, cur, c, got);
      CursorRises(v, next, rest);
      BroughtIsLater(v, cur, c);
      assert SetOf(brought + later) == SetOf(brought) + SetOf(later);
      assert got + SetOf(Arrivals(v, cur, conns)) == got' + SetOf(later);
      forall p: nat | p <= next ensures p !in later {
        SkippedForGood(v, next, rest, p);
      }
      hide Possible, Unshadowed, NextCursor, Brought, Arrivals, FillsGap;
      CompleteSplits(cur, next, FinalCursor(v, next, rest), got', SetOf(later));
    }
  }

  lemma CompleteSplits(a: nat, b: nat, c: nat, got: set<nat>, later: set<nat>)
    requires a <= b <= c && forall p: nat :: p <= b ==> p !in later
    ensures NothingMissing(a, c, got + later) <==> NothingMissing(a, b, got) && NothingMissing(b, c, got + later)
  {
    if NothingMissing(a, c, got + later) {
      forall p: nat | a < p <= b ensures p in got {
        assert p in got + later && p !in later;
      }
    }
  }

  // ---------- With timestamps in order ----------

  ghost predicate Increasing(stream: seq<Entry>) {
    forall i, j :: 0 <= i < j < |stream| ==> stream[i].time < stream[j].time
  }

  /** The messages of the stream were stored at increasing times. */
  ghost predicate Chronological(v: Server) {
    Increasing(Stream(v))
  }

  lemma {:induction false} SortedAlready(stream: seq<Entry>, from: nat, n: nat)
    requires from + n <= |stream| && Increasing(stream)
    ensures SortPlaces(stream, Range(from, n)) == Range(from, n)
    decreases n
  {
    if n > 0 {
      var rest := Range(from + 1, n - 1);
      assert Range(from, n)[1..] == rest && Range(from, n) == [from] + rest;
      hide InsertPlace, Range;
      SortedAlready(stream, from + 1, n - 1);
      StaysFirst(stream, from, rest);
    }
  }

  lemma StaysFirst(stream: seq<Entry>, k: nat, places: seq<nat>)
    requires k < |stream| && InStream(stream, places)
    requires forall i :: 0 <= i < |places| ==> stream[k].time <= stream[places[i]].time
    ensures InsertPlace(stream, k, places) == [k] + places
  {
  }

  /** The replay is then everything stored after the client's last event, as long as the store still
      holds that event, and nothing at all from then on. */
  lemma ReplayInOrder(v: Server, cur: nat, n: nat)
    requires Chronological(v) && n <= |v.log| && cur < |Stream(v)| && cur < Count(v, n)
    ensures Unshadowed(v, cur, n)
    ensures Replay(v, cur, n) == if Evicted(v, n) <= cur then Range(cur + 1, Count(v, n) - cur - 1) else []
  {
    CountIsMonotone(v, Oldest(v.limit, v.log[..n]), n);
    hide Stream, Evicted, Count, ReplayPlaces, Increasing;
    PlacesInOrder(Stream(v), Evicted(v, n), Count(v, n), cur);
  }

  lemma PlacesInOrder(stream: seq<Entry>, evicted: nat, stored: nat, cur: nat)
    requires Increasing(stream) && evicted <= stored <= |stream| && cur < stored
    ensures forall k: nat :: evicted <= k < cur ==> stream[k].time != stream[cur].time
    ensures ReplayPlaces(stream, evicted, stored, stream[cur].time) ==
            if evicted <= cur then Range(cur + 1, stored - cur - 1) else []
  {
    hide SortPlaces;
    var j := FirstWithTime(stream, evicted, stored, stream[cur].time);
    if evicted <= cur {
      assert j == cur;
      SortedAlready(stream, cur + 1, stored - cur - 1);
    } else {
      assert j == stored;
    }
  }

  function Max(a: nat, b: nat): nat {
    if a < b then b else a
  }

  /** Where the messages that have arrived without a gap end, once a connection's replay is counted. */
  function Frontier(cur: nat, upto: nat, c: Connection): nat {
    Max(upto, cur + 1 + Replays(c.order))
  }

  /** If any message is live, the first of them comes no later than where the messages so far reach. */
  ghost predicate KeepsUpOne(v: Server, cur: nat, upto: nat, c: Connection)
    requires c.first <= |v.log|
  {
    Lives(c.order) > 0 ==> Count(v, c.first) <= Frontier(cur, upto, c)
  }

  function NextFrontier(v: Server, cur: nat, upto: nat, c: Connection): nat
    requires c.first <= |v.log|
  {
    var reached := Frontier(cur, upto, c);
    if Lives(c.order) > 0 then Max(reached, Count(v, c.first) + Lives(c.order)) else reached
  }

  ghost predicate KeepsUp(v: Server, cur: nat, upto: nat, conns: seq<Connection>)
    requires PossibleRun(v, cur, conns)
    decreases |conns|
  {
    conns == [] ||
    var c := conns[0];
    KeepsUpOne(v, cur, upto, c) && KeepsUp(v, NextCursor(v, cur, c), NextFrontier(v, cur, upto, c), conns[1..])
  }

  /** `got` holds, of the places after `cur`, exactly those before `upto`. */
  ghost predicate Reaches(cur: nat, upto: nat, got: set<nat>) {
    forall p: nat :: cur < p ==> (p in got <==> p < upto)
  }

  lemma ReachesAfter(v: Server, cur: nat, upto: nat, c: Connection, got: set<nat>)
    requires Chronological(v) && Possible(v, cur, c) && Reaches(cur, upto, got) && cur < upto
    ensures FillsGap(v, cur, c, got) <==> KeepsUpOne(v, cur, upto, c)
    ensures KeepsUpOne(v, cur, upto, c) ==>
              && NextCursor(v, cur, c) < NextFrontier(v, cur, upto, c)
              && Reaches(NextCursor(v, cur, c), NextFrontier(v, cur, upto, c), got + SetOf(Brought(v, cur, c)))
  {
    BroughtInOrder(v, cur, c);
    hide Stream, Count, Replay, Max, Brought, Reaches, Lives;
    var replayed := Replay(v, cur, c.read)[..Replays(c.order)];
    FillsUpTo(cur, upto, got, Count(v, c.first), replayed);
    Extends(cur, upto, got, Count(v, c.first), |replayed|, Lives(c.order), SetOf(Brought(v, cur, c)));
  }

  lemma BroughtInOrder(v: Server, cur: nat, c: Connection)
    requires Chronological(v) && Possible(v, cur, c)
    ensures forall p: nat :: p in Replay(v, cur, c.read)[..Replays(c.order)] <==> cur < p < cur + 1 + Replays(c.order)
    ensures forall p: nat :: p in SetOf(Brought(v, cur, c)) <==>
                               || cur < p < cur + 1 + Replays(c.order)
                               || Count(v, c.first) <= p < Count(v, c.first) + Lives(c.order)
  {
    ReplayedInOrder(v, cur, c);
    hide Chronological, Stream, Count, Replay, Brought, Lives, Range, Replays;
    RangeHolds(cur + 1, Replays(c.order));
    RangeHolds(Count(v, c.first), Lives(c.order));
    forall p: nat
      ensures p in Brought(v, cur, c) <==>
              || cur < p < cur + 1 + Replays(c.order)
              || Count(v, c.first) <= p < Count(v, c.first) + Lives(c.order)
    {
      BroughtAre(v, cur, c, p);
    }
  }

  lemma ReplayedInOrder(v: Server, cur: nat, c: Connection)
    requires Chronological(v) && Possible(v, cur, c)
    ensures Replay(v, cur, c.read)[..Replays(c.order)] == Range(cur + 1, Replays(c.order))
  {
    ReplayInOrder(v, cur, c.read);
    hide Chronological, Stream, Count, Replay, Evicted, Unshadowed, Lives;
  }

  lemma FillsUpTo(cur: nat, upto: nat, got: set<nat>, first: nat, replayed: seq<nat>)
    requires Reaches(cur, upto, got) && cur < upto && cur < first
    requires forall p: nat :: p in replayed <==> cur < p < cur + 1 + |replayed|
    ensures (forall p: nat :: cur < p < first ==> p in got || p in replayed) <==>
            first <= Max(upto, cur + 1 + |replayed|)
  {
    if forall p: nat :: cur < p < first ==> p in got || p in replayed {
      assert cur < first - 1 ==> first - 1 in got || first - 1 in replayed;
    }
  }

  lemma Extends(cur: nat, upto: nat, got: set<nat>, first: nat, r: nat, y: nat, brought: set<nat>)
    requires Reaches(cur, upto, got) && cur < upto && cur < first
    requires forall p: nat :: p in brought <==> cur < p < cur + 1 + r || first <= p < first + y
    ensures var reached := Max(upto, cur + 1 + r);
            && (y == 0 ==> Reaches(cur, reached, got + brought) && cur < reached)
            && (y > 0 && first <= reached ==>
                  && first + y - 1 < Max(reached, first + y)
                  && Reaches(first + y - 1, Max(reached, first + y), got + brought))
  {
  }

  lemma {:induction false} UnshadowedInOrder(v: Server, cur: nat, conns: seq<Connection>)
    requires Chronological(v) && PossibleRun(v, cur, conns)
    ensures UnshadowedRun(v, cur, conns)
    decreases |conns|
  {
    if conns != [] {
      ReplayInOrder(v, cur, conns[0].read);
      UnshadowedInOrder(v, NextCursor(v, cur, conns[0]), conns[1..]);
    }
  }

  /** When messages are stored in order: no gap iff every connection keeps up. Which connections do can
      be read off how far the replay got before the first live message. */
  lemma {:induction false} NoGapsInOrderIff(v: Server, cur: nat, upto: nat, conns: seq<Connection>, got: set<nat>)
    requires Chronological(v) && PossibleRun(v, cur, conns) && Reaches(cur, upto, got) && cur < upto
    ensures FillsGaps(v, cur, conns, got) <==> KeepsUp(v, cur, upto, conns)
    decreases |conns|
  {
    hide *;
    UnfoldGaps(v, cur, upto, conns, got);
    if conns != [] {
      Unfold(v, cur, conns);
      var c := conns[0];
      ReachesAfter(v, cur, upto, c, got);
      if KeepsUpOne(v, cur, upto, c) {
        NoGapsInOrderIff(v, NextCursor(v, cur, c), NextFrontier(v, cur, upto, c), conns[1..],
                         got + SetOf(Brought(v, cur, c)));
      }
    }
  }

  lemma UnfoldGaps(v: Server, cur: nat, upto: nat, conns: seq<Connection>, got: set<nat>)
    requires PossibleRun(v, cur, conns)
    ensures conns == [] ==> FillsGaps(v, cur, conns, got) && KeepsUp(v, cur, upto, conns)
    ensures conns != [] ==>
              var c := conns[0];
              && Possible(v, cur, c) && PossibleRun(v, NextCursor(v, cur, c), conns[1..])
              && (FillsGaps(v, cur, conns, got) <==>
                  && FillsGap(v, cur, c, got)
                  && FillsGaps(v, NextCursor(v, cur, c), conns[1..], got + SetOf(Brought(v, cur, c))))
              && (KeepsUp(v, cur, upto, conns) <==>
                  && KeepsUpOne(v, cur, upto, c)
                  && KeepsUp(v, NextCursor(v, cur, c), NextFrontier(v, cur, upto, c), conns[1..]))
  {
    hide FillsGap, Brought, KeepsUpOne, NextFrontier, Count, Replay, Stream, Lives;
  }

  /** So for a client that starts with the event at place `cur`: nothing up to its last event id is
      missing in the end iff every connection keeps up. */
  lemma NothingSkippedIff(v: Server, cur: nat, conns: seq<Connection>)
    requires Chronological(v) && PossibleRun(v, cur, conns)
    ensures NothingMissing(cur, FinalCursor(v, cur, conns), SetOf(Arrivals(v, cur, conns))) <==>
            KeepsUp(v, cur, cur + 1, conns)
  {
    UnshadowedInOrder(v, cur, conns);
    hide Chronological, PossibleRun, FinalCursor, Arrivals, KeepsUp, UnshadowedRun;
    var none: set<nat> := {};
    FilledInTimeIff(v, cur, conns, none);
    NoGapsInOrderIff(v, cur, cur + 1, conns, none);
    assert none + SetOf(Arrivals(v, cur, conns)) == SetOf(Arrivals(v, cur, conns));
  }

  // ---------- When every message arrives exactly once ----------

  /** How many replayed messages come before the first live one. */
  function Leading(order: seq<bool>): (u: nat)
    ensures u <= |order| && (forall i :: 0 <= i < u ==> !order[i]) && (u < |order| ==> order[u])
  {
    if order == [] || order[0] then 0
    else
      var u := 1 + Leading(order[1..]);
      assert forall i :: 0 < i < u ==> order[i] == order[1..][i - 1];
      u
  }

  /** The client, which next expects place `a`, is sent the next messages: replayed ones from `a` on,
      then the live ones without interruption, starting where those ended, then again replayed ones
      that follow on the live ones. */
  ghost predicate Orderly(a: nat, replay: seq<nat>, first: nat, order: seq<bool>)
    requires Replays(order) <= |replay|
  {
    var u, y := Leading(order), Lives(order);
    && (y > 0 ==> first == a + u && forall i :: 0 <= i < |order| ==> (order[i] <==> u <= i < u + y))
    && (forall i :: 0 <= i < u && i < Replays(order) ==> replay[i] == a + i)
    && (forall i :: u <= i < Replays(order) ==> replay[i] == a + y + i)
  }

  lemma {:induction false} NoLivesYet(order: seq<bool>, i: nat)
    requires i <= Leading(order)
    ensures Lives(order[..i]) == 0
  {
    if i > 0 {
      NoLivesYet(order, i - 1);
      assert order[..i][..i - 1] == order[..i - 1];
    }
  }

  /** In a block of live messages. */
  lemma {:induction false} LivesInBlock(order: seq<bool>, u: nat, y: nat, i: nat)
    requires i <= |order| && forall k :: 0 <= k < |order| ==> (order[k] <==> u <= k < u + y)
    ensures Lives(order[..i]) == if i <= u then 0 else if i <= u + y then i - u else y
  {
    if i > 0 {
      LivesInBlock(order, u, y, i - 1);
      assert order[..i][..i - 1] == order[..i - 1];
    }
  }

  lemma LeadingIsReplays(order: seq<bool>)
    requires Lives(order) == 0
    ensures Leading(order) == |order|
  {
    var u := Leading(order);
    if u < |order| {
      LiveCounts(order, u);
    }
  }

  lemma {:induction false} LiveCounts(order: seq<bool>, i: nat)
    requires i < |order| && order[i]
    ensures Lives(order[..i]) < Lives(order)
  {
    var front := order[..|order| - 1];
    if i < |front| {
      LiveCounts(front, i);
      assert front[..i] == order[..i];
    }
  }

  lemma OrderlyIsInterleaved(a: nat, replay: seq<nat>, first: nat, order: seq<bool>)
    requires Replays(order) <= |replay| && Orderly(a, replay, first, order)
    ensures Interleaved(replay, first, order) == Range(a, |order|)
  {
    var u, y := Leading(order), Lives(order);
    if y == 0 {
      LeadingIsReplays(order);
    }
    forall i | 0 <= i < |order| ensures Interleaved(replay, first, order)[i] == a + i {
      InterleavedAt(replay, first, order, i);
      if i <= u {
        NoLivesYet(order, i);
      } else {
        LivesInBlock(order, u, y, i);
      }
    }
  }

  /** Live messages that arrive in their places are one block. */
  lemma {:induction false} LivesMakeABlock(a: nat, replay: seq<nat>, first: nat, order: seq<bool>, n: nat)
    requires Replays(order) <= |replay| && n <= |order|
    requires Interleaved(replay, first, order) == Range(a, |order|)
    ensures var u := Leading(order);
            forall i :: 0 <= i < n && order[i] ==> first == a + u && u <= i && i - u == Lives(order[..i])
    decreases n
  {
    hide Interleaved, Lives;
    if n > 0 {
      LivesMakeABlock(a, replay, first, order, n - 1);
      if order[n - 1] {
        InterleavedAt(replay, first, order, n - 1);
        var u := Leading(order);
        InterleavedAt(replay, first, order, u);
        NoLivesYet(order, u);
      }
    }
  }

  lemma {:induction false} BlockIsFull(order: seq<bool>, u: nat, n: nat)
    requires n <= |order| && forall i :: 0 <= i < n && order[i] ==> u <= i && i - u == Lives(order[..i])
    ensures Lives(order[..n]) == 0 || u + Lives(order[..n]) <= n
    ensures forall i :: 0 <= i < n ==> (order[i] <==> u <= i < u + Lives(order[..n]))
    decreases n
  {
    if n > 0 {
      BlockIsFull(order, u, n - 1);
      assert order[..n][..n - 1] == order[..n - 1];
    }
  }

  /** What a connection brings is the next messages, in order, iff it is orderly. */
  lemma OrderlyIff(a: nat, replay: seq<nat>, first: nat, order: seq<bool>)
    requires Replays(order) <= |replay|
    ensures Interleaved(replay, first, order) == Range(a, |order|) <==> Orderly(a, replay, first, order)
  {
    if Orderly(a, replay, first, order) {
      OrderlyIsInterleaved(a, replay, first, order);
    }
    if Interleaved(replay, first, order) == Range(a, |order|) {
      InterleavedIsOrderly(a, replay, first, order);
    }
  }

  lemma InterleavedIsOrderly(a: nat, replay: seq<nat>, first: nat, order: seq<bool>)
    requires Replays(order) <= |replay| && Interleaved(replay, first, order) == Range(a, |order|)
    ensures Orderly(a, replay, first, order)
  {
    var u, y := Leading(order), Lives(order);
    LivesMakeABlock(a, replay, first, order, |order|);
    BlockIsFull(order, u, |order|);
    assert order[..|order|] == order;
    if y == 0 {
      LeadingIsReplays(order);
    } else if u == |order| {
      NoLivesYet(order, u);
    }
    hide Interleaved, Range, Lives;
    forall i | 0 <= i < Replays(order) ensures replay[i] == if i < u then a + i else a + y + i {
      ReplayedAt(a, replay, first, order, u, i);
    }
  }

  lemma ReplayedAt(a: nat, replay: seq<nat>, first: nat, order: seq<bool>, u: nat, i: nat)
    requires i < Replays(order) <= |replay| && Interleaved(replay, first, order) == Range(a, |order|)
    requires forall k :: 0 <= k < |order| ==> (order[k] <==> u <= k < u + Lives(order))
    requires Lives(order) > 0 ==> u < |order|
    ensures replay[i] == if i < u then a + i else a + Lives(order) + i
  {
    hide Interleaved;
    var at := if i < u then i else i + Lives(order);
    InterleavedAt(replay, first, order, at);
    LivesInBlock(order, u, Lives(order), at);
  }

  ghost predicate OrderlyOne(v: Server, cur: nat, a: nat, c: Connection)
    requires Possible(v, cur, c)
  {
    Orderly(a, Replay(v, cur, c.read), Count(v, c.first), c.order)
  }

  ghost predicate OrderlyRun(v: Server, cur: nat, a: nat, conns: seq<Connection>)
    requires PossibleRun(v, cur, conns)
    decreases |conns|
  {
    conns == [] ||
    (OrderlyOne(v, cur, a, conns[0]) && OrderlyRun(v, NextCursor(v, cur, conns[0]), a + |conns[0].order|, conns[1..]))
  }

  lemma OrderlyOneIff(v: Server, cur: nat, a: nat, c: Connection)
    requires Possible(v, cur, c)
    ensures |Brought(v, cur, c)| == |c.order|
    ensures Brought(v, cur, c) == Range(a, |c.order|) <==> OrderlyOne(v, cur, a, c)
  {
    hide Orderly, Interleaved, Replay, Count, Stream, Range, Lives;
    OrderlyIff(a, Replay(v, cur, c.read), Count(v, c.first), c.order);
  }

  lemma RangeSplits(from: nat, a: seq<nat>, b: seq<nat>)
    ensures a + b == Range(from, |a| + |b|) <==> a == Range(from, |a|) && b == Range(from + |a|, |b|)
  {
    var all := a + b;
    if all == Range(from, |a| + |b|) {
      forall i | 0 <= i < |a| ensures a[i] == from + i {
        assert all[i] == a[i];
      }
      forall i | 0 <= i < |b| ensures b[i] == from + |a| + i {
        assert all[|a| + i] == b[i];
      }
    }
  }

  /** Over any run of connections, with any timestamps and any interleaving: each message from place `a`
      on arrives exactly once and in order iff every connection is orderly. */
  lemma {:induction false} ExactlyOnceIff(v: Server, cur: nat, a: nat, conns: seq<Connection>)
    requires PossibleRun(v, cur, conns)
    ensures Arrivals(v, cur, conns) == Range(a, |Arrivals(v, cur, conns)|) <==> OrderlyRun(v, cur, a, conns)
    decreases |conns|
  {
    hide *;
    if conns == [] {
      NothingArrives(v, cur, a);
    } else {
      Unfold(v, cur, conns);
      UnfoldOrderly(v, cur, a, conns);
      var c, rest, next := conns[0], conns[1..], NextCursor(v, cur, conns[0]);
      ExactlyOnceIff(v, next, a + |c.order|, rest);
      OrderlyOneIff(v, cur, a, c);
      RangeSplits(a, Brought(v, cur, c), Arrivals(v, next, rest));
    }
  }

  lemma NothingArrives(v: Server, cur: nat, a: nat)
    ensures PossibleRun(v, cur, []) && Arrivals(v, cur, []) == [] == Range(a, 0) && OrderlyRun(v, cur, a, [])
    ensures FinalCursor(v, cur, []) == cur
  {
  }

  lemma UnfoldOrderly(v: Server, cur: nat, a: nat, conns: seq<Connection>)
    requires conns != [] && PossibleRun(v, cur, conns)
    ensures var next := NextCursor(v, cur, conns[0]);
            && Possible(v, cur, conns[0]) && PossibleRun(v, next, conns[1..])
            && (OrderlyRun(v, cur, a, conns) <==>
                OrderlyOne(v, cur, a, conns[0]) && OrderlyRun(v, next, a + |conns[0].order|, conns[1..]))
  {
    hide OrderlyOne, Possible;
  }

  /** With timestamps in order, a connection that finds the client up to date with its last event id
      brings the next messages iff, when any is live, the replay is finished before the live ones begin
      and the live ones begin where it ended. */
  lemma OrderlyInOrderIff(v: Server, cur: nat, c: Connection)
    requires Chronological(v) && Possible(v, cur, c)
    ensures OrderlyOne(v, cur, cur + 1, c) <==>
            Lives(c.order) == 0 ||
            (&& Count(v, c.first) == cur + 1 + Replays(c.order)
             && forall i :: 0 <= i < |c.order| ==> (c.order[i] <==> Replays(c.order) <= i))
  {
    ReplayInOrder(v, cur, c.read);
    hide Chronological, Stream, Count, Replay, Evicted, Unshadowed, Orderly, Lives;
    OrderlyFromNext(cur + 1, Replay(v, cur, c.read), Count(v, c.first), c.order);
  }

  lemma OrderlyFromNext(a: nat, replay: seq<nat>, first: nat, order: seq<bool>)
    requires Replays(order) <= |replay| && forall i :: 0 <= i < Replays(order) ==> replay[i] == a + i
    ensures Orderly(a, replay, first, order) <==>
            Lives(order) == 0 ||
            (&& first == a + Replays(order)
             && forall i :: 0 <= i < |order| ==> (order[i] <==> Replays(order) <= i))
  {
    hide Lives, Orderly;
    if Orderly(a, replay, first, order) && Lives(order) > 0 {
      ReplayComesFirst(a, replay, first, order);
    }
    if Lives(order) == 0 || (forall i :: 0 <= i < |order| ==> (order[i] <==> Replays(order) <= i)) {
      LeadingReplays(order);
      if Lives(order) == 0 || first == a + Replays(order) {
        OrderlyIfFirst(a, replay, first, order);
      }
    }
  }

  lemma ReplayComesFirst(a: nat, replay: seq<nat>, first: nat, order: seq<bool>)
    requires Replays(order) <= |replay| && forall i :: 0 <= i < Replays(order) ==> replay[i] == a + i
    requires Lives(order) > 0 && Orderly(a, replay, first, order)
    ensures first == a + Replays(order) && forall i :: 0 <= i < |order| ==> (order[i] <==> Replays(order) <= i)
  {
    var u := Leading(order);
    NoLivesYet(order, u);
    LivesAtMost(order, u);
    hide Lives, Leading;
    if Replays(order) > 0 {
      var k := if u < Replays(order) then u else 0;
      assert replay[k] == a + k;
    }
  }

  lemma LeadingReplays(order: seq<bool>)
    requires Lives(order) == 0 || forall i :: 0 <= i < |order| ==> (order[i] <==> Replays(order) <= i)
    ensures Leading(order) == Replays(order)
  {
    hide Lives, Leading;
    var u, r := Leading(order), Replays(order);
    if Lives(order) == 0 {
      LeadingIsReplays(order);
    } else {
      assert order[r] && u <= r;
      assert order[u];
    }
  }

  lemma OrderlyIfFirst(a: nat, replay: seq<nat>, first: nat, order: seq<bool>)
    requires Replays(order) <= |replay| && forall i :: 0 <= i < Replays(order) ==> replay[i] == a + i
    requires Leading(order) == Replays(order)
    requires Lives(order) == 0 ||
             (first == a + Replays(order) && forall i :: 0 <= i < |order| ==> (order[i] <==> Replays(order) <= i))
    ensures Orderly(a, replay, first, order)
  {
    hide Lives;
  }

  lemma {:induction false} LivesAtMost(order: seq<bool>, n: nat)
    requires n <= |order|
    ensures Lives(order) <= Lives(order[..n]) + (|order| - n)
  {
    if n < |order| {
      var front := order[..|order| - 1];
      LivesAtMost(front, n);
      assert front[..n] == order[..n];
    } else {
      assert order[..n] == order;
    }
  }

  // ---------- Runs that go wrong ----------

  /** The session has just this stream, and its messages were stored in order. */
  ghost predicate Plain(v: Server) {
    Chronological(v) && forall i :: 0 <= i < |v.log| ==> v.log[i].stream == v.stream
  }

  lemma {:induction false} AllOfStream(entries: seq<Entry>, stream: string)
    requires forall i :: 0 <= i < |entries| ==> entries[i].stream == stream
    ensures OfStream(entries, stream) == entries
  {
    if entries != [] {
      AllOfStream(entries[1..], stream);
      assert entries == [entries[0]] + entries[1..];
    }
  }

  lemma PlainCount(v: Server, n: nat)
    requires Plain(v) && n <= |v.log|
    ensures Stream(v) == v.log && Count(v, n) == n && Evicted(v, n) == Oldest(v.limit, v.log[..n])
  {
    hide OfStream;
    AllOfStream(v.log, v.stream);
    AllOfStream(v.log[..n], v.stream);
    var oldest := Oldest(v.limit, v.log[..n]);
    AllOfStream(v.log[..oldest], v.stream);
  }

  /** What one connection to such a stream can bring, and where it leaves the last event id. */
  lemma PlainConnection(v: Server, cur: nat, c: Connection)
    requires Plain(v) && cur < c.read <= |v.log| && cur < c.first <= c.end <= |v.log|
    requires Lives(c.order) <= c.end - c.first
    requires Replays(c.order) <= if Oldest(v.limit, v.log[..c.read]) <= cur then c.read - cur - 1 else 0
    ensures Possible(v, cur, c)
    ensures NextCursor(v, cur, c) == if Lives(c.order) == 0 then cur else c.first + Lives(c.order) - 1
    ensures forall i :: 0 <= i < |c.order| ==>
                          Brought(v, cur, c)[i] ==
                          if c.order[i] then c.first + Lives(c.order[..i]) else cur + 1 + Replays(c.order[..i])
  {
    PlainCount(v, c.read);
    PlainCount(v, c.first);
    PlainCount(v, c.end);
    ReplayInOrder(v, cur, c.read);
    hide Stream, Count, Evicted, Replay, Unshadowed, Plain, Oldest;
    var replay := Replay(v, cur, c.read);
    forall i | 0 <= i < |c.order|
      ensures Brought(v, cur, c)[i] ==
              if c.order[i] then c.first + Lives(c.order[..i]) else cur + 1 + Replays(c.order[..i])
    {
      InterleavedAt(replay, c.first, c.order, i);
    }
  }

  lemma OneArrival(v: Server, cur: nat, c: Connection)
    requires Possible(v, cur, c)
    ensures PossibleRun(v, cur, [c]) && Arrivals(v, cur, [c]) == Brought(v, cur, c)
    ensures FinalCursor(v, cur, [c]) == NextCursor(v, cur, c)
  {
    assert c.first <= |v.log|;
    hide Possible, Brought, NextCursor;
    assert [c][1..] == [];
    NothingArrives(v, NextCursor(v, cur, c), 0);
    assert Brought(v, cur, c) + [] == Brought(v, cur, c);
  }

  lemma LiveAlone()
    ensures Lives([true]) == 1 && Lives([false]) == 0 && Lives([true, false]) == 1
    ensures [true][..0] == [] && [true, false][..0] == [] && [true, false][..1] == [true] && [false][..0] == []
  {
    assert [true, false][..1] == [true] && [true][..0] == [] && [false][..0] == [];
  }

  /** Eviction: as many messages were stored during the break as the store holds, so that it still holds
      all of them, but no longer the client's last event. It finds nothing to replay; the first live
      message moves the last event id past them. */
  lemma EvictedReplaySkips(v: Server)
    requires Plain(v) && 0 < v.limit && |v.log| == v.limit + 2
    ensures var c := Connection(v.limit + 1, v.limit + 1, v.limit + 2, [true]);
            && v.log[1..v.limit + 1] == Retained(v.limit, v.log[..v.limit + 1])
            && PossibleRun(v, 0, [c]) && Arrivals(v, 0, [c]) == [v.limit + 1]
            && !NothingMissing(0, FinalCursor(v, 0, [c]), SetOf(Arrivals(v, 0, [c])))
  {
    var n := v.limit + 1;
    var c := Connection(n, n, n + 1, [true]);
    RetainedIsLast(v.limit, v.log[..n]);
    assert v.log[..n][1..] == v.log[1..n];
    LiveAlone();
    PlainConnection(v, 0, c);
    OneArrival(v, 0, c);
    hide Plain, Possible, PossibleRun, Brought, Arrivals, NextCursor, Retained;
    assert Brought(v, 0, c) == [n];
    assert 1 !in SetOf(Arrivals(v, 0, [c]));
  }

  /** Overtaking: the message at place 1 was to be replayed, but a live message was written first and the
      connection broke there. Whatever connections follow, that message never arrives. */
  lemma OvertakenReplaySkips(v: Server, more: seq<Connection>)
    requires Plain(v) && v.limit == 0 && 3 <= |v.log|
    requires PossibleRun(v, 2, more)
    ensures var c := Connection(2, 2, 3, [true]);
            && Replay(v, 0, 2) == [1]
            && PossibleRun(v, 0, [c] + more)
            && Arrivals(v, 0, [c] + more) == [2] + Arrivals(v, 2, more) && 1 !in Arrivals(v, 0, [c] + more)
  {
    var c := Connection(2, 2, 3, [true]);
    Overtaken(v);
    UnshadowedInOrder(v, 2, more);
    assert ([c] + more)[1..] == more;
    SkippedForGood(v, 2, more, 1);
    hide Plain, Possible, Brought, NextCursor, Replay, UnshadowedRun;
    assert PossibleRun(v, 0, [c] + more);
    Unfold(v, 0, [c] + more);
  }

  lemma Overtaken(v: Server)
    requires Plain(v) && v.limit == 0 && 3 <= |v.log|
    ensures var c := Connection(2, 2, 3, [true]);
            && |Stream(v)| >= 3 && Replay(v, 0, 2) == [1]
            && Possible(v, 0, c) && Brought(v, 0, c) == [2] && NextCursor(v, 0, c) == 2
  {
    var c := Connection(2, 2, 3, [true]);
    LiveAlone();
    PlainConnection(v, 0, c);
    PlainCount(v, 2);
    ReplayInOrder(v, 0, 2);
    hide Plain, Chronological, Possible, Brought, NextCursor, Replay, Stream, Count, Evicted, Unshadowed;
    assert Brought(v, 0, c) == [2] && Range(1, 1) == [1];
  }

  /** A message stored before the replay was looked up, but written live as well, arrives twice. */
  lemma LiveAndReplayed(v: Server)
    requires Plain(v) && v.limit == 0 && 2 <= |v.log|
    ensures var c := Connection(2, 1, 2, [true, false]);
            PossibleRun(v, 0, [c]) && Arrivals(v, 0, [c]) == [1, 1] && !OrderlyRun(v, 0, 1, [c])
  {
    var c := Connection(2, 1, 2, [true, false]);
    LiveAlone();
    PlainConnection(v, 0, c);
    OneArrival(v, 0, c);
    hide Plain, Possible, PossibleRun, Brought, Arrivals, NextCursor, OrderlyRun;
    assert Brought(v, 0, c) == [1, 1];
    ExactlyOnceIff(v, 0, 1, [c]);
    assert Range(1, 2)[1] == 2;
  }

  /** A connection that breaks during its replay leaves the last event id where it was, and the next one
      replays the same messages again. */
  lemma BrokenReplayRepeats(v: Server)
    requires Plain(v) && v.limit == 0 && 2 <= |v.log|
    ensures var c := Connection(2, 2, 2, [false]);
            PossibleRun(v, 0, [c, c]) && Arrivals(v, 0, [c, c]) == [1, 1] && !OrderlyRun(v, 0, 1, [c, c])
  {
    var c := Connection(2, 2, 2, [false]);
    LiveAlone();
    PlainConnection(v, 0, c);
    OneArrival(v, 0, c);
    hide Plain, Possible, Brought, NextCursor, OrderlyRun;
    assert Brought(v, 0, c) == [1];
    assert [c, c][1..] == [c];
    assert PossibleRun(v, 0, [c, c]);
    Unfold(v, 0, [c, c]);
    hide PossibleRun, Arrivals;
    ExactlyOnceIff(v, 0, 1, [c, c]);
    assert Range(1, 2)[1] == 2;
  }

  // ---------- On the wire ----------

  function EntryId(session: string, e: Entry): string {
    EventId(session, e.stream, e.time)
  }

  /** The messages at these places as they are written: the live ones with their ids. */
  function Items(session: string, stream: seq<Entry>, places: seq<nat>, order: seq<bool>): seq<Outgoing>
    requires |places| == |order| && InStream(stream, places)
  {
    seq(|places|, i requires 0 <= i < |places| =>
      Outgoing(if order[i] then Some(EntryId(session, stream[places[i]])) else None, stream[places[i]].message))
  }

  lemma {:induction false} PayloadsSnoc(outs: seq<Outgoing>, o: Outgoing)
    ensures Payloads(outs + [o]) == Payloads(outs) + [o.payload]
    ensures EventsFor(outs + [o]) == EventsFor(outs) + [SseEvent(None, Some(o.payload + [NEWLINE]), o.id, None)]
  {
    if outs == [] {
      assert [] + [o] == [o] && [o][1..] == [];
    } else {
      assert (outs + [o])[1..] == outs[1..] + [o];
      PayloadsSnoc(outs[1..], o);
      var p := outs[0].payload;
      assert [p] + (Payloads(outs[1..]) + [o.payload]) == ([p] + Payloads(outs[1..])) + [o.payload];
    }
  }

  /** The payloads received, and the id that the client knows after taking their events. */
  lemma {:induction false} TakeItems(client: Standalone, session: string, stream: seq<Entry>, replay: seq<nat>,
                                     first: nat, order: seq<bool>)
    requires Replays(order) <= |replay| && first + Lives(order) <= |stream|
    requires InStream(stream, Interleaved(replay, first, order))
    ensures var places := Interleaved(replay, first, order);
            var outs := Items(session, stream, places, order);
            && Payloads(outs) == MessagesAt(stream, places)
            && TakeAll(client, EventsFor(outs)).lastId ==
               if Lives(order) > 0 then Some(EntryId(session, stream[first + Lives(order) - 1])) else client.lastId
  {
    if order == [] {
    } else {
      var n := |order| - 1;
      var front, places := order[..n], Interleaved(replay, first, order);
      assert places[..n] == Interleaved(replay, first, front);
      TakeItems(client, session, stream, replay, first, front);
      hide EntryId, Payloads, EventsFor, Items, MessagesAt, TakeAll;
      var outs, e := Items(session, stream, places[..n], front), stream[places[n]];
      var o := Outgoing(if order[n] then Some(EntryId(session, e)) else None, e.message);
      ItemsSnoc(session, stream, places, order);
      PayloadsSnoc(outs, o);
      TakeLast(client, EventsFor(outs), SseEvent(None, Some(o.payload + [NEWLINE]), o.id, None));
    }
  }

  lemma ItemsSnoc(session: string, stream: seq<Entry>, places: seq<nat>, order: seq<bool>)
    requires |places| == |order| > 0 && InStream(stream, places)
    ensures var n := |order| - 1;
            var e := stream[places[n]];
            && Items(session, stream, places, order) ==
               Items(session, stream, places[..n], order[..n]) +
               [Outgoing(if order[n] then Some(EntryId(session, e)) else None, e.message)]
            && MessagesAt(stream, places) == MessagesAt(stream, places[..n]) + [e.message]
  {
    hide EntryId;
  }

  lemma TakeLast(client: Standalone, events: seq<SseEvent>, e: SseEvent)
    requires e.data.Some?
    ensures TakeAll(client, events + [e]).lastId == if e.id.Some? then e.id else TakeAll(client, events).lastId
  {
    assert (events + [e])[..|events|] == events;
  }

  predicate Rested(buffer: string) {
    buffer == [] || buffer == [NEWLINE]
  }

  /** A parser at rest between two events reads a response to its end and rests again. */
  lemma RestedReads(buffer: string, outs: seq<Outgoing>, max: nat, body: seq<string>)
    requires Rested(buffer) && Servable(outs, true, max)
    requires Flatten(body) == ResponseBody(Frames(Tags(outs)), true)
    ensures Feed(buffer, body).0 == EventsFor(Loud(outs)) && Rested(Feed(buffer, body).1)
  {
    var es := RelayAll(Tags(outs), true);
    RestIsFixed(buffer);
    FeedAfter(buffer, body);
    BodyIsFormatted(outs, true, max);
    RelayTags(outs, true, max);
    hide ResponseBody, FormatAll, RelayAll, CompleteLines, PushAll, Feed, Servable, Clean;
    var current := CompleteLines(buffer).0;
    ParseFormatted(current, es);
    var (lines, tail) := CompleteLines(FormatAll(es));
    LinesAppend(buffer, FormatAll(es));
    PushAllAppend([], current, lines);
    assert [] + FormatAll(es) == FormatAll(es);
    assert [] + PushAll(current, lines).0 == PushAll(current, lines).0;
    RestedAgain(PushAll(current, lines).1);
  }

  lemma RestedAgain(current: seq<string>)
    requires Between(current)
    ensures Rested(Flatten(current) + [])
  {
    FlattenOne([NEWLINE]);
    assert Flatten(current) + [] == Flatten(current);
  }

  lemma RestIsFixed(buffer: string)
    requires Rested(buffer)
    ensures Process(buffer) == ([], buffer)
    ensures CompleteLines(buffer).1 == [] && Between(CompleteLines(buffer).0)
    ensures PushAll([], CompleteLines(buffer).0) == ([], CompleteLines(buffer).0)
  {
    NoLines([]);
    BlankIsComplete();
    assert [NEWLINE] + [] == [NEWLINE];
    LineFirst([NEWLINE], []);
    hide Complete, CompleteLines;
    var current := CompleteLines(buffer).0;
    if buffer == [] {
      assert current == [] && Flatten(current) + [] == [];
    } else {
      assert current == [[NEWLINE]] by { assert [[NEWLINE]] + [] == [[NEWLINE]]; }
      FlattenOne([NEWLINE]);
      RepushOpen(current, 0);
      assert current[..0] == [] && current[0..] == current;
      assert [NEWLINE] + [] == [NEWLINE];
    }
  }

  /** What a connection wrote before it broke between two events, with any keep-alives, and the chunks
      in which that was read. */
  datatype Wire = Wire(outs: seq<Outgoing>, chunks: seq<string>)

  ghost predicate WiredOne(v: Server, session: string, cur: nat, c: Connection, wire: Wire, max: nat)
    requires Possible(v, cur, c)
  {
    && InStream(Stream(v), Brought(v, cur, c))
    && Servable(wire.outs, true, max)
    && Loud(wire.outs) == Items(session, Stream(v), Brought(v, cur, c), c.order)
    && Flatten(wire.chunks) == ResponseBody(Frames(Tags(wire.outs)), true)
  }

  ghost predicate Wired(v: Server, session: string, cur: nat, conns: seq<Connection>, wires: seq<Wire>, max: nat)
    requires PossibleRun(v, cur, conns)
    decreases |conns|
  {
    && |wires| == |conns|
    && (conns != [] ==>
          && WiredOne(v, session, cur, conns[0], wires[0], max)
          && Wired(v, session, NextCursor(v, cur, conns[0]), conns[1..], wires[1..], max))
  }

  function TakeConnections(client: Standalone, wires: seq<Wire>): Standalone
    decreases |wires|
  {
    if wires == [] then client else TakeConnections(TakeChunks(client, wires[0].chunks), wires[1..])
  }

  lemma UnfoldWired(v: Server, session: string, cur: nat, conns: seq<Connection>, wires: seq<Wire>, max: nat)
    requires conns != [] && PossibleRun(v, cur, conns) && Wired(v, session, cur, conns, wires, max)
    ensures |wires| == |conns| && conns[0].first <= |v.log| && Possible(v, cur, conns[0])
    ensures WiredOne(v, session, cur, conns[0], wires[0], max)
    ensures var next := NextCursor(v, cur, conns[0]);
            PossibleRun(v, next, conns[1..]) && Wired(v, session, next, conns[1..], wires[1..], max)
  {
    hide WiredOne, Count, Replay, Stream, Lives;
  }

  /** The places that a connection brings are in the stream: what `WiredOne` starts with is no demand. */
  lemma BroughtInStream(v: Server, cur: nat, c: Connection)
    requires Possible(v, cur, c)
    ensures InStream(Stream(v), Brought(v, cur, c))
    ensures NextCursor(v, cur, c) < |Stream(v)|
  {
    ReplayComesFromStore(v, cur, c.read);
    CountIsMonotone(v, c.end, |v.log|);
    hide Stream, Count, Replay;
    var replay, first := Replay(v, cur, c.read), Count(v, c.first);
    forall i | 0 <= i < |c.order| ensures Interleaved(replay, first, c.order)[i] < |Stream(v)| {
      InterleavedAt(replay, first, c.order, i);
    }
  }

  /** One connection, at the client. */
  lemma TakeOne(client: Standalone, session: string, v: Server, cur: nat, c: Connection, wire: Wire, max: nat)
    requires Possible(v, cur, c) && Rested(client.buffer) && WiredOne(v, session, cur, c, wire, max)
    requires client.lastId == Some(EntryId(session, Stream(v)[cur]))
    ensures NextCursor(v, cur, c) < |Stream(v)| && InStream(Stream(v), Brought(v, cur, c))
    ensures var after := TakeChunks(client, wire.chunks);
            && Rested(after.buffer)
            && after.sent == client.sent + Frames(MessagesAt(Stream(v), Brought(v, cur, c)))
            && after.lastId == Some(EntryId(session, Stream(v)[NextCursor(v, cur, c)]))
  {
    hide *;
    WiredIs(v, session, cur, c, wire, max);
    TakeRested(client, wire, max);
    TakeItems(client, session, Stream(v), Replay(v, cur, c.read), Count(v, c.first), c.order);
  }

  /** The parts of `WiredOne`. */
  lemma WiredIs(v: Server, session: string, cur: nat, c: Connection, wire: Wire, max: nat)
    requires Possible(v, cur, c) && WiredOne(v, session, cur, c, wire, max)
    ensures c.read <= |v.log| && c.first <= |v.log| && cur < |Stream(v)| && NextCursor(v, cur, c) < |Stream(v)|
    ensures NextCursor(v, cur, c) == if Lives(c.order) > 0 then Count(v, c.first) + Lives(c.order) - 1 else cur
    ensures Replays(c.order) <= |Replay(v, cur, c.read)| && Count(v, c.first) + Lives(c.order) <= |Stream(v)|
    ensures Brought(v, cur, c) == Interleaved(Replay(v, cur, c.read), Count(v, c.first), c.order)
    ensures InStream(Stream(v), Brought(v, cur, c))
    ensures Servable(wire.outs, true, max) && Flatten(wire.chunks) == ResponseBody(Frames(Tags(wire.outs)), true)
    ensures Loud(wire.outs) == Items(session, Stream(v), Brought(v, cur, c), c.order)
  {
    BroughtInStream(v, cur, c);
    hide Stream, Count, Replay, ResponseBody, Servable, Items, Loud, Interleaved, InStream, Lives;
  }

  lemma TakeRested(client: Standalone, wire: Wire, max: nat)
    requires Rested(client.buffer) && Servable(wire.outs, true, max)
    requires Flatten(wire.chunks) == ResponseBody(Frames(Tags(wire.outs)), true)
    ensures var after := TakeChunks(client, wire.chunks);
            && Rested(after.buffer)
            && after.sent == client.sent + Frames(Payloads(Loud(wire.outs)))
            && after.lastId == TakeAll(client, EventsFor(Loud(wire.outs))).lastId
  {
    hide Rested, Servable, ResponseBody, Frames, Payloads, Loud, Feed, TakeAll, EventsFor, DataOf;
    RestedReads(client.buffer, wire.outs, max, wire.chunks);
    SentIsData(client, EventsFor(Loud(wire.outs)));
    DataOfEvents(Loud(wire.outs));
  }

  /** For every run of connections that break between events, in any interleaving of replay and live
      messages and with any keep-alives: the client passes on exactly the messages of `Arrivals`, and the
      id it presents next is that of the last live message it received. */
  lemma {:induction false} ManyConnections(client: Standalone, session: string, v: Server, cur: nat,
                                           conns: seq<Connection>, wires: seq<Wire>, max: nat)
    requires PossibleRun(v, cur, conns) && cur < |Stream(v)| && Wired(v, session, cur, conns, wires, max)
    requires Rested(client.buffer) && client.lastId == Some(EntryId(session, Stream(v)[cur]))
    ensures InStream(Stream(v), Arrivals(v, cur, conns)) && FinalCursor(v, cur, conns) < |Stream(v)|
    ensures var after := TakeConnections(client, wires);
            && after.sent == client.sent + Frames(MessagesAt(Stream(v), Arrivals(v, cur, conns)))
            && after.lastId == Some(EntryId(session, Stream(v)[FinalCursor(v, cur, conns)]))
            && Rested(after.buffer)
    decreases |conns|
  {
    hide *;
    if conns == [] {
      NothingArrives(v, cur, 0);
      NothingTaken(v, session, cur, client, wires, max);
    } else {
      Unfold(v, cur, conns);
      UnfoldWired(v, session, cur, conns, wires, max);
      UnfoldTaken(client, wires);
      var c, rest, next := conns[0], conns[1..], NextCursor(v, cur, conns[0]);
      TakeOne(client, session, v, cur, c, wires[0], max);
      ManyConnections(TakeChunks(client, wires[0].chunks), session, v, next, rest, wires[1..], max);
      JoinArrivals(Stream(v), client.sent, Brought(v, cur, c), Arrivals(v, next, rest));
    }
  }

  lemma UnfoldTaken(client: Standalone, wires: seq<Wire>)
    requires wires != []
    ensures TakeConnections(client, wires) == TakeConnections(TakeChunks(client, wires[0].chunks), wires[1..])
  {
    hide TakeChunks;
  }

  lemma NothingTaken(v: Server, session: string, cur: nat, client: Standalone, wires: seq<Wire>, max: nat)
    requires PossibleRun(v, cur, []) && Wired(v, session, cur, [], wires, max)
    ensures TakeConnections(client, wires) == client
    ensures InStream(Stream(v), []) && client.sent + Frames(MessagesAt(Stream(v), [])) == client.sent
  {
    assert wires == [];
    assert MessagesAt(Stream(v), []) == [];
    assert client.sent + [] == client.sent;
  }

  lemma JoinArrivals(stream: seq<Entry>, sent: string, a: seq<nat>, b: seq<nat>)
    requires InStream(stream, a) && InStream(stream, b)
    ensures InStream(stream, a + b)
    ensures (sent + Frames(MessagesAt(stream, a))) + Frames(MessagesAt(stream, b)) ==
            sent + Frames(MessagesAt(stream, a + b))
  {
    assert MessagesAt(stream, a + b) == MessagesAt(stream, a) + MessagesAt(stream, b);
    FramesAppend(MessagesAt(stream, a), MessagesAt(stream, b));
    hide Frames;
  }

  /** The id that the client presents names its stream and the time of its last event, and what the
      store finds for them are the messages of `Replay`. */
  lemma PresentedIdReplays(session: string, v: Server, cur: nat, n: nat)
    requires n <= |v.log| && cur < |Stream(v)| && Stream(v)[cur].time < U128_LIMIT
    requires Usable(session) && Usable(v.stream) && Unbroken(session) && Unbroken(v.stream)
    ensures var time := Stream(v)[cur].time;
            && ParseEventId(EntryId(session, Stream(v)[cur])) == Some((session, v.stream, time))
            && InStream(Stream(v), Replay(v, cur, n))
            && EventsAfter(Retained(v.limit, v.log[..n]), v.stream, time) == MessagesAt(Stream(v), Replay(v, cur, n))
  {
    OfStreamMembers(v.log, v.stream);
    assert Stream(v)[cur] in Stream(v);
    hide ParseEventId, EventId, EventsAfter, Retained, Replay, OfStream, Usable, Unbroken;
    EventIdRoundTripsIff(session, v.stream, Stream(v)[cur].time);
    ReplayComesFromStore(v, cur, n);
  }
}

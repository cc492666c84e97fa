/** The two consumers of a Server-Sent Events response on the client (`streamable_http_stream.rs`):
    the standalone stream, which reads on and on across connections, and the answer to a POST, which
    is left once a chunk has brought data. Each keeps one parser for all its connections. */
module ClientStreams {
  import opened Sequences
  import opened LineFraming
  import opened SseParsing
  import opened SseDelivery

  predicate HasData(events: seq<SseEvent>) {
    exists i :: 0 <= i < |events| && events[i].data.Some?
  }

  lemma {:induction false} DataOfAppend(a: seq<SseEvent>, b: seq<SseEvent>)
    ensures DataOf(a + b) == DataOf(a) + DataOf(b)
  {
    if a == [] {
      assert a + b == b && [] + DataOf(b) == DataOf(b);
    } else {
      assert (a + b)[1..] == a[1..] + b;
      DataOfAppend(a[1..], b);
      var own := match a[0].data case Some(d) => d case None => [];
      assert DataOf(a) == own + DataOf(a[1..]) && DataOf(a + b) == own + (DataOf(a[1..]) + DataOf(b));
    }
  }

  // ---------- Data is never empty ----------

  predicate NonEmptyParts(f: Fields) {
    forall i :: 0 <= i < |f.parts| ==> f.parts[i] != []
  }

  lemma {:induction false} GatherKeepsParts(f: Fields, lines: seq<string>)
    requires NonEmptyParts(f)
    ensures NonEmptyParts(GatherAll(f, lines))
    decreases |lines|
  {
    hide ParseLine;
    if lines != [] {
      GatherKeepsParts(Gather(f, ParseLine(lines[0])), lines[1..]);
    }
  }

  predicate SolidData(events: seq<SseEvent>) {
    forall i :: 0 <= i < |events| && events[i].data.Some? ==> events[i].data.value != []
  }

  lemma ParsedDataIsSolid(lines: seq<string>)
    ensures SolidData(OptionToSeq(ParseMessage(lines)))
  {
    GatherKeepsParts(NO_FIELDS, lines);
    hide GatherAll;
  }

  lemma {:induction false} PushedDataIsSolid(current: seq<string>, lines: seq<string>)
    ensures SolidData(PushAll(current, lines).0)
    decreases |lines|
  {
    hide ParseMessage;
    if lines != [] {
      ParsedDataIsSolid(NonEmpty(current));
      PushedDataIsSolid(Push(current, lines[0]).1, lines[1..]);
    }
  }

  /** Events deliver bytes iff one of them carries data. */
  lemma {:induction false} DataIffHasData(events: seq<SseEvent>)
    requires SolidData(events)
    ensures DataOf(events) == [] <==> !HasData(events)
  {
    if events != [] {
      var rest := events[1..];
      forall i | 0 <= i < |rest| ensures rest[i] == events[i + 1] {
      }
      assert SolidData(rest);
      DataIffHasData(rest);
      if HasData(rest) {
        var i :| 0 <= i < |rest| && rest[i].data.Some?;
        assert events[i + 1].data.Some?;
      }
      if HasData(events) && events[0].data.None? {
        var i :| 0 <= i < |events| && events[i].data.Some?;
        assert rest[i - 1].data.Some?;
      }
    }
  }

  lemma {:induction false} FeedAppend(buffer: string, a: seq<string>, b: seq<string>)
    ensures var (first, next) := Feed(buffer, a);
            var (more, last) := Feed(next, b);
            Feed(buffer, a + b) == (first + more, last)
    decreases |a|
  {
    hide Process;
    if a == [] {
      assert a + b == b && [] + Feed(buffer, b).0 == Feed(buffer, b).0;
    } else {
      var (e, mid) := Process(buffer + a[0]);
      assert (a + b)[1..] == a[1..] + b;
      FeedAppend(mid, a[1..], b);
      var (first, next) := Feed(mid, a[1..]);
      var more := Feed(next, b).0;
      assert e + (first + more) == (e + first) + more;
    }
  }

  // ---------- The standalone stream ----------

  /** Its parser's buffer, the id it would resume from, and the bytes it has passed on. */
  datatype Standalone = Standalone(buffer: string, lastId: Option<string>, sent: string)

  const FRESH := Standalone([], None, [])

  /** An event with data is passed on, and its id, if it has one, remembered. */
  function TakeEvent(c: Standalone, e: SseEvent): Standalone {
    match e.data
    case Some(d) => c.(sent := c.sent + d, lastId := if e.id.Some? then e.id else c.lastId)
    case None => c
  }

  function TakeAll(c: Standalone, events: seq<SseEvent>): Standalone {
    if events == [] then c else TakeEvent(TakeAll(c, events[..|events| - 1]), events[|events| - 1])
  }

  function TakeChunks(c: Standalone, chunks: seq<string>): Standalone {
    var (events, buffer) := Feed(c.buffer, chunks);
    TakeAll(c, events).(buffer := buffer)
  }

  class StandaloneReader {
    const parser: SseParser
    var lastId: Option<string>
    var sent: string

    ghost function View(): Standalone
      reads this, parser
    {
      Standalone(parser.buffer, lastId, sent)
    }

    constructor ()
      ensures View() == FRESH && fresh(parser)
    {
      parser := new SseParser();
      lastId, sent := None, [];
    }

    /** One chunk of a connection of `run_standalone`. */
    method TakeChunk(bytes: string)
      modifies this, parser
      ensures View() == TakeChunks(old(View()), [bytes])
    {
      ghost var before := View();
      var events := parser.ProcessNewChunk(bytes);
      assert Feed(before.buffer, [bytes]) == (events, parser.buffer) by {
        FeedOne(before.buffer, bytes);
      }
      hide Feed;
      ghost var after := parser.buffer;
      for i := 0 to |events|
        invariant parser.buffer == after
        invariant View() == TakeAll(before, events[..i]).(buffer := parser.buffer)
      {
        assert events[..i + 1][..i] == events[..i];
        if events[i].data.Some? {
          if events[i].id.Some? {
            lastId := events[i].id;
          }
          sent := sent + events[i].data.value;
        }
      }
      assert events[..|events|] == events;
    }

    /** The chunks of a connection, until it ends or breaks. The same parser serves the next one. */
    method TakeConnection(chunks: seq<string>)
      modifies this, parser
      ensures View() == TakeChunks(old(View()), chunks)
    {
      ghost var before := View();
      TakeNothing(before);
      for i := 0 to |chunks|
        invariant View() == TakeChunks(before, chunks[..i])
      {
        TakeMore(before, chunks[..i], [chunks[i]]);
        assert chunks[..i + 1] == chunks[..i] + [chunks[i]];
        TakeChunk(chunks[i]);
      }
      assert chunks[..|chunks|] == chunks;
    }
  }

  lemma FeedOne(buffer: string, bytes: string)
    ensures Feed(buffer, [bytes]) == Process(buffer + bytes)
  {
    hide Process;
    assert [bytes][1..] == [];
    assert Process(buffer + bytes).0 + [] == Process(buffer + bytes).0;
  }

  lemma TakeNothing(c: Standalone)
    ensures TakeChunks(c, []) == c
  {
  }

  lemma {:induction false} TakeAllAppend(c: Standalone, a: seq<SseEvent>, b: seq<SseEvent>)
    ensures TakeAll(c, a + b) == TakeAll(TakeAll(c, a), b)
    decreases |b|
  {
    hide TakeEvent;
    if b == [] {
      assert a + b == a;
    } else {
      assert (a + b)[..|a + b| - 1] == a + b[..|b| - 1];
      TakeAllAppend(c, a, b[..|b| - 1]);
    }
  }

  lemma {:induction false} TakeAllIgnoresBuffer(c: Standalone, buffer: string, events: seq<SseEvent>)
    ensures TakeAll(c.(buffer := buffer), events) == TakeAll(c, events).(buffer := buffer)
    ensures TakeAll(c, events).buffer == c.buffer
  {
    if events != [] {
      TakeAllIgnoresBuffer(c, buffer, events[..|events| - 1]);
    }
  }

  /** Connections and chunks may be cut anywhere. */
  lemma TakeMore(c: Standalone, a: seq<string>, b: seq<string>)
    ensures TakeChunks(c, a + b) == TakeChunks(TakeChunks(c, a), b)
  {
    FeedAppend(c.buffer, a, b);
    hide Feed, TakeAll;
    var (first, next) := Feed(c.buffer, a);
    var (more, last) := Feed(next, b);
    TakeAllAppend(c, first, more);
    TakeAllIgnoresBuffer(TakeAll(c, first), next, more);
  }

  /** What the standalone stream passes on is all the data of all its events. */
  lemma {:induction false} SentIsData(c: Standalone, events: seq<SseEvent>)
    ensures TakeAll(c, events).sent == c.sent + DataOf(events)
  {
    NoEvents();
    hide DataOf;
    if events == [] {
      assert c.sent + [] == c.sent;
    } else {
      var front, last := events[..|events| - 1], events[|events| - 1];
      SentIsData(c, front);
      assert events == front + [last];
      DataOfAppend(front, [last]);
      OneEvent(last);
      assert (c.sent + DataOf(front)) + DataOf([last]) == c.sent + (DataOf(front) + DataOf([last]));
      assert DataOf(front) + [] == DataOf(front);
    }
  }

  // ---------- The answer to a POST ----------

  /** What the next turn of the loop in `run` meets: a chunk, the end of the response, an error or
      the cancellation. */
  datatype Arrival = Chunk(bytes: string) | Ended | Failed | Cancelled

  datatype PostExit = Answered | StreamEnded | Interrupted | Stopped | Waiting

  function ChunksOf(arrivals: seq<Arrival>): seq<string> {
    if arrivals == [] then []
    else
      var last := arrivals[|arrivals| - 1];
      ChunksOf(arrivals[..|arrivals| - 1]) + if last.Chunk? then [last.bytes] else []
  }

  ghost predicate Primed(events: seq<SseEvent>) {
    exists i :: 0 <= i < |events| && events[i].id.Some?
  }

  lemma HasDataAppend(a: seq<SseEvent>, b: seq<SseEvent>)
    ensures HasData(a + b) <==> HasData(a) || HasData(b)
    ensures Primed(a + b) <==> Primed(a) || Primed(b)
  {
    var all := a + b;
    assert forall i :: 0 <= i < |a| ==> all[i] == a[i];
    assert forall i :: 0 <= i < |b| ==> all[|a| + i] == b[i];
    if i :| 0 <= i < |all| && all[i].data.Some? {
      assert if i < |a| then a[i].data.Some? else b[i - |a|].data.Some?;
    }
    if i :| 0 <= i < |all| && all[i].id.Some? {
      assert if i < |a| then a[i].id.Some? else b[i - |a|].id.Some?;
    }
  }

  lemma OneEvent(e: SseEvent)
    ensures HasData([e]) <==> e.data.Some?
    ensures Primed([e]) <==> e.id.Some?
    ensures DataOf([e]) == match e.data case Some(d) => d case None => []
  {
    assert [e][0] == e && [e][1..] == [];
    assert DataOf([e]) == (match e.data case Some(d) => d case None => []) + DataOf([]);
  }

  lemma NoEvents()
    ensures !HasData([]) && !Primed([]) && DataOf([]) == []
  {
  }

  lemma {:induction false} NoDataNoBytes(events: seq<SseEvent>)
    requires !HasData(events)
    ensures DataOf(events) == []
  {
    if events != [] {
      assert events == [events[0]] + events[1..];
      HasDataAppend([events[0]], events[1..]);
      OneEvent(events[0]);
      NoDataNoBytes(events[1..]);
    }
  }

  /** The inner loop of `run` over the events of one chunk. */
  method TakeEvents(events: seq<SseEvent>) returns (data: string, received: bool, primed: bool)
    ensures data == DataOf(events)
    ensures received <==> HasData(events)
    ensures primed <==> Primed(events)
  {
    hide HasData, Primed, DataOf;
    data, received, primed := [], false, false;
    NoEvents();
    for i := 0 to |events|
      invariant data == DataOf(events[..i])
      invariant received <==> HasData(events[..i])
      invariant primed <==> Primed(events[..i])
    {
      assert events[..i + 1] == events[..i] + [events[i]];
      HasDataAppend(events[..i], [events[i]]);
      DataOfAppend(events[..i], [events[i]]);
      OneEvent(events[i]);
      if events[i].id.Some? {
        primed := true;
      }
      if events[i].data.Some? {
        received := true;
        data := data + events[i].data.value;
      } else {
        assert data + [] == data;
      }
    }
    assert events[..|events|] == events;
  }

  lemma NextArrival(arrivals: seq<Arrival>, n: nat)
    requires n < |arrivals|
    ensures ChunksOf(arrivals[..n + 1]) ==
            ChunksOf(arrivals[..n]) + if arrivals[n].Chunk? then [arrivals[n].bytes] else []
    ensures !arrivals[n].Chunk? ==> ChunksOf(arrivals[..n + 1]) == ChunksOf(arrivals[..n])
  {
    assert arrivals[..n + 1][..n] == arrivals[..n];
    assert ChunksOf(arrivals[..n]) + [] == ChunksOf(arrivals[..n]);
  }

  lemma NothingFed()
    ensures Feed([], ChunksOf([])) == ([], [])
  {
  }

  /** The loop goes on after turn `n`: a chunk that brought no data, or the end of a response after
      some event had an id. */
  ghost predicate Continues(arrivals: seq<Arrival>, n: nat) {
    && n < |arrivals|
    && var events := Feed([], ChunksOf(arrivals[..n + 1])).0;
       (arrivals[n].Chunk? && !HasData(events)) || (arrivals[n].Ended? && Primed(events))
  }

  /** Why the loop stops at turn `n`: data has come; the response ended and no event had an id; an error;
      the cancellation. */
  ghost predicate StopsWith(arrivals: seq<Arrival>, n: nat, exit: PostExit) {
    && n < |arrivals|
    && var events := Feed([], ChunksOf(arrivals[..n + 1])).0;
       match exit
       case Answered => arrivals[n].Chunk? && HasData(events)
       case StreamEnded => arrivals[n].Ended? && !Primed(events)
       case Interrupted => arrivals[n].Failed?
       case Stopped => arrivals[n].Cancelled?
       case Waiting => false
  }

  /** `run`, from the moment the response is a stream. A response that ends before any data is
      followed by a new connection if some event had an id; the parser is kept. It returns after the
      first chunk that brings data, with the data of all events so far. */
  method RunPost(arrivals: seq<Arrival>) returns (sent: string, exit: PostExit, used: nat)
    ensures used <= |arrivals| && sent == DataOf(Feed([], ChunksOf(arrivals[..used])).0)
    ensures forall n: nat :: n + 1 < used ==> Continues(arrivals, n)
    ensures if exit.Waiting? then used == |arrivals| && (used > 0 ==> Continues(arrivals, used - 1))
            else used > 0 && !Continues(arrivals, used - 1) && StopsWith(arrivals, used - 1, exit)
  {
    hide Feed, HasData, Primed, DataOf, ChunksOf;
    var parser := new SseParser();
    var primed := false;
    sent, used := [], 0;
    ghost var events: seq<SseEvent> := [];
    NothingFed();
    NoEvents();
    assert arrivals[..0] == [];
    while used < |arrivals|
      invariant used <= |arrivals| && fresh(parser)
      invariant Feed([], ChunksOf(arrivals[..used])) == (events, parser.buffer)
      invariant sent == [] == DataOf(events) && !HasData(events)
      invariant primed <==> Primed(events)
      invariant forall n: nat :: n < used ==> Continues(arrivals, n)
    {
      NextArrival(arrivals, used);
      match arrivals[used] {
        case Chunk(bytes) =>
          FeedAppend([], ChunksOf(arrivals[..used]), [bytes]);
          FeedOne(parser.buffer, bytes);
          var completed := parser.ProcessNewChunk(bytes);
          var data, received, withId := TakeEvents(completed);
          HasDataAppend(events, completed);
          DataOfAppend(events, completed);
          assert [] + DataOf(completed) == DataOf(completed);
          primed := primed || withId;
          used := used + 1;
          if received {
            return data, Answered, used;
          }
          NoDataNoBytes(completed);
          events := events + completed;
        case Ended =>
          used := used + 1;
          if !primed {
            return sent, StreamEnded, used;
          }
        case Failed =>
          return sent, Interrupted, used + 1;
        case Cancelled =>
          return sent, Stopped, used + 1;
      }
    }
    exit := Waiting;
  }

  /** The events that chunk `j` completes. */
  function EventsAt(buffer: string, chunks: seq<string>, j: nat): seq<SseEvent>
    requires j < |chunks|
  {
    Process(Feed(buffer, chunks[..j]).1 + chunks[j]).0
  }

  lemma FeedSnoc(buffer: string, chunks: seq<string>, j: nat)
    requires j < |chunks|
    ensures Feed(buffer, chunks[..j + 1]).0 == Feed(buffer, chunks[..j]).0 + EventsAt(buffer, chunks, j)
  {
    hide Feed, Process;
    assert chunks[..j + 1] == chunks[..j] + [chunks[j]];
    FeedAppend(buffer, chunks[..j], [chunks[j]]);
    FeedOne(Feed(buffer, chunks[..j]).1, chunks[j]);
  }

  /** Data of the first `j` chunks, and whether a later one adds to it. */
  lemma {:induction false} LaterData(buffer: string, chunks: seq<string>, j: nat, n: nat)
    requires j <= n <= |chunks|
    ensures DataOf(Feed(buffer, chunks[..j]).0) == DataOf(Feed(buffer, chunks[..n]).0) <==>
            forall i :: j <= i < n ==> !HasData(EventsAt(buffer, chunks, i))
    ensures |DataOf(Feed(buffer, chunks[..j]).0)| <= |DataOf(Feed(buffer, chunks[..n]).0)|
    decreases n - j
  {
    hide Feed, DataOf, HasData, EventsAt;
    if j < n {
      LaterData(buffer, chunks, j, n - 1);
      FeedSnoc(buffer, chunks, n - 1);
      var before, at := Feed(buffer, chunks[..n - 1]).0, EventsAt(buffer, chunks, n - 1);
      DataOfAppend(before, at);
      SolidAt(buffer, chunks, n - 1);
      DataIffHasData(at);
      assert DataOf(at) == [] ==> DataOf(before) + DataOf(at) == DataOf(before);
    }
  }

  lemma SolidAt(buffer: string, chunks: seq<string>, j: nat)
    requires j < |chunks|
    ensures SolidData(EventsAt(buffer, chunks, j))
  {
    PushedDataIsSolid([], CompleteLines(Feed(buffer, chunks[..j]).1 + chunks[j]).0);
  }

  /** A POST response whose first data comes with chunk `k` is read up to that chunk. Everything in it
      is delivered iff no later chunk completes an event with data. */
  lemma PostDeliversAllIff(chunks: seq<string>, k: nat)
    requires k < |chunks| && HasData(EventsAt([], chunks, k))
    requires forall i :: 0 <= i < k ==> !HasData(EventsAt([], chunks, i))
    ensures DataOf(Feed([], chunks[..k + 1]).0) == DataOf(Feed([], chunks).0) <==>
            forall i :: k < i < |chunks| ==> !HasData(EventsAt([], chunks, i))
  {
    hide Feed, DataOf, HasData, EventsAt;
    LaterData([], chunks, k + 1, |chunks|);
    assert chunks[..|chunks|] == chunks;
  }

  lemma {:induction false} NoDataSoFar(chunks: seq<string>, n: nat)
    requires n <= |chunks|
    ensures !HasData(Feed([], chunks[..n]).0) <==> forall i :: 0 <= i < n ==> !HasData(EventsAt([], chunks, i))
  {
    hide HasData, EventsAt, Feed;
    if n == 0 {
      assert chunks[..0] == [];
      NothingFedYet();
    } else {
      NoDataSoFar(chunks, n - 1);
      FeedSnoc([], chunks, n - 1);
      HasDataAppend(Feed([], chunks[..n - 1]).0, EventsAt([], chunks, n - 1));
    }
  }

  lemma {:induction false} ChunksOfChunks(arrivals: seq<Arrival>, chunks: seq<string>, n: nat)
    requires |arrivals| == |chunks| && n <= |chunks|
    requires forall i :: 0 <= i < |chunks| ==> arrivals[i] == Chunk(chunks[i])
    ensures ChunksOf(arrivals[..n]) == chunks[..n]
  {
    if n > 0 {
      ChunksOfChunks(arrivals, chunks, n - 1);
      assert arrivals[..n][..n - 1] == arrivals[..n - 1];
      assert chunks[..n] == chunks[..n - 1] + [chunks[n - 1]];
    }
  }

  /** Reading the chunks of a POST response: up to the first, `k`, that brings data, if any does. That
      is everything in the response iff no later chunk brings data. */
  method ReadAnswer(chunks: seq<string>) returns (sent: string, answered: bool, k: nat)
    ensures if answered then
              && k < |chunks| && HasData(EventsAt([], chunks, k))
              && (forall i :: 0 <= i < k ==> !HasData(EventsAt([], chunks, i)))
              && sent == DataOf(Feed([], chunks[..k + 1]).0)
              && (sent == DataOf(Feed([], chunks).0) <==>
                    forall i :: k < i < |chunks| ==> !HasData(EventsAt([], chunks, i)))
            else sent == [] && forall i :: 0 <= i < |chunks| ==> !HasData(EventsAt([], chunks, i))
  {
    var arrivals := seq(|chunks|, i requires 0 <= i < |chunks| => Chunk(chunks[i]));
    var exit, used;
    sent, exit, used := RunPost(arrivals);
    answered := exit.Answered?;
    k := if used > 0 then used - 1 else 0;
    hide HasData, EventsAt, Feed, DataOf, ChunksOf, Primed, Continues;
    ChunksOfChunks(arrivals, chunks, used);
    if answered {
      FirstDataChunk(arrivals, chunks, k);
      PostDeliversAllIff(chunks, k);
    } else {
      NoDataChunk(arrivals, chunks, used);
      NoDataSoFar(chunks, used);
      NoDataNoBytes(Feed([], chunks[..used]).0);
    }
  }

  lemma FirstDataChunk(arrivals: seq<Arrival>, chunks: seq<string>, k: nat)
    requires |arrivals| == |chunks| && k < |chunks|
    requires forall i :: 0 <= i < |chunks| ==> arrivals[i] == Chunk(chunks[i])
    requires !Continues(arrivals, k) && forall n: nat :: n < k ==> Continues(arrivals, n)
    ensures HasData(EventsAt([], chunks, k)) && forall i :: 0 <= i < k ==> !HasData(EventsAt([], chunks, i))
  {
    hide HasData, EventsAt, Continues;
    ContinuesIffNoData(arrivals, chunks, k);
    if k > 0 {
      ContinuesIffNoData(arrivals, chunks, k - 1);
    }
  }

  lemma NoDataChunk(arrivals: seq<Arrival>, chunks: seq<string>, n: nat)
    requires |arrivals| == |chunks| && n <= |chunks|
    requires forall i :: 0 <= i < |chunks| ==> arrivals[i] == Chunk(chunks[i])
    requires n > 0 ==> Continues(arrivals, n - 1)
    ensures forall i :: 0 <= i < n ==> !HasData(EventsAt([], chunks, i))
  {
    hide HasData, EventsAt, Continues;
    if n > 0 {
      ContinuesIffNoData(arrivals, chunks, n - 1);
    }
  }

  lemma ContinuesIffNoData(arrivals: seq<Arrival>, chunks: seq<string>, n: nat)
    requires |arrivals| == |chunks| && n < |chunks|
    requires forall i :: 0 <= i < |chunks| ==> arrivals[i] == Chunk(chunks[i])
    ensures Continues(arrivals, n) <==> forall i :: 0 <= i <= n ==> !HasData(EventsAt([], chunks, i))
  {
    hide HasData, EventsAt, Feed, ChunksOf, Primed;
    ChunksOfChunks(arrivals, chunks, n + 1);
    NoDataSoFar(chunks, n + 1);
  }

  /** For instance: when the server writes a notification and then the response, and they arrive in
      two chunks, the response is not read. */
  lemma TwoChunksLoseTheSecond(first: Outgoing, second: Outgoing, resumable: bool, max: nat)
    requires Deliverable(first, resumable, max) && Deliverable(second, resumable, max)
    ensures var chunks := [Format(Relay(Tag(first), resumable)), Format(Relay(Tag(second), resumable))];
            && Flatten(chunks) == ResponseBody(Frames(Tags([first, second])), resumable)
            && HasData(EventsAt([], chunks, 0)) && HasData(EventsAt([], chunks, 1))
            && DataOf(Feed([], chunks[..1]).0) == Frame(first.payload)
            && DataOf(Feed([], chunks).0) == Frame(first.payload) + Frame(second.payload)
  {
    var a, b := Format(Relay(Tag(first), resumable)), Format(Relay(Tag(second), resumable));
    var chunks := [a, b];
    hide ResponseBody, Format, Feed, EventsAt, DataOf, HasData, Deliverable, Relay, Tag, Frame, Frames;
    BodyOfTwo(first, second, resumable, max);
    FlattenOne(a);
    StandaloneData([first], resumable, max, [a]);
    StandaloneData([first, second], resumable, max, chunks);
    FramesOfTwo(first, second);
    assert chunks[..1] == [a];
    GrowingData(a, b, Frame(first.payload), Frame(second.payload));
  }

  lemma GrowingData(a: string, b: string, first: string, second: string)
    requires first != [] && second != []
    requires DataOf(Feed([], [a]).0) == first && DataOf(Feed([], [a, b]).0) == first + second
    ensures HasData(EventsAt([], [a, b], 0)) && HasData(EventsAt([], [a, b], 1))
  {
    NothingFedYet();
    hide Feed, DataOf, HasData, EventsAt;
    var chunks := [a, b];
    assert chunks[..0] == [] && chunks[..1] == [a] && chunks[..2] == chunks;
    LaterData([], chunks, 0, 1);
    LaterData([], chunks, 1, 2);
    assert |first + second| > |first|;
  }

  lemma NothingFedYet()
    ensures DataOf(Feed([], []).0) == [] && !HasData(Feed([], []).0)
  {
  }

  lemma FramesOfTwo(first: Outgoing, second: Outgoing)
    ensures Frames(Payloads([first])) == Frame(first.payload)
    ensures Frames(Payloads([first, second])) == Frame(first.payload) + Frame(second.payload)
    ensures Frame(first.payload) != [] && Frame(second.payload) != []
  {
    assert [first][1..] == [] && [first, second][1..] == [second] && [second][1..] == [];
    assert Payloads([second]) == [second.payload] && Payloads([first]) == [first.payload];
    assert Payloads([first, second]) == [first.payload, second.payload];
    assert [first.payload, second.payload][1..] == [second.payload];
    FrameAlone(first.payload);
    FrameAlone(second.payload);
  }

  /** The data of the whole response to deliverable messages is their frames. */
  lemma StandaloneData(outs: seq<Outgoing>, resumable: bool, max: nat, body: seq<string>)
    requires forall i :: 0 <= i < |outs| ==> Deliverable(outs[i], resumable, max)
    requires Flatten(body) == ResponseBody(Frames(Tags(outs)), resumable)
    ensures Feed([], body).0 == EventsFor(outs)
    ensures DataOf(Feed([], body).0) == Frames(Payloads(outs))
  {
    hide Feed, ResponseBody, Deliverable, DataOf, Servable;
    DeliverableAreLoud(outs, resumable, max);
    DataOfEvents(outs);
    EventsArrive(outs, resumable, max, body);
  }

  lemma BodyOfTwo(first: Outgoing, second: Outgoing, resumable: bool, max: nat)
    requires Deliverable(first, resumable, max) && Deliverable(second, resumable, max)
    ensures var a, b := Format(Relay(Tag(first), resumable)), Format(Relay(Tag(second), resumable));
            && Flatten([a, b]) == ResponseBody(Frames(Tags([first, second])), resumable)
            && a == ResponseBody(Frames(Tags([first])), resumable)
  {
    DeliverableAreLoud([first], resumable, max);
    DeliverableAreLoud([first, second], resumable, max);
    BodyIsFormatted([first], resumable, max);
    BodyIsFormatted([first, second], resumable, max);
    TagsOfTwo(first, second);
    hide Relay, Format, Tag, Tags, RelayAll, FormatAll, ResponseBody, Flatten, Deliverable;
    RelayOfTwo(Tag(first), Tag(second), resumable);
    FormatOfTwo(Relay(Tag(first), resumable), Relay(Tag(second), resumable));
  }

  lemma TagsOfTwo(first: Outgoing, second: Outgoing)
    ensures Tags([first]) == [Tag(first)] && Tags([first, second]) == [Tag(first), Tag(second)]
  {
    hide Tag;
    assert [first, second][1..] == [second] && [first][1..] == [] && [second][1..] == [];
    assert Tags([second]) == [Tag(second)] + Tags([]) && Tags([first]) == [Tag(first)] + Tags([]);
    assert Tags([first, second]) == [Tag(first)] + Tags([second]);
  }

  lemma RelayOfTwo(t: string, u: string, resumable: bool)
    ensures RelayAll([t], resumable) == [Relay(t, resumable)]
    ensures RelayAll([t, u], resumable) == [Relay(t, resumable), Relay(u, resumable)]
  {
    hide Relay;
    assert [t, u][1..] == [u] && [u][1..] == [] && [t][1..] == [];
    assert RelayAll([u], resumable) == [Relay(u, resumable)] + RelayAll([], resumable);
    assert RelayAll([t], resumable) == [Relay(t, resumable)] + RelayAll([], resumable);
    assert RelayAll([t, u], resumable) == [Relay(t, resumable)] + RelayAll([u], resumable);
  }

  lemma FormatOfTwo(a: SseEvent, b: SseEvent)
    ensures FormatAll([a]) == Format(a) && FormatAll([a, b]) == Flatten([Format(a), Format(b)])
  {
    hide Format;
    assert [a, b][1..] == [b] && [b][1..] == [] && [a][1..] == [];
    assert FormatAll([b]) == Format(b) + FormatAll([]) && FormatAll([a]) == Format(a) + FormatAll([]);
    assert FormatAll([a, b]) == Format(a) + FormatAll([b]);
    assert [Format(a), Format(b)][1..] == [Format(b)];
    FlattenOne(Format(b));
  }

  lemma BodyIsFormatted(outs: seq<Outgoing>, resumable: bool, max: nat)
    requires Servable(outs, resumable, max)
    ensures ResponseBody(Frames(Tags(outs)), resumable) == FormatAll(RelayAll(Tags(outs), resumable))
  {
    RelayTags(outs, resumable, max);
    SplitFrames(Tags(outs));
    hide RelayAll, FormatAll, Split, Tags;
    assert (Tags(outs) + [[]])[..|Tags(outs)|] == Tags(outs);
  }
}

/** Resuming the standalone stream: the client presents the id of the last event it saw, the event
    store finds what came after, and `write_str` sends it again without storing it, so without an id.
    The client's parser is the one that read the streams before, with whatever it still holds. */
module Resumption {
  import opened Sequences
  import opened LineFraming
  import opened SseParsing
  import opened SseDelivery
  import opened ClientStreams
  import opened Leftovers
  import opened EventStore
  import opened Text

  /** Replayed messages, as the relay receives them. */
  function Replayed(messages: seq<string>): seq<Outgoing> {
    if messages == [] then [] else [Outgoing(None, messages[0])] + Replayed(messages[1..])
  }

  lemma {:induction false} PayloadsOfReplayed(messages: seq<string>)
    ensures Payloads(Replayed(messages)) == messages
  {
    if messages != [] {
      PayloadsOfReplayed(messages[1..]);
      assert Replayed(messages)[1..] == Replayed(messages[1..]);
    }
  }

  /** Feeding a parser that has read `s`: only the text matters, not how it is cut. */
  lemma FeedAfter(s: string, chunks: seq<string>)
    ensures Feed(Process(s).1, chunks) == Process(Process(s).1 + Flatten(chunks))
  {
    hide Process, Feed;
    ChunkingIsInvisible(s, chunks);
    ProcessInTwo(s, Flatten(chunks));
    var first := Process(s).0;
    var more, more' := Feed(Process(s).1, chunks).0, Process(Process(s).1 + Flatten(chunks)).0;
    assert (first + more)[|first|..] == more && (first + more')[|first|..] == more';
  }

  /** The data that a response delivers, in whatever chunks, to a parser that has read `s`. */
  lemma DataOfResponse(s: string, outs: seq<Outgoing>, max: nat, body: seq<string>)
    requires Servable(outs, true, max)
    requires Flatten(body) == ResponseBody(Frames(Tags(outs)), true)
    ensures var (lines, tail) := CompleteLines(Process(s).1);
            DataOf(Feed(Process(s).1, body).0) == DataAfter(lines, tail, outs)
  {
    hide *;
    BodyIsFormatted(outs, true, max);
    FeedAfter(s, body);
    ProcessAfter(s, Flatten(body));
    var (lines, tail) := CompleteLines(Process(s).1);
    DataAfterIs(lines, tail, outs);
  }

  /** What the parser holds after `seen`, over any number of connections and in any chunks, lets the
      messages of the next response through. */
  ghost predicate LetsThrough(seen: seq<string>, outs: seq<Outgoing>, max: nat) {
    var (lines, tail) := CompleteLines(Feed([], seen).1);
    Admits(lines, tail, outs, max)
  }

  /** The messages of the next response arrive, exactly and in order, iff what the parser holds lets
      them through. */
  lemma ResponseArrivesIff(seen: seq<string>, outs: seq<Outgoing>, body: seq<string>, read: seq<string>,
                           max: nat, end: StreamEnd)
    requires Servable(outs, true, max)
    requires Flatten(body) == ResponseBody(Frames(Tags(outs)), true)
    requires Flatten(read) == DataOf(Feed(Feed([], seen).1, body).0)
    ensures Outcomes(Flatten(read), max, end) == Lines(Payloads(Loud(outs))) <==> LetsThrough(seen, outs, max)
  {
    hide Servable, ResponseBody, Feed, Process, CompleteLines, DataAfter, Admits, Outcomes, DataOf, Flatten;
    FeedIsProcess(seen);
    DataOfResponse(Flatten(seen), outs, max, body);
    MessagesArriveIff(Flatten(seen), outs, max, end);
  }

  /** The replay after event `i` gives exactly the messages missed: the condition of
      `EventStore.ReplayIsExactIff`. */
  ghost predicate Replayable(limit: nat, events: seq<Entry>, i: nat)
    requires i < |events|
  {
    if Oldest(limit, events) <= i
    then !Shadowed(limit, events, i) && Texts(SortByTime(Later(events, i))) == Missed(events, i)
    else Missed(events, i) == []
  }

  /** Through event store, relay, parser and line reader: a client that resumes from event `i` of its
      stream, after any bytes and any breaks, and is sent the replay with keep-alives anywhere,
      receives exactly the messages it missed, in order and in whatever chunks, iff what its parser
      holds lets them through. */
  lemma ResumedClientCatchesUpIff(limit: nat, events: seq<Entry>, i: nat, session: string, seen: seq<string>,
                                  outs: seq<Outgoing>, body: seq<string>, read: seq<string>, max: nat, end: StreamEnd)
    requires i < |events| && events[i].time < U128_LIMIT && Replayable(limit, events, i)
    requires Usable(session) && Unbroken(session) && Usable(events[i].stream) && Unbroken(events[i].stream)
    requires Servable(outs, true, max)
    requires var id := ParseEventId(EventId(session, events[i].stream, events[i].time));
             id.Some? ==> Loud(outs) == Replayed(EventsAfter(Retained(limit, events), id.value.1, id.value.2))
    requires Flatten(body) == ResponseBody(Frames(Tags(outs)), true)
    requires Flatten(read) == DataOf(Feed(Feed([], seen).1, body).0)
    ensures Outcomes(Flatten(read), max, end) == Lines(Missed(events, i)) <==> LetsThrough(seen, outs, max)
  {
    hide *;
    EventIdRoundTripsIff(session, events[i].stream, events[i].time);
    ReplayOfReplayable(limit, events, i);
    PayloadsOfReplayed(Missed(events, i));
    ResponseArrivesIff(seen, outs, body, read, max, end);
  }

  lemma ReplayOfReplayable(limit: nat, events: seq<Entry>, i: nat)
    requires i < |events| && Replayable(limit, events, i)
    ensures EventsAfter(Retained(limit, events), events[i].stream, events[i].time) == Missed(events, i)
  {
    hide EventsAfter, Retained, Missed, Shadowed, SortByTime, Later, Texts;
    ReplayIsExactIff(limit, events, i);
  }

  // ---------- The first break ----------

  lemma RelayedOne(o: Outgoing, max: nat)
    requires KeepAlive(o) || Deliverable(o, true, max)
    ensures Relayed(Relay(Tag(o), true))
  {
    RelayOne(o, true, max);
    hide Relay, Tag;
  }

  lemma {:induction false} RelayedAll(outs: seq<Outgoing>, max: nat)
    requires Servable(outs, true, max)
    ensures forall i :: 0 <= i < |RelayAll(Tags(outs), true)| ==> Relayed(RelayAll(Tags(outs), true)[i])
  {
    hide Deliverable, KeepAlive, Relay, Tag, Relayed;
    if outs != [] {
      RelayedOne(outs[0], max);
      RelayedAll(outs[1..], max);
      assert Tags(outs)[1..] == Tags(outs[1..]);
    }
  }

  /** Wherever a client's first stream breaks, its parser holds no data line of an unfinished event
      unless every line it holds is complete. */
  lemma BrokenStream(sent: seq<Outgoing>, max: nat, seen: seq<string>)
    requires Servable(sent, true, max)
    requires Flatten(seen) <= ResponseBody(Frames(Tags(sent)), true)
    ensures var (lines, tail) := CompleteLines(Feed([], seen).1); PartsOf(lines) == [] || tail == []
  {
    FeedIsProcess(seen);
    BodyIsFormatted(sent, true, max);
    RelayedAll(sent, max);
    Leftover(Flatten(seen));
    hide Feed, Process, ResponseBody, RelayAll, FormatAll, Relayed, PushAll, CompleteLines, PartsOf, AllComplete;
    ServerLeftover([], RelayAll(Tags(sent), true), Flatten(seen));
  }

  /** After it, a replay gets through iff the parser was left clear: no unfinished line and no data of
      an unfinished event. */
  lemma FirstBreakIffClear(sent: seq<Outgoing>, seen: seq<string>, outs: seq<Outgoing>, max: nat)
    requires Servable(sent, true, max) && Flatten(seen) <= ResponseBody(Frames(Tags(sent)), true)
    requires outs != [] && Deliverable(outs[0], true, max) && outs[0].id.None?
    ensures LetsThrough(seen, outs, max) <==> Clear(Feed([], seen).1)
  {
    BrokenStream(sent, max, seen);
    DeliverableIsLoud(outs[0], true, max);
    hide Feed, CompleteLines, PartsOf, KeepAlive, Deliverable, Servable, ResponseBody, DataLine;
    NoParts(CompleteLines(Feed([], seen).1).0);
  }

  // ---------- Some breaks ----------

  /** A stream cut after the first byte of a data line: the first message replayed is lost, whatever it is. */
  lemma CutInsideALine(o: Outgoing, outs: seq<Outgoing>, max: nat)
    requires Deliverable(o, true, max) && o.id.None? && Servable(outs, true, max)
    ensures DataAfter([], "d", [o] + outs) == Frames(Payloads(Loud(outs)))
  {
    MessageFirst([], "d", o, outs, max);
    PartsOfGlued("d", o);
    hide DataAfter, Glued, KeepAlive, Deliverable, Servable, Loud;
    assert PartsOf([]) == [] && JoinParts([] + []) == [];
    assert [] + Frames(Payloads(Loud(outs))) == Frames(Payloads(Loud(outs)));
  }

  /** A keep-alive in front of it saves it. */
  lemma KeepAliveSavesAMessage(k: Outgoing, o: Outgoing, outs: seq<Outgoing>, max: nat)
    requires Deliverable(o, true, max) && o.id.None? && Servable(outs, true, max) && KeepAlive(k)
    ensures DataAfter([], "d", [k] + ([o] + outs)) == Frames([o.payload] + Payloads(Loud(outs)))
  {
    assert Servable([o] + outs, true, max);
    var open := ["d" + [NEWLINE]];
    assert [] + Completed("d") == open;
    KeepAliveFirst([], "d", k, [o] + outs, max);
    MessageFirst(open, [], o, outs, max);
    PartsOfGlued([], o);
    DIsNoData();
    hide DataAfter, PartsOf, Glued, KeepAlive, Deliverable, Servable, Loud;
    PartsOfOne("d" + [NEWLINE]);
    assert [] + [o.payload + [NEWLINE]] == [o.payload + [NEWLINE]];
    JoinOne([o.payload + [NEWLINE]]);
    FrameAlone(o.payload);
    FramesAppend([o.payload], Payloads(Loud(outs)));
  }

  lemma DIsNoData()
    ensures Part("d" + [NEWLINE]) == []
  {
    assert "d" + [NEWLINE] == ['d', NEWLINE];
    TrimsOneNewline("d");
  }

  /** A stream cut between the data line of an event and the blank line that ends it: the event's data
      arrives in front of the first replayed message, with an empty line between them. */
  lemma CutBeforeTheBlankLine(p: string, o: Outgoing, outs: seq<Outgoing>, max: nat)
    requires p != [] && NEWLINE !in p
    requires Deliverable(o, true, max) && o.id.None? && Servable(outs, true, max)
    ensures DataAfter([DataLineOf(p)], [], [o] + outs) == Frames([p, [], o.payload] + Payloads(Loud(outs)))
  {
    var line, m := DataLineOf(p), o.payload;
    MessageFirst([line], [], o, outs, max);
    PartsOfGlued([], o);
    PartOfDataLine(p);
    PartsOfOne(line);
    hide DataAfter, Part, PartsOf, Glued, DataLineOf, KeepAlive, Deliverable, Servable, Loud;
    var parts := [p + [NEWLINE]] + [m + [NEWLINE]];
    assert parts[1..] == [m + [NEWLINE]];
    assert Join(parts, NEWLINE) == (p + [NEWLINE]) + [NEWLINE] + (m + [NEWLINE]);
    FramesOfThree(p, m, Payloads(Loud(outs)));
  }

  /** Cut there, and the next stream again after the first byte of the line that repeats the message:
      now the message held arrives in place of the one lost. */
  lemma CutTwice(o: Outgoing, outs: seq<Outgoing>, max: nat)
    requires Deliverable(o, true, max) && o.id.None? && Servable(outs, true, max)
    ensures DataAfter([DataLineOf(o.payload)], "d", [o] + outs) == Frames([o.payload] + Payloads(Loud(outs)))
  {
    var m := o.payload;
    MessageFirst([DataLineOf(m)], "d", o, outs, max);
    PartsOfGlued("d", o);
    PartOfDataLine(m);
    PartsOfOne(DataLineOf(m));
    hide DataAfter, Part, PartsOf, Glued, DataLineOf, KeepAlive, Deliverable, Servable, Loud;
    assert [m + [NEWLINE]] + [] == [m + [NEWLINE]];
    JoinOne([m + [NEWLINE]]);
    FrameAlone(m);
    FramesAppend([m], Payloads(Loud(outs)));
  }

  lemma FramesOfThree(p: string, m: string, rest: seq<string>)
    ensures ((p + [NEWLINE]) + [NEWLINE] + (m + [NEWLINE])) + Frames(rest) == Frames([p, [], m] + rest)
  {
    FramesAppend([p, [], m], rest);
    assert [p, [], m][1..] == [[], m] && [[], m][1..] == [m] && [m][1..] == [];
    assert Frames([m]) == Frame(m) + Frames([]);
    assert Frames([[], m]) == Frame([]) + Frames([m]);
    assert Frames([p, [], m]) == Frame(p) + Frames([[], m]);
    assert Frame([]) == [NEWLINE];
  }

  // ---------- A separator in a replayed message ----------

  /** A replayed message that holds the separator is taken for an id and a message: the client passes on
      only what follows it, and what precedes it becomes the id it resumes from. */
  lemma SeparatorMovesTheCursor(client: Standalone, id: string, payload: string, wire: seq<string>)
    requires client.buffer == [] && ID_SEPARATOR !in id && NEWLINE !in id
    requires payload != [] && NEWLINE !in payload
    requires Flatten(wire) == ResponseBody(Frame(Tag(Outgoing(None, id + [ID_SEPARATOR] + payload))), true)
    ensures var after := TakeChunks(client, wire);
            after.lastId == Some(Trim(id)) && after.sent == client.sent + Frame(payload)
  {
    hide Relay, ResponseBody, Feed, Clean, ReceivedAll, Trim, FormatAll, TakeAll;
    var e := SseEvent(None, Some(payload), Some(id), None);
    SeparatorLine(id, payload);
    BodyOfOneLine(id + [ID_SEPARATOR] + payload, true);
    ReceivedAlone(id, payload);
    EventsRoundTrip([e], wire);
    TakeAlone(client, ReceivedAll([e])[0]);
  }

  lemma ReceivedAlone(id: string, payload: string)
    requires NEWLINE !in id && payload != [] && NEWLINE !in payload
    ensures var e := SseEvent(None, Some(payload), Some(id), None);
            && Clean(e)
            && ReceivedAll([e]) == [SseEvent(None, Some(payload + [NEWLINE]), Some(Trim(id)), None)]
  {
    var e := SseEvent(None, Some(payload), Some(id), None);
    OneLineOfData(payload);
    assert Clean(e) && !Blank(e);
    assert [e][1..] == [] && ReceivedAll([e]) == [Received(e)] + ReceivedAll([]);
    hide TextLines, Rejoined, Trim;
  }

  lemma TakeAlone(client: Standalone, e: SseEvent)
    ensures TakeAll(client, [e]) == TakeEvent(client, e)
  {
    assert [e][..0] == [];
  }

  lemma SeparatorLine(id: string, payload: string)
    requires ID_SEPARATOR !in id
    ensures var line := id + [ID_SEPARATOR] + payload;
            Relay(line, true) == SseEvent(None, Some(payload), Some(id), None)
  {
    var line := id + [ID_SEPARATOR] + payload;
    SeparatorIn(id, payload);
    BarIsNoColon(line);
    hide Trim;
  }

  /** Such an id is none that the store knows, unless it is written like one: presented, it is an error
      and nothing is replayed. */
  lemma StrangeIdReplaysNothing(id: string)
    requires forall k: nat :: !SeparatorAt(id, k)
    ensures ParseEventId(id) == None
  {
    assert SplitId(id) == [id];
  }
}

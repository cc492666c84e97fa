/** A server's messages on their way to a streaming client: `write_str` with its event id, the
    relay that turns each line into a Server-Sent Event, the event's text form, the client's
    parser and its line reader. */
module SseDelivery {
  import opened Sequences
  import opened LineFraming
  import opened SseParsing
  import opened Text

  const ID_SEPARATOR: byte := '|'

  // ---------- The text form of an event (`Display` for `SseEvent`) ----------

  /** `str::lines`: a carriage return is dropped only in front of a newline. */
  function TextLines(text: string): seq<string> {
    LinesOf(Split(text, NEWLINE))
  }

  function LinesOf(pieces: seq<string>): seq<string>
    requires pieces != []
  {
    if |pieces| > 1 then [StripCr(pieces[0])] + LinesOf(pieces[1..])
    else if pieces[0] == [] then []
    else pieces
  }

  /** `str::lines` on any text: the pieces that newlines end, and what follows the last of them unless
      that is empty. */
  lemma {:induction false} TextLinesAre(ps: seq<string>, rest: string)
    requires Free(ps, NEWLINE) && NEWLINE !in rest
    requires forall i :: 0 <= i < |ps| && ps[i] != [] ==> ps[i][|ps[i]| - 1] != CARRIAGE_RETURN
    ensures TextLines(Frames(ps) + rest) == ps + if rest == [] then [] else [rest]
  {
    if ps == [] {
      assert Frames(ps) + rest == rest;
      FindNone(rest, NEWLINE);
      assert Split(rest, NEWLINE) == [rest];
    } else {
      assert ps[0] in ps;
      var more := Frames(ps[1..]) + rest;
      assert Frames(ps) + rest == ps[0] + [NEWLINE] + more;
      hide Split, Frames;
      TextLinesAre(ps[1..], rest);
      FirstTextLine(ps[0], more);
      assert ps == [ps[0]] + ps[1..];
    }
  }

  lemma FirstTextLine(p: string, more: string)
    requires NEWLINE !in p && (p != [] ==> p[|p| - 1] != CARRIAGE_RETURN)
    ensures TextLines(p + [NEWLINE] + more) == [p] + TextLines(more)
  {
    SplitCons(p, NEWLINE, more);
    hide Split;
    assert ([p] + Split(more, NEWLINE))[1..] == Split(more, NEWLINE);
  }

  function DataLines(lines: seq<string>): seq<string> {
    if lines == [] then [] else ["data: " + lines[0] + [NEWLINE]] + DataLines(lines[1..])
  }

  function FieldLine(name: string, value: Option<string>): seq<string> {
    match value case Some(v) => [name + v + [NEWLINE]] case None => []
  }

  function RetryText(e: SseEvent): Option<string> {
    match e.retry case Some(n) => Some(Decimal(n)) case None => None
  }

  /** The lines of an event before the empty line that ends it. */
  function EventLines(e: SseEvent): seq<string> {
    FieldLine("retry: ", RetryText(e)) + FieldLine("id: ", e.id) + FieldLine("event: ", e.event) +
    DataLines(LinesOfData(e.data))
  }

  function Format(e: SseEvent): string {
    Flatten(EventLines(e)) + [NEWLINE]
  }

  function FormatAll(es: seq<SseEvent>): string {
    if es == [] then [] else Format(es[0]) + FormatAll(es[1..])
  }

  // ---------- Formatting and parsing ----------

  /** A value that fits on a field line and survives trimming. */
  predicate CleanValue(v: Option<string>) {
    v.Some? ==> Trimmed(v.value) && NEWLINE !in v.value
  }

  predicate OneLine(v: Option<string>) {
    v.Some? ==> NEWLINE !in v.value
  }

  /** An event whose fields other than data each fit on one line. */
  predicate Clean(e: SseEvent) {
    && OneLine(e.id)
    && OneLine(e.event)
    && (e.retry.Some? ==> e.retry.value < U64_LIMIT)
  }

  /** An event without any line of its own. */
  predicate Blank(e: SseEvent) {
    e.event.None? && LinesOfData(e.data) == [] && e.id.None? && e.retry.None?
  }

  function LinesOfData(data: Option<string>): seq<string> {
    match data case Some(d) => TextLines(d) case None => []
  }

  function NonBlank(lines: seq<string>): seq<string> {
    if lines == [] then [] else (if lines[0] == [] then [] else [lines[0]]) + NonBlank(lines[1..])
  }

  function Terminated(lines: seq<string>): seq<string> {
    if lines == [] then [] else [lines[0] + [NEWLINE]] + Terminated(lines[1..])
  }

  /** Data as the parser puts it together again: its non-blank lines, each with its newline, joined
      by newlines. */
  function Rejoined(lines: seq<string>): Option<string> {
    var parts := Terminated(NonBlank(lines));
    if parts == [] then None else Some(Join(parts, NEWLINE))
  }

  function TrimValue(v: Option<string>): Option<string> {
    match v case Some(s) => Some(Trim(s)) case None => None
  }

  /** The event as the parser reports it. */
  function Received(e: SseEvent): SseEvent {
    SseEvent(TrimValue(e.event), Rejoined(LinesOfData(e.data)), TrimValue(e.id), e.retry)
  }

  /** Data of one line comes back as that line and its newline. */
  lemma OneLineOfData(d: string)
    requires d != [] && NEWLINE !in d
    ensures TextLines(d) == [d] && Rejoined(TextLines(d)) == Some(d + [NEWLINE])
  {
    OneTextLine(d);
    assert [d][1..] == [];
    assert NonBlank([d]) == [d] + NonBlank([]);
    assert Terminated([d]) == [d + [NEWLINE]] + Terminated([]);
  }

  function ReceivedAll(es: seq<SseEvent>): seq<SseEvent> {
    if es == [] then [] else (if Blank(es[0]) then [] else [Received(es[0])]) + ReceivedAll(es[1..])
  }

  lemma OneTextLine(text: string)
    requires text != [] && NEWLINE !in text
    ensures TextLines(text) == [text]
  {
    FindNone(text, NEWLINE);
    assert Split(text, NEWLINE) == [text];
  }

  lemma {:induction false} TrimNewlinesIsPrefix(s: string)
    ensures TrimNewlines(s) <= s
  {
    if s != [] && s[|s| - 1] == NEWLINE {
      TrimNewlinesIsPrefix(s[..|s| - 1]);
    }
  }

  lemma ParseFieldLines(v: string)
    ensures ParseLine("id: " + v + [NEWLINE]) == Id(Trim(v))
    ensures ParseLine("event: " + v + [NEWLINE]) == Event(Trim(v))
    ensures ParseLine("retry: " + v + [NEWLINE]) == Retry(Trim(v))
  {
    TrimLine(v);
    ParseNamed("id: ", v, 'i');
    ParseNamed("event: ", v, 'e');
    ParseNamed("retry: ", v, 'r');
    hide ParseLine, TrimNewlines, Trim, Trimmed;
    ParseNamedAs("id: ", v);
    ParseNamedAs("event: ", v);
    ParseNamedAs("retry: ", v);
  }

  /** The branches of `ParseLine` after those for data. */
  lemma ParseNamedAs(name: string, v: string)
    requires name == "id: " || name == "event: " || name == "retry: "
    ensures var line := name + v + [NEWLINE];
            && !("data: " <= line) && TrimNewlines(line) != "data:"
            && line[0] != ':' && line[|name|..] == v + [NEWLINE] ==>
              ParseLine(line) ==
              var value := Trim(v + [NEWLINE]);
              if name[0] == 'i' then Id(value) else if name[0] == 'e' then Event(value) else Retry(value)
  {
    hide TrimNewlines, Trim;
    var line := name + v + [NEWLINE];
    assert line[0] == name[0];
  }

  lemma ParseNamed(name: string, v: string, first: char)
    requires name != [] && name[0] == first && first != 'd' && first != ':'
    ensures var line := name + v + [NEWLINE];
            && !("data: " <= line) && TrimNewlines(line) != "data:"
            && line[0] == first && line[|name|..] == v + [NEWLINE] && name <= line
  {
    var line := name + v + [NEWLINE];
    TrimNewlinesIsPrefix(line);
    assert line[0] == first;
  }

  lemma ParseDataLine(d: string)
    ensures ParseLine("data: " + d + [NEWLINE]) == Data(d + [NEWLINE])
  {
    assert ("data: " + d + [NEWLINE])[6..] == d + [NEWLINE];
  }

  lemma {:induction false} GatherAppend(f: Fields, a: seq<string>, b: seq<string>)
    ensures GatherAll(f, a + b) == GatherAll(GatherAll(f, a), b)
    decreases |a|
  {
    hide Gather, ParseLine;
    if a == [] {
      assert a + b == b;
    } else {
      assert (a + b)[1..] == a[1..] + b;
      GatherAppend(Gather(f, ParseLine(a[0])), a[1..], b);
    }
  }

  lemma GatherOne(f: Fields, line: string)
    ensures GatherAll(f, [line]) == Gather(f, ParseLine(line))
  {
    hide Gather, ParseLine;
    assert [line][1..] == [];
  }

  /** Gathering one optional field line. */
  lemma GatherField(f: Fields, name: string, v: Option<string>, field: Field)
    requires v.Some? ==> ParseLine(name + v.value + [NEWLINE]) == field
    ensures GatherAll(f, FieldLine(name, v)) == if v.Some? then Gather(f, field) else f
  {
    hide Gather, ParseLine;
    if v.Some? {
      GatherOne(f, name + v.value + [NEWLINE]);
    }
  }

  lemma {:induction false} GatherData(f: Fields, lines: seq<string>)
    requires forall i :: 0 <= i < |lines| ==> NEWLINE !in lines[i]
    ensures GatherAll(f, DataLines(lines)) ==
            f.(sawData := f.sawData || lines != [], parts := f.parts + Terminated(NonBlank(lines)))
    decreases |lines|
  {
    hide ParseLine;
    if lines == [] {
      assert f.parts + [] == f.parts;
    } else {
      var d := lines[0];
      ParseDataLine(d);
      var g := Gather(f, Data(d + [NEWLINE]));
      assert DataLines(lines)[1..] == DataLines(lines[1..]);
      assert GatherAll(f, DataLines(lines)) == GatherAll(g, DataLines(lines[1..]));
      hide GatherAll, DataLines;
      GatherPart(f, lines);
      hide NonBlank, Terminated, Gather;
      GatherData(g, lines[1..]);
    }
  }

  lemma GatherPart(f: Fields, lines: seq<string>)
    requires lines != []
    ensures var g := Gather(f, Data(lines[0] + [NEWLINE]));
            && g == f.(sawData := true, parts := g.parts)
            && g.parts + Terminated(NonBlank(lines[1..])) == f.parts + Terminated(NonBlank(lines))
  {
    var d, later := lines[0], NonBlank(lines[1..]);
    var part := d + [NEWLINE];
    assert part != [] && (part == [NEWLINE] <==> d == []);
    if d == [] {
      assert [] + later == later;
    } else {
      assert ([d] + later)[1..] == later;
      assert (f.parts + [part]) + Terminated(later) == f.parts + ([part] + Terminated(later));
    }
  }

  lemma {:induction false} LinesAreFree(pieces: seq<string>)
    requires pieces != [] && forall i :: 0 <= i < |pieces| ==> NEWLINE !in pieces[i]
    ensures forall i :: 0 <= i < |LinesOf(pieces)| ==> NEWLINE !in LinesOf(pieces)[i]
  {
    if |pieces| > 1 {
      LinesAreFree(pieces[1..]);
    }
  }

  lemma DataLinesAreFree(data: Option<string>)
    ensures forall i :: 0 <= i < |LinesOfData(data)| ==> NEWLINE !in LinesOfData(data)[i]
  {
    if data.Some? {
      SplitThenJoin(data.value, NEWLINE);
      LinesAreFree(Split(data.value, NEWLINE));
    }
  }

  lemma GatherEvent(e: SseEvent)
    requires Clean(e)
    ensures GatherAll(NO_FIELDS, EventLines(e)) ==
            Fields(TrimValue(e.event), TrimValue(e.id), RetryText(e), Terminated(NonBlank(LinesOfData(e.data))),
                   LinesOfData(e.data) != [])
  {
    hide ParseLine, TextLines, GatherAll, Trimmed, Trim;
    var r, i, v := FieldLine("retry: ", RetryText(e)), FieldLine("id: ", e.id), FieldLine("event: ", e.event);
    var d := DataLines(LinesOfData(e.data));
    if e.retry.Some? {
      ParseOfDecimal(e.retry.value, U64_LIMIT);
      ParseFieldLines(Decimal(e.retry.value));
      TrimsToItself(Decimal(e.retry.value));
    }
    if e.id.Some? { ParseFieldLines(e.id.value); }
    if e.event.Some? { ParseFieldLines(e.event.value); }
    var f0 := NO_FIELDS;
    var f1 := if e.retry.Some? then Gather(f0, Retry(RetryText(e).value)) else f0;
    GatherField(f0, "retry: ", RetryText(e), if e.retry.Some? then Retry(RetryText(e).value) else Skip);
    var f2 := if e.id.Some? then Gather(f1, Id(Trim(e.id.value))) else f1;
    GatherField(f1, "id: ", e.id, if e.id.Some? then Id(Trim(e.id.value)) else Skip);
    var f3 := if e.event.Some? then Gather(f2, Event(Trim(e.event.value))) else f2;
    GatherField(f2, "event: ", e.event, if e.event.Some? then Event(Trim(e.event.value)) else Skip);
    DataLinesAreFree(e.data);
    hide LinesOfData, DataLines, NonBlank, Terminated;
    GatherData(f3, LinesOfData(e.data));
    GatherAppend(f0, r, i);
    GatherAppend(f0, r + i, v);
    GatherAppend(f0, r + i + v, d);
  }

  /** A clean event's lines parse back to that event. */
  lemma ParseEventLines(e: SseEvent)
    requires Clean(e)
    ensures ParseMessage(EventLines(e)) == if Blank(e) then None else Some(Received(e))
  {
    GatherEvent(e);
    hide GatherAll, EventLines, ParseUnsigned, Trim;
    if e.retry.Some? {
      ParseOfDecimal(e.retry.value, U64_LIMIT);
      TrimsToItself(Decimal(e.retry.value));
    }
  }

  // ---------- Several events in one stream ----------

  predicate ProperLines(lines: seq<string>) {
    AllComplete(lines) && forall i :: 0 <= i < |lines| ==> lines[i] != [NEWLINE]
  }

  lemma NamedLineIsProper(name: string, v: string)
    requires name != [] && NEWLINE !in name && NEWLINE !in v
    ensures Complete(name + v + [NEWLINE]) && name + v + [NEWLINE] != [NEWLINE]
  {
    var line := name + v + [NEWLINE];
    FindIs(line, NEWLINE, |line| - 1);
    assert |line| >= 2;
  }

  lemma FieldLineIsProper(name: string, v: Option<string>)
    requires name != [] && NEWLINE !in name
    requires v.Some? ==> NEWLINE !in v.value
    ensures ProperLines(FieldLine(name, v))
  {
    if v.Some? {
      NamedLineIsProper(name, v.value);
    }
  }

  lemma EventLinesAreProper(e: SseEvent)
    requires Clean(e)
    ensures ProperLines(EventLines(e))
  {
    hide Complete, TextLines, Trimmed, IsDigit, Decimal;
    if e.retry.Some? { ParseOfDecimal(e.retry.value, U64_LIMIT); }
    FieldLineIsProper("retry: ", RetryText(e));
    FieldLineIsProper("id: ", e.id);
    FieldLineIsProper("event: ", e.event);
    DataLinesAreFree(e.data);
    hide LinesOfData;
    DataLinesAreProper(LinesOfData(e.data));
  }

  lemma {:induction false} DataLinesAreProper(lines: seq<string>)
    requires forall i :: 0 <= i < |lines| ==> NEWLINE !in lines[i]
    ensures ProperLines(DataLines(lines))
  {
    hide Complete;
    if lines != [] {
      NamedLineIsProper("data: ", lines[0]);
      DataLinesAreProper(lines[1..]);
    }
  }

  /** Between two events the parser holds nothing, or the empty line that ended the last one. */
  predicate Between(current: seq<string>) {
    current == [] || current == [[NEWLINE]]
  }

  lemma {:induction false} PushProper(current: seq<string>, lines: seq<string>)
    requires forall i :: 0 <= i < |lines| ==> lines[i] != [NEWLINE]
    ensures PushAll(current, lines) == ([], current + lines)
    decreases |lines|
  {
    hide ParseMessage;
    if lines == [] {
      assert current + lines == current;
    } else {
      PushProper(current + [lines[0]], lines[1..]);
      assert (current + [lines[0]]) + lines[1..] == current + lines;
      var none: seq<SseEvent> := [];
      assert none + none == none;
    }
  }

  lemma {:induction false} NonEmptyOfProper(lines: seq<string>)
    requires forall i :: 0 <= i < |lines| ==> lines[i] != [NEWLINE]
    ensures NonEmpty(lines) == lines
  {
    if lines != [] {
      NonEmptyOfProper(lines[1..]);
    }
  }

  lemma NonEmptyAfter(current: seq<string>, lines: seq<string>)
    requires Between(current)
    requires forall i :: 0 <= i < |lines| ==> lines[i] != [NEWLINE]
    ensures NonEmpty(current + lines) == lines
  {
    NonEmptyOfProper(lines);
    if current == [] {
      assert current + lines == lines;
    } else {
      assert (current + lines)[1..] == lines && (current + lines)[0] == [NEWLINE];
      assert [] + NonEmpty(lines) == NonEmpty(lines);
    }
  }

  /** The lines of one event and the empty line after them complete exactly that event. */
  lemma PushEvent(current: seq<string>, lines: seq<string>)
    requires Between(current) && ProperLines(lines)
    ensures PushAll(current, lines + [[NEWLINE]]) == (OptionToSeq(ParseMessage(lines)), [[NEWLINE]])
  {
    PushProper(current, lines);
    PushAllAppend(current, lines, [[NEWLINE]]);
    NonEmptyAfter(current, lines);
    assert [[NEWLINE]][1..] == [];
    var all := current + lines;
    if all == [] {
      assert lines == [] && ParseMessage([]) == None && all + [[NEWLINE]] == [[NEWLINE]];
    }
    assert Push(all, [NEWLINE]) == (OptionToSeq(ParseMessage(lines)), [[NEWLINE]]);
    hide Push, ParseMessage;
    assert [] + (OptionToSeq(ParseMessage(lines)) + []) == OptionToSeq(ParseMessage(lines));
  }

  lemma FormatIsLines(e: SseEvent, t: string)
    requires Clean(e)
    ensures var (lines, tail) := CompleteLines(t);
            CompleteLines(Format(e) + t) == (EventLines(e) + [[NEWLINE]] + lines, tail)
  {
    hide CompleteLines, EventLines;
    EventLinesAreProper(e);
    FlattenAppend(EventLines(e), [[NEWLINE]]);
    FlattenOne([NEWLINE]);
    FindIs([NEWLINE], NEWLINE, 0);
    LinesOfFlatten(EventLines(e) + [[NEWLINE]], t);
  }

  /** A stream of clean events, parsed from any point between two events, gives back those events
      that have a line of their own, in order. */
  lemma {:induction false} ParseFormatted(current: seq<string>, es: seq<SseEvent>)
    requires Between(current)
    requires forall i :: 0 <= i < |es| ==> Clean(es[i])
    ensures var (events, last) := PushAll(current, CompleteLines(FormatAll(es)).0);
            events == ReceivedAll(es) && Between(last)
    ensures CompleteLines(FormatAll(es)).1 == []
    decreases |es|
  {
    if es == [] {
      FindNone([], NEWLINE);
    } else {
      hide Clean, CompleteLines, ParseMessage, EventLines, PushAll;
      var e := es[0];
      assert Clean(e);
      FormatIsLines(e, FormatAll(es[1..]));
      EventLinesAreProper(e);
      PushEvent(current, EventLines(e));
      ParseEventLines(e);
      ParseFormatted([[NEWLINE]], es[1..]);
      PushAllAppend(current, EventLines(e) + [[NEWLINE]], CompleteLines(FormatAll(es[1..])).0);
    }
  }

  /** Formatting clean events and parsing the text, cut into any chunks, gives back exactly those
      events, their data put together again line by line. */
  lemma EventsRoundTrip(es: seq<SseEvent>, chunks: seq<string>)
    requires forall i :: 0 <= i < |es| ==> Clean(es[i])
    requires Flatten(chunks) == FormatAll(es)
    ensures Feed([], chunks).0 == ReceivedAll(es)
  {
    hide FormatAll, CompleteLines, PushAll;
    FeedIsProcess(chunks);
    ParseFormatted([], es);
  }

  // ---------- Ids and event names that come back ----------

  lemma ParsedValueIsClean(line: string)
    requires Complete(line)
    ensures var f := ParseLine(line); (f.Id? || f.Event?) ==> CleanValue(Some(f.value))
  {
    ValueIsTrimmedTail(line);
    hide ParseLine, Trim, CleanValue;
    if ParseLine(line).Event? {
      CleanTail(line, 7);
    } else if ParseLine(line).Id? {
      CleanTail(line, 4);
    }
  }

  lemma ValueIsTrimmedTail(line: string)
    ensures var f := ParseLine(line);
            && (f.Event? ==> |line| >= 7 && line[6] == ' ' && f.value == Trim(line[7..]))
            && (f.Id? ==> |line| >= 4 && line[3] == ' ' && f.value == Trim(line[4..]))
  {
    hide Trim, TrimNewlines;
  }

  lemma CleanTail(line: string, k: nat)
    requires Complete(line) && 0 < k <= |line| && line[k - 1] == ' '
    ensures CleanValue(Some(Trim(line[k..])))
  {
    var tail := line[k..|line| - 1];
    assert line[k..] == tail + [NEWLINE];
    TrimLine(tail);
    TrimIsTrimmed(tail);
  }

  lemma {:induction false} GatherIsClean(f: Fields, lines: seq<string>)
    requires AllComplete(lines) && CleanValue(f.id) && CleanValue(f.event)
    ensures var g := GatherAll(f, lines); CleanValue(g.id) && CleanValue(g.event)
    decreases |lines|
  {
    hide ParseLine, Complete, CleanValue;
    if lines != [] {
      ParsedValueIsClean(lines[0]);
      GatherIsClean(Gather(f, ParseLine(lines[0])), lines[1..]);
    }
  }

  lemma {:induction false} NonEmptyIsComplete(lines: seq<string>)
    requires AllComplete(lines)
    ensures AllComplete(NonEmpty(lines))
  {
    hide Complete;
    if lines != [] {
      NonEmptyIsComplete(lines[1..]);
    }
  }

  predicate CleanFields(e: SseEvent) {
    CleanValue(e.id) && CleanValue(e.event)
  }

  lemma PushIsClean(current: seq<string>, line: string)
    requires AllComplete(current) && Complete(line)
    ensures forall e :: e in Push(current, line).0 ==> CleanFields(e)
    ensures AllComplete(Push(current, line).1)
  {
    hide Complete;
    NonEmptyIsComplete(current);
    GatherIsClean(NO_FIELDS, NonEmpty(current));
  }

  lemma {:induction false} PushAllIsClean(current: seq<string>, lines: seq<string>)
    requires AllComplete(current) && AllComplete(lines)
    ensures forall e :: e in PushAll(current, lines).0 ==> CleanFields(e)
    decreases |lines|
  {
    hide Complete, Push, CleanFields;
    if lines != [] {
      PushIsClean(current, lines[0]);
      PushAllIsClean(Push(current, lines[0]).1, lines[1..]);
    }
  }

  /** Whatever the bytes: the ids and event names that the parser reports are trimmed and on one line. */
  lemma ReportedFieldsAreClean(s: string)
    ensures forall e :: e in Process(s).0 ==> CleanFields(e)
  {
    LinesAreComplete(s);
    PushAllIsClean([], CompleteLines(s).0);
  }

  /** An event comes back with the id and event name it was written with iff those are on one line
      and have no white space around them. */
  lemma FieldsComeBackIff(e: SseEvent)
    requires !Blank(e) && (e.retry.Some? ==> e.retry.value < U64_LIMIT)
    ensures Process(Format(e)).0 == [e.(data := Rejoined(LinesOfData(e.data)))] <==> CleanFields(e)
  {
    hide Format, Process;
    var back := e.(data := Rejoined(LinesOfData(e.data)));
    if CleanFields(e) {
      if e.id.Some? { TrimsToItself(e.id.value); }
      if e.event.Some? { TrimsToItself(e.event.value); }
      assert back == Received(e);
      assert [e][1..] == [] && Format(e) + [] == Format(e);
      FlattenOne(FormatAll([e]));
      EventsRoundTrip([e], [FormatAll([e])]);
      FeedIsProcess([FormatAll([e])]);
    }
    if Process(Format(e)).0 == [back] {
      ReportedFieldsAreClean(Format(e));
      assert back in Process(Format(e)).0;
    }
  }

  // ---------- From the server's `write_str` to the client's lines ----------

  /** A payload together with the event id under which the event store recorded it, if it did. */
  datatype Outgoing = Outgoing(id: Option<string>, payload: string)

  /** The line `write_str` writes, without its newline. */
  function Tag(o: Outgoing): string {
    match o.id case Some(id) => id + [ID_SEPARATOR] + o.payload case None => o.payload
  }

  /** The server's `write_str`: the event id and a separator if the message was stored, the payload, a
      newline. */
  method WriteTagged(writer: LineWriter, o: Outgoing)
    modifies writer
    ensures writer.written == old(writer.written) + Frame(Tag(o))
  {
    if o.id.Some? {
      writer.WriteAll(o.id.value);
      writer.WriteAll([ID_SEPARATOR]);
    }
    writer.WriteAll(o.payload);
    writer.WriteAll([NEWLINE]);
  }

  function Tags(outs: seq<Outgoing>): seq<string> {
    if outs == [] then [] else [Tag(outs[0])] + Tags(outs[1..])
  }

  /** What the relay of `create_sse_stream` makes of one line. */
  function Relay(line: string, resumable: bool): SseEvent {
    var bar := Find(line, ID_SEPARATOR);
    if line == [] || Trim(line) == ":" then SseEvent(None, None, None, None)
    else if resumable && bar < |line| then SseEvent(None, Some(line[bar + 1..]), Some(line[..bar]), None)
    else SseEvent(None, Some(line), None, None)
  }

  function RelayAll(lines: seq<string>, resumable: bool): seq<SseEvent> {
    if lines == [] then [] else [Relay(lines[0], resumable)] + RelayAll(lines[1..], resumable)
  }

  /** The response body for the bytes the server wrote. */
  function ResponseBody(written: string, resumable: bool): string {
    var pieces := Split(written, NEWLINE);
    FormatAll(RelayAll(pieces[..|pieces| - 1], resumable))
  }

  /** When the relay tells id and payload apart correctly. */
  predicate Separable(o: Outgoing, resumable: bool) {
    match o.id
    case Some(id) => resumable && ID_SEPARATOR !in id
    case None => o.payload != [] && Trim(o.payload) != ":" && (resumable ==> ID_SEPARATOR !in o.payload)
  }

  lemma BarIsNoColon(line: string)
    requires ID_SEPARATOR in line
    ensures Trim(line) != ":"
  {
    TrimKeepsBar(line);
  }

  lemma TrimKeepsBar(line: string)
    requires ID_SEPARATOR in line
    ensures ID_SEPARATOR in Trim(line)
  {
    TrimStartKeepsBar(line);
    TrimEndKeepsBar(TrimStart(line));
  }

  lemma {:induction false} TrimStartKeepsBar(s: string)
    requires ID_SEPARATOR in s
    ensures ID_SEPARATOR in TrimStart(s)
  {
    if IsSpace(s[0]) {
      TrimStartKeepsBar(s[1..]);
    }
  }

  lemma {:induction false} TrimEndKeepsBar(s: string)
    requires ID_SEPARATOR in s
    ensures ID_SEPARATOR in TrimEnd(s)
  {
    if IsSpace(s[|s| - 1]) {
      TrimEndKeepsBar(s[..|s| - 1]);
    }
  }

  /** The relay forwards id and payload as written iff an id is only present on a resumable stream
      and holds no separator, and a payload without an id is no keep-alive and, on a resumable stream,
      holds no separator. */
  lemma RelayIsFaithfulIffSeparable(o: Outgoing, resumable: bool)
    ensures Relay(Tag(o), resumable) == SseEvent(None, Some(o.payload), o.id, None) <==> Separable(o, resumable)
  {
    hide Trim;
    if o.id.Some? {
      SeparatorIn(o.id.value, o.payload);
      BarIsNoColon(Tag(o));
    } else if ID_SEPARATOR !in o.payload {
      FindNone(o.payload, ID_SEPARATOR);
    }
  }

  /** Cutting at the first separator gives the id iff the id holds no separator. */
  lemma SeparatorIn(id: string, payload: string)
    ensures var line := id + [ID_SEPARATOR] + payload;
            var bar := Find(line, ID_SEPARATOR);
            && bar < |line|
            && (line[..bar] == id <==> ID_SEPARATOR !in id)
            && (ID_SEPARATOR !in id ==> line[bar + 1..] == payload)
  {
    var line := id + [ID_SEPARATOR] + payload;
    var bar := Find(line, ID_SEPARATOR);
    assert line == id + ([ID_SEPARATOR] + payload);
    if ID_SEPARATOR in id {
      FindInPrefix(id, [ID_SEPARATOR] + payload, ID_SEPARATOR);
      assert |line[..bar]| < |id|;
    } else {
      FindSkip(id, [ID_SEPARATOR] + payload, ID_SEPARATOR);
    }
  }

  /** An outgoing message that reaches the client unchanged. */
  predicate Deliverable(o: Outgoing, resumable: bool, max: nat) {
    && Separable(o, resumable)
    && Survives(o.payload, max) && o.payload != []
    && CleanValue(o.id)
  }

  function Payloads(outs: seq<Outgoing>): seq<string> {
    if outs == [] then [] else [outs[0].payload] + Payloads(outs[1..])
  }

  /** A line that keeps the connection alive: the relay makes a blank event of it. `keep_alive` writes
      a newline, and so two of these. */
  predicate KeepAlive(o: Outgoing) {
    o.id.None? && NEWLINE !in o.payload && (o.payload == [] || Trim(o.payload) == ":")
  }

  /** What a server writes on a stream: messages that reach the client, and keep-alives. */
  predicate Servable(outs: seq<Outgoing>, resumable: bool, max: nat) {
    forall i :: 0 <= i < |outs| ==> KeepAlive(outs[i]) || Deliverable(outs[i], resumable, max)
  }

  /** The messages among them. */
  function Loud(outs: seq<Outgoing>): seq<Outgoing> {
    if outs == [] then [] else (if KeepAlive(outs[0]) then [] else [outs[0]]) + Loud(outs[1..])
  }

  lemma {:induction false} LoudAreDeliverable(outs: seq<Outgoing>, resumable: bool, max: nat)
    requires Servable(outs, resumable, max)
    ensures forall i :: 0 <= i < |Loud(outs)| ==> Deliverable(Loud(outs)[i], resumable, max)
  {
    hide KeepAlive, Deliverable;
    if outs != [] {
      LoudAreDeliverable(outs[1..], resumable, max);
    }
  }

  lemma {:induction false} DeliverableAreLoud(outs: seq<Outgoing>, resumable: bool, max: nat)
    requires forall i :: 0 <= i < |outs| ==> Deliverable(outs[i], resumable, max)
    ensures Servable(outs, resumable, max) && Loud(outs) == outs
  {
    hide KeepAlive, Deliverable;
    if outs != [] {
      DeliverableIsLoud(outs[0], resumable, max);
      DeliverableAreLoud(outs[1..], resumable, max);
    }
  }

  lemma DeliverableIsLoud(o: Outgoing, resumable: bool, max: nat)
    requires Deliverable(o, resumable, max)
    ensures !KeepAlive(o)
  {
  }

  /** The events the client sees. */
  function EventsFor(outs: seq<Outgoing>): seq<SseEvent> {
    if outs == [] then []
    else [SseEvent(None, Some(outs[0].payload + [NEWLINE]), outs[0].id, None)] + EventsFor(outs[1..])
  }

  /** The bytes the client hands from its parser to its line reader. */
  function DataOf(events: seq<SseEvent>): string {
    if events == [] then []
    else (match events[0].data case Some(d) => d case None => []) + DataOf(events[1..])
  }

  lemma RelayOne(o: Outgoing, resumable: bool, max: nat)
    requires KeepAlive(o) || Deliverable(o, resumable, max)
    ensures var e := Relay(Tag(o), resumable);
            && Clean(e) && NEWLINE !in Tag(o)
            && (if KeepAlive(o) then e == SseEvent(None, None, None, None) && Blank(e)
                else e == SseEvent(None, Some(o.payload), o.id, None) && !Blank(e) &&
                     Received(e) == SseEvent(None, Some(o.payload + [NEWLINE]), o.id, None))
  {
    if !KeepAlive(o) {
      RelayIsFaithfulIffSeparable(o, resumable);
      OneLineOfData(o.payload);
      if o.id.Some? {
        TrimsToItself(o.id.value);
      }
      hide Relay, Separable, TextLines, Rejoined;
    }
  }

  lemma {:induction false} RelayTags(outs: seq<Outgoing>, resumable: bool, max: nat)
    requires Servable(outs, resumable, max)
    ensures var es := RelayAll(Tags(outs), resumable);
            && (forall i :: 0 <= i < |es| ==> Clean(es[i]))
            && ReceivedAll(es) == EventsFor(Loud(outs))
    ensures Free(Tags(outs), NEWLINE)
  {
    if outs != [] {
      RelayTags(outs[1..], resumable, max);
      var o := outs[0];
      RelayOne(o, resumable, max);
      hide Relay, KeepAlive, Deliverable, Tag, Clean, Blank, Received;
      assert Tags(outs)[1..] == Tags(outs[1..]);
      var es, more := RelayAll(Tags(outs), resumable), RelayAll(Tags(outs[1..]), resumable);
      assert es == [Relay(Tag(o), resumable)] + more;
      assert es[1..] == more;
      var loud := Loud(outs[1..]);
      if KeepAlive(o) {
        assert [] + loud == loud && [] + ReceivedAll(more) == ReceivedAll(more);
      } else {
        assert ([o] + loud)[1..] == loud;
      }
    }
  }

  lemma {:induction false} DataOfEvents(outs: seq<Outgoing>)
    ensures DataOf(EventsFor(outs)) == Frames(Payloads(outs))
  {
    if outs != [] {
      DataOfEvents(outs[1..]);
      var es := EventsFor(outs);
      assert es[1..] == EventsFor(outs[1..]);
      assert Payloads(outs)[1..] == Payloads(outs[1..]);
    }
  }

  lemma {:induction false} PayloadsSurvive(outs: seq<Outgoing>, resumable: bool, max: nat)
    requires forall i :: 0 <= i < |outs| ==> Deliverable(outs[i], resumable, max)
    ensures forall p :: p in Payloads(outs) ==> Survives(p, max)
  {
    if outs != [] {
      assert Deliverable(outs[0], resumable, max);
      PayloadsSurvive(outs[1..], resumable, max);
    }
  }

  /** The events that a server's response brings, in whatever chunks it arrives: those of its messages. */
  lemma EventsArrive(outs: seq<Outgoing>, resumable: bool, max: nat, body: seq<string>)
    requires Servable(outs, resumable, max)
    requires Flatten(body) == ResponseBody(Frames(Tags(outs)), resumable)
    ensures Feed([], body).0 == EventsFor(Loud(outs))
  {
    hide FormatAll, RelayAll, Split, Feed, Servable, Clean;
    RelayTags(outs, resumable, max);
    SplitFrames(Tags(outs));
    assert (Tags(outs) + [[]])[..|Tags(outs)|] == Tags(outs);
    EventsRoundTrip(RelayAll(Tags(outs), resumable), body);
  }

  /** On the standalone stream, end to end: whatever deliverable messages the server writes, with
      keep-alives anywhere between them, in whatever chunks the HTTP response arrives and in whatever
      chunks the client then reads, the client sees each event with its own id and reads back exactly
      the payloads, in order, even if the stream then breaks. (The answer to a POST is not read to its
      end: see `ClientStreams`.) */
  lemma StreamedPayloadsArrive(outs: seq<Outgoing>, resumable: bool, body: seq<string>, read: seq<string>,
                               max: nat, end: StreamEnd)
    requires Servable(outs, resumable, max)
    requires Flatten(body) == ResponseBody(Frames(Tags(outs)), resumable)
    requires Flatten(read) == DataOf(Feed([], body).0)
    ensures Feed([], body).0 == EventsFor(Loud(outs))
    ensures Outcomes(Flatten(read), max, end) == Lines(Payloads(Loud(outs)))
  {
    hide ResponseBody, Feed, Deliverable, Servable, Loud;
    EventsArrive(outs, resumable, max, body);
    DataOfEvents(Loud(outs));
    LoudAreDeliverable(outs, resumable, max);
    PayloadsSurvive(Loud(outs), resumable, max);
    SurvivorsComeBack(Payloads(Loud(outs)), max, end);
  }

  lemma BodyOfOneLine(line: string, resumable: bool)
    requires NEWLINE !in line
    ensures ResponseBody(Frame(line), resumable) == FormatAll([Relay(line, resumable)])
  {
    FrameAlone(line);
    SplitFrames([line]);
    hide Split, Relay, FormatAll;
    assert ([line] + [[]])[..1] == [line];
    assert [line][1..] == [];
    assert RelayAll([line], resumable) == [Relay(line, resumable)] + RelayAll([], resumable);
  }

  /** What a single message written on a fresh stream becomes at the client. */
  function EventsOf(o: Outgoing, resumable: bool): seq<SseEvent> {
    Process(ResponseBody(Frame(Tag(o)), resumable)).0
  }

  /** `Deliverable` is exact: alone on a stream, a message is reported as one event with its own id and
      read back as its own payload iff it is deliverable. */
  lemma DeliverableIff(o: Outgoing, resumable: bool, max: nat)
    ensures && EventsOf(o, resumable) == EventsFor([o])
            && Outcomes(DataOf(EventsOf(o, resumable)), max, Closed) == [Line(o.payload)]
            <==> Deliverable(o, resumable, max)
  {
    hide *;
    EventOfOne(o);
    if Deliverable(o, resumable, max) {
      DeliverableArrives(o, resumable, max);
    }
    if EventsOf(o, resumable) == EventsFor([o]) && Outcomes(DataOf(EventsFor([o])), max, Closed) == [Line(o.payload)] {
      ComesBackIffSurvives(o.payload, max);
      ArrivesDeliverable(o, resumable, max);
    }
  }

  lemma EventOfOne(o: Outgoing)
    ensures EventsFor([o]) == [SseEvent(None, Some(o.payload + [NEWLINE]), o.id, None)]
    ensures DataOf(EventsFor([o])) == Frame(o.payload)
  {
    assert [o][1..] == [];
    var e := SseEvent(None, Some(o.payload + [NEWLINE]), o.id, None);
    assert [e][1..] == [] && DataOf([e]) == (o.payload + [NEWLINE]) + DataOf([]);
  }

  lemma DeliverableArrives(o: Outgoing, resumable: bool, max: nat)
    requires Deliverable(o, resumable, max)
    ensures EventsOf(o, resumable) == EventsFor([o]) && Outcomes(Frame(o.payload), max, Closed) == [Line(o.payload)]
  {
    ComesBackIffSurvives(o.payload, max);
    RelayOne(o, resumable, max);
    DeliverableIsLoud(o, resumable, max);
    EventOfOne(o);
    hide *;
    BodyOfOneLine(Tag(o), resumable);
    ParsedAlone(Relay(Tag(o), resumable));
  }

  /** The parser on the text of a single event. */
  lemma ParsedAlone(e: SseEvent)
    requires Clean(e)
    ensures Process(FormatAll([e])).0 == if Blank(e) then [] else [Received(e)]
  {
    assert [e][1..] == [] && ReceivedAll([e]) == (if Blank(e) then [] else [Received(e)]) + ReceivedAll([]);
    hide FormatAll, Process, Clean, Blank, Received;
    FlattenOne(FormatAll([e]));
    EventsRoundTrip([e], [FormatAll([e])]);
    FeedIsProcess([FormatAll([e])]);
  }

  lemma ArrivesDeliverable(o: Outgoing, resumable: bool, max: nat)
    requires EventsOf(o, resumable) == EventsFor([o]) && Survives(o.payload, max)
    ensures Deliverable(o, resumable, max)
  {
    EventOfOne(o);
    var reported := SseEvent(None, Some(o.payload + [NEWLINE]), o.id, None);
    ReportedFieldsAreClean(ResponseBody(Frame(Tag(o)), resumable));
    assert reported in EventsOf(o, resumable);
    assert CleanValue(o.id) && NEWLINE !in Tag(o);
    var e := Relay(Tag(o), resumable);
    RelayIsOneLine(Tag(o), resumable);
    hide Relay, ResponseBody, Process, FormatAll, Blank, Received;
    BodyOfOneLine(Tag(o), resumable);
    ParsedAlone(e);
    assert Received(e) == reported && !Blank(e);
    ReportedAsWritten(o, resumable);
  }

  /** Whatever line it relays, the fields of the event are on one line. */
  lemma RelayIsOneLine(line: string, resumable: bool)
    requires NEWLINE !in line
    ensures Clean(Relay(line, resumable))
  {
    hide Trim;
  }

  lemma ReportedAsWritten(o: Outgoing, resumable: bool)
    requires CleanValue(o.id) && NEWLINE !in o.payload
    requires Received(Relay(Tag(o), resumable)) == SseEvent(None, Some(o.payload + [NEWLINE]), o.id, None)
    ensures Separable(o, resumable) && o.payload != []
  {
    NoDataReported(Relay(Tag(o), resumable));
    if o.id.Some? {
      WithIdAsWritten(o.id.value, o.payload, resumable);
    } else {
      hide Rejoined, TextLines, Trim;
    }
  }

  lemma NoDataReported(e: SseEvent)
    requires Received(e).data.Some?
    ensures e.data.Some? && e.data.value != []
  {
    FindNone([], NEWLINE);
  }

  /** The id that is reported is no longer than what stands before the first separator. */
  lemma WithIdAsWritten(id: string, payload: string, resumable: bool)
    ensures var line := id + [ID_SEPARATOR] + payload;
            TrimValue(Relay(line, resumable).id) == Some(id) ==>
              && resumable && ID_SEPARATOR !in id
              && Relay(line, resumable).data == Some(payload)
  {
    var line := id + [ID_SEPARATOR] + payload;
    var bar := Find(line, ID_SEPARATOR);
    assert line == id + ([ID_SEPARATOR] + payload);
    assert Find(id, ID_SEPARATOR) < |id| ==> bar < |id| by {
      if Find(id, ID_SEPARATOR) < |id| {
        FindInPrefix(id, [ID_SEPARATOR] + payload, ID_SEPARATOR);
      }
    }
    SeparatorIn(id, payload);
    BarIsNoColon(line);
    TrimIs(line[..bar]);
    hide Trim;
    assert |Trim(line[..bar])| <= bar;
  }

  /** What `keep_alive` writes is two such lines. */
  lemma KeepAliveIsTwoLines(resumable: bool)
    ensures Frame([NEWLINE]) == Frames([[], []])
    ensures KeepAlive(Outgoing(None, [])) && Relay([], resumable) == SseEvent(None, None, None, None)
  {
    var blank: seq<byte> := [];
    assert [blank, blank][1..] == [blank];
    FrameAlone(blank);
    assert Frames([blank, blank]) == Frame(blank) + Frames([blank]);
  }
}

/** What a broken stream leaves in the client's parser, which is kept for the next connection, and
    what becomes of the first event that arrives there. */
module Leftovers {
  import opened Sequences
  import opened LineFraming
  import opened SseParsing
  import opened SseDelivery
  import opened ClientStreams

  // ---------- What a broken stream leaves in the parser ----------

  /** A data line that contributes to its message. */
  predicate DataLine(line: string) {
    var f := ParseLine(line);
    f.Data? && f.value != [] && f.value != [NEWLINE]
  }

  function Part(line: string): seq<string> {
    if DataLine(line) then [ParseLine(line).value] else []
  }

  function PartsOf(lines: seq<string>): seq<string> {
    if lines == [] then [] else Part(lines[0]) + PartsOf(lines[1..])
  }

  /** The buffer ends with a complete line and holds no data of an unfinished event. */
  predicate Clear(buffer: string) {
    var (lines, tail) := CompleteLines(buffer);
    tail == [] && forall i :: 0 <= i < |lines| ==> !DataLine(lines[i])
  }

  lemma {:induction false} NoParts(lines: seq<string>)
    ensures PartsOf(lines) == [] <==> forall i :: 0 <= i < |lines| ==> !DataLine(lines[i])
  {
    hide DataLine;
    if lines != [] {
      NoParts(lines[1..]);
      assert forall i :: 0 < i < |lines| ==> lines[i] == lines[1..][i - 1];
      assert forall i :: 0 <= i < |lines| - 1 ==> lines[1..][i] == lines[i + 1];
    }
  }

  lemma {:induction false} PartsAppend(a: seq<string>, b: seq<string>)
    ensures PartsOf(a + b) == PartsOf(a) + PartsOf(b)
  {
    hide Part;
    if a == [] {
      assert a + b == b && [] + PartsOf(b) == PartsOf(b);
    } else {
      assert (a + b)[1..] == a[1..] + b;
      PartsAppend(a[1..], b);
      assert Part(a[0]) + (PartsOf(a[1..]) + PartsOf(b)) == (Part(a[0]) + PartsOf(a[1..])) + PartsOf(b);
    }
  }

  lemma PartsOfOne(line: string)
    ensures PartsOf([line]) == Part(line)
  {
    hide Part;
    assert [line][1..] == [];
    assert PartsOf([line]) == Part(line) + PartsOf([]);
  }

  lemma BlankIsNoData()
    ensures !DataLine([NEWLINE])
  {
    assert [NEWLINE][..0] == [];
    assert TrimNewlines([NEWLINE]) == TrimNewlines([]);
  }

  lemma {:induction false} PartsOfNonEmpty(lines: seq<string>)
    ensures PartsOf(NonEmpty(lines)) == PartsOf(lines)
  {
    BlankIsNoData();
    hide DataLine, ParseLine;
    if lines != [] {
      PartsOfNonEmpty(lines[1..]);
      if lines[0] == [NEWLINE] {
        assert [] + NonEmpty(lines[1..]) == NonEmpty(lines[1..]);
        assert [] + PartsOf(lines[1..]) == PartsOf(lines[1..]);
      } else {
        assert ([lines[0]] + NonEmpty(lines[1..]))[1..] == NonEmpty(lines[1..]);
      }
    }
  }

  lemma {:induction false} GatheredParts(f: Fields, lines: seq<string>)
    ensures GatherAll(f, lines).parts == f.parts + PartsOf(lines)
    decreases |lines|
  {
    hide ParseLine;
    if lines == [] {
      assert f.parts + [] == f.parts;
    } else {
      var g := Gather(f, ParseLine(lines[0]));
      GatheredParts(g, lines[1..]);
      assert g.parts == f.parts + Part(lines[0]);
      assert (f.parts + Part(lines[0])) + PartsOf(lines[1..]) == f.parts + (Part(lines[0]) + PartsOf(lines[1..]));
    }
  }

  function JoinParts(parts: seq<string>): string {
    if parts == [] then [] else Join(parts, NEWLINE)
  }

  /** The data of a message is made of the data lines among its lines. */
  lemma MessageData(lines: seq<string>)
    ensures DataOf(OptionToSeq(ParseMessage(NonEmpty(lines)))) == JoinParts(PartsOf(lines))
  {
    PartsOfNonEmpty(lines);
    GatheredParts(NO_FIELDS, NonEmpty(lines));
    assert [] + PartsOf(lines) == PartsOf(lines);
    hide GatherAll, PartsOf, NonEmpty, Join;
    var m := ParseMessage(NonEmpty(lines));
    if m.Some? {
      OneEvent(m.value);
    }
  }

  /** The parser's buffer is the lines of an unfinished message and an unfinished line. */
  lemma Leftover(s: string)
    ensures var b := Process(s).1;
            var (lines, tail) := CompleteLines(b);
            && AllComplete(lines) && Open(lines) && b == Flatten(lines) + tail && NEWLINE !in tail
            && PushAll([], lines) == ([], lines)
            && lines == PushAll([], CompleteLines(s).0).1 && tail == CompleteLines(s).1
  {
    var (all, tail) := CompleteLines(s);
    var current := PushAll([], all).1;
    LinesAreComplete(s);
    PushAllStaysOpen([], all);
    LinesOfFlatten(current, tail);
    TailHasNoNewline(s);
    hide CompleteLines, PushAll, Complete;
    assert CompleteLines(tail) == ([], tail) by { NoLines(tail); }
    assert current + [] == current;
    RepushOpen(current, 0);
    assert current[..0] == [] && current[0..] == current;
  }

  lemma NoLines(s: string)
    requires NEWLINE !in s
    ensures CompleteLines(s) == ([], s)
  {
    FindNone(s, NEWLINE);
  }

  lemma {:induction false} TailHasNoNewline(s: string)
    ensures NEWLINE !in CompleteLines(s).1
    decreases |s|
  {
    var i := Find(s, NEWLINE);
    if i < |s| {
      TailHasNoNewline(s[i + 1..]);
    }
  }

  // ---------- The next response meets the leftover ----------

  /** Whatever was read before: the events of more text come from the open lines and the lines that
      the text completes, the first of them glued to the unfinished line. */
  lemma ProcessAfter(s: string, text: string)
    ensures var (lines, tail) := CompleteLines(Process(s).1);
            Process(Process(s).1 + text).0 == PushAll(lines, CompleteLines(tail + text).0).0
  {
    Leftover(s);
    var b := Process(s).1;
    var (lines, tail) := CompleteLines(b);
    hide CompleteLines, PushAll, AllComplete, Open;
    assert b + text == Flatten(lines) + (tail + text);
    LinesOfFlatten(lines, tail + text);
    var more := CompleteLines(tail + text).0;
    PushAllAppend([], lines, more);
    assert [] + PushAll(lines, more).0 == PushAll(lines, more).0;
  }

  /** The data that a response delivers to a parser that holds `lines` and `tail`. */
  ghost function DataAfter(lines: seq<string>, tail: string, outs: seq<Outgoing>): string {
    DataOf(PushAll(lines, CompleteLines(tail + FormatAll(RelayAll(Tags(outs), true))).0).0)
  }

  lemma FormatCons(o: Outgoing, outs: seq<Outgoing>)
    ensures FormatAll(RelayAll(Tags([o] + outs), true)) ==
            Format(Relay(Tag(o), true)) + FormatAll(RelayAll(Tags(outs), true))
  {
    hide Relay, Tag, Format;
    assert ([o] + outs)[1..] == outs;
    assert ([Tag(o)] + Tags(outs))[1..] == Tags(outs);
    var es := RelayAll(Tags(outs), true);
    assert ([Relay(Tag(o), true)] + es)[1..] == es;
  }

  /** Between two events, the messages of a response are delivered as they are. */
  lemma DataBetween(current: seq<string>, outs: seq<Outgoing>, max: nat)
    requires Between(current) && Servable(outs, true, max)
    ensures DataAfter(current, [], outs) == Frames(Payloads(Loud(outs)))
  {
    var es := RelayAll(Tags(outs), true);
    RelayTags(outs, true, max);
    hide RelayAll, FormatAll, CompleteLines, PushAll, Clean;
    ParseFormatted(current, es);
    assert [] + FormatAll(es) == FormatAll(es);
    DataOfEvents(Loud(outs));
  }

  lemma PushCons(current: seq<string>, line: string, rest: seq<string>)
    ensures DataOf(PushAll(current, [line] + rest).0) ==
            DataOf(Push(current, line).0) + DataOf(PushAll(Push(current, line).1, rest).0)
  {
    hide Push;
    assert ([line] + rest)[1..] == rest;
    DataOfAppend(Push(current, line).0, PushAll(Push(current, line).1, rest).0);
  }

  /** A blank line ends the open message, if there is one. */
  lemma PushBlank(current: seq<string>, rest: seq<string>)
    ensures DataOf(PushAll(current, [[NEWLINE]] + rest).0) ==
            JoinParts(PartsOf(current)) + DataOf(PushAll([[NEWLINE]], rest).0)
  {
    PushCons(current, [NEWLINE], rest);
    MessageData(current);
    hide ParseMessage, NonEmpty, PushAll, JoinParts;
    if current == [] {
      assert JoinParts(PartsOf(current)) == [] by { NothingHeld(); }
      assert [] + [[NEWLINE]] == [[NEWLINE]];
      NoEvents();
    }
  }

  lemma NothingHeld()
    ensures JoinParts(PartsOf([])) == []
  {
  }

  /** Other lines join the open message. */
  lemma PushOthers(current: seq<string>, lines: seq<string>, rest: seq<string>)
    requires forall i :: 0 <= i < |lines| ==> lines[i] != [NEWLINE]
    ensures DataOf(PushAll(current, lines + rest).0) == DataOf(PushAll(current + lines, rest).0)
  {
    hide PushAll;
    PushProper(current, lines);
    PushAllAppend(current, lines, rest);
    assert [] + PushAll(current + lines, rest).0 == PushAll(current + lines, rest).0;
  }

  lemma BlankIsComplete()
    ensures Complete([NEWLINE])
  {
    FindIs([NEWLINE], NEWLINE, 0);
  }

  // ---------- A keep-alive comes first ----------

  /** The unfinished line, once a newline has ended it. */
  function Completed(tail: string): seq<string> {
    if tail == [] then [] else [tail + [NEWLINE]]
  }

  lemma FormatOfKeepAlive(o: Outgoing, max: nat)
    requires KeepAlive(o)
    ensures Format(Relay(Tag(o), true)) == [NEWLINE]
  {
    RelayOne(o, true, max);
    hide Relay;
    assert EventLines(SseEvent(None, None, None, None)) == [];
  }

  /** Its newline ends the open message when no line is unfinished, else only that line. */
  lemma KeepAliveFirst(lines: seq<string>, tail: string, o: Outgoing, outs: seq<Outgoing>, max: nat)
    requires NEWLINE !in tail && KeepAlive(o) && Servable(outs, true, max)
    ensures DataAfter(lines, tail, [o] + outs) ==
            if tail == [] then JoinParts(PartsOf(lines)) + Frames(Payloads(Loud(outs)))
            else DataAfter(lines + Completed(tail), [], outs)
  {
    assert Between([[NEWLINE]]);
    hide *;
    KeepAliveLines(tail, o, outs, max);
    var text := FormatAll(RelayAll(Tags(outs), true));
    var rest := CompleteLines(text).0;
    DataAfterIs(lines, tail, [o] + outs);
    if tail == [] {
      assert [] + [NEWLINE] == [NEWLINE];
      PushBlank(lines, rest);
      DataBetween([[NEWLINE]], outs, max);
      DataAfterIs([[NEWLINE]], [], outs);
    } else {
      assert |tail + [NEWLINE]| > 1;
      CompletedIs(tail);
      PushOthers(lines, [tail + [NEWLINE]], rest);
      DataAfterIs(lines + Completed(tail), [], outs);
    }
    assert [] + text == text;
  }

  lemma DataAfterIs(lines: seq<string>, tail: string, outs: seq<Outgoing>)
    ensures DataAfter(lines, tail, outs) ==
            DataOf(PushAll(lines, CompleteLines(tail + FormatAll(RelayAll(Tags(outs), true))).0).0)
  {
    hide PushAll, CompleteLines, FormatAll, RelayAll, Tags, DataOf;
  }

  lemma CompletedIs(tail: string)
    requires tail != []
    ensures Completed(tail) == [tail + [NEWLINE]]
  {
  }

  lemma KeepAliveLines(tail: string, o: Outgoing, outs: seq<Outgoing>, max: nat)
    requires NEWLINE !in tail && KeepAlive(o)
    ensures CompleteLines(tail + FormatAll(RelayAll(Tags([o] + outs), true))).0 ==
            [tail + [NEWLINE]] + CompleteLines(FormatAll(RelayAll(Tags(outs), true))).0
  {
    hide Relay, Tag, Format, RelayAll, FormatAll, Tags, CompleteLines, KeepAlive, Complete;
    FormatCons(o, outs);
    FormatOfKeepAlive(o, max);
    var text := FormatAll(RelayAll(Tags(outs), true));
    assert tail + ([NEWLINE] + text) == (tail + [NEWLINE]) + text;
    EndedIsALine(tail);
    LineFirst(tail + [NEWLINE], text);
  }

  lemma EndedIsALine(tail: string)
    requires NEWLINE !in tail
    ensures Complete(tail + [NEWLINE])
  {
    FindIs(tail + [NEWLINE], NEWLINE, |tail|);
  }

  // ---------- A message comes first ----------

  function DataLineOf(m: string): string {
    "data: " + m + [NEWLINE]
  }

  function IdLineOf(id: string): string {
    "id: " + id + [NEWLINE]
  }

  /** The lines of a message's event, the first of them glued to the unfinished line. */
  function Glued(tail: string, o: Outgoing): seq<string> {
    match o.id
    case Some(id) => [tail + IdLineOf(id), DataLineOf(o.payload)]
    case None => [tail + DataLineOf(o.payload)]
  }

  lemma FormatOfMessage(o: Outgoing, max: nat)
    requires Deliverable(o, true, max)
    ensures Format(Relay(Tag(o), true)) ==
            (match o.id case Some(id) => IdLineOf(id) case None => []) + DataLineOf(o.payload) + [NEWLINE]
  {
    DeliverableIsLoud(o, true, max);
    RelayOne(o, true, max);
    var e := SseEvent(None, Some(o.payload), o.id, None);
    var line := DataLineOf(o.payload);
    OneLineOfData(o.payload);
    hide TextLines, Relay, Rejoined;
    assert [o.payload][1..] == [];
    assert DataLines([o.payload]) == [line] + DataLines([]);
    assert FieldLine("retry: ", RetryText(e)) == [] && FieldLine("event: ", e.event) == [];
    FlattenOne(line);
    match o.id {
      case None =>
        assert EventLines(e) == [line];
        assert [] + line == line;
      case Some(id) =>
        assert EventLines(e) == [IdLineOf(id), line];
        assert [IdLineOf(id), line][1..] == [line];
    }
  }

  lemma GluedText(tail: string, o: Outgoing, text: string)
    ensures var event := (match o.id case Some(id) => IdLineOf(id) case None => []) + DataLineOf(o.payload) + [NEWLINE];
            tail + (event + text) == Flatten(Glued(tail, o)) + ([NEWLINE] + text)
  {
    hide DataLineOf, IdLineOf;
    var line := DataLineOf(o.payload);
    match o.id {
      case None =>
        FlattenOne(tail + line);
        Reassociate(tail, [], line, text);
        assert tail + [] == tail;
      case Some(id) =>
        assert [tail + IdLineOf(id), line][1..] == [line];
        FlattenOne(line);
        Reassociate(tail, IdLineOf(id), line, text);
    }
  }

  lemma Reassociate(a: string, b: string, c: string, text: string)
    ensures a + ((b + c + [NEWLINE]) + text) == ((a + b) + c) + ([NEWLINE] + text)
  {
  }

  lemma GluedAreLines(tail: string, o: Outgoing)
    requires NEWLINE !in tail && NEWLINE !in o.payload && OneLine(o.id)
    ensures AllComplete(Glued(tail, o))
    ensures forall i :: 0 <= i < |Glued(tail, o)| ==> Glued(tail, o)[i] != [NEWLINE]
  {
    NamedLineIsProper("data: ", o.payload);
    match o.id {
      case None =>
        NamedLineIsProper(tail + "data: ", o.payload);
        assert tail + DataLineOf(o.payload) == tail + "data: " + o.payload + [NEWLINE];
      case Some(id) =>
        NamedLineIsProper(tail + "id: ", id);
        assert tail + IdLineOf(id) == tail + "id: " + id + [NEWLINE];
    }
  }

  /** The message's lines join the open message, and its blank line ends it. */
  lemma MessageFirst(lines: seq<string>, tail: string, o: Outgoing, outs: seq<Outgoing>, max: nat)
    requires NEWLINE !in tail && Deliverable(o, true, max) && Servable(outs, true, max)
    ensures DataAfter(lines, tail, [o] + outs) ==
            JoinParts(PartsOf(lines) + PartsOf(Glued(tail, o))) + Frames(Payloads(Loud(outs)))
  {
    FormatCons(o, outs);
    FormatOfMessage(o, max);
    DataBetween([[NEWLINE]], outs, max);
    GluedAreLines(tail, o);
    hide Relay, Tag, Format, RelayAll, FormatAll, Tags, PushAll, CompleteLines, Servable, JoinParts, PartsOf, Loud,
         Glued, DataLineOf, IdLineOf, Complete;
    var text := FormatAll(RelayAll(Tags(outs), true));
    var rest := CompleteLines(text).0;
    GluedText(tail, o, text);
    LinesOfFlatten(Glued(tail, o), [NEWLINE] + text);
    BlankIsComplete();
    LineFirst([NEWLINE], text);
    PushOthers(lines, Glued(tail, o), [[NEWLINE]] + rest);
    PushBlank(lines + Glued(tail, o), rest);
    PartsAppend(lines, Glued(tail, o));
    assert [] + text == text;
  }

  // ---------- What the glued lines contribute ----------

  lemma TrimsOneNewline(x: string)
    requires x != [] && x[|x| - 1] != NEWLINE
    ensures TrimNewlines(x + [NEWLINE]) == x
  {
    assert (x + [NEWLINE])[..|x|] == x;
  }

  lemma PartOfDataLine(m: string)
    requires m != []
    ensures Part(DataLineOf(m)) == [m + [NEWLINE]]
  {
    ParseDataLine(m);
    assert |m + [NEWLINE]| >= 2;
  }

  /** An unfinished data line keeps what is glued to it as data. */
  lemma GluedToData(tail: string, line: string)
    requires "data: " <= tail && |line| > 1
    ensures Part(tail + line) == [tail[6..] + line]
  {
    assert (tail + line)[6..] == tail[6..] + line && "data: " <= tail + line;
    assert (tail + line)[0] == 'd';
  }

  /** Any other unfinished line makes no data line with what is glued to it. */
  lemma GluedToOther(tail: string, text: string)
    requires tail != [] && !("data: " <= tail) && NEWLINE !in tail
    requires |text| > 3 && NEWLINE !in text && (text[0] == 'd' || text[0] == 'i')
    requires text[0] == 'd' ==> "data: " <= text
    ensures Part(tail + (text + [NEWLINE])) == []
  {
    var line := tail + (text + [NEWLINE]);
    var all := tail + text;
    assert line == all + [NEWLINE] && all[|all| - 1] == text[|text| - 1];
    TrimsOneNewline(all);
    // A prefix "data: " would end inside the text glued on, which does not fit there.
    assert line[|tail|] == all[|tail|] == text[0];
    assert "data: " <= line ==> |tail| < 6;
    hide TrimNewlines;
  }

  lemma PartsOfGlued(tail: string, o: Outgoing)
    requires NEWLINE !in tail && o.payload != [] && NEWLINE !in o.payload && OneLine(o.id)
    ensures PartsOf(Glued(tail, o)) == GluedParts(tail, o)
  {
    var m := o.payload;
    PartOfDataLine(m);
    if o.id.Some? {
      var id := o.id.value;
      var first := tail + IdLineOf(id);
      PartsAppend([first], [DataLineOf(m)]);
      PartsOfOne(first);
      PartsOfOne(DataLineOf(m));
      assert [first] + [DataLineOf(m)] == Glued(tail, o);
      if "data: " <= tail {
        GluedToData(tail, IdLineOf(id));
      } else if tail != [] {
        GluedToOther(tail, "id: " + id);
        assert [] + [m + [NEWLINE]] == [m + [NEWLINE]];
      } else {
        ParseFieldLines(id);
        assert first == IdLineOf(id);
        assert [] + [m + [NEWLINE]] == [m + [NEWLINE]];
      }
    } else {
      PartsOfOne(tail + DataLineOf(m));
      if tail == [] {
        assert tail + DataLineOf(m) == DataLineOf(m);
      } else if "data: " <= tail {
        GluedToData(tail, DataLineOf(m));
      } else {
        GluedToOther(tail, "data: " + m);
      }
    }
  }

  // ---------- When the messages get through ----------

  lemma {:induction false} FramesOfText(x: string)
    ensures Frames(Split(x, NEWLINE)) == x + [NEWLINE]
    decreases |x|
  {
    var i := Find(x, NEWLINE);
    if i == |x| {
      FrameAlone(x);
    } else {
      var rest := x[i + 1..];
      FramesOfText(rest);
      var pieces := Split(x, NEWLINE);
      assert pieces == [x[..i]] + Split(rest, NEWLINE);
      assert pieces[1..] == Split(rest, NEWLINE);
      assert x == x[..i] + [NEWLINE] + rest;
    }
  }

  lemma {:induction false} FramesAppend(a: seq<string>, b: seq<string>)
    ensures Frames(a + b) == Frames(a) + Frames(b)
  {
    hide Frame;
    if a == [] {
      assert a + b == b && [] + Frames(b) == Frames(b);
    } else {
      assert (a + b)[1..] == a[1..] + b;
      FramesAppend(a[1..], b);
      assert Frame(a[0]) + (Frames(a[1..]) + Frames(b)) == (Frame(a[0]) + Frames(a[1..])) + Frames(b);
    }
  }

  lemma {:induction false} LinesLength(ps: seq<string>)
    ensures |Lines(ps)| == |ps|
  {
    if ps != [] {
      LinesLength(ps[1..]);
    }
  }

  lemma {:induction false} ClassifyLength(pieces: seq<string>, max: nat)
    ensures |ClassifyAll(pieces, max)| == |pieces|
  {
    if pieces != [] {
      ClassifyLength(pieces[1..], max);
    }
  }

  /** Text and a newline, in front of surviving messages, reads as one message iff it is one line
      that reads as that message. */
  lemma TextInFront(x: string, m: string, rest: seq<string>, max: nat, end: StreamEnd)
    requires forall p :: p in rest ==> Survives(p, max)
    ensures Outcomes((x + [NEWLINE]) + Frames(rest), max, end) == Lines([m] + rest) <==>
            NEWLINE !in x && Classify(x, max) == Line(m)
  {
    var pieces := Split(x, NEWLINE);
    FramesOfText(x);
    SplitThenJoin(x, NEWLINE);
    FramesAppend(pieces, rest);
    assert Free(pieces + rest, NEWLINE);
    OutcomesOfFrames(pieces + rest, max, end);
    SurvivorsComeBack(rest, max, end);
    OutcomesOfFrames(rest, max, end);
    ClassifyLength(pieces + rest, max);
    LinesLength([m] + rest);
    ClassifyAppend(pieces, rest, max);
    if NEWLINE !in x {
      FindNone(x, NEWLINE);
      assert pieces == [x] && pieces[1..] == [];
    }
    hide Outcomes, Frames, Survives, Split;
    assert ([m] + rest)[1..] == rest;
    assert Lines([m] + rest) == [Line(m)] + Lines(rest);
    if |pieces| == 1 {
      JoinOne(pieces);
      assert pieces == [x] && x in pieces && NEWLINE !in x;
      assert [x][1..] == [] && ClassifyAll([x], max) == [Classify(x, max)] + ClassifyAll([], max);
      assert ClassifyAll(pieces + rest, max) == [Classify(x, max)] + Lines(rest);
      assert ([Classify(x, max)] + Lines(rest))[0] == Classify(x, max);
      assert ([Line(m)] + Lines(rest))[0] == Line(m);
    } else {
      assert |ClassifyAll(pieces + rest, max)| != |Lines([m] + rest)|;
    }
  }

  lemma JoinOne(pieces: seq<string>)
    requires |pieces| == 1
    ensures Join(pieces, NEWLINE) == pieces[0]
  {
  }

  /** A line of data: text without newlines, and a newline. */
  predicate Ended(part: string) {
    part != [] && part[|part| - 1] == NEWLINE && NEWLINE !in part[..|part| - 1]
  }

  lemma {:induction false} PartsAreEnded(lines: seq<string>)
    requires AllComplete(lines)
    ensures forall i :: 0 <= i < |PartsOf(lines)| ==> Ended(PartsOf(lines)[i])
  {
    if lines != [] {
      PartsAreEnded(lines[1..]);
      PartIsEnded(lines[0]);
      hide Part, Complete, Ended;
    }
  }

  lemma PartIsEnded(line: string)
    requires Complete(line)
    ensures forall i :: 0 <= i < |Part(line)| ==> Ended(Part(line)[i])
  {
    hide TrimNewlines;
    if DataLine(line) {
      assert line[6..][..|line| - 7] == line[6..|line| - 1];
    }
  }

  /** Data lines joined in front of the message: the messages arrive iff there are none. */
  lemma JoinedInFront(parts: seq<string>, m: string, rest: seq<string>, max: nat, end: StreamEnd)
    requires Survives(m, max) && forall p :: p in rest ==> Survives(p, max)
    ensures Outcomes(JoinParts(parts + [m + [NEWLINE]]) + Frames(rest), max, end) == Lines([m] + rest) <==> parts == []
  {
    hide Outcomes;
    if parts == [] {
      assert parts + [m + [NEWLINE]] == [m + [NEWLINE]];
      JoinOne([m + [NEWLINE]]);
      TextInFront(m, m, rest, max, end);
    } else {
      NewlineInside(parts, m);
      var data := Join(parts + [m + [NEWLINE]], NEWLINE);
      var x := data[..|data| - 1];
      assert data == x + [NEWLINE];
      TextInFront(x, m, rest, max, end);
    }
  }

  /** Data released before the messages: they arrive alone iff there is none. */
  lemma ReleasedInFront(parts: seq<string>, messages: seq<string>, max: nat, end: StreamEnd)
    requires forall i :: 0 <= i < |parts| ==> Ended(parts[i])
    requires forall p :: p in messages ==> Survives(p, max)
    ensures Outcomes(JoinParts(parts) + Frames(messages), max, end) == Lines(messages) <==> parts == []
  {
    SurvivorsComeBack(messages, max, end);
    if parts == [] {
      assert [] + Frames(messages) == Frames(messages);
    } else {
      var x := TextOfParts(parts);
      var pieces := Split(x, NEWLINE);
      FramesOfText(x);
      SplitThenJoin(x, NEWLINE);
      FramesAppend(pieces, messages);
      assert Free(pieces + messages, NEWLINE);
      OutcomesOfFrames(pieces + messages, max, end);
      ClassifyLength(pieces + messages, max);
      LinesLength(messages);
    }
  }

  /** Data lines joined: text and a newline, on one line only if there is one of them. */
  lemma TextOfParts(parts: seq<string>) returns (x: string)
    requires parts != [] && forall i :: 0 <= i < |parts| ==> Ended(parts[i])
    ensures JoinParts(parts) == x + [NEWLINE]
    ensures if |parts| == 1 then parts[0] == x + [NEWLINE] else NEWLINE in x
  {
    var last := parts[|parts| - 1];
    var front, m := parts[..|parts| - 1], last[..|last| - 1];
    assert Ended(last);
    assert last == m + [NEWLINE];
    assert parts == front + [last];
    if front == [] {
      JoinOne(parts);
      x := m;
    } else {
      NewlineInside(front, m);
      var data := Join(parts, NEWLINE);
      x := data[..|data| - 1];
      assert data == x + [NEWLINE];
    }
  }

  /** Parts joined with one more line: a newline before the last character, and
      one at the end. */
  lemma NewlineInside(parts: seq<string>, m: string)
    requires parts != []
    ensures var data := Join(parts + [m + [NEWLINE]], NEWLINE);
            |data| > 1 && data[|data| - 1] == NEWLINE && NEWLINE in data[..|data| - 1]
  {
    var rest := parts[1..] + [m + [NEWLINE]];
    assert (parts + [m + [NEWLINE]])[1..] == rest;
    var data := Join(parts + [m + [NEWLINE]], NEWLINE);
    assert data == parts[0] + [NEWLINE] + Join(rest, NEWLINE);
    JoinEnds(parts[1..], m);
    assert data[..|data| - 1][|parts[0]|] == NEWLINE;
  }

  lemma {:induction false} JoinEnds(parts: seq<string>, m: string)
    ensures var data := Join(parts + [m + [NEWLINE]], NEWLINE); data != [] && data[|data| - 1] == NEWLINE
  {
    if parts == [] {
      assert parts + [m + [NEWLINE]] == [m + [NEWLINE]];
    } else {
      JoinEnds(parts[1..], m);
      assert (parts + [m + [NEWLINE]])[1..] == parts[1..] + [m + [NEWLINE]];
    }
  }

  /** When the messages of a response get through to a client whose parser holds `lines` and `tail`:
      if a keep-alive comes first, iff no data is held once the unfinished line is ended (or nothing is
      there to release it); if a message with an id does, iff no data is held and the unfinished line
      is no data line; if a message without an id does, iff nothing of an unfinished event is held, or
      what is held is one line that reads as that message and the message itself is lost in an
      unfinished line that is no data line. */
  ghost predicate Admits(lines: seq<string>, tail: string, outs: seq<Outgoing>, max: nat) {
    if outs == [] then true
    else if KeepAlive(outs[0]) then
      PartsOf(lines + Completed(tail)) == [] || (tail != [] && |outs| == 1)
    else if outs[0].id.Some? then
      PartsOf(lines) == [] && !("data: " <= tail)
    else if tail == [] then
      PartsOf(lines) == []
    else
      && !("data: " <= tail) && |PartsOf(lines)| == 1
      && exists x :: PartsOf(lines)[0] == x + [NEWLINE] && Classify(x, max) == Line(outs[0].payload)
  }

  lemma PayloadsOfLoud(o: Outgoing, outs: seq<Outgoing>)
    ensures Payloads(Loud([o] + outs)) ==
            if KeepAlive(o) then Payloads(Loud(outs)) else [o.payload] + Payloads(Loud(outs))
  {
    hide KeepAlive;
    assert ([o] + outs)[1..] == outs;
    if KeepAlive(o) {
      assert [] + Loud(outs) == Loud(outs);
    } else {
      assert ([o] + Loud(outs))[1..] == Loud(outs);
    }
  }

  lemma LoudSurvive(outs: seq<Outgoing>, max: nat)
    requires Servable(outs, true, max)
    ensures forall p :: p in Payloads(Loud(outs)) ==> Survives(p, max)
  {
    LoudAreDeliverable(outs, true, max);
    hide Servable, Loud;
    PayloadsSurvive(Loud(outs), true, max);
  }

  lemma MessageGetsThroughIff(lines: seq<string>, tail: string, o: Outgoing, outs: seq<Outgoing>, max: nat,
                              end: StreamEnd)
    requires AllComplete(lines) && NEWLINE !in tail && Deliverable(o, true, max) && Servable(outs, true, max)
    ensures Outcomes(DataAfter(lines, tail, [o] + outs), max, end) == Lines(Payloads(Loud([o] + outs))) <==>
            Admits(lines, tail, [o] + outs, max)
  {
    DeliverableIsLoud(o, true, max);
    MessageFirst(lines, tail, o, outs, max);
    PayloadsOfLoud(o, outs);
    LoudSurvive(outs, max);
    PartsAreEnded(lines);
    PartsOfGlued(tail, o);
    var m, rest := o.payload, Payloads(Loud(outs));
    assert Survives(m, max) && m != [];
    assert ([o] + outs)[0] == o;
    hide DataAfter, KeepAlive, Servable, Loud, Payloads, AllComplete, Outcomes, Glued, JoinParts, Deliverable;
    GetsThroughIff(PartsOf(lines), tail, o, rest, max, end);
  }

  /** The lines of data a message's event adds to what is open. */
  function GluedParts(tail: string, o: Outgoing): seq<string> {
    if o.id.Some? then
      (if "data: " <= tail then [tail[6..] + IdLineOf(o.id.value)] else []) + [o.payload + [NEWLINE]]
    else if tail == [] then [o.payload + [NEWLINE]]
    else if "data: " <= tail then [tail[6..] + DataLineOf(o.payload)]
    else []
  }

  lemma GetsThroughIff(parts: seq<string>, tail: string, o: Outgoing, rest: seq<string>, max: nat, end: StreamEnd)
    requires forall i :: 0 <= i < |parts| ==> Ended(parts[i])
    requires o.payload != [] && Survives(o.payload, max) && forall p :: p in rest ==> Survives(p, max)
    ensures Outcomes(JoinParts(parts + GluedParts(tail, o)) + Frames(rest), max, end) == Lines([o.payload] + rest) <==>
            if o.id.Some? then parts == [] && !("data: " <= tail)
            else if tail == [] then parts == []
            else
              && !("data: " <= tail) && |parts| == 1
              && exists x :: parts[0] == x + [NEWLINE] && Classify(x, max) == Line(o.payload)
  {
    hide Outcomes, JoinParts, Frames, Lines, Survives, Ended, Classify;
    var m := o.payload;
    if o.id.Some? || tail == [] {
      var before := if o.id.Some? && "data: " <= tail then [tail[6..] + IdLineOf(o.id.value)] else [];
      assert GluedParts(tail, o) == before + [m + [NEWLINE]];
      assert parts + (before + [m + [NEWLINE]]) == (parts + before) + [m + [NEWLINE]];
      assert before == [] ==> parts + before == parts;
      JoinedInFront(parts + before, m, rest, max, end);
    } else if "data: " <= tail {
      LostInDataLine(parts, tail, m, rest, max, end);
    } else {
      assert parts + [] == parts;
      HeldInstead(parts, m, rest, max, end);
    }
  }

  /** A message glued to an unfinished data line does not get through. */
  lemma LostInDataLine(parts: seq<string>, tail: string, m: string, rest: seq<string>, max: nat, end: StreamEnd)
    requires "data: " <= tail && m != [] && Survives(m, max) && forall p :: p in rest ==> Survives(p, max)
    ensures Outcomes(JoinParts(parts + [tail[6..] + DataLineOf(m)]) + Frames(rest), max, end) != Lines([m] + rest)
  {
    var x := tail[6..] + ("data: " + m);
    assert tail[6..] + DataLineOf(m) == x + [NEWLINE];
    assert x[|x| - 1] == m[|m| - 1] && StripCr(x) == x && |x| > |m|;
    hide Outcomes;
    if parts == [] {
      assert parts + [x + [NEWLINE]] == [x + [NEWLINE]];
      JoinOne([x + [NEWLINE]]);
      TextInFront(x, m, rest, max, end);
    } else {
      NewlineInside(parts, x);
      var data := Join(parts + [x + [NEWLINE]], NEWLINE);
      var text := data[..|data| - 1];
      assert data == text + [NEWLINE];
      TextInFront(text, m, rest, max, end);
    }
  }

  /** What is held arrives in place of a message that is lost. */
  lemma HeldInstead(parts: seq<string>, m: string, rest: seq<string>, max: nat, end: StreamEnd)
    requires forall i :: 0 <= i < |parts| ==> Ended(parts[i])
    requires Survives(m, max) && forall p :: p in rest ==> Survives(p, max)
    ensures Outcomes(JoinParts(parts) + Frames(rest), max, end) == Lines([m] + rest) <==>
            |parts| == 1 && exists x :: parts[0] == x + [NEWLINE] && Classify(x, max) == Line(m)
  {
    hide Outcomes;
    if parts == [] {
      assert [] + Frames(rest) == Frames(rest);
      SurvivorsComeBack(rest, max, end);
      LinesLength(rest);
      LinesLength([m] + rest);
    } else {
      var x := TextOfParts(parts);
      TextInFront(x, m, rest, max, end);
      if |parts| == 1 {
        assert Ended(parts[0]);
        assert parts[0][..|parts[0]| - 1] == x;
        forall y | parts[0] == y + [NEWLINE] ensures y == x {
          assert y == parts[0][..|parts[0]| - 1];
        }
      }
    }
  }

  /** Whatever bytes the parser has read before, over any number of broken streams: the messages of the
      next response arrive, exactly and in order, iff `Admits` what the parser holds. */
  lemma MessagesArriveIff(s: string, outs: seq<Outgoing>, max: nat, end: StreamEnd)
    requires Servable(outs, true, max)
    ensures var (lines, tail) := CompleteLines(Process(s).1);
            Outcomes(DataAfter(lines, tail, outs), max, end) == Lines(Payloads(Loud(outs))) <==>
            Admits(lines, tail, outs, max)
  {
    Leftover(s);
    var (lines, tail) := CompleteLines(Process(s).1);
    hide Process, CompleteLines, Open, PushAll;
    if outs == [] {
      NothingSent(lines, tail, max, end);
    } else {
      var o, rest := outs[0], outs[1..];
      assert outs == [o] + rest && Servable(rest, true, max);
      if KeepAlive(o) {
        QuietFirstIff(lines, tail, o, rest, max, end);
      } else {
        MessageGetsThroughIff(lines, tail, o, rest, max, end);
      }
    }
  }

  lemma NothingSent(lines: seq<string>, tail: string, max: nat, end: StreamEnd)
    requires NEWLINE !in tail
    ensures Outcomes(DataAfter(lines, tail, []), max, end) == Lines(Payloads(Loud([])))
  {
    NothingSentData(lines, tail);
    SurvivorsComeBack([], max, end);
  }

  lemma NothingSentData(lines: seq<string>, tail: string)
    requires NEWLINE !in tail
    ensures DataAfter(lines, tail, []) == []
  {
    assert tail + [] == tail;
    NoLines(tail);
    NoEvents();
  }

  lemma QuietFirstIff(lines: seq<string>, tail: string, o: Outgoing, outs: seq<Outgoing>, max: nat, end: StreamEnd)
    requires AllComplete(lines) && NEWLINE !in tail && KeepAlive(o) && Servable(outs, true, max)
    ensures Outcomes(DataAfter(lines, tail, [o] + outs), max, end) == Lines(Payloads(Loud([o] + outs))) <==>
            Admits(lines, tail, [o] + outs, max)
  {
    KeepAliveFirst(lines, tail, o, outs, max);
    PayloadsOfLoud(o, outs);
    LoudSurvive(outs, max);
    PartsAreEnded(lines);
    assert ([o] + outs)[0] == o;
    var messages := Payloads(Loud(outs));
    if tail == [] {
      assert lines + [] == lines;
      hide DataAfter, Outcomes, JoinParts, KeepAlive, PartsOf;
      ReleasedInFront(PartsOf(lines), messages, max, end);
    } else {
      EndedIsALine(tail);
      var open := lines + Completed(tail);
      assert AllComplete(open);
      hide DataAfter, Outcomes, Completed;
      ClosedLineIff(open, outs, max, end);
    }
  }

  /** With no line unfinished, everything depends on the data held. */
  lemma ClosedLineIff(lines: seq<string>, outs: seq<Outgoing>, max: nat, end: StreamEnd)
    requires AllComplete(lines) && Servable(outs, true, max)
    ensures Outcomes(DataAfter(lines, [], outs), max, end) == Lines(Payloads(Loud(outs))) <==>
            PartsOf(lines) == [] || outs == []
  {
    if outs == [] {
      NothingSent(lines, [], max, end);
    } else {
      var o, rest := outs[0], outs[1..];
      assert outs == [o] + rest && Servable(rest, true, max);
      if KeepAlive(o) {
        KeepAliveFirst(lines, [], o, rest, max);
        PayloadsOfLoud(o, rest);
        LoudSurvive(rest, max);
        PartsAreEnded(lines);
        hide DataAfter, Outcomes, JoinParts, KeepAlive, PartsOf;
        ReleasedInFront(PartsOf(lines), Payloads(Loud(rest)), max, end);
      } else {
        MessageGetsThroughIff(lines, [], o, rest, max, end);
      }
    }
  }

  // ---------- The leftover of a server's stream ----------

  /** A prefix of complete lines holds the first of them and a proper part of the next. */
  lemma {:induction false} PrefixOfLines(all: seq<string>, s: string)
    requires AllComplete(all) && s <= Flatten(all)
    ensures var (lines, tail) := CompleteLines(s);
            && lines <= all
            && (tail != [] ==> |lines| < |all| && |tail| < |all[|lines|]|)
    decreases |all|
  {
    hide Complete, CompleteLines;
    if s == [] {
      NoLines(s);
    } else if |s| < |all[0]| {
      assert Complete(all[0]) && s == all[0][..|s|];
      NoNewlineYet(all[0], |s|);
      NoLines(s);
    } else {
      var head, rest := all[0], s[|all[0]|..];
      assert Complete(head) && AllComplete(all[1..]);
      CancelPrefix(head, rest, Flatten(all[1..]), s);
      PrefixOfLines(all[1..], rest);
      LineFirst(head, rest);
      var (lines, tail) := CompleteLines(rest);
      hide Flatten, AllComplete;
      assert all == [head] + all[1..];
    }
  }

  lemma CancelPrefix(head: string, rest: string, more: string, s: string)
    requires s <= head + more && |head| <= |s| && rest == s[|head|..]
    ensures s == head + rest && rest <= more
  {
    assert s[..|head|] == head;
  }

  lemma NoNewlineYet(line: string, n: nat)
    requires Complete(line) && n < |line|
    ensures NEWLINE !in line[..n]
  {
  }

  /** An event as the relay sends it: a blank one, or data of one line and perhaps an id. */
  predicate Relayed(e: SseEvent) {
    && e.event.None? && e.retry.None? && OneLine(e.id)
    && (if e.data.Some? then e.data.value != [] && NEWLINE !in e.data.value else e.id.None?)
  }

  lemma RelayedLines(e: SseEvent)
    requires Relayed(e)
    ensures Clean(e)
    ensures EventLines(e) == FieldLine("id: ", e.id) + (if e.data.Some? then [DataLineOf(e.data.value)] else [])
    ensures PartsOf(FieldLine("id: ", e.id)) == []
  {
    if e.data.Some? {
      var d := e.data.value;
      OneLineOfData(d);
      assert [d][1..] == [];
      assert DataLines([d]) == [DataLineOf(d)] + DataLines([]);
    }
    hide TextLines;
    assert FieldLine("retry: ", RetryText(e)) == [] && FieldLine("event: ", e.event) == [];
    assert [] + FieldLine("id: ", e.id) + [] == FieldLine("id: ", e.id);
    if e.id.Some? {
      ParseFieldLines(e.id.value);
      hide ParseLine;
      PartsOfOne("id: " + e.id.value + [NEWLINE]);
    }
  }

  /** Wherever a server's stream breaks: the open message has its data line complete only if no line
      is unfinished. */
  lemma {:induction false} ServerLeftover(current: seq<string>, es: seq<SseEvent>, s: string)
    requires Between(current)
    requires forall i :: 0 <= i < |es| ==> Relayed(es[i])
    requires s <= FormatAll(es)
    ensures var (lines, tail) := CompleteLines(s);
            PartsOf(PushAll(current, lines).1) == [] || tail == []
    decreases |es|
  {
    if es == [] {
      NoLines(s);
    } else {
      var e := es[0];
      assert Relayed(e);
      hide CompleteLines, Relayed, Format, PushAll, PartsOf;
      assert FormatAll(es) == Format(e) + FormatAll(es[1..]);
      if |s| <= |Format(e)| {
        FormatIsFlat(e);
        assert s <= Format(e);
        WithinEvent(current, e, s);
      } else {
        var rest := s[|Format(e)|..];
        CancelPrefix(Format(e), rest, FormatAll(es[1..]), s);
        hide FormatAll;
        ServerLeftover([[NEWLINE]], es[1..], rest);
        AfterEvent(current, e, rest);
      }
    }
  }

  lemma FormatIsFlat(e: SseEvent)
    ensures Format(e) == Flatten(EventLines(e) + [[NEWLINE]])
  {
    hide EventLines;
    FlattenAppend(EventLines(e), [[NEWLINE]]);
    FlattenOne([NEWLINE]);
  }

  lemma AfterEvent(current: seq<string>, e: SseEvent, rest: string)
    requires Between(current) && Relayed(e)
    ensures var (lines, tail) := CompleteLines(rest);
            && CompleteLines(Format(e) + rest).1 == tail
            && PushAll(current, CompleteLines(Format(e) + rest).0).1 == PushAll([[NEWLINE]], lines).1
  {
    RelayedLines(e);
    EventLinesAreProper(e);
    FormatIsLines(e, rest);
    hide CompleteLines, Format, PushAll, EventLines;
    PushEvent(current, EventLines(e));
    PushAllAppend(current, EventLines(e) + [[NEWLINE]], CompleteLines(rest).0);
  }

  lemma WithinEvent(current: seq<string>, e: SseEvent, s: string)
    requires Between(current) && Relayed(e) && s <= Flatten(EventLines(e) + [[NEWLINE]])
    ensures var (lines, tail) := CompleteLines(s);
            PartsOf(PushAll(current, lines).1) == [] || tail == []
  {
    RelayedLines(e);
    EventLinesAreProper(e);
    BlankIsComplete();
    var own := EventLines(e);
    var all := own + [[NEWLINE]];
    hide Relayed, EventLines, Complete, CompleteLines, ParseLine;
    assert AllComplete(all);
    PrefixOfLines(all, s);
    var (lines, tail) := CompleteLines(s);
    if tail != [] {
      assert |lines| < |own|;
      var id := FieldLine("id: ", e.id);
      assert lines <= id;
      PushProper(current, lines);
      PrefixParts(id, lines);
      PartsAppend(current, lines);
      BetweenHasNoParts(current);
    }
  }

  lemma PrefixParts(all: seq<string>, lines: seq<string>)
    requires lines <= all && PartsOf(all) == []
    ensures PartsOf(lines) == []
  {
    hide PartsOf;
    PartsAppend(lines, all[|lines|..]);
    assert all == lines + all[|lines|..];
  }

  lemma BetweenHasNoParts(current: seq<string>)
    requires Between(current)
    ensures PartsOf(current) == []
  {
    BlankIsNoData();
    if current != [] {
      PartsOfOne([NEWLINE]);
    }
  }
}

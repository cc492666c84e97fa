/** The incremental Server-Sent Events parser (`sse_parser.rs`): bytes arrive in chunks, complete
    lines are grouped into messages, and whatever is incomplete goes back into the buffer. */
module SseParsing {
  import opened Sequences
  import opened LineFraming
  import opened Text

  datatype SseEvent = SseEvent(event: Option<string>, data: Option<string>, id: Option<string>, retry: Option<nat>)

  // ---------- One message ----------

  datatype Field = Data(value: string) | Event(value: string) | Id(value: string) | Retry(value: string) | Skip

  /** What one line (newline included) contributes. */
  function ParseLine(line: string): Field {
    if line == [] || line[0] == ':' then Skip
    else if "data: " <= line then Data(line[6..])
    else if TrimNewlines(line) == "data:" then Data([])
    else if "event: " <= line then Event(Trim(line[7..]))
    else if "id: " <= line then Id(Trim(line[4..]))
    else if "retry: " <= line then Retry(Trim(line[7..]))
    else Skip
  }

  /** What each form of line means; `data:` may stand alone. */
  lemma LineMeans(v: string, n: nat)
    ensures ParseLine("data: " + v) == Data(v)
    ensures ParseLine("data:" + Newlines(n)) == Data([])
    ensures ParseLine("event: " + v) == Event(Trim(v))
    ensures ParseLine("id: " + v) == Id(Trim(v))
    ensures ParseLine("retry: " + v) == Retry(Trim(v))
    ensures ParseLine(":" + v) == Skip
  {
    NamedLineMeans("event: ", v);
    NamedLineMeans("id: ", v);
    NamedLineMeans("retry: ", v);
    NewlinesGo("data:", n);
    hide Trim;
    var bare, line := "data:" + Newlines(n), "data: " + v;
    assert n > 0 ==> bare[5] == NEWLINE;
    hide TrimNewlines, Newlines;
    assert bare[0] == 'd' && !("data: " <= bare);
    assert line[0] == 'd' && line[6..] == v;
  }

  lemma NamedLineMeans(name: string, v: string)
    requires name in ["event: ", "id: ", "retry: "]
    ensures ParseLine(name + v) ==
            if name[0] == 'e' then Event(Trim(v)) else if name[0] == 'i' then Id(Trim(v)) else Retry(Trim(v))
  {
    var line := name + v;
    WithoutNewlines(line);
    hide TrimNewlines, Trim, Newlines;
    assert line[0] == name[0] && name[0] != 'd' && line[|name|..] == v;
    assert !("data: " <= line) && TrimNewlines(line) != "data:";
  }

  /** Whatever else a line is, it is skipped. */
  lemma OtherLinesAreSkipped(line: string)
    requires !("data: " <= line) && !("event: " <= line) && !("id: " <= line) && !("retry: " <= line)
    requires forall n: nat :: line != "data:" + Newlines(n)
    ensures ParseLine(line) == Skip
  {
    WithoutNewlines(line);
    assert line == TrimNewlines(line) + Newlines(|line| - |TrimNewlines(line)|);
  }

  lemma {:induction false} WithoutNewlines(s: string)
    ensures TrimNewlines(s) <= s && s == TrimNewlines(s) + Newlines(|s| - |TrimNewlines(s)|)
  {
    if s != [] && s[|s| - 1] == NEWLINE {
      WithoutNewlines(s[..|s| - 1]);
    }
  }

  lemma {:induction false} NewlinesGo(s: string, n: nat)
    requires s != [] && s[|s| - 1] != NEWLINE
    ensures TrimNewlines(s + Newlines(n)) == s
  {
    if n == 0 {
      assert s + Newlines(0) == s;
    } else {
      NewlinesGo(s, n - 1);
      assert (s + Newlines(n))[..|s| + n - 1] == s + Newlines(n - 1);
    }
  }

  function Newlines(n: nat): string {
    seq(n, i => NEWLINE)
  }

  function TrimNewlines(s: string): string {
    if s != [] && s[|s| - 1] == NEWLINE then TrimNewlines(s[..|s| - 1]) else s
  }

  /** The fields gathered so far; a repeated field other than data keeps its last value. */
  datatype Fields = Fields(event: Option<string>, id: Option<string>, retry: Option<string>,
                           parts: seq<string>, sawData: bool)

  const NO_FIELDS := Fields(None, None, None, [], false)

  function Gather(f: Fields, field: Field): Fields {
    match field
    case Data(value) =>
      f.(sawData := true, parts := if value == [] || value == [NEWLINE] then f.parts else f.parts + [value])
    case Event(value) => f.(event := Some(value))
    case Id(value) => f.(id := Some(value))
    case Retry(value) => f.(retry := Some(value))
    case Skip => f
  }

  function GatherAll(f: Fields, lines: seq<string>): Fields
    decreases |lines|
  {
    if lines == [] then f else GatherAll(Gather(f, ParseLine(lines[0])), lines[1..])
  }

  function ToEvent(f: Fields): Option<SseEvent> {
    var data := if f.parts == [] then None else Some(Join(f.parts, NEWLINE));
    var retry := match f.retry case Some(r) => ParseUnsigned(Trim(r), U64_LIMIT) case None => None;
    if data.None? && f.id.None? && retry.None? && f.event.None? && !f.sawData then None
    else Some(SseEvent(f.event, data, f.id, retry))
  }

  function ParseMessage(lines: seq<string>): Option<SseEvent> {
    ToEvent(GatherAll(NO_FIELDS, lines))
  }

  /** A comment or unknown line anywhere in a message makes no difference to it. */
  lemma {:induction false} SkippedLinesDoNotMatter(f: Fields, before: seq<string>, line: string, after: seq<string>)
    requires ParseLine(line).Skip?
    ensures GatherAll(f, before + [line] + after) == GatherAll(f, before + after)
    decreases |before|
  {
    hide ParseLine;
    if before == [] {
      assert ([] + [line] + after)[1..] == after && [] + after == after;
    } else {
      assert (before + [line] + after)[1..] == before[1..] + [line] + after;
      assert (before + after)[1..] == before[1..] + after;
      SkippedLinesDoNotMatter(Gather(f, ParseLine(before[0])), before[1..], line, after);
    }
  }

  /** So with comments. */
  lemma CommentsDoNotMatter(f: Fields, before: seq<string>, text: string, after: seq<string>)
    ensures GatherAll(f, before + [":" + text] + after) == GatherAll(f, before + after)
  {
    assert ParseLine(":" + text).Skip?;
    SkippedLinesDoNotMatter(f, before, ":" + text, after);
  }

  // ---------- The stream ----------

  /** The complete lines of `s`, newlines included, and the bytes after the last of them. */
  function CompleteLines(s: string): (seq<string>, string)
    decreases |s|
  {
    var i := Find(s, NEWLINE);
    if i == |s| then ([], s)
    else
      var (lines, tail) := CompleteLines(s[i + 1..]);
      ([s[..i + 1]] + lines, tail)
  }

  function NonEmpty(lines: seq<string>): seq<string> {
    if lines == [] then []
    else (if lines[0] == [NEWLINE] then [] else [lines[0]]) + NonEmpty(lines[1..])
  }

  function OptionToSeq<T>(o: Option<T>): seq<T> {
    match o case Some(x) => [x] case None => []
  }

  /** Pushing one line onto the lines of the current message: an empty line that is not the first
      ends the message, and itself stays behind as the first line of the next. */
  function Push(current: seq<string>, line: string): (seq<SseEvent>, seq<string>) {
    if current != [] && line == [NEWLINE]
    then (OptionToSeq(ParseMessage(NonEmpty(current))), [line])
    else ([], current + [line])
  }

  function PushAll(current: seq<string>, lines: seq<string>): (seq<SseEvent>, seq<string>)
    decreases |lines|
  {
    if lines == [] then ([], current)
    else
      var (first, next) := Push(current, lines[0]);
      var (more, last) := PushAll(next, lines[1..]);
      (first + more, last)
  }

  /** The events completed by a buffer's bytes, and the buffer kept for the next chunk. */
  function Process(s: string): (seq<SseEvent>, string) {
    var (lines, tail) := CompleteLines(s);
    var (events, current) := PushAll([], lines);
    (events, Flatten(current) + tail)
  }

  lemma PushAllStep(current: seq<string>, lines: seq<string>, k: nat, events: seq<SseEvent>)
    requires k < |lines|
    ensures var (first, next) := Push(current, lines[k]);
            var (more, last) := PushAll(next, lines[k + 1..]);
            && PushAll(current, lines[k..]) == (first + more, last)
            && events + (first + more) == (events + first) + more
  {
    hide Push;
    assert lines[k..][1..] == lines[k + 1..];
  }

  class SseParser {
    var buffer: string

    constructor ()
      ensures buffer == []
    {
      buffer := [];
    }

    /** `process_new_chunk` */
    method ProcessNewChunk(bytes: string) returns (events: seq<SseEvent>)
      modifies this
      ensures (events, buffer) == Process(old(buffer) + bytes)
    {
      buffer := buffer + bytes;
      ghost var all := buffer;
      var lines := TakeLines();
      events := [];
      var current: seq<string> := [];
      assert lines[0..] == lines && [] + PushAll([], lines).0 == PushAll([], lines).0;
      for k := 0 to |lines|
        invariant buffer == CompleteLines(all).1
        invariant var (more, last) := PushAll(current, lines[k..]);
                  PushAll([], lines) == (events + more, last)
      {
        hide Push, PushAll;
        var (first, next) := Push(current, lines[k]);
        PushAllStep(current, lines, k, events);
        events, current := events + first, next;
      }
      assert lines[|lines|..] == [] && events + [] == events;
      assert Flatten([]) + buffer == buffer;
      if current != [] {
        buffer := Flatten(current) + buffer;
      }
    }

    /** Moves the complete lines out of the buffer, leaving the incomplete tail. */
    method TakeLines() returns (lines: seq<string>)
      modifies this
      ensures (lines, buffer) == CompleteLines(old(buffer))
    {
      lines := [];
      ghost var all := CompleteLines(buffer);
      assert [] + all.0 == all.0;
      while NEWLINE in buffer
        invariant all == (lines + CompleteLines(buffer).0, CompleteLines(buffer).1)
        decreases |buffer|
      {
        var pos := Find(buffer, NEWLINE);
        ghost var later := CompleteLines(buffer[pos + 1..]).0;
        assert lines + ([buffer[..pos + 1]] + later) == (lines + [buffer[..pos + 1]]) + later;
        lines := lines + [buffer[..pos + 1]];
        buffer := buffer[pos + 1..];
      }
      FindNone(buffer, NEWLINE);
      assert lines + [] == lines;
    }
  }

  /** `parse_sse_message`, as the loop it is. */
  method ParseSseMessage(lines: seq<string>) returns (event: Option<SseEvent>)
    ensures event == ParseMessage(lines)
  {
    var f := NO_FIELDS;
    for k := 0 to |lines|
      invariant GatherAll(f, lines[k..]) == GatherAll(NO_FIELDS, lines)
    {
      hide ParseLine, Gather;
      assert lines[k..][1..] == lines[k + 1..];
      f := Gather(f, ParseLine(lines[k]));
    }
    assert lines[|lines|..] == [];
    event := ToEvent(f);
  }

  // ---------- Chunking does not matter ----------

  /** Events and final buffer after feeding chunks one by one to a parser holding `buffer`. */
  function Feed(buffer: string, chunks: seq<string>): (seq<SseEvent>, string)
    decreases |chunks|
  {
    if chunks == [] then ([], buffer)
    else
      var (first, next) := Process(buffer + chunks[0]);
      var (more, last) := Feed(next, chunks[1..]);
      (first + more, last)
  }

  lemma {:induction false} LinesAppend(s: string, t: string)
    ensures var (lines, tail) := CompleteLines(s);
            var (more, last) := CompleteLines(tail + t);
            CompleteLines(s + t) == (lines + more, last)
    decreases |s|
  {
    var i := Find(s, NEWLINE);
    if i == |s| {
      assert [] + CompleteLines(s + t).0 == CompleteLines(s + t).0;
    } else {
      FindInPrefix(s, t, NEWLINE);
      assert (s + t)[..i + 1] == s[..i + 1];
      assert (s + t)[i + 1..] == s[i + 1..] + t;
      LinesAppend(s[i + 1..], t);
      var (lines, tail) := CompleteLines(s[i + 1..]);
      var more := CompleteLines(tail + t).0;
      assert [s[..i + 1]] + (lines + more) == ([s[..i + 1]] + lines) + more;
    }
  }

  lemma {:induction false} PushAllAppend(current: seq<string>, a: seq<string>, b: seq<string>)
    ensures var (first, next) := PushAll(current, a);
            var (more, last) := PushAll(next, b);
            PushAll(current, a + b) == (first + more, last)
    decreases |a|
  {
    hide Push;
    if a == [] {
      assert a + b == b && [] + PushAll(current, b).0 == PushAll(current, b).0;
    } else {
      assert (a + b)[1..] == a[1..] + b;
      var (e, next) := Push(current, a[0]);
      PushAllAppend(next, a[1..], b);
      var (first, mid) := PushAll(next, a[1..]);
      var more := PushAll(mid, b).0;
      assert e + (first + more) == (e + first) + more;
    }
  }

  /** A line that `CompleteLines` can produce. */
  predicate Complete(line: string) {
    line != [] && Find(line, NEWLINE) == |line| - 1
  }

  predicate AllComplete(lines: seq<string>) {
    forall i :: 0 <= i < |lines| ==> Complete(lines[i])
  }

  /** No line but the first is empty: the lines of an unfinished message. */
  predicate Open(lines: seq<string>) {
    forall i :: 1 <= i < |lines| ==> lines[i] != [NEWLINE]
  }

  lemma {:induction false} LinesAreComplete(s: string)
    ensures AllComplete(CompleteLines(s).0)
    decreases |s|
  {
    var i := Find(s, NEWLINE);
    if i < |s| {
      FindIs(s[..i + 1], NEWLINE, i);
      LinesAreComplete(s[i + 1..]);
    }
  }

  lemma {:induction false} PushAllStaysOpen(current: seq<string>, lines: seq<string>)
    requires Open(current) && AllComplete(current) && AllComplete(lines)
    ensures Open(PushAll(current, lines).1) && AllComplete(PushAll(current, lines).1)
    decreases |lines|
  {
    hide Complete, ParseMessage;
    if lines != [] {
      PushAllStaysOpen(Push(current, lines[0]).1, lines[1..]);
    }
  }

  lemma LineFirst(head: string, rest: string)
    requires Complete(head)
    ensures CompleteLines(head + rest) == ([head] + CompleteLines(rest).0, CompleteLines(rest).1)
  {
    FindInPrefix(head, rest, NEWLINE);
    assert (head + rest)[..|head|] == head && (head + rest)[|head|..] == rest;
  }

  /** Lines put back into the buffer are found again as the same lines. */
  lemma {:induction false} LinesOfFlatten(lines: seq<string>, t: string)
    requires AllComplete(lines)
    ensures CompleteLines(Flatten(lines) + t) == (lines + CompleteLines(t).0, CompleteLines(t).1)
  {
    hide CompleteLines, Find;
    if lines == [] {
      assert Flatten(lines) + t == t && lines + CompleteLines(t).0 == CompleteLines(t).0;
    } else {
      var head, rest := lines[0], Flatten(lines[1..]) + t;
      assert Complete(head);
      assert Flatten(lines) + t == head + rest;
      LineFirst(head, rest);
      LinesOfFlatten(lines[1..], t);
      assert [head] + (lines[1..] + CompleteLines(t).0) == lines + CompleteLines(t).0;
    }
  }

  /** Pushing the lines of an unfinished message again completes nothing and rebuilds it. */
  lemma {:induction false} RepushOpen(lines: seq<string>, k: nat)
    requires Open(lines) && k <= |lines|
    ensures PushAll(lines[..k], lines[k..]) == ([], lines)
    decreases |lines| - k
  {
    if k == |lines| {
      assert lines[..k] == lines;
    } else {
      assert lines[k..][0] == lines[k] && lines[k..][1..] == lines[k + 1..];
      assert Push(lines[..k], lines[k]) == ([], lines[..k + 1]) by {
        assert lines[..k] + [lines[k]] == lines[..k + 1];
      }
      hide Push;
      RepushOpen(lines, k + 1);
      var none: seq<SseEvent> := [];
      assert none + none == none;
    }
  }

  /** Cutting the bytes anywhere gives the same events and leaves the same buffer. */
  lemma ProcessInTwo(s: string, t: string)
    ensures var (first, buffer) := Process(s);
            var (more, last) := Process(buffer + t);
            Process(s + t) == (first + more, last)
  {
    var (lines, tail) := CompleteLines(s);
    var (first, current) := PushAll([], lines);
    LinesAreComplete(s);
    PushAllStaysOpen([], lines);
    var (more, last) := CompleteLines(tail + t);
    assert (Flatten(current) + tail) + t == Flatten(current) + (tail + t);
    LinesOfFlatten(current, tail + t);
    RepushOpen(current, 0);
    assert current[..0] == [] && current[0..] == current;
    PushAllAppend([], current, more);
    LinesAppend(s, t);
    PushAllAppend([], lines, more);
    assert [] + PushAll(current, more).0 == PushAll(current, more).0;
  }

  /** However a byte stream is cut into chunks, the parser reports the same events, in order,
      and ends with the same buffer. */
  lemma {:induction false} ChunkingIsInvisible(s: string, chunks: seq<string>)
    ensures var (first, buffer) := Process(s);
            var (more, last) := Feed(buffer, chunks);
            (first + more, last) == Process(s + Flatten(chunks))
    decreases |chunks|
  {
    hide Process;
    var (first, buffer) := Process(s);
    if chunks == [] {
      assert s + Flatten(chunks) == s && first + [] == first;
    } else {
      var (e, next) := Process(buffer + chunks[0]);
      ProcessInTwo(s, chunks[0]);
      ChunkingIsInvisible(s + chunks[0], chunks[1..]);
      assert (s + chunks[0]) + Flatten(chunks[1..]) == s + Flatten(chunks);
      var more := Feed(next, chunks[1..]).0;
      assert (first + e) + more == first + (e + more);
    }
  }

  lemma FeedIsProcess(chunks: seq<string>)
    ensures Feed([], chunks) == Process(Flatten(chunks))
  {
    ChunkingIsInvisible([], chunks);
    assert [] + Flatten(chunks) == Flatten(chunks);
    assert [] + Feed([], chunks).0 == Feed([], chunks).0;
  }
}

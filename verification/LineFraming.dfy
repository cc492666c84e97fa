/** The newline-delimited, size-capped line reader of the stdio and HTTP transports
    (`mcp_stream.rs`), the reader task built on it, and the client side of `write_str`.
    Lines are byte sequences; a byte is written as the character with that code. */
module LineFraming {
  import opened Sequences

  type byte = char

  const NEWLINE: byte := '\n'
  const CARRIAGE_RETURN: byte := '\r'

  datatype LineRead = Line(bytes: seq<byte>) | TooLong | Eof

  /** How the stream behaves once its bytes are used up: end of file, or an I/O error
      (a closed `ReadableChannel` reports a broken pipe). */
  datatype StreamEnd = Closed | Broken

  datatype IoError = IoError

  // ---------- The specification: split on newline, classify every piece ----------

  function StripCr(line: seq<byte>): seq<byte> {
    if line != [] && line[|line| - 1] == CARRIAGE_RETURN then line[..|line| - 1] else line
  }

  function Classify(piece: seq<byte>, max: nat): LineRead {
    if |piece| > max then TooLong else Line(StripCr(piece))
  }

  function ClassifyAll(pieces: seq<seq<byte>>, max: nat): seq<LineRead> {
    if pieces == [] then [] else [Classify(pieces[0], max)] + ClassifyAll(pieces[1..], max)
  }

  /** Everything a stream says, in order: its newline-terminated pieces, then its unterminated
      tail if that is not empty and the stream ends cleanly. */
  function Outcomes(s: seq<byte>, max: nat, end: StreamEnd): seq<LineRead> {
    var pieces := Split(s, NEWLINE);
    var tail := pieces[|pieces| - 1];
    ClassifyAll(pieces[..|pieces| - 1], max) +
    if end.Closed? && tail != [] then [Classify(tail, max)] else []
  }

  /** One read, as a function of the bytes still to come: the result and the bytes left after it. */
  function ReadOne(s: seq<byte>, max: nat, end: StreamEnd): (Result<LineRead, IoError>, seq<byte>) {
    var n := Find(s, NEWLINE);
    if n < |s| then (Ok(Classify(s[..n], max)), s[n + 1..])
    else if end.Broken? then (Err(IoError.IoError), [])
    else if s == [] then (Ok(Eof), [])
    else (Ok(Classify(s, max)), [])
  }

  /** Reading once takes the first outcome and leaves the others. */
  lemma ReadOneTakesFirst(s: seq<byte>, max: nat, end: StreamEnd)
    ensures var (r, rest) := ReadOne(s, max, end);
            if r.Ok? && !r.value.Eof?
            then Outcomes(s, max, end) == [r.value] + Outcomes(rest, max, end) && |rest| < |s|
            else Outcomes(s, max, end) == []
  {
    var n := Find(s, NEWLINE);
    if n < |s| {
      var pieces, later := Split(s, NEWLINE), Split(s[n + 1..], NEWLINE);
      assert pieces == [s[..n]] + later;
      PiecesCons(s[..n], later, max);
    } else {
      assert Split([], NEWLINE) == [[]];
    }
  }

  lemma PiecesCons(p: seq<byte>, later: seq<seq<byte>>, max: nat)
    requires later != []
    ensures var pieces := [p] + later;
            && pieces[|pieces| - 1] == later[|later| - 1]
            && ClassifyAll(pieces[..|pieces| - 1], max) ==
               [Classify(p, max)] + ClassifyAll(later[..|later| - 1], max)
  {
    var pieces := [p] + later;
    var front := pieces[..|pieces| - 1];
    assert front[0] == p && front[1..] == later[..|later| - 1];
  }

  // ---------- The reader ----------

  /** What one `fill_buf` can expose before the end of the stream. */
  type Chunk = c: seq<byte> | c != [] witness [NEWLINE]

  /** A buffered reader over a stream that arrives in chunks of any size: `chunks` is what
      successive `fill_buf` calls will expose. */
  class BufReader {
    var chunks: seq<Chunk>
    const end: StreamEnd

    constructor (chunks: seq<Chunk>, end: StreamEnd)
      ensures this.chunks == chunks && this.end == end
    {
      this.chunks := chunks;
      this.end := end;
    }

    ghost function Remaining(): seq<byte>
      reads this
    {
      Flatten(chunks)
    }

    /** The current chunk without consuming it, empty at end of file; `later` is what follows it. */
    method FillBuf() returns (r: Result<seq<byte>, IoError>, ghost later: seq<byte>)
      ensures r.Ok? ==> Remaining() == r.value + later
      ensures r.Err? ==> Remaining() == [] && end.Broken?
      ensures r.Ok? && r.value == [] ==> Remaining() == [] && end.Closed?
      ensures r.Ok? && r.value != [] ==> chunks != [] && r.value == chunks[0]
    {
      if chunks != [] {
        return Ok(chunks[0]), Flatten(chunks[1..]);
      }
      return if end.Broken? then Err(IoError.IoError) else Ok([]), [];
    }

    method Consume(n: nat)
      requires chunks != [] && n <= |chunks[0]|
      modifies this
      ensures Remaining() == old(Remaining())[n..]
      ensures n == |old(chunks)[0]| ==> chunks == old(chunks)[1..]
    {
      var head := chunks[0][n..];
      if head == [] {
        chunks := chunks[1..];
      } else {
        chunks := [head] + chunks[1..];
        assert chunks[1..] == old(chunks)[1..];
      }
    }

    /** `read_capped_line`: the buffer never holds more than `max` bytes (`peak` is its largest
        length, so at least that of the line returned), and the result and the bytes left are those of
        `ReadOne`, whatever the chunks. */
    method ReadCappedLine(max: nat) returns (r: Result<LineRead, IoError>, ghost peak: nat)
      modifies this
      ensures (r, Remaining()) == ReadOne(old(Remaining()), max, end)
      ensures peak <= max && (r.Ok? && r.value.Line? ==> |r.value.bytes| <= peak)
    {
      hide Flatten, FindFrom, ReadOne, StripCr;
      var buf: seq<byte> := [];
      peak := 0;
      ghost var all := Remaining();
      while true
        invariant all == buf + Remaining()
        invariant NEWLINE !in buf
        invariant |buf| <= peak <= max
        decreases |Remaining()|
      {
        var filled, later := FillBuf();
        if filled.Err? || filled.value == [] {
          assert all == buf;
          ReadTail(buf, max, end);
          if filled.Err? {
            return Err(IoError.IoError), peak;
          }
          if buf == [] {
            return Ok(Eof), peak;
          }
          var line := LineToString(buf);
          return Ok(Line(line)), peak;
        }
        var chunk := filled.value;
        var pos := Find(chunk, NEWLINE);
        if pos < |chunk| {
          ReadEndsInChunk(buf, chunk, later, max, end);
          if |buf| + pos > max {
            Consume(pos + 1);
            return Ok(TooLong), peak;
          }
          buf := buf + chunk[..pos];
          peak := if |buf| > peak then |buf| else peak;
          Consume(pos + 1);
          var line := LineToString(buf);
          return Ok(Line(line)), peak;
        }
        Consume(|chunk|);
        assert all == (buf + chunk) + Remaining();
        if |buf| + |chunk| > max {
          ReadOverflows(buf + chunk, Remaining(), max, end);
          var failed := DiscardToNewline();
          return if failed then Err(IoError.IoError) else Ok(TooLong), peak;
        }
        buf := buf + chunk;
        peak := if |buf| > peak then |buf| else peak;
      }
    }

    /** `discard_to_newline`: consumes through the next newline or to the end; `failed` says
        that the stream broke first. */
    method DiscardToNewline() returns (failed: bool)
      modifies this
      ensures (failed, Remaining()) == Discard(old(Remaining()), end)
    {
      hide Flatten, FindFrom, Discard;
      ghost var all := Remaining();
      while true
        invariant Discard(all, end) == Discard(Remaining(), end)
        decreases |Remaining()|
      {
        var filled, later := FillBuf();
        if filled.Err? || filled.value == [] {
          DiscardStep([], [], end);
          return filled.Err?;
        }
        var chunk := filled.value;
        DiscardStep(chunk, later, end);
        var pos := Find(chunk, NEWLINE);
        if pos < |chunk| {
          Consume(pos + 1);
          return false;
        }
        Consume(|chunk|);
        assert Remaining() == later;
      }
    }
  }

  /** `line_to_string`, on bytes: pops one trailing carriage return in place. */
  method LineToString(bytes: seq<byte>) returns (line: seq<byte>)
    ensures line == StripCr(bytes)
    ensures bytes == line + [CARRIAGE_RETURN] || (bytes == line && (line != [] ==> line[|line| - 1] != CARRIAGE_RETURN))
  {
    line := bytes;
    if line != [] && line[|line| - 1] == CARRIAGE_RETURN {
      line := line[..|line| - 1];
    }
  }

  /** A newline found in the current chunk ends the line begun in `buf`. */
  lemma ReadEndsInChunk(buf: seq<byte>, chunk: seq<byte>, later: seq<byte>, max: nat, end: StreamEnd)
    requires NEWLINE !in buf && Find(chunk, NEWLINE) < |chunk|
    ensures var pos := Find(chunk, NEWLINE);
            ReadOne(buf + (chunk + later), max, end) ==
            (Ok(Classify(buf + chunk[..pos], max)), (chunk + later)[pos + 1..])
  {
    var all := buf + (chunk + later);
    var n := |buf| + Find(chunk, NEWLINE);
    FindInPrefix(chunk, later, NEWLINE);
    FindSkip(buf, chunk + later, NEWLINE);
    assert all[..n] == buf + chunk[..n - |buf|];
    assert all[n + 1..] == (chunk + later)[n - |buf| + 1..];
  }

  /** The stream ended while the line was still open. */
  lemma ReadTail(buf: seq<byte>, max: nat, end: StreamEnd)
    requires NEWLINE !in buf && |buf| <= max
    ensures ReadOne(buf, max, end) ==
            (if end.Broken? then Err(IoError.IoError) else if buf == [] then Ok(Eof) else Ok(Line(StripCr(buf))), [])
  {
    FindNone(buf, NEWLINE);
  }

  /** Whether discarding to the next newline hits the break of the stream, and what it leaves. */
  function Discard(s: seq<byte>, end: StreamEnd): (bool, seq<byte>) {
    var n := Find(s, NEWLINE);
    if n < |s| then (false, s[n + 1..]) else (end.Broken?, [])
  }

  lemma DiscardStep(chunk: seq<byte>, later: seq<byte>, end: StreamEnd)
    ensures var pos := Find(chunk, NEWLINE);
            Discard(chunk + later, end) ==
            if pos < |chunk| then (false, (chunk + later)[pos + 1..]) else Discard(later, end)
    ensures Discard([], end) == (end.Broken?, [])
  {
    if Find(chunk, NEWLINE) < |chunk| {
      FindInPrefix(chunk, later, NEWLINE);
    } else {
      FindSkip(chunk, later, NEWLINE);
      var n := Find(later, NEWLINE);
      assert n < |later| ==> (chunk + later)[|chunk| + n + 1..] == later[n + 1..];
    }
  }

  /** A line already over the cap is too long, and discarding to the next newline ends it. */
  lemma ReadOverflows(p: seq<byte>, q: seq<byte>, max: nat, end: StreamEnd)
    requires NEWLINE !in p && |p| > max
    ensures var (failed, rest) := Discard(q, end);
            ReadOne(p + q, max, end) == (if failed then Err(IoError.IoError) else Ok(TooLong), rest)
  {
    FindSkip(p, q, NEWLINE);
    var n := Find(q, NEWLINE);
    assert n < |q| ==> (p + q)[|p| + n + 1..] == q[n + 1..];
  }

  // ---------- The reader task ----------

  /** Why the reader task stopped. */
  datatype ReaderExit = EndOfStream | Cancelled | ReadFailed | ReceiverGone

  /** What the reader sends for one outcome: oversized and undecodable lines are dropped. */
  function Delivered<X>(outcome: LineRead, decode: seq<byte> -> Option<X>): seq<X> {
    match outcome
    case Line(bytes) => (match decode(bytes) case Some(x) => [x] case None => [])
    case _ => []
  }

  /** The messages among the outcomes, in order. */
  function Messages<X>(outcomes: seq<LineRead>, decode: seq<byte> -> Option<X>): seq<X> {
    if outcomes == [] then [] else Delivered(outcomes[0], decode) + Messages(outcomes[1..], decode)
  }

  lemma MessagesCons<X>(o: LineRead, os: seq<LineRead>, decode: seq<byte> -> Option<X>)
    ensures Messages([o] + os, decode) == Delivered(o, decode) + Messages(os, decode)
  {
    assert ([o] + os)[1..] == os;
  }

  lemma {:induction false} MessagesAppend<X>(a: seq<LineRead>, b: seq<LineRead>, decode: seq<byte> -> Option<X>)
    ensures Messages(a + b, decode) == Messages(a, decode) + Messages(b, decode)
  {
    if a == [] {
      assert a + b == b;
    } else {
      hide Delivered;
      var d := Delivered(a[0], decode);
      calc {
        Messages(a + b, decode);
        { assert a + b == [a[0]] + (a[1..] + b); MessagesCons(a[0], a[1..] + b, decode); }
        d + Messages(a[1..] + b, decode);
        { MessagesAppend(a[1..], b, decode); }
        d + (Messages(a[1..], decode) + Messages(b, decode));
        (d + Messages(a[1..], decode)) + Messages(b, decode);
      }
    }
  }

  /** All messages a stream carries. */
  function StreamMessages<X>(s: seq<byte>, max: nat, end: StreamEnd, decode: seq<byte> -> Option<X>): seq<X> {
    Messages(Outcomes(s, max, end), decode)
  }

  /** `spawn_reader`: `cancelled` says before which turns the cancellation is seen, `gone` before
      which sends the receiver is gone. After `turns` lines the messages of exactly those lines have
      been sent, and the reason to stop is the first that applied. */
  method RunReader<X>(reader: BufReader, max: nat, decode: seq<byte> -> Option<X>, cancelled: nat -> bool,
                      gone: nat -> bool)
    returns (sent: seq<X>, exit: ReaderExit, ghost turns: nat)
    modifies reader
    ensures var outcomes := Outcomes(old(reader.Remaining()), max, reader.end);
            && turns <= |outcomes|
            && sent == Messages(outcomes[..turns], decode)
            && (forall i: nat :: i < turns ==> !cancelled(i))
            && (forall k: nat :: k < |sent| ==> !gone(k))
            && (match exit
                case Cancelled => cancelled(turns)
                case ReceiverGone =>
                  !cancelled(turns) && turns < |outcomes| && Delivered(outcomes[turns], decode) != [] && gone(|sent|)
                case EndOfStream => !cancelled(turns) && turns == |outcomes| && reader.end.Closed?
                case ReadFailed => !cancelled(turns) && turns == |outcomes| && reader.end.Broken?)
  {
    hide Outcomes, Messages, ReadOne;
    sent, turns := [], 0;
    var turn := 0;
    ghost var rest := reader.Remaining();
    ghost var outcomes := Outcomes(rest, max, reader.end);
    NoMessages(outcomes, decode);
    while true
      invariant turn == turns <= |outcomes| && rest == reader.Remaining()
      invariant outcomes[turns..] == Outcomes(rest, max, reader.end)
      invariant sent == Messages(outcomes[..turns], decode)
      invariant forall i: nat :: i < turns ==> !cancelled(i)
      invariant forall k: nat :: k < |sent| ==> !gone(k)
      decreases |rest|
    {
      if cancelled(turn) {
        return sent, Cancelled, turns;
      }
      ReadOneTakesFirst(rest, max, reader.end);
      StopsAtEnd(rest, max, reader.end);
      var r, _ := reader.ReadCappedLine(max);
      if r.Err? {
        return sent, ReadFailed, turns;
      } else if r.value.Eof? {
        return sent, EndOfStream, turns;
      }
      rest := reader.Remaining();
      assert outcomes[turns] == r.value;
      SnocMessages(outcomes, turns, decode);
      var message := if r.value.Line? then decode(r.value.bytes) else None;
      if message.Some? {
        if gone(|sent|) {
          return sent, ReceiverGone, turns;
        }
        sent := sent + [message.value];
      }
      turn, turns := turn + 1, turns + 1;
    }
  }

  lemma StopsAtEnd(s: seq<byte>, max: nat, end: StreamEnd)
    ensures var (r, _) := ReadOne(s, max, end);
            (r.Err? ==> end.Broken?) && (r.Ok? && r.value.Eof? ==> end.Closed?)
  {
  }

  lemma NoMessages<X>(outcomes: seq<LineRead>, decode: seq<byte> -> Option<X>)
    ensures Messages(outcomes[..0], decode) == []
  {
  }

  lemma SnocMessages<X>(outcomes: seq<LineRead>, k: nat, decode: seq<byte> -> Option<X>)
    requires k < |outcomes|
    ensures Messages(outcomes[..k + 1], decode) == Messages(outcomes[..k], decode) + Delivered(outcomes[k], decode)
    ensures Delivered(outcomes[k], decode) == [] ==>
              Messages(outcomes[..k + 1], decode) == Messages(outcomes[..k], decode)
  {
    hide Delivered;
    assert outcomes[..k + 1] == outcomes[..k] + [outcomes[k]];
    MessagesAppend(outcomes[..k], [outcomes[k]], decode);
    MessagesCons(outcomes[k], [], decode);
    assert [outcomes[k]] + [] == [outcomes[k]];
    assert Delivered(outcomes[k], decode) + [] == Delivered(outcomes[k], decode);
    assert Messages(outcomes[..k], decode) + [] == Messages(outcomes[..k], decode);
  }

  // ---------- Writing, and reading back what was written ----------

  /** The writable side of a dispatcher; the lock makes each `write_str` one step. */
  class LineWriter {
    var written: seq<byte>

    constructor ()
      ensures written == []
    {
      written := [];
    }

    method WriteAll(bytes: seq<byte>)
      modifies this
      ensures written == old(written) + bytes
    {
      written := written + bytes;
    }

    /** Client `write_str`: the payload, then one newline. */
    method WriteStr(payload: seq<byte>)
      modifies this
      ensures written == old(written) + Frame(payload)
    {
      WriteAll(payload);
      WriteAll([NEWLINE]);
      assert old(written) + payload + [NEWLINE] == old(written) + Frame(payload);
    }

    /** A lock-serialised sequence of writes. */
    method WriteEach(payloads: seq<seq<byte>>)
      modifies this
      ensures written == old(written) + Frames(payloads)
    {
      for i := 0 to |payloads|
        invariant written == old(written) + Frames(payloads[..i])
      {
        WriteStr(payloads[i]);
        FramesSnoc(payloads[..i], payloads[i]);
        assert payloads[..i + 1] == payloads[..i] + [payloads[i]];
      }
      assert payloads[..|payloads|] == payloads;
    }
  }

  function Frame(payload: seq<byte>): seq<byte> {
    payload + [NEWLINE]
  }

  function Frames(payloads: seq<seq<byte>>): seq<byte> {
    if payloads == [] then [] else Frame(payloads[0]) + Frames(payloads[1..])
  }

  lemma {:induction false} FramesSnoc(ps: seq<seq<byte>>, p: seq<byte>)
    ensures Frames(ps + [p]) == Frames(ps) + Frame(p)
  {
    if ps == [] {
      assert ([] + [p])[1..] == [];
    } else {
      FramesSnoc(ps[1..], p);
      assert (ps + [p])[1..] == ps[1..] + [p];
    }
  }

  /** Newline-free payloads are the pieces of what was written, with an empty tail. */
  lemma {:induction false} SplitFrames(ps: seq<seq<byte>>)
    requires Free(ps, NEWLINE)
    ensures Split(Frames(ps), NEWLINE) == ps + [[]]
  {
    if ps == [] {
      FindNone([], NEWLINE);
    } else {
      assert ps[0] in ps;
      SplitFrames(ps[1..]);
      SplitCons(ps[0], NEWLINE, Frames(ps[1..]));
      assert [ps[0]] + (ps[1..] + [[]]) == ps + [[]];
    }
  }

  /** Whatever is written comes back frame by frame: each newline-free payload gives its own
      outcome, whichever payloads surround it, and whether or not the stream then breaks. */
  lemma OutcomesOfFrames(ps: seq<seq<byte>>, max: nat, end: StreamEnd)
    requires Free(ps, NEWLINE)
    ensures Outcomes(Frames(ps), max, end) == ClassifyAll(ps, max)
  {
    SplitFrames(ps);
    assert (ps + [[]])[..|ps|] == ps;
  }

  /** A payload that survives the trip unchanged. */
  predicate Survives(p: seq<byte>, max: nat) {
    && NEWLINE !in p
    && |p| <= max
    && (p != [] ==> p[|p| - 1] != CARRIAGE_RETURN)
  }

  function Lines(ps: seq<seq<byte>>): seq<LineRead> {
    if ps == [] then [] else [Line(ps[0])] + Lines(ps[1..])
  }

  lemma {:induction false} SurvivorsComeBack(ps: seq<seq<byte>>, max: nat, end: StreamEnd)
    requires forall p :: p in ps ==> Survives(p, max)
    ensures Outcomes(Frames(ps), max, end) == Lines(ps)
  {
    OutcomesOfFrames(ps, max, end);
    if ps != [] {
      assert Survives(ps[0], max);
      SurvivorsComeBack(ps[1..], max, end);
      OutcomesOfFrames(ps[1..], max, end);
    }
  }

  /** The conditions on a payload are exact: it comes back as one unchanged line iff it holds no
      newline, does not end in a carriage return and fits the cap. */
  lemma ComesBackIffSurvives(p: seq<byte>, max: nat)
    ensures Outcomes(Frame(p), max, Closed) == [Line(p)] <==> Survives(p, max)
  {
    if NEWLINE in p {
      EmbeddedNewline(p, max);
    } else {
      FrameAlone(p);
      OutcomesOfFrames([p], max, Closed);
      assert ClassifyAll([p], max) == [Classify(p, max)];
    }
  }

  /** What becomes of any newline-free payload: too long, or the one line that it is with or without a
      carriage return at its end. */
  lemma ComesBackAs(p: seq<byte>, t: seq<byte>, max: nat, end: StreamEnd)
    requires NEWLINE !in p
    ensures Outcomes(Frame(p), max, end) == [TooLong] <==> |p| > max
    ensures Outcomes(Frame(p), max, end) == [Line(t)] <==>
            |p| <= max && (p == t + [CARRIAGE_RETURN] || (p == t && (t != [] ==> t[|t| - 1] != CARRIAGE_RETURN)))
  {
    FrameAlone(p);
    OutcomesOfFrames([p], max, end);
    assert ClassifyAll([p], max) == [Classify(p, max)];
  }

  lemma FrameAlone(p: seq<byte>)
    ensures Frames([p]) == Frame(p)
  {
    assert [p][1..] == [];
  }

  /** A payload with a newline inside comes back cut, if at all. */
  lemma EmbeddedNewline(p: seq<byte>, max: nat)
    requires NEWLINE in p
    ensures Outcomes(Frame(p), max, Closed) != [Line(p)]
  {
    var i := Find(p, NEWLINE);
    ReadEndsInChunk([], p, [NEWLINE], max, Closed);
    assert [] + (p + [NEWLINE]) == Frame(p);
    assert [] + p[..i] == p[..i];
    ReadOneTakesFirst(Frame(p), max, Closed);
    assert Outcomes(Frame(p), max, Closed)[0] == Classify(p[..i], max);
  }

  /** What one written payload delivers: its decoded text if it fits and decodes, else nothing. */
  lemma DeliveredAlone<X>(p: seq<byte>, max: nat, end: StreamEnd, decode: seq<byte> -> Option<X>)
    requires NEWLINE !in p
    ensures StreamMessages(Frame(p), max, end, decode) ==
            match decode(StripCr(p)) case Some(x) => (if |p| <= max then [x] else []) case None => []
  {
    FrameAlone(p);
    OutcomesOfFrames([p], max, end);
    assert ClassifyAll([p], max) == [Classify(p, max)];
    MessagesCons(Classify(p, max), [], decode);
  }

  /** Lines that are dropped (too long, or not decodable) change neither the delivery nor the
      order of the others: delivery is the concatenation of each payload's own delivery. */
  lemma NoiseIsLocal<X>(a: seq<seq<byte>>, b: seq<seq<byte>>, max: nat, end: StreamEnd,
                        decode: seq<byte> -> Option<X>)
    requires Free(a, NEWLINE) && Free(b, NEWLINE)
    ensures StreamMessages(Frames(a + b), max, end, decode) ==
            StreamMessages(Frames(a), max, end, decode) + StreamMessages(Frames(b), max, end, decode)
  {
    OutcomesOfFrames(a, max, end);
    OutcomesOfFrames(b, max, end);
    OutcomesOfFrames(a + b, max, end);
    ClassifyAppend(a, b, max);
    MessagesAppend(ClassifyAll(a, max), ClassifyAll(b, max), decode);
  }

  lemma {:induction false} ClassifyAppend(a: seq<seq<byte>>, b: seq<seq<byte>>, max: nat)
    ensures ClassifyAll(a + b, max) == ClassifyAll(a, max) + ClassifyAll(b, max)
  {
    if a == [] {
      assert a + b == b;
    } else {
      ClassifyAppend(a[1..], b, max);
      assert (a + b)[1..] == a[1..] + b;
    }
  }
}

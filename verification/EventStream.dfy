/**
 Server-sent events: the frames the server prints and the incremental parser of the client, which
 gets the same text cut into arbitrary chunks.
 */
module EventStream {
  import opened Collections
  import opened Options
  import opened Cursor
  import opened Sums

  // ---------------------------------------------------------------- frames

  datatype Message = Activity(id: int, payload: string) | KeepAlive

  function Ascii(t: Text): string {
    seq(|t|, i requires 0 <= i < |t| => t[i] as char)
  }

  function IdLine(id: int): string { "id: " + Ascii(FormatInt(id)) }

  const EVENT_LINE := "event: activity"
  const COMMENT := ": keep-alive"

  function DataLine(payload: string): string { "data: " + payload }

  function Body(m: Message): string {
    match m
    case Activity(id, payload) => IdLine(id) + "\n" + (EVENT_LINE + "\n" + DataLine(payload))
    case KeepAlive => COMMENT
  }

  function Frame(m: Message): string {
    Body(m) + "\n\n"
  }

  function Printed(messages: seq<Message>): string {
    if messages == [] then "" else Frame(messages[0]) + Printed(messages[1..])
  }

  predicate OneLine(s: string) {
    forall i | 0 <= i < |s| :: s[i] != '\n'
  }

  /** What encoding an event yields: a json object on one line. */
  predicate IsObject(s: string) {
    |s| >= 2 && s[0] == '{' && s[|s| - 1] == '}' && OneLine(s)
  }

  predicate Printable(m: Message) {
    m.Activity? ==> IsObject(m.payload)
  }

  // ---------------------------------------------------------------- the server's loop

  /** What the handler's select meets: the end of the request, the broker's channel, or the ticker. */
  datatype Signal = RequestDone | ChannelClosed | Received(id: int, payload: Option<string>) | Tick

  function MessageOf(signal: Signal): seq<Message> {
    match signal
    case Received(id, payload) => if payload.Some? then [Activity(id, payload.value)] else []
    case Tick => [KeepAlive]
    case _ => []
  }

  /** The messages of the signals in their order; an event that cannot be encoded gives none. */
  function MessagesOf(signals: seq<Signal>): seq<Message> {
    if signals == [] then [] else MessagesOf(signals[..|signals| - 1]) + MessageOf(signals[|signals| - 1])
  }

  predicate Ends(signal: Signal) { signal.RequestDone? || signal.ChannelClosed? }

  /**
   The first `k` signals are served: none of them ends the stream, the client takes all their
   messages, and there is a reason to stop after them.
   */
  ghost predicate Served(signals: seq<Signal>, writes: nat, k: nat) {
    && k <= |signals| && (forall i | 0 <= i < k :: !signals[i].RequestDone? && !signals[i].ChannelClosed?)
    && |MessagesOf(signals[..k])| <= writes
    && (k == |signals| || signals[k].RequestDone? || signals[k].ChannelClosed? || |MessagesOf(signals[..k])| == writes)
  }

  /** The first `i` signals are served, and the client takes `left` messages more. */
  ghost predicate Serving(signals: seq<Signal>, writes: nat, i: nat, left: nat, written: string) {
    && i <= |signals| && (forall k | 0 <= k < i :: !Ends(signals[k]))
    && written == Printed(MessagesOf(signals[..i])) && |MessagesOf(signals[..i])| + left == writes
  }

  /** The select loop, for a client that takes `writes` messages and then goes away. */
  method Stream(signals: seq<Signal>, writes: nat) returns (written: string)
    ensures exists k: nat :: Served(signals, writes, k) && written == Printed(MessagesOf(signals[..k]))
  {
    written := "";
    var i, left := 0, writes;
    while i < |signals| && left > 0
      invariant Serving(signals, writes, i, left, written)
      decreases |signals| - i
    {
      if Ends(signals[i]) {
        assert Served(signals, writes, i);
        return;
      }
      written, left := Serve(signals, writes, i, left, written);
      i := i + 1;
    }
    assert Served(signals, writes, i);
  }

  /** One turn of the loop: at most one message goes out. */
  method Serve(signals: seq<Signal>, ghost writes: nat, i: nat, left: nat, written: string)
    returns (more: string, rest: nat)
    requires Serving(signals, writes, i, left, written) && i < |signals| && left > 0 && !Ends(signals[i])
    ensures Serving(signals, writes, i + 1, rest, more)
  {
    ghost var earlier := MessagesOf(signals[..i]);
    more, rest := written, left;
    match signals[i] {
      case Received(id, payload) =>
        if payload.Some? {
          more := Write(written, Activity(id, payload.value), earlier);
          rest := left - 1;
        }
      case Tick =>
        more := Write(written, KeepAlive, earlier);
        rest := left - 1;
    }
    MessagesTake(signals, i);
  }

  lemma MessagesTake(signals: seq<Signal>, i: nat)
    requires i < |signals|
    ensures MessagesOf(signals[..i + 1]) == MessagesOf(signals[..i]) + MessageOf(signals[i])
    ensures MessageOf(signals[i]) == [] ==> MessagesOf(signals[..i + 1]) == MessagesOf(signals[..i])
  {
    assert signals[..i + 1][..i] == signals[..i];
  }

  /** Appends the frame of a message to what was written for the earlier ones. */
  method Write(written: string, m: Message, ghost earlier: seq<Message>) returns (more: string)
    requires written == Printed(earlier)
    ensures more == Printed(earlier + [m])
  {
    PrintedTakes(earlier, m);
    more := written + Frame(m);
  }

  lemma {:induction false} PrintedTakes(messages: seq<Message>, m: Message)
    ensures Printed(messages + [m]) == Printed(messages) + Frame(m)
  {
    if messages == [] {
      assert [m][1..] == [] && Frame(m) + "" == Frame(m);
    } else {
      PrintedTakes(messages[1..], m);
      assert (messages + [m])[1..] == messages[1..] + [m];
      Associates(Frame(messages[0]), Printed(messages[1..]), Frame(m));
    }
  }

  /** What is served is determined: two places to stop have the same messages before them. */
  lemma ServedIsUnique(signals: seq<Signal>, writes: nat, j: nat, k: nat)
    requires Served(signals, writes, j) && Served(signals, writes, k)
    ensures MessagesOf(signals[..j]) == MessagesOf(signals[..k])
  {
    if j < k { MessagesGrow(signals, j, k); }
    if k < j { MessagesGrow(signals, k, j); }
  }

  lemma PrefixOfMore<T>(a: seq<T>, b: seq<T>, more: seq<T>)
    requires a <= b
    ensures a <= b + more
  {
  }

  lemma {:induction false} MessagesGrow(signals: seq<Signal>, j: nat, k: nat)
    requires j <= k <= |signals|
    ensures MessagesOf(signals[..j]) <= MessagesOf(signals[..k])
    decreases k
  {
    if j < k {
      MessagesGrow(signals, j, k - 1);
      MessagesTake(signals, k - 1);
      PrefixOfMore(MessagesOf(signals[..j]), MessagesOf(signals[..k - 1]), MessageOf(signals[k - 1]));
    }
  }

  // ---------------------------------------------------------------- the client's parser

  /** The first place where two newlines stand together, or the length when there is none. */
  function BreakAt(s: string): (i: nat)
    ensures i == |s| || i + 1 < |s|
  {
    if |s| < 2 then |s|
    else if s[0] == '\n' && s[1] == '\n' then 0
    else 1 + BreakAt(s[1..])
  }

  predicate BreakHere(s: string, k: nat) {
    k + 1 < |s| && s[k] == '\n' && s[k + 1] == '\n'
  }

  lemma {:induction false} BreakIsFirst(s: string)
    ensures BreakAt(s) < |s| ==> BreakHere(s, BreakAt(s))
    ensures forall k: nat | k < BreakAt(s) :: !BreakHere(s, k)
  {
    if |s| >= 2 && !(s[0] == '\n' && s[1] == '\n') {
      BreakIsFirst(s[1..]);
      forall k: nat | k < BreakAt(s)
        ensures !BreakHere(s, k)
      {
        if k > 0 { assert !BreakHere(s[1..], k - 1); }
      }
    }
  }

  lemma BreakIsAt(s: string, i: nat)
    requires BreakHere(s, i) && forall k: nat | k < i :: !BreakHere(s, k)
    ensures BreakAt(s) == i
  {
    BreakIsFirst(s);
  }

  /** A text without a break is all tail. */
  lemma NoBreak(s: string)
    requires forall k: nat :: !BreakHere(s, k)
    ensures FramesOf(s) == [] && TailOf(s) == s
  {
    BreakIsFirst(s);
  }

  function FramesOf(s: string): seq<string> {
    var b := BreakAt(s);
    if b == |s| then [] else [s[..b]] + FramesOf(s[b + 2..])
  }

  function TailOf(s: string): string {
    var b := BreakAt(s);
    if b == |s| then s else TailOf(s[b + 2..])
  }

  function Split(s: string): seq<string> {
    if s == "" then [""]
    else
      var lines := Split(s[1..]);
      if s[0] == '\n' then [""] + lines else [[s[0]] + lines[0]] + lines[1..]
  }

  predicate IsSpace(c: char) {
    var v := c as int;
    9 <= v <= 13 || v == 32 || v == 0xA0 || v == 0x1680 || 0x2000 <= v <= 0x200A || v == 0x2028 || v == 0x2029
    || v == 0x202F || v == 0x205F || v == 0x3000 || v == 0xFEFF
  }

  function TrimLeft(s: string): string {
    if s != "" && IsSpace(s[0]) then TrimLeft(s[1..]) else s
  }

  function TrimRight(s: string): string {
    if s != "" && IsSpace(s[|s| - 1]) then TrimRight(s[..|s| - 1]) else s
  }

  function DataOf(lines: seq<string>): string {
    if lines == [] then ""
    else (if "data:" <= lines[0] then TrimRight(TrimLeft(lines[0][5..])) else "") + DataOf(lines[1..])
  }

  /** What a frame hands to the callback: its data, if there is any and it parses. */
  function Emitted(frame: string, parses: string -> bool): seq<string> {
    var data := DataOf(Split(frame));
    if data == "" || !parses(data) then [] else [data]
  }

  function EmittedBy(frames: seq<string>, parses: string -> bool): seq<string> {
    if frames == [] then [] else Emitted(frames[0], parses) + EmittedBy(frames[1..], parses)
  }

  class StreamReader {
    var buffer: string

    constructor ()
      ensures buffer == ""
    {
      buffer := "";
    }

    /** One read: the chunk joins the buffer, every complete frame leaves it. */
    method Receive(chunk: string, parses: string -> bool) returns (events: seq<string>)
      modifies this
      ensures buffer == TailOf(old(buffer) + chunk)
      ensures events == EmittedBy(FramesOf(old(buffer) + chunk), parses)
    {
      buffer := buffer + chunk;
      events := [];
      ghost var whole := buffer;
      var boundary := BreakAt(buffer);
      while boundary < |buffer|
        invariant boundary == BreakAt(buffer)
        invariant TailOf(buffer) == TailOf(whole)
        invariant events + EmittedBy(FramesOf(buffer), parses) == EmittedBy(FramesOf(whole), parses)
        decreases |buffer|
      {
        var frame := buffer[..boundary];
        FrameLeaves(events, buffer, parses);
        buffer := buffer[boundary + 2..];
        events := events + Emitted(frame, parses);
        boundary := BreakAt(buffer);
      }
    }

    /** A whole connection, chunk by chunk. */
    method ReceiveAll(chunks: seq<string>, parses: string -> bool) returns (events: seq<string>)
      requires buffer == ""
      modifies this
      ensures buffer == TailOf(Joined(chunks)) && events == EmittedBy(FramesOf(Joined(chunks)), parses)
    {
      events := [];
      for i := 0 to |chunks|
        invariant buffer == TailOf(Joined(chunks[..i]))
        invariant events == EmittedBy(FramesOf(Joined(chunks[..i])), parses)
      {
        var before := Joined(chunks[..i]);
        assert chunks[..i + 1] == chunks[..i] + [chunks[i]];
        JoinedTakes(chunks[..i], chunks[i]);
        ChunksDoNotMatter(before, chunks[i]);
        EmittedByJoins(FramesOf(before), FramesOf(buffer + chunks[i]), parses);
        var more := Receive(chunks[i], parses);
        events := events + more;
      }
      assert chunks[..|chunks|] == chunks;
    }
  }

  /** Taking the first frame off the text moves what it emits to the front. */
  lemma FrameLeaves(events: seq<string>, s: string, parses: string -> bool)
    requires BreakAt(s) < |s|
    ensures TailOf(s) == TailOf(s[BreakAt(s) + 2..])
    ensures events + EmittedBy(FramesOf(s), parses)
         == events + Emitted(s[..BreakAt(s)], parses) + EmittedBy(FramesOf(s[BreakAt(s) + 2..]), parses)
  {
    FramesBegin(s);
    EmitsBefore(events, s[..BreakAt(s)], FramesOf(s[BreakAt(s) + 2..]), parses);
  }

  lemma FramesBegin(s: string)
    requires BreakAt(s) < |s|
    ensures FramesOf(s) == [s[..BreakAt(s)]] + FramesOf(s[BreakAt(s) + 2..])
  {
  }

  lemma EmitsBefore(events: seq<string>, frame: string, rest: seq<string>, parses: string -> bool)
    ensures events + EmittedBy([frame] + rest, parses) == events + Emitted(frame, parses) + EmittedBy(rest, parses)
  {
    EmittedByTakes(frame, rest, parses);
    Associates(events, Emitted(frame, parses), EmittedBy(rest, parses));
  }

  function Joined(chunks: seq<string>): string {
    if chunks == [] then "" else chunks[0] + Joined(chunks[1..])
  }

  lemma {:induction false} JoinedTakes(chunks: seq<string>, chunk: string)
    ensures Joined(chunks + [chunk]) == Joined(chunks) + chunk
  {
    if chunks == [] {
      assert chunks + [chunk] == [chunk] && Joined([chunk][1..]) == "";
      assert chunk + "" == chunk;
    } else {
      JoinedTakes(chunks[1..], chunk);
      assert (chunks + [chunk])[1..] == chunks[1..] + [chunk];
    }
  }

  lemma FirstAndRest<T>(a: seq<T>, b: seq<T>)
    requires a != []
    ensures a + b == [a[0]] + (a[1..] + b)
  {
  }

  lemma EmittedByTakes(frame: string, frames: seq<string>, parses: string -> bool)
    ensures EmittedBy([frame] + frames, parses) == Emitted(frame, parses) + EmittedBy(frames, parses)
  {
    assert ([frame] + frames)[1..] == frames;
  }

  lemma {:induction false} EmittedByJoins(a: seq<string>, b: seq<string>, parses: string -> bool)
    ensures EmittedBy(a + b, parses) == EmittedBy(a, parses) + EmittedBy(b, parses)
  {
    if a == [] {
      assert a + b == b;
    } else {
      var first, rest, last := Emitted(a[0], parses), EmittedBy(a[1..], parses), EmittedBy(b, parses);
      EmittedByJoins(a[1..], b, parses);
      EmittedByTakes(a[0], a[1..] + b, parses);
      FirstAndRest(a, b);
      Associates(first, rest, last);
    }
  }

  // ---------------------------------------------------------------- cutting the stream

  /** Parsing a text in two pieces, even cut between two newlines, is parsing it in one. */
  lemma {:induction false} ChunksDoNotMatter(a: string, b: string)
    ensures FramesOf(a + b) == FramesOf(a) + FramesOf(TailOf(a) + b)
    ensures TailOf(a + b) == TailOf(TailOf(a) + b)
    decreases |a|
  {
    var i := BreakAt(a);
    if i < |a| {
      BreakIsFirst(a);
      forall k: nat | k <= i
        ensures BreakHere(a + b, k) <==> BreakHere(a, k)
      {
      }
      BreakIsAt(a + b, i);
      FirstFrame(a, b, i);
      ChunksDoNotMatter(a[i + 2..], b);
      Associates([a[..i]], FramesOf(a[i + 2..]), FramesOf(TailOf(a) + b));
    } else {
      assert FramesOf(a) == [] && [] + FramesOf(a + b) == FramesOf(a + b);
    }
  }

  lemma FirstFrame(a: string, b: string, i: nat)
    requires i + 2 <= |a| && BreakAt(a) == i && BreakAt(a + b) == i
    ensures FramesOf(a + b) == [a[..i]] + FramesOf(a[i + 2..] + b) && TailOf(a + b) == TailOf(a[i + 2..] + b)
  {
    assert (a + b)[..i] == a[..i] && (a + b)[i + 2..] == a[i + 2..] + b;
  }

  // ---------------------------------------------------------------- printed frames parse back

  lemma FormatIsOneLine(n: int)
    ensures OneLine(Ascii(FormatInt(n))) && FormatInt(n) != []
  {
    var magnitude := if n < 0 then -n else n;
    DigitsHaveValue(magnitude);
    assert forall i | 0 <= i < |Digits(magnitude)| :: IsDigit(Digits(magnitude)[i]);
  }

  /** Three lines, none of them empty, hold no two newlines together and do not end in one. */
  lemma LinesHaveNoBreak(a: string, b: string, c: string, k: nat)
    requires OneLine(a) && OneLine(b) && OneLine(c) && a != "" && b != "" && c != ""
    ensures var body := a + "\n" + (b + "\n" + c);
            !BreakHere(body, k) && body[|body| - 1] != '\n'
  {
    var body := a + "\n" + (b + "\n" + c);
    assert forall i | 0 <= i < |body| ::
        body[i] == if i < |a| then a[i] else if i == |a| then '\n' else if i < |a| + 1 + |b| then b[i - |a| - 1]
                   else if i == |a| + 1 + |b| then '\n' else c[i - |a| - |b| - 2];
  }

  lemma BodyHasNoBreak(m: Message, k: nat)
    requires Printable(m)
    ensures !BreakHere(Body(m), k) && Body(m) != "" && Body(m)[|Body(m)| - 1] != '\n'
  {
    if m.Activity? {
      FormatIsOneLine(m.id);
      LinesHaveNoBreak(IdLine(m.id), EVENT_LINE, DataLine(m.payload), k);
    }
  }

  /** A printed frame is one frame to the parser, whatever follows it. */
  lemma PrintedFrameIsOne(m: Message, rest: string)
    requires Printable(m)
    ensures FramesOf(Frame(m) + rest) == [Body(m)] + FramesOf(rest) && TailOf(Frame(m) + rest) == TailOf(rest)
  {
    var body := Body(m);
    var s := Frame(m) + rest;
    BodyHasNoBreak(m, 0);
    forall k: nat | k < |body|
      ensures !BreakHere(s, k)
    {
      BodyHasNoBreak(m, k);
      assert s[k] == body[k] && (k + 1 < |body| ==> s[k + 1] == body[k + 1]);
    }
    assert s[|body|] == '\n' && s[|body| + 1] == '\n';
    BreakIsAt(s, |body|);
    assert s[..|body|] == body && s[|body| + 2..] == rest;
  }

  /** A frame cut short has no break: it stays in the buffer. */
  lemma PartOfAFrameIsTail(m: Message, part: string)
    requires Printable(m) && part <= Frame(m) && part != Frame(m)
    ensures FramesOf(part) == [] && TailOf(part) == part
  {
    var body := Body(m);
    BodyHasNoBreak(m, 0);
    forall k: nat
      ensures !BreakHere(part, k)
    {
      BodyHasNoBreak(m, k);
      assert |part| < |body| + 2;
      assert forall i | 0 <= i < |part| :: part[i] == Frame(m)[i];
      assert k + 1 < |part| ==> part[k] == body[k] && (k + 1 < |body| ==> part[k + 1] == body[k + 1]);
    }
    NoBreak(part);
  }

  function Bodies(messages: seq<Message>): seq<string> {
    if messages == [] then [] else [Body(messages[0])] + Bodies(messages[1..])
  }

  lemma {:induction false} PrintedStreamParses(messages: seq<Message>, part: string)
    requires forall m | m in messages :: Printable(m)
    ensures FramesOf(Printed(messages) + part) == Bodies(messages) + FramesOf(part)
    ensures TailOf(Printed(messages) + part) == TailOf(part)
  {
    if messages == [] {
      assert "" + part == part;
    } else {
      var first, rest := Frame(messages[0]), Printed(messages[1..]);
      assert messages[0] in messages;
      PrintedStreamParses(messages[1..], part);
      PrintedFrameIsOne(messages[0], rest + part);
      Associates(first, rest, part);
      Associates([Body(messages[0])], Bodies(messages[1..]), FramesOf(part));
    }
  }

  lemma {:induction false} SplitLine(line: string, rest: string)
    requires OneLine(line)
    ensures Split(line + "\n" + rest) == [line] + Split(rest)
  {
    var s := line + "\n" + rest;
    if line == "" {
      assert s[1..] == rest;
    } else {
      SplitLine(line[1..], rest);
      assert s[1..] == line[1..] + "\n" + rest;
      assert [s[0]] + line[1..] == line;
    }
  }

  lemma {:induction false} SplitLast(line: string)
    requires OneLine(line)
    ensures Split(line) == [line]
  {
    if line != "" {
      SplitLast(line[1..]);
      assert [line[0]] + line[1..] == line;
    }
  }

  lemma LinesOfABody(m: Message)
    requires Printable(m)
    ensures Split(Body(m)) == if m.Activity? then [IdLine(m.id), EVENT_LINE, DataLine(m.payload)] else [COMMENT]
  {
    if m.Activity? {
      FormatIsOneLine(m.id);
      SplitLine(IdLine(m.id), EVENT_LINE + "\n" + DataLine(m.payload));
      SplitLine(EVENT_LINE, DataLine(m.payload));
      SplitLast(DataLine(m.payload));
      assert [IdLine(m.id)] + ([EVENT_LINE] + [DataLine(m.payload)]) == [IdLine(m.id), EVENT_LINE, DataLine(m.payload)];
    } else {
      SplitLast(COMMENT);
    }
  }

  /** Trimming takes off exactly the blank the printer put before the object. */
  lemma TrimmedObject(payload: string)
    requires IsObject(payload)
    ensures TrimRight(TrimLeft(" " + payload)) == payload
  {
    assert (" " + payload)[1..] == payload;
    assert TrimLeft(" " + payload) == TrimLeft(payload);
  }

  lemma BodyHandsOverItsPayload(m: Message, parses: string -> bool)
    requires Printable(m) && (m.Activity? ==> parses(m.payload))
    ensures Emitted(Body(m), parses) == if m.Activity? then [m.payload] else []
  {
    LinesOfABody(m);
    if m.Activity? { DataOfAnActivity(m.id, m.payload); } else { DataOfAComment(); }
  }

  lemma DataOfAnActivity(id: int, payload: string)
    requires IsObject(payload)
    ensures DataOf([IdLine(id), EVENT_LINE, DataLine(payload)]) == payload
  {
    var a, b, c := IdLine(id), EVENT_LINE, DataLine(payload);
    assert a[0] == 'i' && b[0] == 'e' && c[..5] == "data:" && c[5..] == " " + payload;
    TrimmedObject(payload);
    DataOfLines(a, b, c);
  }

  lemma DataOfAComment()
    ensures DataOf([COMMENT]) == ""
  {
    assert COMMENT[0] == ':';
    assert [COMMENT][1..] == [];
    assert DataOf([COMMENT]) == "" + DataOf([]);
  }

  lemma DataOfLines(a: string, b: string, c: string)
    requires !("data:" <= a) && !("data:" <= b) && "data:" <= c
    ensures DataOf([a, b, c]) == TrimRight(TrimLeft(c[5..]))
  {
    var data := TrimRight(TrimLeft(c[5..]));
    assert [a, b, c][1..] == [b, c] && [b, c][1..] == [c] && [c][1..] == [];
    assert DataOf([c]) == data + DataOf([]) == data;
    assert DataOf([b, c]) == "" + DataOf([c]) == data;
    assert DataOf([a, b, c]) == "" + DataOf([b, c]) == data;
  }

  function Payloads(messages: seq<Message>): seq<string> {
    if messages == [] then [] else PayloadOf(messages[0]) + Payloads(messages[1..])
  }

  function PayloadOf(m: Message): seq<string> {
    if m.Activity? then [m.payload] else []
  }

  lemma {:induction false} BodiesHandOverPayloads(messages: seq<Message>, parses: string -> bool)
    requires forall m | m in messages :: Printable(m) && (m.Activity? ==> parses(m.payload))
    ensures EmittedBy(Bodies(messages), parses) == Payloads(messages)
  {
    if messages != [] {
      assert messages[0] in messages;
      BodyHandsOverItsPayload(messages[0], parses);
      BodiesHandOverPayloads(messages[1..], parses);
      assert Bodies(messages)[1..] == Bodies(messages[1..]);
    }
  }

  /**
   However the text is cut into chunks: after any part of the printed stream that holds the frames
   of `messages` in full and an unfinished piece of the next one, the reader has emitted exactly
   their payloads, in order, and keeps exactly the unfinished piece.
   */
  lemma StreamRoundTrip(messages: seq<Message>, next: Message, part: string, chunks: seq<string>,
                        parses: string -> bool)
    requires forall m | m in messages :: Printable(m) && (m.Activity? ==> parses(m.payload))
    requires Printable(next) && part <= Frame(next) && part != Frame(next)
    requires Joined(chunks) == Printed(messages) + part
    ensures EmittedBy(FramesOf(Joined(chunks)), parses) == Payloads(messages)
    ensures TailOf(Joined(chunks)) == part
  {
    PrintedStreamParses(messages, part);
    PartOfAFrameIsTail(next, part);
    assert Bodies(messages) + [] == Bodies(messages);
    BodiesHandOverPayloads(messages, parses);
  }

  function Frames(messages: seq<Message>): seq<string> {
    seq(|messages|, i requires 0 <= i < |messages| => Frame(messages[i]))
  }

  lemma {:induction false} PrintedJoinsFrames(messages: seq<Message>)
    ensures Printed(messages) == Joined(Frames(messages))
  {
    if messages != [] {
      PrintedJoinsFrames(messages[1..]);
      assert Frames(messages) == [Frame(messages[0])] + Frames(messages[1..]);
      JoinedFirst(Frame(messages[0]), Frames(messages[1..]));
    }
  }

  lemma JoinedFirst(piece: string, pieces: seq<string>)
    ensures Joined([piece] + pieces) == piece + Joined(pieces)
  {
    assert ([piece] + pieces)[1..] == pieces;
  }

  /** Every part of the printed stream is some frames in full and an unfinished piece of the next. */
  lemma EveryCutIsFramesAndAPart(messages: seq<Message>, text: string) returns (k: nat, part: string)
    requires text <= Printed(messages)
    ensures k <= |messages| && text == Printed(messages[..k]) + part
    ensures if k < |messages| then part <= Frame(messages[k]) && part != Frame(messages[k]) else part == ""
  {
    PrintedJoinsFrames(messages);
    k, part := EveryCut(Frames(messages), text);
    PrintedJoinsFrames(messages[..k]);
    assert Frames(messages)[..k] == Frames(messages[..k]);
  }

  lemma {:induction false} EveryCut(pieces: seq<string>, text: string) returns (k: nat, part: string)
    requires text <= Joined(pieces)
    ensures k <= |pieces| && text == Joined(pieces[..k]) + part
    ensures if k < |pieces| then part <= pieces[k] && part != pieces[k] else part == ""
  {
    if pieces == [] {
      return 0, "";
    }
    PrefixOfTwo(text, pieces[0], Joined(pieces[1..]));
    if |text| < |pieces[0]| {
      k, part := 0, text;
      assert Joined(pieces[..0]) + part == text;
    } else {
      var after;
      after, part := EveryCut(pieces[1..], text[|pieces[0]|..]);
      JoinedBegins(pieces, after);
      Associates(pieces[0], Joined(pieces[1..][..after]), part);
      k := after + 1;
    }
  }

  lemma JoinedBegins(pieces: seq<string>, k: nat)
    requires k < |pieces|
    ensures Joined(pieces[..k + 1]) == pieces[0] + Joined(pieces[1..][..k])
  {
    assert pieces[..k + 1][1..] == pieces[1..][..k] && pieces[..k + 1][0] == pieces[0];
  }

  lemma PrefixOfTwo(text: string, first: string, rest: string)
    requires text <= first + rest
    ensures if |text| < |first| then text <= first else text == first + text[|first|..] && text[|first|..] <= rest
  {
    assert forall i | 0 <= i < |text| :: text[i] == (first + rest)[i];
  }

  /**
   The two together: whatever prefix of the printed stream has arrived, in whatever chunks, the
   reader has emitted the payloads of the frames it completes and holds the piece that is left.
   */
  lemma AnyCutRoundTrips(messages: seq<Message>, chunks: seq<string>, parses: string -> bool)
    returns (k: nat, part: string)
    requires forall m | m in messages :: Printable(m) && (m.Activity? ==> parses(m.payload))
    requires Joined(chunks) <= Printed(messages)
    ensures k <= |messages| && Joined(chunks) == Printed(messages[..k]) + part
    ensures if k < |messages| then part <= Frame(messages[k]) && part != Frame(messages[k]) else part == ""
    ensures EmittedBy(FramesOf(Joined(chunks)), parses) == Payloads(messages[..k]) && TailOf(Joined(chunks)) == part
  {
    k, part := EveryCutIsFramesAndAPart(messages, Joined(chunks));
    StreamRoundTrip(messages[..k], if k < |messages| then messages[k] else KeepAlive, part, chunks, parses);
  }

  // ---------------------------------------------------------------- from the broker's channel to the callback

  /** The payloads of the received events that can be encoded. */
  function Encoded(signals: seq<Signal>): seq<string> {
    if signals == [] then []
    else
      var last := signals[|signals| - 1];
      Encoded(signals[..|signals| - 1]) + if last.Received? && last.payload.Some? then [last.payload.value] else []
  }

  lemma {:induction false} PayloadsTake(messages: seq<Message>, more: seq<Message>)
    ensures Payloads(messages + more) == Payloads(messages) + Payloads(more)
  {
    if messages == [] {
      assert messages + more == more;
    } else {
      PayloadsTake(messages[1..], more);
      FirstAndRest(messages, more);
      PayloadsBegin(messages[0], messages[1..] + more);
      Associates(PayloadOf(messages[0]), Payloads(messages[1..]), Payloads(more));
    }
  }

  lemma PayloadsBegin(m: Message, messages: seq<Message>)
    ensures Payloads([m] + messages) == PayloadOf(m) + Payloads(messages)
  {
    assert ([m] + messages)[1..] == messages;
  }

  lemma {:induction false} PayloadsAreEncoded(signals: seq<Signal>)
    ensures Payloads(MessagesOf(signals)) == Encoded(signals)
  {
    if signals != [] {
      var n := |signals| - 1;
      PayloadsAreEncoded(signals[..n]);
      PayloadsTake(MessagesOf(signals[..n]), MessageOf(signals[n]));
      PayloadsOfSignal(signals[n]);
    }
  }

  lemma PayloadsOfSignal(signal: Signal)
    ensures Payloads(MessageOf(signal))
         == if signal.Received? && signal.payload.Some? then [signal.payload.value] else []
  {
    var messages := MessageOf(signal);
    if messages != [] { assert messages[1..] == [] && Payloads(messages) == PayloadOf(messages[0]) + []; }
  }

  lemma {:induction false} PayloadsOfPrefix(messages: seq<Message>, k: nat)
    requires k <= |messages|
    ensures Payloads(messages[..k]) <= Payloads(messages)
  {
    PayloadsTake(messages[..k], messages[k..]);
    assert messages[..k] + messages[k..] == messages;
  }

  predicate Deliverable(signals: seq<Signal>, parses: string -> bool) {
    forall s | s in signals && s.Received? && s.payload.Some? :: IsObject(s.payload.value) && parses(s.payload.value)
  }

  lemma {:induction false} ServedArePrintable(signals: seq<Signal>, parses: string -> bool)
    requires Deliverable(signals, parses)
    ensures forall m | m in MessagesOf(signals) :: Printable(m) && (m.Activity? ==> parses(m.payload))
  {
    if signals != [] {
      assert forall s | s in signals[..|signals| - 1] :: s in signals;
      assert signals[|signals| - 1] in signals;
      ServedArePrintable(signals[..|signals| - 1], parses);
    }
  }

  /**
   From the channel of the subscriber to the callback of the client: of what the server wrote, any
   part that has arrived, in any chunks, has handed over a prefix of the encodable events the
   server received, in order; once all of it has arrived, exactly those it served.
   */
  lemma ServerToClient(signals: seq<Signal>, writes: nat, served: nat, chunks: seq<string>, parses: string -> bool)
    requires Deliverable(signals, parses) && Served(signals, writes, served)
    requires Joined(chunks) <= Printed(MessagesOf(signals[..served]))
    ensures EmittedBy(FramesOf(Joined(chunks)), parses) <= Encoded(signals[..served])
    ensures Joined(chunks) == Printed(MessagesOf(signals[..served])) ==>
              EmittedBy(FramesOf(Joined(chunks)), parses) == Encoded(signals[..served]) && TailOf(Joined(chunks)) == ""
  {
    var messages := MessagesOf(signals[..served]);
    assert forall s | s in signals[..served] :: s in signals;
    ServedArePrintable(signals[..served], parses);
    PayloadsAreEncoded(signals[..served]);
    var k, part := AnyCutRoundTrips(messages, chunks, parses);
    PayloadsOfPrefix(messages, k);
    if Joined(chunks) == Printed(messages) { WholeStreamRoundTrips(messages, chunks, parses); }
  }

  lemma WholeStreamRoundTrips(messages: seq<Message>, chunks: seq<string>, parses: string -> bool)
    requires forall m | m in messages :: Printable(m) && (m.Activity? ==> parses(m.payload))
    requires Joined(chunks) == Printed(messages)
    ensures EmittedBy(FramesOf(Joined(chunks)), parses) == Payloads(messages) && TailOf(Joined(chunks)) == ""
  {
    assert Printed(messages) + "" == Printed(messages);
    StreamRoundTrip(messages, KeepAlive, "", chunks, parses);
  }

  // ---------------------------------------------------------------- the standard's reading of a frame

  function ColonAt(line: string): (i: nat)
    ensures i <= |line|
  {
    if line == "" || line[0] == ':' then 0 else 1 + ColonAt(line[1..])
  }

  /** The field a line sets and its value, which loses one leading blank; a comment has no name. */
  function Field(line: string): (string, string) {
    var i := ColonAt(line);
    var value := if i == |line| then "" else line[i + 1..];
    (line[..i], if value != "" && value[0] == ' ' then value[1..] else value)
  }

  /**
   The data buffer after the lines of one event, as section 9.2.6 of the WHATWG HTML standard
   fills it: every `data` value is followed by a newline.
   */
  function StandardBuffer(lines: seq<string>): string {
    if lines == [] then "" else StandardLine(lines[0]) + StandardBuffer(lines[1..])
  }

  /** What one line adds to the data buffer. */
  function StandardLine(line: string): string {
    if Field(line).0 == "data" then Field(line).1 + "\n" else ""
  }

  /** Dispatch drops the last newline; an empty buffer dispatches nothing. */
  function StandardData(lines: seq<string>): Option<string> {
    var buffer := StandardBuffer(lines);
    if buffer == "" then None else Some(buffer[..|buffer| - 1])
  }

  lemma ColonIsAt(line: string, i: nat)
    requires i < |line| && line[i] == ':' && forall k | 0 <= k < i :: line[k] != ':'
    ensures ColonAt(line) == i
  {
    if i > 0 { ColonIsAt(line[1..], i - 1); }
  }

  lemma FieldIs(line: string, name: string, value: string)
    requires line == name + ": " + value && forall k | 0 <= k < |name| :: name[k] != ':'
    ensures Field(line) == (name, value)
  {
    ColonIsAt(line, |name|);
    assert line[..|name|] == name && line[|name| + 1..] == " " + value && (" " + value)[1..] == value;
  }

  lemma FieldsOfAnActivity(m: Message)
    requires m.Activity?
    ensures Field(IdLine(m.id)) == ("id", Ascii(FormatInt(m.id)))
    ensures Field(EVENT_LINE) == ("event", "activity") && Field(DataLine(m.payload)) == ("data", m.payload)
  {
    FieldIs(IdLine(m.id), "id", Ascii(FormatInt(m.id)));
    FieldIs(EVENT_LINE, "event", "activity");
    FieldIs(DataLine(m.payload), "data", m.payload);
  }

  lemma OtherLinesAddNothing(m: Message)
    requires m.Activity?
    ensures StandardLine(IdLine(m.id)) == "" && StandardLine(EVENT_LINE) == ""
    ensures StandardLine(DataLine(m.payload)) == m.payload + "\n"
  {
    FieldsOfAnActivity(m);
    DifferentNames();
  }

  lemma DifferentNames()
    ensures "id" != "data" && "event" != "data" && "id" != "event"
  {
    assert |"id"| == 2 && |"event"| == 5 && |"data"| == 4;
  }

  lemma CommentSetsNothing()
    ensures Field(COMMENT).0 == "" && StandardLine(COMMENT) == ""
  {
    ColonIsAt(COMMENT, 0);
    assert |Field(COMMENT).0| == 0;
  }

  lemma OnlyTheLastLineAdds(a: string, b: string, c: string)
    requires StandardLine(a) == "" && StandardLine(b) == ""
    ensures StandardBuffer([a, b, c]) == StandardLine(c)
  {
    assert [a, b, c][1..] == [b, c] && [b, c][1..] == [c] && [c][1..] == [];
    assert StandardBuffer([c]) == StandardLine(c) + StandardBuffer([]) == StandardLine(c);
    assert StandardBuffer([b, c]) == "" + StandardBuffer([c]) == StandardLine(c);
    assert StandardBuffer([a, b, c]) == "" + StandardBuffer([b, c]) == StandardLine(c);
  }

  /** A parser that follows the standard reads from a printed frame what the client's parser reads. */
  lemma StandardAgrees(m: Message)
    requires Printable(m)
    ensures StandardData(Split(Body(m))) == if m.Activity? then Some(m.payload) else None
  {
    LinesOfABody(m);
    if m.Activity? {
      OtherLinesAddNothing(m);
      OnlyTheLastLineAdds(IdLine(m.id), EVENT_LINE, DataLine(m.payload));
      assert (m.payload + "\n")[..|m.payload|] == m.payload;
    } else {
      CommentSetsNothing();
      assert StandardBuffer([COMMENT]) == StandardLine(COMMENT) + StandardBuffer([COMMENT][1..]);
    }
  }

  // ---------------------------------------------------------------- ids and types

  /** What the standard's parser hands over: the last id, the type and the data. */
  datatype Dispatch = Dispatch(id: string, kind: string, data: string)

  /** The value of the last line that sets the field, or what it was before. */
  function LastValue(lines: seq<string>, name: string, before: string): string {
    if lines == [] then before
    else LastValue(lines[1..], name, if Field(lines[0]).0 == name then Field(lines[0]).1 else before)
  }

  /** The id stays from event to event, the type starts anew as `message`. */
  function StandardEvents(frames: seq<string>, id: string): seq<Dispatch> {
    if frames == [] then []
    else
      var lines := Split(frames[0]);
      var last := LastValue(lines, "id", id);
      EventIn(lines, last) + StandardEvents(frames[1..], last)
  }

  function EventIn(lines: seq<string>, id: string): seq<Dispatch> {
    var data := StandardData(lines);
    if data.None? then [] else [Dispatch(id, LastValue(lines, "event", "message"), data.value)]
  }

  /** The number that a field holds. */
  function NumberIn(value: string): Option<int> {
    if forall i | 0 <= i < |value| :: value[i] < 256 as char
    then ParseInt(seq(|value|, i requires 0 <= i < |value| && value[i] < 256 as char => value[i] as byte))
    else None
  }

  lemma NumbersComeBack(n: int)
    requires IsInt64(n)
    ensures NumberIn(Ascii(FormatInt(n))) == Some(n)
  {
    var value := Ascii(FormatInt(n));
    assert forall i | 0 <= i < |value| :: value[i] < 256 as char;
    assert seq(|value|, i requires 0 <= i < |value| && value[i] < 256 as char => value[i] as byte) == FormatInt(n);
    ParseFormats(n);
  }

  lemma LastOfThree(a: string, b: string, c: string, name: string, before: string)
    ensures LastValue([a, b, c], name, before)
         == if Field(c).0 == name then Field(c).1 else if Field(b).0 == name then Field(b).1
            else if Field(a).0 == name then Field(a).1 else before
  {
    var first := if Field(a).0 == name then Field(a).1 else before;
    var second := if Field(b).0 == name then Field(b).1 else first;
    assert [a, b, c][1..] == [b, c] && [b, c][1..] == [c] && [c][1..] == [];
    assert LastValue([a, b, c], name, before) == LastValue([b, c], name, first);
    assert LastValue([b, c], name, first) == LastValue([c], name, second);
    assert LastValue([c], name, second) == if Field(c).0 == name then Field(c).1 else second;
  }

  /** The standard's parser reads the id, the type and the payload of a printed event; a keep-alive changes nothing. */
  lemma StandardReadsAllFields(m: Message, before: string)
    requires Printable(m)
    ensures var lines := Split(Body(m));
            if m.Activity?
            then && LastValue(lines, "id", before) == Ascii(FormatInt(m.id))
                 && LastValue(lines, "event", "message") == "activity" && StandardData(lines) == Some(m.payload)
            else LastValue(lines, "id", before) == before && StandardData(lines).None?
  {
    LinesOfABody(m);
    StandardAgrees(m);
    if m.Activity? {
      FieldsOfAnActivity(m);
      DifferentNames();
      LastOfThree(IdLine(m.id), EVENT_LINE, DataLine(m.payload), "id", before);
      LastOfThree(IdLine(m.id), EVENT_LINE, DataLine(m.payload), "event", "message");
    } else {
      CommentSetsNothing();
      assert [COMMENT][1..] == [];
    }
  }

  /** The received events that can be encoded, in order. */
  function Encodable(signals: seq<Signal>): seq<Signal> {
    if signals == [] then []
    else
      var last := signals[|signals| - 1];
      Encodable(signals[..|signals| - 1]) + if last.Received? && last.payload.Some? then [last] else []
  }

  /** What was handed over are these events, one for one. */
  ghost predicate HandsOver(handed: seq<Dispatch>, events: seq<Signal>) {
    && |handed| == |events|
    && forall k | 0 <= k < |handed| ::
         && events[k].Received? && NumberIn(handed[k].id) == Some(events[k].id) && handed[k].kind == "activity"
         && events[k].payload == Some(handed[k].data)
  }

  ghost predicate HandsOverMessages(handed: seq<Dispatch>, messages: seq<Message>) {
    && |handed| == |messages|
    && forall k | 0 <= k < |handed| :: CarriesMessage(handed[k], messages[k])
  }

  ghost predicate CarriesMessage(d: Dispatch, m: Message) {
    m.Activity? && NumberIn(d.id) == Some(m.id) && d.kind == "activity" && m.payload == d.data
  }

  function Activities(messages: seq<Message>): seq<Message> {
    if messages == [] then []
    else ActivityIn(messages[0]) + Activities(messages[1..])
  }

  function ActivityIn(m: Message): seq<Message> {
    if m.Activity? then [m] else []
  }

  lemma {:induction false} BodiesHandOverMessages(messages: seq<Message>, before: string)
    requires forall m | m in messages :: Printable(m) && (m.Activity? ==> IsInt64(m.id))
    ensures HandsOverMessages(StandardEvents(Bodies(messages), before), Activities(messages))
  {
    if messages != [] {
      var m, rest := messages[0], Bodies(messages[1..]);
      assert m in messages;
      var handed, id := BodyHandsOver(m, rest, before);
      BodiesHandOverMessages(messages[1..], id);
      HandOverJoins(handed, StandardEvents(rest, id), ActivityIn(m), Activities(messages[1..]));
    }
  }

  lemma HandOverJoins(a: seq<Dispatch>, b: seq<Dispatch>, m: seq<Message>, n: seq<Message>)
    requires HandsOverMessages(a, m) && HandsOverMessages(b, n)
    ensures HandsOverMessages(a + b, m + n)
  {
    forall k | 0 <= k < |a + b|
      ensures CarriesMessage((a + b)[k], (m + n)[k])
    {
      assert k < |a| ==> CarriesMessage(a[k], m[k]);
      assert k >= |a| ==> CarriesMessage(b[k - |a|], n[k - |a|]);
    }
  }

  /** The first frame hands over its event, if it is one, and leaves its id. */
  lemma BodyHandsOver(m: Message, rest: seq<string>, before: string) returns (handed: seq<Dispatch>, id: string)
    requires Printable(m) && (m.Activity? ==> IsInt64(m.id))
    ensures StandardEvents([Body(m)] + rest, before) == handed + StandardEvents(rest, id)
    ensures HandsOverMessages(handed, ActivityIn(m))
  {
    id := LastValue(Split(Body(m)), "id", before);
    handed := EventIn(Split(Body(m)), id);
    StandardReadsAllFields(m, before);
    if m.Activity? { NumbersComeBack(m.id); }
    EventsBegin(Body(m), rest, before);
  }

  lemma EventsBegin(frame: string, rest: seq<string>, before: string)
    ensures var lines := Split(frame); var id := LastValue(lines, "id", before);
            StandardEvents([frame] + rest, before) == EventIn(lines, id) + StandardEvents(rest, id)
  {
    assert ([frame] + rest)[1..] == rest;
  }

  lemma {:induction false} ActivitiesTake(messages: seq<Message>, more: seq<Message>)
    ensures Activities(messages + more) == Activities(messages) + Activities(more)
  {
    if messages == [] {
      assert messages + more == more;
    } else {
      ActivitiesTake(messages[1..], more);
      assert (messages + more)[1..] == messages[1..] + more;
    }
  }

  /** The events among the messages are the encodable ones received, with their ids and payloads. */
  ghost predicate SameEvents(messages: seq<Message>, events: seq<Signal>) {
    && |messages| == |events|
    && forall k | 0 <= k < |messages| ::
         && messages[k].Activity? && events[k].Received? && messages[k].id == events[k].id
         && events[k].payload == Some(messages[k].payload)
  }

  lemma {:induction false} ActivitiesAreEncodable(signals: seq<Signal>)
    ensures SameEvents(Activities(MessagesOf(signals)), Encodable(signals))
  {
    if signals != [] {
      var n := |signals| - 1;
      ActivitiesAreEncodable(signals[..n]);
      ActivitiesTake(MessagesOf(signals[..n]), MessageOf(signals[n]));
      assert MessageOf(signals[n]) != [] ==> MessageOf(signals[n])[1..] == [];
    }
  }

  lemma {:induction false} ActivitiesOfPrefix(messages: seq<Message>, k: nat)
    requires k <= |messages|
    ensures Activities(messages[..k]) <= Activities(messages)
  {
    ActivitiesTake(messages[..k], messages[k..]);
    assert messages[..k] + messages[k..] == messages;
  }

  /**
   A client that follows the standard: of what the server wrote, any part that has arrived, in any
   chunks, has handed over the first of the encodable events received, each with its id, the type
   `activity` and its payload; once all of it has arrived, all that were served.
   */
  lemma ServerToStandard(signals: seq<Signal>, writes: nat, served: nat, chunks: seq<string>, parses: string -> bool)
    requires Deliverable(signals, parses) && Served(signals, writes, served)
    requires forall s | s in signals && s.Received? :: IsInt64(s.id)
    requires Joined(chunks) <= Printed(MessagesOf(signals[..served]))
    ensures var handed, events := StandardEvents(FramesOf(Joined(chunks)), ""), Encodable(signals[..served]);
            && |handed| <= |events| && HandsOver(handed, events[..|handed|])
            && (Joined(chunks) == Printed(MessagesOf(signals[..served])) ==> HandsOver(handed, events))
  {
    var messages := MessagesOf(signals[..served]);
    assert forall s | s in signals[..served] :: s in signals;
    ServedArePrintable(signals[..served], parses);
    ServedHaveIds(signals[..served]);
    ActivitiesAreEncodable(signals[..served]);
    var k := CutHandsOver(messages, chunks, parses);
    var handed := StandardEvents(FramesOf(Joined(chunks)), "");
    MessagesAreEvents(handed, Activities(messages[..k]), Activities(messages), Encodable(signals[..served]));
  }

  lemma CutHandsOver(messages: seq<Message>, chunks: seq<string>, parses: string -> bool) returns (k: nat)
    requires forall m | m in messages :: Printable(m) && (m.Activity? ==> IsInt64(m.id) && parses(m.payload))
    requires Joined(chunks) <= Printed(messages)
    ensures k <= |messages| && Activities(messages[..k]) <= Activities(messages)
    ensures Joined(chunks) == Printed(messages) ==> Activities(messages[..k]) == Activities(messages)
    ensures HandsOverMessages(StandardEvents(FramesOf(Joined(chunks)), ""), Activities(messages[..k]))
  {
    if Joined(chunks) == Printed(messages) {
      k := |messages|;
      assert messages[..k] == messages && Printed(messages) + "" == Printed(messages);
      PrefixHandsOver(messages, k, "", chunks);
    } else {
      var part;
      k, part := AnyCutRoundTrips(messages, chunks, parses);
      PrefixHandsOver(messages, k, part, chunks);
      ActivitiesOfPrefix(messages, k);
    }
  }

  lemma MessagesAreEvents(handed: seq<Dispatch>, part: seq<Message>, all: seq<Message>, events: seq<Signal>)
    requires HandsOverMessages(handed, part) && part <= all && SameEvents(all, events)
    ensures |handed| <= |events| && HandsOver(handed, events[..|handed|]) && (part == all ==> HandsOver(handed, events))
  {
    assert forall k | 0 <= k < |part| :: part[k] == all[k] && CarriesMessage(handed[k], part[k]);
  }

  lemma {:induction false} ServedHaveIds(signals: seq<Signal>)
    requires forall s | s in signals && s.Received? :: IsInt64(s.id)
    ensures forall m | m in MessagesOf(signals) :: m.Activity? ==> IsInt64(m.id)
  {
    if signals != [] {
      assert forall s | s in signals[..|signals| - 1] :: s in signals;
      assert signals[|signals| - 1] in signals;
      ServedHaveIds(signals[..|signals| - 1]);
    }
  }

  lemma PrefixHandsOver(messages: seq<Message>, k: nat, part: string, chunks: seq<string>)
    requires forall m | m in messages :: Printable(m) && (m.Activity? ==> IsInt64(m.id))
    requires k <= |messages| && Joined(chunks) == Printed(messages[..k]) + part
    requires if k < |messages| then part <= Frame(messages[k]) && part != Frame(messages[k]) else part == ""
    ensures HandsOverMessages(StandardEvents(FramesOf(Joined(chunks)), ""), Activities(messages[..k]))
  {
    PrintedStreamParses(messages[..k], part);
    PartOfAFrameIsTail(if k < |messages| then messages[k] else KeepAlive, part);
    assert Bodies(messages[..k]) + [] == Bodies(messages[..k]);
    BodiesHandOverMessages(messages[..k], "");
  }

  // ---------------------------------------------------------------- keep-alives

  /** Every tick served is one keep-alive, and there are no others. */
  lemma {:induction false} KeepAlivesAreTicks(signals: seq<Signal>)
    ensures Count(MessagesOf(signals), (m: Message) => m.KeepAlive?) == Count(signals, (s: Signal) => s.Tick?)
  {
    if signals != [] {
      var n := |signals| - 1;
      KeepAlivesAreTicks(signals[..n]);
      var before, more := MessagesOf(signals[..n]), MessageOf(signals[n]);
      if more == [] { NothingAdded(before, more); }
      else {
        assert more == [more[0]];
        CountTakes(before, more[0], (m: Message) => m.KeepAlive?);
      }
    }
  }
}

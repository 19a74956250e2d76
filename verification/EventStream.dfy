/**
 * Printing a reply as an event stream (internal/synthetic/inference.go) and reading it back
 * (internal/harness/streamscan.go, internal/gateway/stream.go). The encoding of one event as
 * text is given from outside, with the laws JSON encoding obeys for ASCII text.
 */
module EventStream {
  import opened Common
  import opened Json
  import opened LineReader

  datatype Event =
    | MessageStart(id: string, model: string, input: int)
    | BlockStart
    | TextDelta(text: string)
    | BlockStop
    | MessageDelta(output: int)
    | MessageStop

  function Name(e: Event): string {
    match e
    case MessageStart(_, _, _) => "message_start"
    case BlockStart => "content_block_start"
    case TextDelta(_) => "content_block_delta"
    case BlockStop => "content_block_stop"
    case MessageDelta(_) => "message_delta"
    case MessageStop => "message_stop"
  }

  /** The members an event is printed with. */
  function Payload(e: Event): map<string, Json> {
    match e
    case MessageStart(id, model, input) => map["type" := Str(Name(e)), "message" := Obj(Message(id, model, input))]
    case BlockStart => map["type" := Str(Name(e)), "index" := Num(0),
                           "content_block" := Obj(map["type" := Str("text"), "text" := Str("")])]
    case TextDelta(text) => map["type" := Str(Name(e)), "index" := Num(0),
                                "delta" := Obj(map["type" := Str("text_delta"), "text" := Str(text)])]
    case BlockStop => map["type" := Str(Name(e)), "index" := Num(0)]
    case MessageDelta(output) =>
      map["type" := Str(Name(e)), "delta" := Obj(map["stop_reason" := Str("end_turn"), "stop_sequence" := Null]),
          "usage" := Obj(map["output_tokens" := Num(output)])]
    case MessageStop => map["type" := Str(Name(e))]
  }

  function Message(id: string, model: string, input: int): map<string, Json> {
    map["id" := Str(id), "type" := Str("message"), "role" := Str("assistant"), "model" := Str(model),
        "content" := Arr([]),
        "usage" := Obj(map["input_tokens" := Num(input), "output_tokens" := Num(0)])]
  }

  predicate Ascii(s: string) { forall i :: 0 <= i < |s| ==> s[i] as int < 128 }

  /** Encoding and decoding of objects, and which byte strings are text that survives them. */
  datatype EventCodec = EventCodec(encode: map<string, Json> -> string, decode: string -> Option<Json>,
                                   utf8: string -> bool)

  predicate Plain(c: EventCodec, e: Event) {
    && (e.TextDelta? ==> c.utf8(e.text))
    && (e.MessageStart? ==> c.utf8(e.id) && c.utf8(e.model))
  }

  /** ASCII is text; an event of text is an object on one line that decodes to what was encoded. */
  ghost predicate Lawful(c: EventCodec) {
    && (forall s :: Ascii(s) ==> c.utf8(s))
    && (forall e :: Plain(c, e) ==>
          var b := c.encode(Payload(e));
          c.decode(b) == Some(Obj(Payload(e))) && '\n' !in b && |b| >= 2 && b[0] == '{' && b[|b| - 1] == '}')
  }

  function Encoded(c: EventCodec, e: Event): string { c.encode(Payload(e)) }

  // ---- selecting members ----

  /** A member that should be a string; a missing or null one counts as empty, any other is an error. */
  function TextMember(o: map<string, Json>, name: string): Option<string> {
    if name !in o || o[name].Null? then Some("") else if o[name].Str? then Some(o[name].text) else None
  }

  /** A member that should be an object. */
  function ObjMember(o: map<string, Json>, name: string): Option<map<string, Json>> {
    if name !in o || o[name].Null? then Some(map[]) else if o[name].Obj? then Some(o[name].members) else None
  }

  const MAX_COUNT := 0x7FFF_FFFF_FFFF_FFFF

  /** A member that should be a whole number of 64 bits. */
  function CountMember(o: map<string, Json>, name: string): Option<int> {
    if name !in o || o[name].Null? then Some(0)
    else if o[name].Num? && -MAX_COUNT - 1 <= o[name].n <= MAX_COUNT then Some(o[name].n)
    else None
  }

  function Members(v: Json): Option<map<string, Json>> {
    if v.Obj? then Some(v.members) else if v.Null? then Some(map[]) else None
  }

  /** The type and text of the event's delta, if they have the shape asked for. */
  function SelectDelta(v: Json): Option<(string, string)> {
    var top := Members(v);
    if top.None? then None
    else
      var delta := ObjMember(top.value, "delta");
      if delta.None? then None
      else
        var typ, text := TextMember(delta.value, "type"), TextMember(delta.value, "text");
        if typ.None? || text.None? then None else Some((typ.value, text.value))
  }

  function SelectCounts(o: map<string, Json>, name: string): Option<(int, int)> {
    var usage := ObjMember(o, name);
    if usage.None? then None
    else
      var input, output := CountMember(usage.value, "input_tokens"), CountMember(usage.value, "output_tokens");
      if input.None? || output.None? then None else Some((input.value, output.value))
  }

  /** What the scanner selects: the event's type, its message's counts and its own. */
  function SelectUsage(v: Json): Option<(string, (int, int), (int, int))> {
    var top := Members(v);
    if top.None? then None
    else
      var typ, message, own := TextMember(top.value, "type"), ObjMember(top.value, "message"),
        SelectCounts(top.value, "usage");
      if typ.None? || message.None? || own.None? || SelectCounts(message.value, "usage").None? then None
      else Some((typ.value, SelectCounts(message.value, "usage").value, own.value))
  }

  lemma PayloadDelta(e: Event)
    ensures var d := SelectDelta(Obj(Payload(e)));
      d.Some? && (if e.TextDelta? then d.value == ("text_delta", e.text) else d.value.0 != "text_delta")
  {
    DistinctNames();
  }

  lemma DistinctNames()
    ensures "type" != "text" && "type" != "delta" && "type" != "usage" && "type" != "index" && "type" != "message"
    ensures "delta" != "index" && "delta" != "usage" && "delta" != "message" && "usage" != "index"
            && "usage" != "message"
    ensures "index" != "message" && "stop_reason" != "type" && "stop_sequence" != "type" && "stop_reason" != "text"
    ensures "" != "text_delta" && "content_block" != "delta" && "content_block" != "usage" && "content_block" != "type"
  {
    assert "type"[1] != "text"[1] && "delta"[0] != "index"[0] && "usage"[0] != "index"[0] && "delta"[0] != "usage"[0];
    assert "type"[0] != "delta"[0];
  }

  predicate Countable(e: Event) {
    (e.MessageStart? ==> 0 <= e.input <= MAX_COUNT) && (e.MessageDelta? ==> 0 <= e.output <= MAX_COUNT)
  }

  /** The counts an event reports, where the scanner looks for them. */
  function EventUsage(e: Event): Option<(int, int)> {
    match e
    case MessageStart(_, _, i) => Some((i, 0))
    case MessageDelta(o) => Some((0, o))
    case _ => None
  }

  lemma PayloadUsage(e: Event)
    requires Countable(e)
    ensures var u := SelectUsage(Obj(Payload(e)));
      && u.Some? && u.value.0 == Name(e)
      && (e.MessageStart? ==> u.value.1 == (e.input, 0)) && (e.MessageDelta? ==> u.value.2 == (0, e.output))
  {
    DistinctNames();
  }

  // ---- printing ----

  /** Lines written one after another, each closed by a newline. */
  function Written(lines: seq<string>): string {
    if lines == [] then "" else Written(lines[..|lines| - 1]) + lines[|lines| - 1] + "\n"
  }

  lemma WriteOne(lines: seq<string>, line: string)
    ensures Written(lines + [line]) == Written(lines) + line + "\n"
  {
    assert (lines + [line])[..|lines|] == lines;
  }

  /** An event is its name line, its data line and an empty line. */
  function EventLines(c: EventCodec, e: Event): seq<string> { ["event: " + Name(e), "data: " + Encoded(c, e), ""] }

  function Flat(f: Event -> seq<string>, events: seq<Event>): seq<string> {
    if events == [] then [] else Flat(f, events[..|events| - 1]) + f(events[|events| - 1])
  }

  function AllEventLines(c: EventCodec, events: seq<Event>): seq<string> { Flat(e => EventLines(c, e), events) }

  lemma FlatSnoc(f: Event -> seq<string>, events: seq<Event>, e: Event)
    ensures Flat(f, events + [e]) == Flat(f, events) + f(e)
  {
    assert (events + [e])[..|events|] == events;
  }

  lemma EventLinesSnoc(c: EventCodec, events: seq<Event>, e: Event)
    ensures AllEventLines(c, events + [e]) == AllEventLines(c, events) + EventLines(c, e)
  {
    FlatSnoc(e => EventLines(c, e), events, e);
  }

  /** The text of an event stream. */
  function Emitted(c: EventCodec, events: seq<Event>): string { Written(AllEventLines(c, events)) }

  /** What f makes of the elements, joined. */
  function Collected<T>(f: T -> string, s: seq<T>): string {
    if s == [] then "" else Collected(f, s[..|s| - 1]) + f(s[|s| - 1])
  }

  lemma CollectedSnoc<T>(f: T -> string, s: seq<T>, x: T)
    ensures Collected(f, s + [x]) == Collected(f, s) + f(x)
  {
    assert (s + [x])[..|s|] == s;
  }

  lemma {:induction false} CollectedConcat<T>(f: T -> string, a: seq<T>, b: seq<T>)
    ensures Collected(f, a + b) == Collected(f, a) + Collected(f, b)
    decreases |b|
  {
    if b == [] {
      assert a + b == a;
    } else {
      var front, last := b[..|b| - 1], b[|b| - 1];
      CollectedConcat(f, a, front);
      CollectedSnoc(f, a + front, last);
      assert a + b == a + front + [last];
    }
  }

  function DeltaOf(e: Event): string { if e.TextDelta? then e.text else "" }

  /** The text the deltas carry, joined. */
  function DeltaText(events: seq<Event>): string { Collected(DeltaOf, events) }

  lemma DeltaSnoc(events: seq<Event>, e: Event)
    ensures DeltaText(events + [e]) == DeltaText(events) + if e.TextDelta? then e.text else ""
  {
    CollectedSnoc(DeltaOf, events, e);
  }

  /** Deltas only, of text, each exactly of the chunk size, the last one perhaps shorter. */
  predicate Deltas(c: EventCodec, events: seq<Event>, chunk: nat) {
    forall i :: 0 <= i < |events| ==>
      events[i].TextDelta? && Plain(c, events[i]) && 0 < |events[i].text| <= chunk
        && (i < |events| - 1 ==> |events[i].text| == chunk)
  }

  /** And the last one is not shorter. */
  predicate AllFull(events: seq<Event>, chunk: nat) {
    forall i :: 0 <= i < |events| ==> events[i].TextDelta? && |events[i].text| == chunk
  }

  const WIDE := 48
  const NARROW := 5

  /** Who answers, and with which counts. */
  datatype Meta = Meta(id: string, model: string, input: int, output: int)

  /** The id and the model's name are text, and the counts are lengths. */
  predicate Printable(c: EventCodec, meta: Meta) {
    c.utf8(meta.id) && c.utf8(meta.model) && 0 <= meta.input <= MAX_COUNT && 0 <= meta.output <= MAX_COUNT
  }

  /** The full event sequence for a reply cut into deltas. */
  function Reply(deltas: seq<Event>, meta: Meta): seq<Event> {
    [MessageStart(meta.id, meta.model, meta.input), BlockStart] + deltas
      + [BlockStop, MessageDelta(meta.output), MessageStop]
  }

  lemma WriteThree(lines: seq<string>, l1: string, l2: string)
    ensures Written(lines + [l1, l2, ""]) == Written(lines) + l1 + "\n" + l2 + "\n" + "\n"
  {
    assert lines + [l1, l2, ""] == lines + [l1] + [l2] + [""];
    WriteOne(lines, l1);
    WriteOne(lines + [l1], l2);
    WriteOne(lines + [l1] + [l2], "");
    var w := Written(lines + [l1] + [l2]);
    assert w + "" + "\n" == w + "\n";
  }

  method EmitTo(c: EventCodec, w: string, ghost sent: seq<Event>, e: Event) returns (w': string)
    requires w == Emitted(c, sent)
    ensures w' == Emitted(c, sent + [e])
  {
    var nameLine, dataLine := "event: " + Name(e), "data: " + Encoded(c, e);
    w' := w + nameLine + "\n" + dataLine + "\n" + "\n";
    EventLinesSnoc(c, sent, e);
    WriteThree(AllEventLines(c, sent), nameLine, dataLine);
  }

  lemma DeltaStep(c: EventCodec, deltas: seq<Event>, reply: string, i: nat, end: nat, chunk: nat)
    requires Lawful(c) && Ascii(reply) && i < end <= |reply| && end == Min(i + chunk, |reply|)
    requires Deltas(c, deltas, chunk) && AllFull(deltas, chunk) && DeltaText(deltas) == reply[..i]
    ensures var next := deltas + [TextDelta(reply[i..end])];
      Deltas(c, next, chunk) && DeltaText(next) == reply[..end] && (i + chunk < |reply| ==> AllFull(next, chunk))
  {
    DeltaSnoc(deltas, TextDelta(reply[i..end]));
    assert reply[..end] == reply[..i] + reply[i..end];
    assert Ascii(reply[i..end]);
  }

  method EmitDeltas(c: EventCodec, start: string, ghost sent: seq<Event>, reply: string, chunk: nat)
    returns (w: string, ghost deltas: seq<Event>)
    requires Lawful(c) && Ascii(reply) && chunk > 0 && start == Emitted(c, sent)
    ensures Deltas(c, deltas, chunk) && DeltaText(deltas) == reply
    ensures w == Emitted(c, sent + deltas)
  {
    deltas := [];
    w := start;
    assert sent + deltas == sent;
    var i := 0;
    ghost var upTo := 0;
    while i < |reply|
      invariant 0 <= i && upTo == Min(i, |reply|)
      invariant Deltas(c, deltas, chunk) && DeltaText(deltas) == reply[..upTo]
                && (i < |reply| ==> AllFull(deltas, chunk))
      invariant w == Emitted(c, sent + deltas)
      decreases |reply| - i
    {
      var end := Min(i + chunk, |reply|);
      var e := TextDelta(reply[i..end]);
      DeltaStep(c, deltas, reply, i, end, chunk);
      w := EmitTo(c, w, sent + deltas, e);
      assert sent + deltas + [e] == sent + (deltas + [e]);
      deltas := deltas + [e];
      i := i + chunk;
      upTo := end;
    }
    assert reply[..|reply|] == reply;
  }

  /** Writes the reply as events; with straddling on, deltas are only a few characters long. */
  method StreamInference(c: EventCodec, reply: string, meta: Meta, straddle: bool)
    returns (w: string, ghost deltas: seq<Event>)
    requires Lawful(c) && Ascii(reply)
    ensures Deltas(c, deltas, if straddle then NARROW else WIDE) && DeltaText(deltas) == reply
    ensures w == Emitted(c, Reply(deltas, meta))
  {
    var chunk := WIDE;
    if straddle {
      chunk := NARROW;
    }
    ghost var start := MessageStart(meta.id, meta.model, meta.input);
    w := EmitTo(c, "", [], MessageStart(meta.id, meta.model, meta.input));
    assert [] + [start] == [start];
    w := EmitTo(c, w, [start], BlockStart);
    assert [start] + [BlockStart] == [start, BlockStart];
    w, deltas := EmitDeltas(c, w, [start, BlockStart], reply, chunk);
    w := EmitFoot(c, w, [start, BlockStart] + deltas, meta.output);
  }

  method EmitFoot(c: EventCodec, start: string, ghost sent: seq<Event>, output: int) returns (w: string)
    requires start == Emitted(c, sent)
    ensures w == Emitted(c, sent + [BlockStop, MessageDelta(output), MessageStop])
  {
    ghost var delta := MessageDelta(output);
    w := EmitTo(c, start, sent, BlockStop);
    w := EmitTo(c, w, sent + [BlockStop], MessageDelta(output));
    w := EmitTo(c, w, sent + [BlockStop] + [delta], MessageStop);
    assert sent + [BlockStop] + [delta] + [MessageStop] == sent + [BlockStop, delta, MessageStop];
  }

  // ---- the lines of a printed stream ----

  predicate AllPlain(c: EventCodec, events: seq<Event>) { forall i :: 0 <= i < |events| ==> Plain(c, events[i]) }

  predicate Unbroken(lines: seq<string>) { forall i :: 0 <= i < |lines| ==> '\n' !in lines[i] }

  lemma CloseOne(s: string, line: string)
    requires Tail(s) == "" && '\n' !in line
    ensures Lines(s + line + "\n") == Lines(s) + [line] && Tail(s + line + "\n") == ""
  {
    NewlineCloses(s, line);
    assert Tail(s) + line == line;
  }

  /** Lines written are lines read, with nothing left over. */
  lemma {:induction false} WrittenLines(lines: seq<string>)
    requires Unbroken(lines)
    ensures Lines(Written(lines)) == lines && Tail(Written(lines)) == ""
  {
    if lines == [] {
    } else {
      var front, line := lines[..|lines| - 1], lines[|lines| - 1];
      WrittenLines(front);
      CloseOne(Written(front), line);
      assert lines == front + [line];
    }
  }

  lemma NameHasNoNewline(e: Event)
    ensures '\n' !in "event: " + Name(e)
  {
  }

  lemma {:induction false} EventLinesUnbroken(c: EventCodec, events: seq<Event>)
    requires Lawful(c) && AllPlain(c, events)
    ensures Unbroken(AllEventLines(c, events))
  {
    if events == [] {
    } else {
      var e := events[|events| - 1];
      EventLinesUnbroken(c, events[..|events| - 1]);
      NameHasNoNewline(e);
      assert Unbroken(EventLines(c, e));
    }
  }

  lemma EmittedLines(c: EventCodec, events: seq<Event>)
    requires Lawful(c) && AllPlain(c, events)
    ensures Lines(Emitted(c, events)) == AllEventLines(c, events) && Tail(Emitted(c, events)) == ""
  {
    EventLinesUnbroken(c, events);
    WrittenLines(AllEventLines(c, events));
  }

  // ---- reading the reply back ----

  const DATA := "data: "

  /** The delta text a line carries. */
  function LineText(c: EventCodec, line: string): string {
    if !HasPrefix(line, DATA) then ""
    else
      match c.decode(line[|DATA|..])
      case None => ""
      case Some(v) =>
        var delta := SelectDelta(v);
        if delta.Some? && delta.value.0 == "text_delta" then delta.value.1 else ""
  }

  function LinesText(c: EventCodec, lines: seq<string>): string {
    Collected(line => LineText(c, line), lines)
  }

  /** strings.Split at newlines: the terminated lines and whatever follows the last newline. */
  function Split(s: string): seq<string> { Lines(s) + [Tail(s)] }

  method ReassembleSSE(c: EventCodec, raw: string) returns (text: string)
    ensures text == LinesText(c, Split(raw))
  {
    var lines := Split(raw);
    text := "";
    for i := 0 to |lines|
      invariant text == LinesText(c, lines[..i])
    {
      var line := lines[i];
      assert lines[..i + 1] == lines[..i] + [line];
      LinesTextSnoc(c, lines[..i], line);
      if !HasPrefix(line, DATA) {
        continue;
      }
      var v := c.decode(line[|DATA|..]);
      var delta := if v.Some? then SelectDelta(v.value) else None;
      if delta.Some? && delta.value.0 == "text_delta" {
        text := text + delta.value.1;
      }
    }
    assert lines[..|lines|] == lines;
  }

  lemma LinesTextSnoc(c: EventCodec, lines: seq<string>, line: string)
    ensures LinesText(c, lines + [line]) == LinesText(c, lines) + LineText(c, line)
  {
    CollectedSnoc(l => LineText(c, l), lines, line);
  }

  lemma LinesTextConcat(c: EventCodec, a: seq<string>, b: seq<string>)
    ensures LinesText(c, a + b) == LinesText(c, a) + LinesText(c, b)
  {
    CollectedConcat(line => LineText(c, line), a, b);
  }

  lemma ThreeLinesText(c: EventCodec, l: seq<string>)
    requires |l| == 3
    ensures LinesText(c, l) == LineText(c, l[0]) + LineText(c, l[1]) + LineText(c, l[2])
  {
    assert l == [] + [l[0]] + [l[1]] + [l[2]];
    LinesTextSnoc(c, [], l[0]);
    LinesTextSnoc(c, [] + [l[0]], l[1]);
    LinesTextSnoc(c, [] + [l[0]] + [l[1]], l[2]);
  }

  lemma DataLineText(c: EventCodec, e: Event)
    requires Lawful(c) && Plain(c, e)
    ensures LineText(c, DATA + Encoded(c, e)) == if e.TextDelta? then e.text else ""
  {
    assert (DATA + Encoded(c, e))[|DATA|..] == Encoded(c, e);
    PayloadDelta(e);
  }

  lemma OneEventText(c: EventCodec, e: Event)
    requires Lawful(c) && Plain(c, e)
    ensures LinesText(c, EventLines(c, e)) == if e.TextDelta? then e.text else ""
  {
    var l := EventLines(c, e);
    assert l[0][0] == 'e' && !HasPrefix(l[0], DATA);
    DataLineText(c, e);
    ThreeLinesText(c, l);
  }

  lemma {:induction false} EventsText(c: EventCodec, events: seq<Event>)
    requires Lawful(c) && AllPlain(c, events)
    ensures LinesText(c, AllEventLines(c, events)) == DeltaText(events)
  {
    if events == [] {
    } else {
      var front, e := events[..|events| - 1], events[|events| - 1];
      EventsText(c, front);
      LinesTextConcat(c, AllEventLines(c, front), EventLines(c, e));
      OneEventText(c, e);
    }
  }

  lemma ReplyText(deltas: seq<Event>, meta: Meta)
    ensures DeltaText(Reply(deltas, meta)) == DeltaText(deltas)
  {
    var start, stop, delta := MessageStart(meta.id, meta.model, meta.input), BlockStop, MessageDelta(meta.output);
    DeltaSnoc([], start);
    assert [] + [start] == [start] && [start] + [BlockStart] == [start, BlockStart];
    DeltaSnoc([start], BlockStart);
    var body := [start, BlockStart] + deltas;
    CollectedConcat(DeltaOf, [start, BlockStart], deltas);
    DeltaSnoc(body, stop);
    DeltaSnoc(body + [stop], delta);
    DeltaSnoc(body + [stop] + [delta], MessageStop);
    assert body + [stop] + [delta] + [MessageStop] == Reply(deltas, meta);
  }

  /** Reassembling the printed stream gives the reply back, whichever way it was cut. */
  lemma ReassembleInvertsStream(c: EventCodec, deltas: seq<Event>, meta: Meta, chunk: nat)
    requires Lawful(c) && Deltas(c, deltas, chunk) && Printable(c, meta)
    ensures LinesText(c, Split(Emitted(c, Reply(deltas, meta)))) == DeltaText(deltas)
  {
    var events := Reply(deltas, meta);
    forall i | 0 <= i < |events| ensures Plain(c, events[i]) { ReplyEvents(c, deltas, meta, chunk, i); }
    EmittedLines(c, events);
    EventsText(c, events);
    ReplyText(deltas, meta);
    LinesTextConcat(c, AllEventLines(c, events), [""]);
    LinesTextSnoc(c, [], "");
    assert [] + [""] == [""];
  }

  method StreamAndReassemble(c: EventCodec, reply: string, meta: Meta, straddle: bool) returns (back: string)
    requires Lawful(c) && Ascii(reply) && Printable(c, meta)
    ensures back == reply
  {
    var w, deltas := StreamInference(c, reply, meta, straddle);
    ReassembleInvertsStream(c, deltas, meta, if straddle then NARROW else WIDE);
    back := ReassembleSSE(c, w);
  }

  // ---- reading the token counts back ----

  /** The payload of a data line that holds an object. */
  function SseData(line: string): Option<string> {
    var trimmed := TrimSpace(line);
    if !HasPrefix(trimmed, "data:") then None
    else
      var payload := TrimSpace(trimmed[5..]);
      if payload == "" || payload[0] != '{' then None else Some(payload)
  }

  /** What the Anthropic scanner takes from a line: the counts of the two usage events. */
  function AnthropicUsage(c: EventCodec, line: string): Option<(int, int)> {
    match SseData(line)
    case None => None
    case Some(payload) =>
      match c.decode(payload)
      case None => None
      case Some(v) => ChosenUsage(v)
  }

  function ChosenUsage(v: Json): Option<(int, int)> {
    match SelectUsage(v)
    case None => None
    case Some((typ, message, own)) =>
      if typ == "message_start" then Some(message) else if typ == "message_delta" then Some(own) else None
  }

  lemma EventUsageChosen(e: Event)
    requires Countable(e)
    ensures ChosenUsage(Obj(Payload(e))) == EventUsage(e)
  {
    PayloadUsage(e);
    NamesApart(e);
  }

  lemma NamesApart(e: Event)
    ensures Name(e) == "message_start" <==> e.MessageStart?
    ensures Name(e) == "message_delta" <==> e.MessageDelta?
  {
    assert "message_start"[8] != "message_delta"[8] && "message_stop" != "message_start"
      && "content_block_delta"[0] != "message_delta"[0];
  }

  lemma DataLinePayload(b: string)
    requires |b| >= 2 && b[0] == '{' && b[|b| - 1] == '}'
    ensures SseData(DATA + b) == Some(b)
  {
    var line := DATA + b;
    assert line[0] == 'd' && line[|line| - 1] == '}';
    TrimIdle(line);
    assert line[..5] == "data:" && line[5..] == " " + b;
    assert HasPrefix(line, "data:");
    assert (" " + b)[1..] == b;
    TrimIdle(b);
    assert TrimLeft(" " + b) == TrimLeft(b) == b;
    assert TrimSpace(line[5..]) == b;
  }

  lemma TrimIdle(s: string)
    requires s != "" && !IsSpace(s[0]) && !IsSpace(s[|s| - 1])
    ensures TrimSpace(s) == s
  {
  }

  lemma {:induction false} TrimRightPrefix(s: string)
    ensures TrimRight(s) <= s
  {
    if s == [] {
    } else {
      TrimRightPrefix(s[..|s| - 1]);
    }
  }

  lemma DataLineUsage(c: EventCodec, e: Event)
    requires Lawful(c) && Plain(c, e) && Countable(e)
    ensures AnthropicUsage(c, DATA + Encoded(c, e)) == EventUsage(e)
  {
    DataLinePayload(Encoded(c, e));
    EventUsageChosen(e);
  }

  lemma OtherLinesNoUsage(c: EventCodec, e: Event)
    ensures AnthropicUsage(c, "event: " + Name(e)) == None && AnthropicUsage(c, "") == None
  {
    var line := "event: " + Name(e);
    assert line[0] == 'e' && TrimLeft(line) == line;
    TrimRightPrefix(line);
    assert TrimSpace(line) != [] ==> TrimSpace(line)[0] == 'e';
  }

  lemma {:induction false} FlatMember(f: Event -> seq<string>, events: seq<Event>, x: string)
    ensures x in Flat(f, events) <==> exists i :: 0 <= i < |events| && x in f(events[i])
  {
    if events == [] {
    } else {
      var n := |events| - 1;
      var front := events[..n];
      FlatMember(f, front, x);
      if i :| 0 <= i < |events| && x in f(events[i]) {
        if i < n { assert front[i] == events[i]; }
      }
      if i :| 0 <= i < |front| && x in f(front[i]) {
        assert events[i] == front[i];
      }
    }
  }

  lemma LineUsage(c: EventCodec, e: Event, x: string)
    requires Lawful(c) && Plain(c, e) && Countable(e) && x in EventLines(c, e)
    ensures AnthropicUsage(c, x) == if x == DATA + Encoded(c, e) then EventUsage(e) else None
  {
    DataLineUsage(c, e);
    OtherLinesNoUsage(c, e);
  }

  /** Of a reply's events only two report counts. */
  lemma ReplyEvents(c: EventCodec, deltas: seq<Event>, meta: Meta, chunk: nat, i: nat)
    requires Deltas(c, deltas, chunk) && Printable(c, meta) && i < |Reply(deltas, meta)|
    ensures var e := Reply(deltas, meta)[i];
      Plain(c, e) && Countable(e)
        && (EventUsage(e) == None || EventUsage(e) == Some((meta.input, 0)) || EventUsage(e) == Some((0, meta.output)))
  {
    if 2 <= i < 2 + |deltas| {
      assert Reply(deltas, meta)[i] == deltas[i - 2];
    }
  }

  lemma ReplyUsageAt(c: EventCodec, deltas: seq<Event>, meta: Meta, chunk: nat, x: string)
    requires Lawful(c) && Deltas(c, deltas, chunk) && Printable(c, meta) && x in AllEventLines(c, Reply(deltas, meta))
    ensures AnthropicUsage(c, x) in {None, Some((meta.input, 0)), Some((0, meta.output))}
  {
    var events := Reply(deltas, meta);
    FlatMember(e => EventLines(c, e), events, x);
    var i :| 0 <= i < |events| && x in EventLines(c, events[i]);
    ReplyEvents(c, deltas, meta, chunk, i);
    LineUsage(c, events[i], x);
  }

  lemma ReplyUsageHas(c: EventCodec, deltas: seq<Event>, meta: Meta, chunk: nat, i: nat)
    requires Lawful(c) && Deltas(c, deltas, chunk) && Printable(c, meta) && i < |Reply(deltas, meta)|
    ensures var e := Reply(deltas, meta)[i];
      DATA + Encoded(c, e) in AllEventLines(c, Reply(deltas, meta))
      && AnthropicUsage(c, DATA + Encoded(c, e)) == EventUsage(e)
  {
    var events := Reply(deltas, meta);
    var e := events[i];
    ReplyEvents(c, deltas, meta, chunk, i);
    assert EventLines(c, e)[1] == DATA + Encoded(c, e);
    assert DATA + Encoded(c, e) in EventLines(c, events[i]);
    FlatMember(e => EventLines(c, e), events, DATA + Encoded(c, e));
    DataLineUsage(c, e);
  }

  /** The scanner's totals over a printed reply are the counts that were printed. */
  lemma ScannerReadsCounts(c: EventCodec, deltas: seq<Event>, meta: Meta, chunk: nat)
    requires Lawful(c) && Deltas(c, deltas, chunk) && Printable(c, meta)
    ensures var usage := (line: string) => AnthropicUsage(c, line);
      var all := AllLines(Emitted(c, Reply(deltas, meta)));
      HighIn(usage, all) == meta.input && HighOut(usage, all) == meta.output
  {
    var usage := (line: string) => AnthropicUsage(c, line);
    var events := Reply(deltas, meta);
    forall i | 0 <= i < |events| ensures Plain(c, events[i]) { ReplyEvents(c, deltas, meta, chunk, i); }
    EmittedLines(c, events);
    var lines := AllEventLines(c, events);
    assert AllLines(Emitted(c, events)) == lines;
    HighIsHighest(usage, lines);
    forall x | x in lines ensures usage(x) in {None, Some((meta.input, 0)), Some((0, meta.output))} {
      ReplyUsageAt(c, deltas, meta, chunk, x);
    }
    var n := |events|;
    assert events[0].MessageStart? && events[0].input == meta.input && events[n - 2] == MessageDelta(meta.output);
    ReplyUsageHas(c, deltas, meta, chunk, 0);
    ReplyUsageHas(c, deltas, meta, chunk, n - 2);
    var first, last := DATA + Encoded(c, events[0]), DATA + Encoded(c, events[n - 2]);
    assert first in lines && usage(first) == Some((meta.input, 0));
    assert last in lines && usage(last) == Some((0, meta.output));
  }

  /**
   * End to end: a reply printed as a stream, relayed in whatever reads the network makes of
   * it, yields the printed token counts if its lines fit the reader's buffer.
   */
  method StreamAndScan(c: EventCodec, reply: string, meta: Meta, straddle: bool,
                       chunks: seq<ReadResult>, accepted: nat -> bool)
    returns (w: string, relayed: string, tokensIn: int, tokensOut: int, end: RelayEnd, ghost count: nat)
    requires Lawful(c) && Ascii(reply) && Printable(c, meta) && chunks != [] && chunks[|chunks| - 1].status != More
    ensures LinesText(c, Split(w)) == reply
    ensures count <= |chunks| && relayed == Concat(chunks[..count])
    ensures end == Complete && relayed == w && Fits(w) ==> tokensIn == meta.input && tokensOut == meta.output
  {
    ghost var deltas;
    w, deltas := StreamInference(c, reply, meta, straddle);
    var usage := (line: string) => AnthropicUsage(c, line);
    relayed, tokensIn, tokensOut, end, count := CopyStream(chunks, accepted, usage);
    ReassembleInvertsStream(c, deltas, meta, if straddle then NARROW else WIDE);
    ScannerReadsCounts(c, deltas, meta, if straddle then NARROW else WIDE);
  }
}

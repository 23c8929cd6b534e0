/** The event-stream frames the API server writes, and what the client reads back from them. */
module SseServer {
  import opened SseClient
  import EventLog

  datatype Frame = Retry | Event(id: string, payload: string) | KeepAlive

  function Lines(f: Frame): seq<string> {
    match f
    case Retry => ["retry: 3000", ""]
    case Event(id, payload) => ["id: " + id, "data: " + payload, ""]
    case KeepAlive => [": keep-alive", ""]
  }

  /** Frames are written one line at a time, each ended by a line feed. */
  function Written(lines: seq<string>): string {
    if lines == [] then "" else lines[0] + "\n" + Written(lines[1..])
  }

  function Wire(frames: seq<Frame>): string {
    if frames == [] then "" else Written(Lines(frames[0])) + Wire(frames[1..])
  }

  /** Ids and payloads are single lines, as serialised JSON is. */
  predicate SingleLine(f: Frame) {
    f.Event? ==> '\n' !in f.id && '\n' !in f.payload
  }

  function Sent(frames: seq<Frame>): seq<string> {
    if frames == [] then []
    else (if frames[0].Event? then [frames[0].payload] else []) + Sent(frames[1..])
  }

  function Received(frames: seq<Frame>): seq<string> {
    if frames == [] then []
    else (if frames[0].Event? then [StripCr(frames[0].payload)] else []) + Received(frames[1..])
  }

  // ---------- reading a frame back, line by line ----------

  lemma IdLine(id: string)
    ensures DataOf(StripCr("id: " + id)) == [] && StripCr("id: " + id) != ""
  {
    var line := StripCr("id: " + id);
    assert line[0] == 'i' && line[1] == 'd' && line[2] == ':';
    assert line[..2] == "id";
    FirstOccurrence(line[..2], ':', line[3..]);
    assert line == line[..2] + [':'] + line[3..];
  }

  lemma DataLine(payload: string)
    ensures DataOf(StripCr("data: " + payload)) == [StripCr(payload)] && StripCr("data: " + payload) != ""
  {
    var line := StripCr("data: " + payload);
    assert line == "data" + [':'] + (" " + StripCr(payload));
    FirstOccurrence("data", ':', " " + StripCr(payload));
    assert line[..4] == "data" && line[5..] == " " + StripCr(payload);
    assert line[5..][1..] == StripCr(payload);
  }

  lemma IgnoredLine(line: string)
    requires line == "retry: 3000" || line == ": keep-alive"
    ensures DataOf(StripCr(line)) == [] && StripCr(line) != ""
  {
    if line == "retry: 3000" {
      FirstOccurrence("retry", ':', " 3000");
      assert line == "retry" + [':'] + " 3000";
      assert line[..5] == "retry";
    }
  }

  function FramePayloads(f: Frame): seq<string> {
    if f.Event? then [StripCr(f.payload)] else []
  }

  /** A complete frame adds its payload and leaves nothing pending. */
  lemma FrameReads(f: Frame, rest: string)
    requires SingleLine(f)
    ensures Payloads(Written(Lines(f)) + rest, []) == FramePayloads(f) + Payloads(rest, [])
  {
    hide Payloads, DataOf, StripCr, Written;
    match f
    case Retry =>
      IgnoredLine("retry: 3000");
      TwoLines("retry: 3000", rest);
    case KeepAlive =>
      IgnoredLine(": keep-alive");
      TwoLines(": keep-alive", rest);
    case Event(id, payload) =>
      IdLine(id);
      DataLine(payload);
      ThreeLines("id: " + id, "data: " + payload, StripCr(payload), rest);
  }

  lemma TwoLines(line: string, rest: string)
    requires '\n' !in line && DataOf(StripCr(line)) == [] && StripCr(line) != ""
    ensures Payloads(Written([line, ""]) + rest, []) == Payloads(rest, [])
  {
    hide Payloads, DataOf, Written;
    WrittenTwo(line, "");
    assert Written([line, ""]) + rest == line + "\n" + ("" + "\n" + rest);
    PayloadsUnfold(line, "" + "\n" + rest, []);
    assert [] + DataOf(StripCr(line)) == [];
    PayloadsUnfold("", rest, []);
    assert [] + Payloads(rest, []) == Payloads(rest, []);
  }

  lemma ThreeLines(line: string, data: string, value: string, rest: string)
    requires '\n' !in line && DataOf(StripCr(line)) == [] && StripCr(line) != ""
    requires '\n' !in data && DataOf(StripCr(data)) == [value] && StripCr(data) != ""
    ensures Payloads(Written([line, data, ""]) + rest, []) == [value] + Payloads(rest, [])
  {
    hide Payloads, DataOf, Written;
    var end := "" + "\n" + rest;
    var mid := data + "\n" + end;
    WrittenThree(line, data, "", rest);
    assert Written([line, data, ""]) + rest == line + "\n" + mid;
    PayloadsUnfold(line, mid, []);
    assert [] + DataOf(StripCr(line)) == [];
    PayloadsUnfold(data, end, []);
    assert [] + DataOf(StripCr(data)) == [value];
    PayloadsUnfold("", rest, [value]);
  }

  lemma WrittenThree(a: string, b: string, c: string, rest: string)
    ensures Written([a, b, c]) + rest == a + "\n" + (b + "\n" + (c + "\n" + rest))
  {
    assert [a, b, c][1..] == [b, c] && [b, c][1..] == [c] && [c][1..] == [];
    assert Written([c]) == c + "\n" + "";
  }

  lemma WrittenTwo(a: string, b: string)
    ensures Written([a, b]) == (a + "\n") + (b + "\n")
  {
    assert [a, b][1..] == [b] && [b][1..] == [];
    assert Written([b]) == b + "\n" + "" == b + "\n";
  }

  /** Reading the whole wire gives each payload once, in order, short of one trailing carriage return. */
  lemma {:induction false} WireReads(frames: seq<Frame>)
    requires forall f :: f in frames ==> SingleLine(f)
    ensures Payloads(Wire(frames), []) == Received(frames)
  {
    if frames != [] {
      WireReads(frames[1..]);
      FrameReads(frames[0], Wire(frames[1..]));
    }
  }

  /** The round trip is exact if and only if no payload ends in a carriage return. */
  lemma {:induction false} RoundTrip(frames: seq<Frame>)
    requires forall f :: f in frames ==> SingleLine(f)
    ensures Payloads(Wire(frames), []) == Sent(frames) <==>
      forall f :: f in frames && f.Event? && f.payload != "" ==> f.payload[|f.payload| - 1] != '\r'
  {
    WireReads(frames);
    ReceivedIsSent(frames);
  }

  lemma {:induction false} ReceivedIsSent(frames: seq<Frame>)
    ensures |Received(frames)| == |Sent(frames)|
    ensures Received(frames) == Sent(frames) <==>
      forall f :: f in frames && f.Event? && f.payload != "" ==> f.payload[|f.payload| - 1] != '\r'
  {
    if frames != [] {
      ReceivedIsSent(frames[1..]);
      var f := frames[0];
      assert frames == [f] + frames[1..];
      if f.Event? {
        assert Received(frames)[0] == StripCr(f.payload) && Sent(frames)[0] == f.payload;
        assert Received(frames)[1..] == Received(frames[1..]) && Sent(frames)[1..] == Sent(frames[1..]);
      } else {
        assert Received(frames) == Received(frames[1..]) && Sent(frames) == Sent(frames[1..]);
      }
    }
  }

  /** A delivery is complete if and only if every payload is valid, and then it is all of them. */
  lemma {:induction false} CompleteIff(payloads: seq<string>, events: seq<string>, valid: string -> bool)
    ensures Deliver(payloads, valid) == Delivery(events, true) <==>
      payloads == events && forall p :: p in payloads ==> valid(p)
  {
    if payloads != [] {
      CompleteIff(payloads[1..], Deliver(payloads[1..], valid).events, valid);
      CompleteIff(payloads[1..], payloads[1..], valid);
      assert payloads == [payloads[0]] + payloads[1..];
    }
  }

  ghost predicate EndsInCr(f: Frame) {
    f.Event? && f.payload != "" && f.payload[|f.payload| - 1] == '\r'
  }

  /**
   * However the wire is cut into chunks, the handler gets exactly the payloads that were written and the stream
   * completes, if and only if every payload is valid and none ends in a carriage return.
   */
  method ReadWire(
      frames: seq<Frame>, chunks: seq<string>, decoderTail: string, valid: string -> bool)
    returns (r: Delivery)
    requires (forall f :: f in frames ==> SingleLine(f)) && '\n' !in decoderTail
    requires Concat(chunks) + decoderTail == Wire(frames)
    ensures r == Delivery(Sent(frames), true) <==>
      (forall p :: p in Sent(frames) ==> valid(p)) && forall f :: f in frames ==> !EndsInCr(f)
  {
    RoundTrip(frames);
    CompleteIff(Payloads(Wire(frames), []), Sent(frames), valid);
    r := ConsumeSseStream(chunks, decoderTail, valid);
  }

  // ---------- what the writer does not do, and the reader has to know ----------

  lemma {:induction false} WireThenMore(frames: seq<Frame>, rest: string)
    requires forall f :: f in frames ==> SingleLine(f)
    ensures Payloads(Wire(frames) + rest, []) == Received(frames) + Payloads(rest, [])
  {
    hide Payloads, Written, Lines;
    if frames == [] {
      assert Wire(frames) + rest == rest;
    } else {
      WireThenMore(frames[1..], rest);
      FrameReads(frames[0], Wire(frames[1..]) + rest);
      assert Wire(frames) + rest == Written(Lines(frames[0])) + (Wire(frames[1..]) + rest);
    }
  }

  /** The white space is that of the language: tab to carriage return, the spaces, the line separators and the BOM. */
  lemma WhiteSpaceCodes(c: char)
    ensures var code := c as int;
      IsSpace(c) <==>
        || 9 <= code <= 13 || code in {0x20, 0xA0, 0x1680} || 0x2000 <= code <= 0x200A
        || code in {0x2028, 0x2029, 0x202F, 0x205F, 0x3000, 0xFEFF}
  {
  }

  /** What a serialised JSON value can begin with. */
  ghost predicate BeginsJson(text: string) {
    text != "" && (text[0] in {'{', '[', '"', '-', 't', 'f', 'n'} || '0' <= text[0] <= '9')
  }

  /** A data line that is not ended arrives whole if and only if it has no white space in front and no CR behind. */
  lemma UnendedLineIff(payload: string)
    ensures TailData("data: " + payload) == [payload] <==>
      payload == "" || (!IsSpace(payload[0]) && payload[|payload| - 1] != '\r')
    ensures BeginsJson(payload) ==> !IsSpace(payload[0])
  {
    TailOfData(payload);
    TrimmedIff(StripCr(payload));
    JsonIsNoSpace(payload);
    hide TailData, IsSpace, BeginsJson;
    if StripCr(payload) != payload {
      assert |TrimStart(StripCr(payload))| < |payload|;
    }
  }

  lemma JsonIsNoSpace(text: string)
    ensures BeginsJson(text) ==> !IsSpace(text[0])
  {
  }

  lemma TrimmedIff(s: string)
    ensures TrimStart(s) == s <==> s == "" || !IsSpace(s[0])
    ensures |TrimStart(s)| <= |s|
  {
    TrimStartIs(s);
    hide IsSpace;
  }

  /** When the connection closes behind the last event's data line, the events before it and the event itself arrive. */
  lemma LastEventArrives(frames: seq<Frame>, id: string, payload: string, valid: string -> bool)
    requires (forall f :: f in frames ==> SingleLine(f) && !EndsInCr(f)) && '\n' !in id && '\n' !in payload
    requires BeginsJson(payload) && payload[|payload| - 1] != '\r'
    requires valid(payload) && forall p :: p in Sent(frames) ==> valid(p)
    ensures var text := Wire(frames) + ("id: " + id + "\n" + "data: " + payload);
      Deliver(Payloads(text, []), valid) == Delivery(Sent(frames) + [payload], true)
  {
    hide Payloads, BeginsJson, StripCr, Received, Sent, EndsInCr;
    UnendedLineIff(payload);
    LastLineReads(id, payload);
    var rest := "id: " + id + "\n" + "data: " + payload;
    WireThenMore(frames, rest);
    NoneEndsInCr(frames);
    CompleteIff(Sent(frames) + [payload], Sent(frames) + [payload], valid);
  }

  lemma NoneEndsInCr(frames: seq<Frame>)
    requires forall f :: f in frames ==> !EndsInCr(f)
    ensures Received(frames) == Sent(frames)
  {
    ReceivedIsSent(frames);
  }

  lemma LastLineReads(id: string, payload: string)
    requires '\n' !in id && '\n' !in payload && TailData("data: " + payload) == [payload]
    ensures Payloads("id: " + id + "\n" + "data: " + payload, []) == [payload]
  {
    hide Payloads, DataOf, TailData, StripCr;
    var line, last := "id: " + id, "data: " + payload;
    assert "id: " + id + "\n" + "data: " + payload == line + "\n" + last;
    IdLine(id);
    PayloadsUnfold(line, last, []);
    assert [] + DataOf(StripCr(line)) == [];
    UnbrokenReads(last);
  }

  /** Everything a complete line can be: a comment, a data field with or without a value, or some other field. */
  lemma LineKinds(field: string, value: string)
    requires ':' !in field
    ensures DataOf(":" + value) == []
    ensures field != "data" ==> DataOf(field) == [] && DataOf(field + ":" + value) == []
    ensures field == "data" ==> DataOf(field) == [""] && DataOf(field + ": " + value) == [value]
    ensures field == "data" && (value == "" || value[0] != ' ') ==> DataOf(field + ":" + value) == [value]
  {
    FieldLine(field, value);
    FieldLine(field, " " + value);
    assert field + ": " + value == field + ":" + (" " + value) && (" " + value)[1..] == value;
    hide IndexOf;
    assert field != "" ==> (field[0] != ':' && field[..|field|] == field);
  }

  lemma FieldLine(field: string, text: string)
    requires ':' !in field
    ensures DataOf(field + ":" + text) ==
      if field != "data" then [] else if text != "" && text[0] == ' ' then [text[1..]] else [text]
  {
    FirstOccurrence(field, ':', text);
    var line := field + [':'] + text;
    assert line[..|field|] == field && line[|field| + 1..] == text && line == field + ":" + text;
    assert line[0] == if field == "" then ':' else field[0];
  }

  /** A text as an event with one data line for each line of the text. */
  ghost function DataLines(text: string): string {
    if '\n' !in text then "data: " + text + "\n"
    else
      var i := IndexOf(text, '\n');
      "data: " + text[..i] + "\n" + DataLines(text[i + 1..])
  }

  lemma JoinSnoc(pending: seq<string>, line: string)
    ensures Join(pending + [line]) == if pending == [] then line else Join(pending) + "\n" + line
  {
    if pending != [] {
      assert (pending + [line])[1..] == pending[1..] + [line];
      JoinSnoc(pending[1..], line);
    }
  }

  /** One more data line while others are pending. */
  lemma OneMoreLine(line: string, more: string, pending: seq<string>)
    requires '\n' !in line && '\r' !in line
    ensures Payloads("data: " + line + "\n" + more, pending) == Payloads(more, pending + [line])
  {
    hide Payloads, DataOf;
    DataLine(line);
    PayloadsUnfold("data: " + line, more, pending);
  }

  lemma LineEnds(pending: seq<string>, rest: string)
    requires pending != []
    ensures Payloads("\n" + rest, pending) == [Join(pending)] + Payloads(rest, [])
  {
    hide Payloads, Join;
    PayloadsUnfold("", rest, pending);
    assert "" + "\n" + rest == "\n" + rest;
  }

  /** The pending lines and the rest of a text put together. */
  ghost function Rejoined(pending: seq<string>, text: string): string {
    if pending == [] then text else Join(pending) + "\n" + text
  }

  lemma RejoinedNext(pending: seq<string>, line: string, more: string)
    ensures Rejoined(pending + [line], more) == Rejoined(pending, line + "\n" + more)
  {
    hide Join;
    JoinSnoc(pending, line);
    var head := Join(pending);
    assert head + "\n" + line + "\n" + more == head + "\n" + (line + "\n" + more);
  }

  lemma DataLinesUnfold(line: string, more: string, end: string)
    requires '\n' !in line
    ensures DataLines(line + "\n" + more) + end == "data: " + line + "\n" + (DataLines(more) + end)
  {
    FirstOccurrence(line, '\n', more);
    var text := line + ['\n'] + more;
    assert text == line + "\n" + more && text[..|line|] == line && text[|line| + 1..] == more;
  }

  lemma {:induction false} DataLinesRead(text: string, pending: seq<string>, rest: string)
    requires '\r' !in text
    ensures Payloads(DataLines(text) + ("\n" + rest), pending) == [Rejoined(pending, text)] + Payloads(rest, [])
    decreases |text|
  {
    hide Payloads, Join, Rejoined;
    if '\n' !in text {
      LastDataLine(text, pending, rest);
    } else {
      var i := IndexOf(text, '\n');
      var line, more := text[..i], text[i + 1..];
      assert text == line + "\n" + more;
      DataLinesUnfold(line, more, "\n" + rest);
      OneMoreLine(line, DataLines(more) + ("\n" + rest), pending);
      DataLinesRead(more, pending + [line], rest);
      RejoinedNext(pending, line, more);
    }
  }

  lemma LastDataLine(text: string, pending: seq<string>, rest: string)
    requires '\r' !in text && '\n' !in text
    ensures Payloads(DataLines(text) + ("\n" + rest), pending) == [Rejoined(pending, text)] + Payloads(rest, [])
  {
    hide Payloads, Join;
    JoinSnoc(pending, text);
    OneMoreLine(text, "\n" + rest, pending);
    LineEnds(pending + [text], rest);
    assert DataLines(text) + ("\n" + rest) == "data: " + text + "\n" + ("\n" + rest);
  }

  /** A text of any number of lines comes back when each of them is written as a data line of one event. */
  lemma MultiLineRoundTrip(text: string, rest: string)
    requires '\r' !in text
    ensures Payloads(DataLines(text) + ("\n" + rest), []) == [text] + Payloads(rest, [])
  {
    DataLinesRead(text, [], rest);
  }

  // ---------- a connection cut anywhere ----------

  /** What the reader makes of a data line cut after `part` of its payload. */
  function Damaged(part: string): string {
    TrimStart(StripCr(part))
  }

  ghost predicate CutInside(frames: seq<Frame>, k: nat, payloads: seq<string>) {
    && k < |frames| && frames[k].Event?
    && exists part :: part <= frames[k].payload && payloads == Received(frames[..k]) + [Damaged(part)]
  }

  lemma PrefixOfLines(line: string, rest: string, w: string)
    requires w <= line + "\n" + rest
    ensures w <= line || exists v :: v <= rest && w == line + "\n" + v
  {
    var text := line + "\n" + rest;
    if |w| > |line| {
      var v := w[|line| + 1..];
      assert w == text[..|w|];
      assert v == rest[..|v|];
      assert w == line + "\n" + v;
    } else {
      assert w == line[..|w|];
    }
  }

  lemma SplitHead(head: string, tail: string, w: string)
    requires w <= head + tail
    ensures (w <= head && w != head) || exists v :: v <= tail && w == head + v
  {
    var all := head + tail;
    if |w| >= |head| {
      var v := w[|head|..];
      assert w == all[..|w|] && v == tail[..|v|] && w == head + v;
    } else {
      assert w == all[..|w|] == head[..|w|];
    }
  }

  lemma NoDataTail(w: string, line: string)
    requires w <= line && (line == "retry: 3000" || line == ": keep-alive" || "id: " <= line) && '\n' !in line
    ensures Payloads(w, []) == []
  {
    assert [] + TailData(w) == TailData(w);
    assert w != "" ==> w[0] == line[0] && line[0] != 'd';
    assert StripCr(w) != "" ==> StripCr(w)[0] == w[0];
  }

  lemma TailOfData(part: string)
    ensures TailData("data: " + part) == [Damaged(part)]
  {
    var line := StripCr("data: " + part);
    assert line == "data: " + StripCr(part);
    assert line[..5] == "data:" && line[5..] == " " + StripCr(part);
    assert (" " + StripCr(part))[1..] == StripCr(part);
  }

  lemma TailOfShort(w: string)
    requires w <= "data:"
    ensures TailData(w) == [] || TailData(w) == [Damaged("")]
  {
    assert "data:"[5..] == "";
  }

  lemma UnbrokenReads(w: string)
    requires '\n' !in w
    ensures Payloads(w, []) == Flushed(TailData(w))
    ensures TailData(w) == [] ==> Payloads(w, []) == []
    ensures forall d :: TailData(w) == [d] ==> Payloads(w, []) == [d]
  {
    assert [] + TailData(w) == TailData(w);
  }

  lemma CutData(w: string, payload: string)
    requires w <= "data: " + payload && '\n' !in w
    ensures Payloads(w, []) == [] || exists part :: part <= payload && Payloads(w, []) == [Damaged(part)]
  {
    UnbrokenReads(w);
    SplitHead("data: ", payload, w);
    if w <= "data: " && w != "data: " {
      assert w == "data: "[..|w|] && "data: "[..5] == "data:";
      TailOfShort(w);
      assert "" <= payload;
    } else {
      var part :| part <= payload && w == "data: " + part;
      TailOfData(part);
    }
  }

  /** A frame cut short delivers nothing, its whole payload, or a damaged beginning of it. */
  lemma CutFrame(f: Frame, w: string)
    requires SingleLine(f) && w <= Written(Lines(f)) && w != Written(Lines(f))
    ensures Payloads(w, []) == [] || (f.Event? && Payloads(w, []) == [StripCr(f.payload)])
      || (f.Event? && exists part :: part <= f.payload && Payloads(w, []) == [Damaged(part)])
  {
    match f
    case Retry => CutTwo("retry: 3000", w);
    case KeepAlive => CutTwo(": keep-alive", w);
    case Event(id, payload) =>
      var first, data := "id: " + id, "data: " + payload;
      WrittenThree(first, data, "", "");
      assert "" + "\n" + "" == "\n" && Written(Lines(f)) + "" == Written(Lines(f));
      PrefixOfLines(first, data + "\n" + "\n", w);
      if w <= first {
        NoDataTail(w, first);
      } else {
        var v :| v <= data + "\n" + "\n" && w == first + "\n" + v;
        IdLine(id);
        PayloadsUnfold(first, v, []);
        CutEventData(payload, v);
      }
  }

  lemma NothingLeft(dataLines: seq<string>)
    ensures Payloads("", dataLines) == Flushed(dataLines)
  {
    assert dataLines + TailData("") == dataLines;
  }

  lemma CutEventData(payload: string, v: string)
    requires '\n' !in payload && v <= "data: " + payload + "\n" + "\n" && v != "data: " + payload + "\n" + "\n"
    ensures Payloads(v, []) == [] || Payloads(v, []) == [StripCr(payload)]
      || exists part :: part <= payload && Payloads(v, []) == [Damaged(part)]
  {
    hide Payloads, DataOf;
    var data := "data: " + payload;
    PrefixOfLines(data, "\n", v);
    if v <= data {
      CutData(v, payload);
    } else {
      var u :| u <= "\n" && v == data + "\n" + u;
      assert u == "";
      DataLine(payload);
      PayloadsUnfold(data, "", []);
      assert [] + DataOf(StripCr(data)) == [StripCr(payload)];
      NothingLeft([StripCr(payload)]);
    }
  }

  lemma CutTwo(line: string, w: string)
    requires line == "retry: 3000" || line == ": keep-alive"
    requires w <= Written([line, ""]) && w != Written([line, ""])
    ensures Payloads(w, []) == []
  {
    hide Payloads, DataOf, Written;
    WrittenTwo(line, "");
    assert Written([line, ""]) == line + "\n" + "\n";
    PrefixOfLines(line, "\n", w);
    if w <= line {
      NoDataTail(w, line);
    } else {
      var v :| v <= "\n" && w == line + "\n" + v;
      assert v == "";
      IgnoredLine(line);
      PayloadsUnfold(line, "", []);
      assert [] + DataOf(StripCr(line)) == [];
      NothingLeft([]);
    }
  }

  ghost predicate CutAt(frames: seq<Frame>, k: nat, payloads: seq<string>) {
    k <= |frames| && (payloads == Received(frames[..k]) || CutInside(frames, k, payloads))
  }

  lemma CutInHead(frames: seq<Frame>, w: string)
    requires frames != [] && SingleLine(frames[0])
    requires w <= Written(Lines(frames[0])) && w != Written(Lines(frames[0]))
    ensures CutAt(frames, 0, Payloads(w, [])) || CutAt(frames, 1, Payloads(w, []))
  {
    var f := frames[0];
    CutFrame(f, w);
    assert frames[..0] == [] && frames[..1] == [f] && [f][1..] == [];
    if f.Event? {
      if part :| part <= f.payload && Payloads(w, []) == [Damaged(part)] {
        assert Payloads(w, []) == Received(frames[..0]) + [Damaged(part)];
      }
    }
  }

  lemma CutAfterHead(f: Frame, rest: seq<Frame>, k: nat, payloads: seq<string>)
    requires CutAt(rest, k, payloads)
    ensures CutAt([f] + rest, k + 1, FramePayloads(f) + payloads)
  {
    hide StripCr;
    var frames := [f] + rest;
    assert frames[..k + 1][0] == f && frames[..k + 1][1..] == rest[..k];
    assert Received(frames[..k + 1]) == FramePayloads(f) + Received(rest[..k]);
    if payloads != Received(rest[..k]) {
      var part :| part <= rest[k].payload && payloads == Received(rest[..k]) + [Damaged(part)];
      assert FramePayloads(f) + payloads == Received(frames[..k + 1]) + [Damaged(part)];
      assert frames[k + 1] == rest[k];
    }
  }

  lemma NothingSent(w: string)
    requires w <= Wire([])
    ensures CutAt([], 0, Payloads(w, []))
  {
    NothingLeft([]);
  }

  /** Wherever the connection is cut: the payloads of the frames before, and at most one damaged beginning. */
  lemma {:induction false} CutStream(frames: seq<Frame>, w: string)
    requires (forall f :: f in frames ==> SingleLine(f)) && w <= Wire(frames)
    ensures exists k: nat :: CutAt(frames, k, Payloads(w, []))
  {
    hide Payloads, Written, Lines, Received, CutAt;
    if frames == [] {
      NothingSent(w);
      assert CutAt(frames, 0, Payloads(w, []));
    } else {
      var f, rest := frames[0], frames[1..];
      var head := Written(Lines(f));
      SplitHead(head, Wire(rest), w);
      if w <= head && w != head {
        CutInHead(frames, w);
      } else {
        var v :| v <= Wire(rest) && w == head + v;
        FrameReads(f, v);
        CutStream(rest, v);
        var k: nat :| CutAt(rest, k, Payloads(v, []));
        CutAfterHead(f, rest, k, Payloads(v, []));
        assert frames == [f] + rest;
      }
    }
  }

  lemma {:induction false} ReceivedPrefix(frames: seq<Frame>, k: nat)
    requires k <= |frames|
    ensures Received(frames[..k]) <= Received(frames)
    ensures k < |frames| && frames[k].Event? ==>
      Received(frames[..k]) + [StripCr(frames[k].payload)] <= Received(frames)
  {
    if k > 0 {
      ReceivedPrefix(frames[1..], k - 1);
      assert frames[..k][0] == frames[0] && frames[..k][1..] == frames[1..][..k - 1];
    }
  }

  /**
   * When the JSON parser accepts no cut payload, a cut connection never delivers a wrong event:
   * the handler sees an initial part of what was sent.
   */
  lemma CutDeliversPrefix(frames: seq<Frame>, w: string, valid: string -> bool)
    requires (forall f :: f in frames ==> SingleLine(f)) && w <= Wire(frames)
    requires forall f, part :: f in frames && f.Event? && part <= f.payload && valid(Damaged(part)) ==>
      Damaged(part) == StripCr(f.payload)
    ensures Deliver(Payloads(w, []), valid).events <= Received(frames)
  {
    CutStream(frames, w);
    var k: nat :| CutAt(frames, k, Payloads(w, []));
    ReceivedPrefix(frames, k);
    if Payloads(w, []) == Received(frames[..k]) {
      DeliverIsPrefix(Payloads(w, []), valid);
    } else {
      var part :| part <= frames[k].payload && Payloads(w, []) == Received(frames[..k]) + [Damaged(part)];
      assert frames[k] in frames;
      if valid(Damaged(part)) {
        DeliverIsPrefix(Payloads(w, []), valid);
      } else {
        DeliverStops(Received(frames[..k]), Damaged(part), valid);
      }
    }
  }

  lemma {:induction false} DeliverIsPrefix(payloads: seq<string>, valid: string -> bool)
    ensures Deliver(payloads, valid).events <= payloads
  {
    if payloads != [] && valid(payloads[0]) {
      DeliverIsPrefix(payloads[1..], valid);
    }
  }

  lemma {:induction false} DeliverStops(payloads: seq<string>, bad: string, valid: string -> bool)
    requires !valid(bad)
    ensures Deliver(payloads + [bad], valid).events <= payloads
  {
    if payloads != [] {
      assert (payloads + [bad])[0] == payloads[0] && (payloads + [bad])[1..] == payloads[1..] + [bad];
      DeliverStops(payloads[1..], bad, valid);
    }
  }

  // ---------- the writer ----------

  function EventIds(frames: seq<Frame>): seq<string> {
    if frames == [] then []
    else
      var last := frames[|frames| - 1];
      EventIds(frames[..|frames| - 1]) + if last.Event? then [last.id] else []
  }

  const SEEN_LIMIT := 1000

  /** Fewer than this many other events lie between two writes of one id. */
  ghost predicate Spaced(ids: seq<string>) {
    forall i, j :: 0 <= i < j < |ids| && ids[i] == ids[j] ==> j - i > SEEN_LIMIT
  }

  function LastOf(ids: seq<string>, n: nat): seq<string> {
    if |ids| <= n then ids else ids[|ids| - n..]
  }

  /** A stored event, as a poll returns it. */
  type Row = EventLog.Event

  /** One open stream: the poll cursor, the recently seen ids, and the frames on the wire. */
  datatype Stream = Stream(cursor: nat, seenIds: seq<string>, wire: seq<Frame>)

  function AfterRow(s: Stream, row: Row): Stream {
    if row.id in s.seenIds then s
    else Stream(row.createdAt, LastOf(s.seenIds + [row.id], SEEN_LIMIT), s.wire + [Event(row.id, row.payload)])
  }

  function AfterRows(s: Stream, rows: seq<Row>): Stream {
    if rows == [] then s else AfterRow(AfterRows(s, rows[..|rows| - 1]), rows[|rows| - 1])
  }

  function AfterKeepAlive(s: Stream): Stream {
    s.(wire := s.wire + [KeepAlive])
  }

  class EventStream {
    var cursor: nat
    var seenIds: seq<string>
    var wire: seq<Frame>

    function State(): Stream
      reads this
    {
      Stream(cursor, seenIds, wire)
    }

    constructor (after: nat)
      ensures State() == Opened(after)
    {
      cursor, seenIds, wire := after, [], [Retry];
    }

    /** Adds nothing a client could take for an event: only the wire grows, by one comment frame. */
    method SendKeepAlive()
      modifies this`wire
      ensures |wire| == |old(wire)| + 1 && old(wire) <= wire && wire[|old(wire)|] == KeepAlive
      ensures EventIds(wire) == EventIds(old(wire)) && Received(wire) == Received(old(wire))
    {
      EventIdsSnoc(wire, KeepAlive);
      ReceivedAppend(wire, [KeepAlive]);
      wire := wire + [KeepAlive];
    }

    method WriteRows(rows: seq<Row>)
      requires |seenIds| <= SEEN_LIMIT
      modifies this
      ensures State() == AfterRows(old(State()), rows) && |seenIds| <= SEEN_LIMIT
    {
      for i := 0 to |rows|
        invariant State() == AfterRows(old(State()), rows[..i]) && |seenIds| <= SEEN_LIMIT
      {
        assert rows[..i + 1][..i] == rows[..i];
        if rows[i].id in seenIds { continue; }
        seenIds := seenIds + [rows[i].id];
        if |seenIds| > SEEN_LIMIT {
          seenIds := seenIds[1..];
        }
        wire := wire + [Event(rows[i].id, rows[i].payload)];
        cursor := rows[i].createdAt;
      }
      assert rows[..|rows|] == rows;
    }
  }

  lemma {:induction false} ReceivedAppend(frames: seq<Frame>, more: seq<Frame>)
    ensures Received(frames + more) == Received(frames) + Received(more)
  {
    hide StripCr;
    if frames == [] {
      assert frames + more == more;
    } else {
      ReceivedAppend(frames[1..], more);
      assert (frames + more)[0] == frames[0] && (frames + more)[1..] == frames[1..] + more;
      assert Received(frames) == FramePayloads(frames[0]) + Received(frames[1..]);
      Associate(FramePayloads(frames[0]), Received(frames[1..]), Received(more));
    }
  }

  function Opened(after: nat): Stream {
    Stream(after, [], [Retry])
  }

  /** The remembered ids are the last thousand written, and no id is written twice within a thousand. */
  ghost predicate Remembers(s: Stream) {
    s.seenIds == LastOf(EventIds(s.wire), SEEN_LIMIT) && Spaced(EventIds(s.wire))
  }

  lemma EventIdsSnoc(wire: seq<Frame>, f: Frame)
    ensures EventIds(wire + [f]) == EventIds(wire) + if f.Event? then [f.id] else []
  {
    assert (wire + [f])[..|wire|] == wire;
  }

  lemma UnseenStaysSpaced(ids: seq<string>, id: string)
    requires Spaced(ids) && id !in LastOf(ids, SEEN_LIMIT)
    ensures Spaced(ids + [id])
    ensures LastOf(LastOf(ids, SEEN_LIMIT) + [id], SEEN_LIMIT) == LastOf(ids + [id], SEEN_LIMIT)
  {
    var recent := LastOf(ids, SEEN_LIMIT);
    var skipped := |ids| - |recent|;
    assert forall i :: skipped <= i < |ids| ==> ids[i] == recent[i - skipped] && recent[i - skipped] in recent;
  }

  lemma RowKeepsRemembering(s: Stream, row: Row)
    requires Remembers(s)
    ensures Remembers(AfterRow(s, row))
  {
    hide EventIds, Spaced, LastOf;
    if row.id !in s.seenIds {
      UnseenStaysSpaced(EventIds(s.wire), row.id);
      EventIdsSnoc(s.wire, Event(row.id, row.payload));
    }
  }

  lemma {:induction false} RowsKeepRemembering(s: Stream, rows: seq<Row>)
    requires Remembers(s)
    ensures Remembers(AfterRows(s, rows))
  {
    hide Remembers, AfterRow;
    if rows != [] {
      RowsKeepRemembering(s, rows[..|rows| - 1]);
      RowKeepsRemembering(AfterRows(s, rows[..|rows| - 1]), rows[|rows| - 1]);
    }
  }

  datatype Tick = Poll(rows: seq<Row>) | Heartbeat

  function AfterTick(s: Stream, tick: Tick): Stream {
    match tick
    case Poll(rows) => AfterRows(s, rows)
    case Heartbeat => AfterKeepAlive(s)
  }

  function AfterTicks(s: Stream, ticks: seq<Tick>): Stream {
    if ticks == [] then s else AfterTick(AfterTicks(s, ticks[..|ticks| - 1]), ticks[|ticks| - 1])
  }

  /** Over every interleaving of polls and keep-alives, no id is written twice within a thousand events. */
  lemma {:induction false} StreamNeverRepeatsSoon(after: nat, ticks: seq<Tick>)
    ensures Remembers(AfterTicks(Opened(after), ticks))
  {
    hide AfterRows, Spaced, LastOf;
    if ticks == [] {
      OpenedRemembers(after);
    } else {
      var n := |ticks| - 1;
      StreamNeverRepeatsSoon(after, ticks[..n]);
      var s := AfterTicks(Opened(after), ticks[..n]);
      match ticks[n]
      case Poll(rows) => RowsKeepRemembering(s, rows);
      case Heartbeat =>
        EventIdsSnoc(s.wire, KeepAlive);
        assert EventIds(s.wire) + [] == EventIds(s.wire);
    }
  }

  lemma OpenedRemembers(after: nat)
    ensures Remembers(Opened(after))
  {
    EventIdsSnoc([], Retry);
    assert [] + [Retry] == [Retry];
  }

  /**
   * What a poll does: it only appends frames of its own rows, leaves none of them unwritten, and moves the cursor
   * to the last written.
   */
  ghost predicate PollEffect(before: Stream, after: Stream, rows: seq<Row>) {
    && before.wire <= after.wire
    && (forall k :: |before.wire| <= k < |after.wire| ==>
      exists r :: r in rows && after.wire[k] == Event(r.id, r.payload))
    && (forall r :: r in rows ==> r.id in EventIds(after.wire))
    && (after.wire == before.wire ==> after == before)
    && (after.wire != before.wire ==> exists r :: r in rows && after.cursor == r.createdAt
                                            && after.wire[|after.wire| - 1] == Event(r.id, r.payload))
  }

  lemma RowEffect(before: Stream, mid: Stream, rows: seq<Row>, row: Row)
    requires Remembers(mid) && PollEffect(before, mid, rows)
    ensures PollEffect(before, AfterRow(mid, row), rows + [row])
  {
    hide Spaced;
    var after, all := AfterRow(mid, row), rows + [row];
    assert row in all && forall r :: r in rows ==> r in all;
    if row.id in mid.seenIds {
      assert row.id in EventIds(mid.wire);
      assert forall r :: r in all ==> r in rows || r == row;
    } else {
      EventIdsSnoc(mid.wire, Event(row.id, row.payload));
      assert EventIds(after.wire)[|EventIds(mid.wire)|] == row.id;
      forall r | r in all
        ensures r.id in EventIds(after.wire)
      {
        if r in rows {
          assert r.id in EventIds(mid.wire);
        }
      }
    }
  }

  lemma {:induction false} EveryPolledRowIsWritten(s: Stream, rows: seq<Row>)
    requires Remembers(s)
    ensures PollEffect(s, AfterRows(s, rows), rows)
  {
    hide Remembers, AfterRow;
    if rows != [] {
      var n := |rows| - 1;
      EveryPolledRowIsWritten(s, rows[..n]);
      RowsKeepRemembering(s, rows[..n]);
      RowEffect(s, AfterRows(s, rows[..n]), rows[..n], rows[n]);
      assert rows == rows[..n] + [rows[n]];
    }
  }
}

/** The incremental event-stream reader of the SDK client, on decoded text. */
module SseClient {
  // ---------- text helpers ----------

  function IndexOf(s: string, c: char): (i: int)
    ensures -1 <= i < |s|
    ensures i < 0 <==> c !in s
    ensures i >= 0 ==> s[i] == c && c !in s[..i]
  {
    if s == "" then -1
    else if s[0] == c then 0
    else
      var rest := IndexOf(s[1..], c);
      if rest < 0 then -1
      else
        assert s[..rest + 1] == [s[0]] + s[1..][..rest];
        rest + 1
  }

  lemma FirstOccurrence(a: string, c: char, b: string)
    requires c !in a
    ensures IndexOf(a + [c] + b, c) == |a|
  {
    var s := a + [c] + b;
    var i := IndexOf(s, c);
    assert forall k :: 0 <= k < |a| ==> s[k] == a[k];
    assert s[|a|] == c && c in s;
    assert forall k :: 0 <= k < i ==> s[k] == s[..i][k];
  }

  function StripCr(line: string): string {
    if line != "" && line[|line| - 1] == '\r' then line[..|line| - 1] else line
  }

  predicate IsSpace(c: char) {
    || c in {'\t', '\n', '\U{0B}', '\U{0C}', '\r', ' ', '\U{A0}', '\U{1680}',
             '\U{2028}', '\U{2029}', '\U{202F}', '\U{205F}', '\U{3000}', '\U{FEFF}'}
    || '\U{2000}' <= c <= '\U{200A}'
  }

  function TrimStart(s: string): string {
    if s != "" && IsSpace(s[0]) then TrimStart(s[1..]) else s
  }

  /** What is left is the text from its first character on that is no white space. */
  lemma {:induction false} TrimStartIs(s: string)
    ensures |TrimStart(s)| <= |s| && TrimStart(s) == s[|s| - |TrimStart(s)|..]
    ensures TrimStart(s) != "" ==> !IsSpace(TrimStart(s)[0])
    ensures forall k :: 0 <= k < |s| - |TrimStart(s)| ==> IsSpace(s[k])
  {
    hide IsSpace;
    if s != "" {
      TrimStartIs(s[1..]);
    }
  }

  function Join(lines: seq<string>): string {
    if lines == [] then ""
    else if |lines| == 1 then lines[0]
    else lines[0] + "\n" + Join(lines[1..])
  }

  // ---------- the specification: a whole text, line by line ----------

  /** The value of a `data` field line; "no data" is the empty sequence. */
  function DataOf(line: string): seq<string> {
    if line == "" || line[0] == ':' then []
    else
      var separator := IndexOf(line, ':');
      var field := if separator >= 0 then line[..separator] else line;
      var text := if separator >= 0 then line[separator + 1..] else "";
      var value := if text != "" && text[0] == ' ' then text[1..] else text;
      if field == "data" then [value] else []
  }

  function Flushed(dataLines: seq<string>): seq<string> {
    if dataLines == [] then [] else [Join(dataLines)]
  }

  /** What an unterminated last line adds; the rules differ from those of a complete line. */
  function TailData(rest: string): seq<string> {
    var line := StripCr(rest);
    if "data:" <= line then [TrimStart(line[5..])] else []
  }

  /** The payloads of a text read from a state where `dataLines` are pending. */
  function Payloads(text: string, dataLines: seq<string>): seq<string>
    decreases |text|
  {
    var i := IndexOf(text, '\n');
    if i < 0 then Flushed(dataLines + TailData(text))
    else
      var line, rest := StripCr(text[..i]), text[i + 1..];
      if line == "" then Flushed(dataLines) + Payloads(rest, [])
      else Payloads(rest, dataLines + DataOf(line))
  }

  /** What the handler receives: payloads up to the first one that is not valid JSON. */
  datatype Delivery = Delivery(events: seq<string>, completed: bool)

  function Deliver(payloads: seq<string>, valid: string -> bool): Delivery {
    if payloads == [] then Delivery([], true)
    else if !valid(payloads[0]) then Delivery([], false)
    else
      var rest := Deliver(payloads[1..], valid);
      Delivery([payloads[0]] + rest.events, rest.completed)
  }

  function Concat(chunks: seq<string>): string {
    if chunks == [] then "" else chunks[0] + Concat(chunks[1..])
  }

  lemma PayloadsUnfold(line: string, rest: string, dataLines: seq<string>)
    requires '\n' !in line
    ensures Payloads(line + "\n" + rest, dataLines) ==
      if StripCr(line) == "" then Flushed(dataLines) + Payloads(rest, [])
      else Payloads(rest, dataLines + DataOf(StripCr(line)))
  {
    var text := line + ['\n'] + rest;
    FirstOccurrence(line, '\n', rest);
    assert text[..|line|] == line && text[|line| + 1..] == rest;
    assert line + "\n" + rest == text;
  }

  lemma {:induction false} DeliverAppend(done: seq<string>, more: seq<string>, valid: string -> bool)
    requires forall p :: p in done ==> valid(p)
    ensures Deliver(done + more, valid) == Delivery(done + Deliver(more, valid).events, Deliver(more, valid).completed)
  {
    if done == [] {
      assert done + more == more;
    } else {
      DeliverAppend(done[1..], more, valid);
      assert (done + more)[1..] == done[1..] + more && (done + more)[0] == done[0];
      assert done == [done[0]] + done[1..];
    }
  }

  // ---------- the reader ----------

  /** Hands a pending event to the handler; false when it is not valid JSON. */
  method FlushEvent(
      dataLines: seq<string>, valid: string -> bool, events: seq<string>)
    returns (events': seq<string>, ok: bool)
    ensures ok <==> forall p :: p in Flushed(dataLines) ==> valid(p)
    ensures events' == if ok then events + Flushed(dataLines) else events
  {
    if |dataLines| == 0 { return events, true; }
    var payload := Join(dataLines);
    if !valid(payload) { return events, false; }
    return events + [payload], true;
  }

  lemma NextLine(buffer: string, rest: string, dataLines: seq<string>)
    requires '\n' in buffer
    ensures var i := IndexOf(buffer, '\n');
      var line, left := StripCr(buffer[..i]), buffer[i + 1..];
      Payloads(buffer + rest, dataLines) ==
        if line == "" then Flushed(dataLines) + Payloads(left + rest, [])
        else Payloads(left + rest, dataLines + DataOf(line))
  {
    var i := IndexOf(buffer, '\n');
    var left := buffer[i + 1..];
    assert buffer == buffer[..i] + "\n" + left;
    assert buffer + rest == buffer[..i] + "\n" + (left + rest);
    PayloadsUnfold(buffer[..i], left + rest, dataLines);
  }

  lemma Associate<T>(a: seq<T>, b: seq<T>, c: seq<T>)
    ensures a + (b + c) == (a + b) + c
  {
  }

  lemma RejectedFirst(dataLines: seq<string>, more: seq<string>, valid: string -> bool)
    requires exists p :: p in Flushed(dataLines) && !valid(p)
    ensures Deliver(Flushed(dataLines) + more, valid) == Delivery([], false)
  {
  }

  /** Processes every complete line in the buffer. `rest` is the text still to arrive. */
  method DrainLines(
      text: string, pending: seq<string>, delivered: seq<string>, valid: string -> bool, ghost rest: string)
    returns (buffer: string, dataLines: seq<string>, events: seq<string>, ok: bool)
    requires forall p :: p in delivered ==> valid(p)
    ensures ok ==> '\n' !in buffer && forall p :: p in events ==> valid(p)
    ensures ok ==> delivered + Payloads(text + rest, pending) == events + Payloads(buffer + rest, dataLines)
    ensures !ok ==> Deliver(delivered + Payloads(text + rest, pending), valid) == Delivery(events, false)
  {
    buffer, dataLines, events, ok := text, pending, delivered, true;
    ghost var whole := delivered + Payloads(text + rest, pending);
    var lineBreakIndex := IndexOf(buffer, '\n');
    while lineBreakIndex >= 0
      invariant lineBreakIndex == IndexOf(buffer, '\n') && ok
      invariant forall p :: p in events ==> valid(p)
      invariant whole == events + Payloads(buffer + rest, dataLines)
      decreases |buffer|
    {
      NextLine(buffer, rest, dataLines);
      var line := StripCr(buffer[..lineBreakIndex]);
      buffer := buffer[lineBreakIndex + 1..];
      if line == "" {
        ghost var after := Payloads(buffer + rest, []);
        DeliverAppend(events, Flushed(dataLines) + after, valid);
        Associate(events, Flushed(dataLines), after);
        events, ok := FlushEvent(dataLines, valid, events);
        if !ok {
          RejectedFirst(dataLines, after, valid);
          return;
        }
        dataLines := [];
      } else {
        dataLines := dataLines + DataOf(line);
      }
      lineBreakIndex := IndexOf(buffer, '\n');
    }
  }

  /** The unterminated rest of the stream: one last line, then one last flush. */
  method DrainTail(
      buffer: string, pending: seq<string>, delivered: seq<string>, valid: string -> bool)
    returns (r: Delivery)
    requires '\n' !in buffer && forall p :: p in delivered ==> valid(p)
    ensures r == Deliver(delivered + Payloads(buffer, pending), valid)
  {
    var dataLines := pending;
    if |buffer| > 0 {
      var line := StripCr(buffer);
      if "data:" <= line {
        dataLines := dataLines + [TrimStart(line[5..])];
      }
    }
    assert dataLines == pending + TailData(buffer);
    var events, ok := FlushEvent(dataLines, valid, delivered);
    DeliverAppend(delivered, Flushed(dataLines), valid);
    r := Delivery(events, ok);
  }

  /**
   * Reads decoded chunks as they arrive; `decoderTail` is what the decoder still holds at the end.
   * The result depends on the text alone, not on how it was cut into chunks.
   */
  method ConsumeSseStream(chunks: seq<string>, decoderTail: string, valid: string -> bool) returns (r: Delivery)
    requires '\n' !in decoderTail
    ensures r == Deliver(Payloads(Concat(chunks) + decoderTail, []), valid)
  {
    ghost var whole := Payloads(Concat(chunks) + decoderTail, []);
    var buffer, dataLines, events: seq<string> := "", [], [];
    var next := 0;
    ghost var arriving := Concat(chunks) + decoderTail;
    assert chunks[0..] == chunks && "" + arriving == arriving;
    while next < |chunks|
      invariant 0 <= next <= |chunks| && '\n' !in buffer
      invariant forall p :: p in events ==> valid(p)
      invariant arriving == Concat(chunks[next..]) + decoderTail
      invariant whole == events + Payloads(buffer + arriving, dataLines)
    {
      assert chunks[next..][1..] == chunks[next + 1..];
      Associate(chunks[next], Concat(chunks[next + 1..]), decoderTail);
      arriving := Concat(chunks[next + 1..]) + decoderTail;
      Associate(buffer, chunks[next], arriving);
      var ok;
      buffer, dataLines, events, ok := DrainLines(buffer + chunks[next], dataLines, events, valid, arriving);
      if !ok { return Delivery(events, false); }
      next := next + 1;
    }
    assert arriving == decoderTail;
    r := DrainTail(buffer + decoderTail, dataLines, events, valid);
  }
}

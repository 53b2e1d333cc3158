/** The payment stream: cutting a byte stream into event blocks and reading their fields.
    A byte is written as the character with its code. */
module Sse {
  import opened Common

  const LF := "\n"
  const CRLF := "\r\n"
  const CR := "\r"

  // ----- finding the end of a block -----

  predicate WindowAt(buf: string, i: int, w: string) {
    0 <= i && i + |w| <= |buf| && buf[i..i + |w|] == w
  }

  /** The index of the first window of `buf` equal to `w`. */
  function FirstWindow(buf: string, w: string): (r: Option<nat>)
    ensures r.Some? ==> r.value + |w| <= |buf|
  {
    if |buf| < |w| || buf == "" then None
    else if buf[..|w|] == w then Some(0)
    else
      match FirstWindow(buf[1..], w)
      case None => None
      case Some(k) => Some(k + 1)
  }

  lemma WindowShift(buf: string, i: int, w: string)
    requires buf != "" && i >= 1
    ensures WindowAt(buf, i, w) == WindowAt(buf[1..], i - 1, w)
  {
    if i + |w| <= |buf| {
      var l, r := buf[i..i + |w|], buf[1..][i - 1..i - 1 + |w|];
      assert |l| == |r| && forall k :: 0 <= k < |l| ==> l[k] == buf[i + k] == r[k];
      assert l == r;
    }
  }

  lemma {:induction false} FirstWindowIsFirst(buf: string, w: string)
    requires w != ""
    ensures FirstWindow(buf, w).Some? ==> WindowAt(buf, FirstWindow(buf, w).value, w)
    ensures forall i: int :: WindowAt(buf, i, w) ==> FirstWindow(buf, w).Some? && FirstWindow(buf, w).value <= i
  {
    if |buf| >= |w| && buf[..|w|] != w {
      FirstWindowIsFirst(buf[1..], w);
      forall i: int | WindowAt(buf, i, w) ensures FirstWindow(buf, w).Some? && FirstWindow(buf, w).value <= i {
        WindowShift(buf, i, w);
      }
      if FirstWindow(buf, w).Some? { WindowShift(buf, FirstWindow(buf, w).value, w); }
    }
  }

  function FindEventEnd(buf: string): (r: Option<nat>)
    ensures r.Some? ==> 2 <= r.value <= |buf|
  {
    var lf := match FirstWindow(buf, "\n\n") case Some(i) => Some(i + 2) case None => None;
    var crlf := match FirstWindow(buf, "\r\n\r\n") case Some(i) => Some(i + 4) case None => None;
    match (lf, crlf)
    case (Some(a), Some(b)) => Some(if a <= b then a else b)
    case (Some(a), None) => Some(a)
    case (None, _) => crlf
  }

  /** A delimiter ends just before position `e`. */
  predicate EndsEvent(buf: string, e: int) {
    WindowAt(buf, e - 2, "\n\n") || WindowAt(buf, e - 4, "\r\n\r\n")
  }

  /** The end found is the first position at which any delimiter is complete. */
  lemma FindEventEndIsFirst(buf: string)
    ensures FindEventEnd(buf).Some? ==> EndsEvent(buf, FindEventEnd(buf).value) 
    ensures forall e: int :: EndsEvent(buf, e) ==> FindEventEnd(buf).Some? && FindEventEnd(buf).value <= e
  {
    FirstWindowIsFirst(buf, "\n\n");
    FirstWindowIsFirst(buf, "\r\n\r\n");
  }

  lemma FirstEndIsFound(buf: string, e: nat)
    requires EndsEvent(buf, e) && forall d: int :: EndsEvent(buf, d) ==> e <= d
    ensures FindEventEnd(buf) == Some(e)
  {
    FindEventEndIsFirst(buf);
  }

  /** Whether an event ends at `d` depends on the bytes before `d` only. */
  lemma EndIsLocal(a: string, b: string, d: int)
    requires d <= |a| && d <= |b| && (d >= 0 ==> a[..d] == b[..d])
    ensures EndsEvent(a, d) == EndsEvent(b, d)
  {
    if d >= 2 {
      assert a[d - 2..d] == a[..d][d - 2..d] && b[d - 2..d] == b[..d][d - 2..d];
    }
    if d >= 4 {
      assert a[d - 4..d] == a[..d][d - 4..d] && b[d - 4..d] == b[..d][d - 4..d];
    }
  }

  /** Bytes that arrive later never move a boundary that has been found. */
  lemma EndIsStable(buf: string, more: string)
    requires FindEventEnd(buf).Some?
    ensures FindEventEnd(buf + more) == FindEventEnd(buf)
  {
    FindEventEndIsFirst(buf);
    SameFirstEnd(buf, buf + more, FindEventEnd(buf).value);
  }

  lemma SameFirstEnd(a: string, b: string, e: nat)
    requires FindEventEnd(a) == Some(e) && e <= |a| && e <= |b| && a[..e] == b[..e]
    ensures FindEventEnd(b) == Some(e)
  {
    FindEventEndIsFirst(a);
    EndIsLocal(a, b, e);
    forall d: int | EndsEvent(b, d) ensures e <= d {
      if d < e {
        assert d >= 0 ==> a[..d] == a[..e][..d] && b[..d] == b[..e][..d];
        EndIsLocal(a, b, d);
      }
    }
    FirstEndIsFound(b, e);
  }

  // ----- cutting a stream into blocks -----

  /** The complete blocks at the front of `buf`. */
  function Blocks(buf: string): seq<string>
    decreases |buf|
  {
    match FindEventEnd(buf)
    case None => []
    case Some(e) => [buf[..e]] + Blocks(buf[e..])
  }

  /** What is left of `buf` after its complete blocks. */
  function Leftover(buf: string): string
    decreases |buf|
  {
    match FindEventEnd(buf)
    case None => buf
    case Some(e) => Leftover(buf[e..])
  }

  function Flatten(parts: seq<string>): string {
    if parts == [] then "" else parts[0] + Flatten(parts[1..])
  }

  lemma SplitStep(buf: string, e: nat)
    requires FindEventEnd(buf) == Some(e)
    ensures Blocks(buf) == [buf[..e]] + Blocks(buf[e..]) && Leftover(buf) == Leftover(buf[e..])
  {
  }

  lemma ConsAppend<T>(x: T, ys: seq<T>, zs: seq<T>)
    ensures [x] + (ys + zs) == [x] + ys + zs
  {
  }

  /** Cutting is compositional: only the leftover matters for what comes next. */
  lemma {:induction false} SplitConcat(a: string, b: string)
    ensures Blocks(a + b) == Blocks(a) + Blocks(Leftover(a) + b)
    ensures Leftover(a + b) == Leftover(Leftover(a) + b)
    decreases |a|
  {
    match FindEventEnd(a)
    case None =>
    case Some(e) =>
      EndIsStable(a, b);
      SplitStep(a, e);
      SplitStep(a + b, e);
      SliceConcat(a, b, e);
      SplitConcat(a[e..], b);
      ConsAppend(a[..e], Blocks(a[e..]), Blocks(Leftover(a[e..]) + b));
  }

  lemma SliceConcat(a: string, b: string, e: nat)
    requires e <= |a|
    ensures (a + b)[..e] == a[..e] && (a + b)[e..] == a[e..] + b && a == a[..e] + a[e..]
  {
  }

  lemma FlattenCons(part: string, parts: seq<string>)
    ensures Flatten([part] + parts) == part + Flatten(parts)
  {
    assert ([part] + parts)[1..] == parts;
  }

  /** No byte is lost, added or reordered. */
  lemma {:induction false} SplitConserves(buf: string)
    ensures Flatten(Blocks(buf)) + Leftover(buf) == buf
    decreases |buf|
  {
    match FindEventEnd(buf)
    case None =>
    case Some(e) =>
      SplitStep(buf, e);
      SplitConserves(buf[e..]);
      FlattenCons(buf[..e], Blocks(buf[e..]));
      ConcatAssociates(buf[..e], Flatten(Blocks(buf[e..])), Leftover(buf[e..]));
      SliceConcat(buf, "", e);
  }

  /** Every block is exactly one event, and the leftover holds none. */
  lemma {:induction false} BlocksAreEvents(buf: string)
    ensures forall block :: block in Blocks(buf) ==> FindEventEnd(block) == Some(|block|)
    ensures FindEventEnd(Leftover(buf)).None?
    decreases |buf|
  {
    match FindEventEnd(buf)
    case None =>
    case Some(e) =>
      SplitStep(buf, e);
      BlocksAreEvents(buf[e..]);
      SameFirstEnd(buf, buf[..e], e);
  }

  // ----- the fields of a block -----

  datatype SseEvent = SseEvent(event: Option<string>, id: Option<string>, data: string)

  function StripCr(line: string): string {
    if line != "" && line[|line| - 1] == '\r' then line[..|line| - 1] else line
  }

  /** `str::lines`: a line ends at LF or CRLF; nothing follows a final terminator. */
  function Lines(block: string): seq<string>
    decreases |block|
  {
    if block == "" then []
    else
      match SplitOnce(block, '\n')
      case None => [block]
      case Some((line, rest)) => [StripCr(line)] + Lines(rest)
  }

  function StripPrefix(line: string, prefix: string): Option<string> {
    if prefix <= line then Some(line[|prefix|..]) else None
  }

  /** One leading space after the colon is not part of the value. */
  function FieldValue(rest: string): string {
    if rest != "" && rest[0] == ' ' then rest[1..] else rest
  }

  function Field(line: string, name: string): Option<string> {
    match StripPrefix(line, name)
    case None => None
    case Some(rest) => Some(FieldValue(rest))
  }

  /** The value of the last line that has the field. */
  function LastField(lines: seq<string>, name: string): Option<string> {
    if lines == [] then None
    else
      match Field(lines[|lines| - 1], name)
      case Some(v) => Some(v)
      case None => LastField(lines[..|lines| - 1], name)
  }

  function DataLines(lines: seq<string>): seq<string> {
    if lines == [] then []
    else
      DataLines(lines[..|lines| - 1])
      + (match Field(lines[|lines| - 1], "data:") case Some(v) => [v] case None => [])
  }

  function Join(lines: seq<string>): string {
    if lines == [] then "" else if |lines| == 1 then lines[0] else Join(lines[..|lines| - 1]) + LF + lines[|lines| - 1]
  }

  function EventOf(lines: seq<string>): SseEvent {
    SseEvent(LastField(lines, "event:"), LastField(lines, "id:"), Join(DataLines(lines)))
  }

  lemma FieldsExclude(line: string)
    ensures Field(line, "data:").Some? ==> Field(line, "event:").None? && Field(line, "id:").None?
    ensures Field(line, "event:").Some? ==> Field(line, "id:").None?
  {
    if "data:" <= line { assert line[0] == 'd'; }
    if "event:" <= line { assert line[0] == 'e'; }
    if "id:" <= line { assert line[0] == 'i'; }
  }

  method ParseSseBlock(block: string) returns (ev: SseEvent)
    ensures ev == EventOf(Lines(block))
  {
    var lines := Lines(block);
    var event: Option<string>, id: Option<string> := None, None;
    var dataLines: seq<string> := [];
    for n := 0 to |lines|
      invariant event == LastField(lines[..n], "event:")
      invariant id == LastField(lines[..n], "id:")
      invariant dataLines == DataLines(lines[..n])
    {
      var line := lines[n];
      assert lines[..n + 1][..n] == lines[..n];
      FieldsExclude(line);
      var data := StripPrefix(line, "data:");
      if data.Some? {
        dataLines := dataLines + [FieldValue(data.value)];
      } else {
        var name := StripPrefix(line, "event:");
        if name.Some? {
          event := Some(FieldValue(name.value));
        } else {
          var token := StripPrefix(line, "id:");
          if token.Some? { id := Some(FieldValue(token.value)); }
        }
      }
    }
    assert lines[..|lines|] == lines;
    return SseEvent(event, id, Join(dataLines));
  }

  // ----- handling a stream -----

  function IdOf(ev: SseEvent): seq<string> { if ev.id.Some? then [ev.id.value] else [] }

  function BlockId(block: string): seq<string> { IdOf(EventOf(Lines(block))) }

  function LastOr(ids: seq<string>, cursor: string): string { if ids == [] then cursor else ids[|ids| - 1] }

  /** The reconnect cursor after the blocks: the last `id` seen, if any. */
  function CursorAfter(blocks: seq<string>, cursor: string): string { LastOr(FlatMap(BlockId, blocks), cursor) }

  function PayloadOf(ev: SseEvent): seq<string> {
    if ev.event == Some("open") || ev.data == "" then [] else [ev.data]
  }

  function BlockPayload(block: string): seq<string> { PayloadOf(EventOf(Lines(block))) }

  /** The data handed on for decoding and reconciliation, in order. */
  function Payloads(blocks: seq<string>): seq<string> { FlatMap(BlockPayload, blocks) }

  method HandleStreamEvent(block: string, cursor: string) returns (cursor': string, handed: seq<string>)
    ensures cursor' == CursorAfter([block], cursor)
    ensures handed == Payloads([block])
    // On the fields: nothing of a greeting or an empty event, else the data; the id counts either way.
    ensures var ev := EventOf(Lines(block));
            && (ev.event != Some("open") && ev.data != "" ==> handed == [ev.data])
            && (ev.event == Some("open") || ev.data == "" ==> handed == [])
            && (ev.id.Some? ==> cursor' == ev.id.value) && (ev.id.None? ==> cursor' == cursor)
  {
    var ev := ParseSseBlock(block);
    FlatMapSingle(BlockPayload, block);
    FlatMapSingle(BlockId, block);
    cursor' := cursor;
    if ev.id.Some? { cursor' := ev.id.value; }
    if ev.event == Some("open") || ev.data == "" { return cursor', []; }
    return cursor', [ev.data];
  }

  /** The bytes that arrive before the connection fails or ends. */
  function Received(chunks: seq<Option<string>>): string {
    if chunks == [] || chunks[0].None? then "" else chunks[0].value + Received(chunks[1..])
  }

  lemma {:induction false} ReceivedPrefix(chunks: seq<Option<string>>, n: nat)
    requires n < |chunks| && forall i :: 0 <= i < n ==> chunks[i].Some?
    ensures chunks[n].Some? ==> Received(chunks[..n + 1]) == Received(chunks[..n]) + chunks[n].value
    ensures chunks[n].None? ==> Received(chunks) == Received(chunks[..n])
  {
    if n == 0 {
      assert chunks[..1][1..] == [];
    } else {
      assert chunks[..n + 1][1..] == chunks[1..][..n] && chunks[..n][1..] == chunks[1..][..n - 1];
      ReceivedPrefix(chunks[1..], n - 1);
    }
  }

  lemma PayloadsSnoc(blocks: seq<string>, block: string, cursor: string)
    ensures Payloads(blocks + [block]) == Payloads(blocks) + Payloads([block])
    ensures CursorAfter(blocks + [block], cursor) == CursorAfter([block], CursorAfter(blocks, cursor))
  {
    FlatMapConcat(BlockPayload, blocks, [block]);
    FlatMapConcat(BlockId, blocks, [block]);
  }

  /** The listener hands on exactly the blocks of everything received, however it was cut into chunks. */
  method StreamOnce(chunks: seq<Option<string>>, cursor: string)
    returns (cursor': string, handed: seq<string>, buf: string, failed: bool)
    ensures handed == Payloads(Blocks(Received(chunks)))
    ensures cursor' == CursorAfter(Blocks(Received(chunks)), cursor)
    ensures buf == Leftover(Received(chunks))
    ensures failed <==> None in chunks
  {
    hide FindEventEnd, Blocks, Leftover, Payloads, CursorAfter, Received;
    cursor', handed, buf := cursor, [], "";
    NothingReceived(chunks, cursor);
    ghost var blocks: seq<string> := [];
    for n := 0 to |chunks|
      invariant forall i :: 0 <= i < n ==> chunks[i].Some?
      invariant Blocks(Received(chunks[..n])) == blocks && Leftover(Received(chunks[..n])) == buf
      invariant handed == Payloads(blocks) && cursor' == CursorAfter(blocks, cursor)
    {
      ReceivedPrefix(chunks, n);
      if chunks[n].None? { return cursor', handed, buf, true; }
      SplitConcat(Received(chunks[..n]), chunks[n].value);
      buf := buf + chunks[n].value;
      ghost var all := Received(chunks[..n + 1]);
      var end := FindEventEnd(buf);
      while end.Some?
        invariant end == FindEventEnd(buf)
        invariant Blocks(all) == blocks + Blocks(buf) && Leftover(all) == Leftover(buf)
        invariant handed == Payloads(blocks) && cursor' == CursorAfter(blocks, cursor)
        decreases |buf|
      {
        SplitStep(buf, end.value);
        SnocAppend(blocks, buf[..end.value], Blocks(buf[end.value..]));
        var block := buf[..end.value];
        buf := buf[end.value..];
        var c, data := HandleStreamEvent(block, cursor');
        PayloadsSnoc(blocks, block, cursor);
        cursor', handed := c, handed + data;
        blocks := blocks + [block];
        end := FindEventEnd(buf);
      }
      NoMoreBlocks(buf);
    }
    assert chunks[..|chunks|] == chunks;
    failed := false;
  }

  lemma NoMoreBlocks(buf: string)
    requires FindEventEnd(buf).None?
    ensures Blocks(buf) == [] && Leftover(buf) == buf
  {
  }

  lemma NothingReceived(chunks: seq<Option<string>>, cursor: string)
    ensures Received(chunks[..0]) == "" && Blocks("") == [] && Leftover("") == ""
    ensures Payloads([]) == [] && CursorAfter([], cursor) == cursor
  {
    assert chunks[..0] == [];
  }

  lemma SnocAppend<T>(xs: seq<T>, y: T, zs: seq<T>)
    ensures xs + ([y] + zs) == xs + [y] + zs
  {
  }

  // ----- what a sender encodes is what is delivered -----

  datatype Message = Message(event: Option<string>, id: Option<string>, data: seq<string>)

  predicate Clean(v: string) { '\n' !in v && '\r' !in v }

  /** A field value is one line, and a message has at least one field. */
  predicate Sendable(m: Message) {
    && (m.event.Some? ==> Clean(m.event.value)) && (m.id.Some? ==> Clean(m.id.value))
    && (forall d :: d in m.data ==> Clean(d))
    && (m.event.Some? || m.id.Some? || m.data != [])
  }

  function EventLine(m: Message): seq<string> { if m.event.Some? then ["event:" + " " + m.event.value] else [] }

  function IdLine(m: Message): seq<string> { if m.id.Some? then ["id:" + " " + m.id.value] else [] }

  function DataFields(data: seq<string>): seq<string> {
    if data == [] then [] else DataFields(data[..|data| - 1]) + ["data:" + " " + data[|data| - 1]]
  }

  function MessageLines(m: Message): seq<string> { EventLine(m) + IdLine(m) + DataFields(m.data) }

  /** Each line with its terminator, then the terminator that makes the blank line. */
  function Terminated(lines: seq<string>, nl: string): string {
    if lines == [] then nl else lines[0] + nl + Terminated(lines[1..], nl)
  }

  function Encode(m: Message, nl: string): string { Terminated(MessageLines(m), nl) }

  ghost predicate Solid(lines: seq<string>) {
    forall line :: line in lines ==> line != "" && Clean(line)
  }

  lemma {:induction false} DataFieldsSolid(data: seq<string>)
    requires forall d :: d in data ==> Clean(d)
    ensures Solid(DataFields(data))
    ensures |DataFields(data)| == |data|
  {
    if data != [] {
      DataFieldsSolid(data[..|data| - 1]);
      assert Clean(data[|data| - 1]);
    }
  }

  lemma MessageLinesSolid(m: Message)
    requires Sendable(m)
    ensures Solid(MessageLines(m)) && MessageLines(m) != []
  {
    DataFieldsSolid(m.data);
    assert Solid(EventLine(m)) && Solid(IdLine(m));
  }

  // A delimiter holds two line feeds, so it needs two line ends with nothing between them.

  predicate IsTerminator(nl: string) { nl == LF || nl == CRLF }

  lemma DelimiterBytes(buf: string, e: int)
    ensures EndsEvent(buf, e) <==>
              && 2 <= e <= |buf| && buf[e - 1] == '\n'
              && (buf[e - 2] == '\n' || (4 <= e && buf[e - 2] == '\r' && buf[e - 3] == '\n' && buf[e - 4] == '\r'))
  {
    if 2 <= e <= |buf| {
      var w := buf[e - 2..e];
      assert w == [buf[e - 2], buf[e - 1]];
    }
    if 4 <= e <= |buf| {
      var w := buf[e - 4..e];
      assert w == [buf[e - 4], buf[e - 3], buf[e - 2], buf[e - 1]];
    }
  }

  lemma FirstLineHasNoEnd(line: string, nl: string, rest: string, e: int)
    requires line != "" && Clean(line) && IsTerminator(nl) && e <= |line + nl|
    ensures !EndsEvent(line + nl + rest, e)
  {
    var buf := line + nl + rest;
    DelimiterBytes(buf, e);
    hide EndsEvent;
    assert forall j :: 0 <= j < |line| ==> buf[j] == line[j];
  }

  lemma SecondLineHasNoEnd(line: string, nl: string, rest: string, e: int)
    requires Clean(line) && IsTerminator(nl) && |line + nl| < e && rest != "" && rest[0] != '\n' && rest[0] != '\r'
    requires EndsEvent(line + nl + rest, e)
    ensures EndsEvent(rest, e - |line + nl|)
  {
    var buf, p := line + nl + rest, |line + nl|;
    DelimiterBytes(buf, e);
    DelimiterBytes(rest, e - p);
    hide EndsEvent;
    assert forall j :: 0 <= j < |rest| ==> buf[p + j] == rest[j];
    assert buf[p] == rest[0];
    assert e - 2 >= p;
    assert buf[e - 2] == rest[e - 2 - p] && buf[e - 1] == rest[e - 1 - p];
    assert e - 4 < p <= e - 3 ==> buf[e - 3] == rest[e - 3 - p];
    assert e - 4 >= p ==> buf[e - 4] == rest[e - 4 - p] && buf[e - 3] == rest[e - 3 - p];
  }

  /** The blank line is the first delimiter of an encoded block. */
  lemma {:induction false} NoEarlyEnd(lines: seq<string>, nl: string, rest: string, e: int)
    requires lines != [] && Solid(lines) && IsTerminator(nl) && EndsEvent(Terminated(lines, nl) + rest, e)
    ensures e >= |Terminated(lines, nl)|
  {
    var line, tail := lines[0], Terminated(lines[1..], nl) + rest;
    assert Terminated(lines, nl) + rest == line + nl + tail;
    if e <= |line + nl| {
      FirstLineHasNoEnd(line, nl, tail, e);
    } else if lines[1..] == [] {
      DelimiterBytes(line + nl + tail, e);
      assert tail[..|nl|] == nl;
      assert (line + nl + tail)[|line + nl|] == nl[0];
    } else {
      assert lines[1] in lines;
      assert tail[0] == lines[1][0];
      SecondLineHasNoEnd(line, nl, tail, e);
      NoEarlyEnd(lines[1..], nl, rest, e - |line + nl|);
    }
  }

  lemma {:induction false} BlankLineEnds(lines: seq<string>, nl: string, rest: string)
    requires lines != [] && Solid(lines) && IsTerminator(nl)
    ensures EndsEvent(Terminated(lines, nl) + rest, |Terminated(lines, nl)|)
  {
    var t, n := Terminated(lines, nl), |Terminated(lines, nl)|;
    EndsWithTwo(lines, nl);
    var buf := t + rest;
    assert buf[n - |nl + nl|..n] == t[n - |nl + nl|..];
  }

  lemma {:induction false} EndsWithTwo(lines: seq<string>, nl: string)
    requires lines != []
    ensures |Terminated(lines, nl)| >= |nl + nl|
    ensures Terminated(lines, nl)[|Terminated(lines, nl)| - |nl + nl|..] == nl + nl
  {
    var tail := Terminated(lines[1..], nl);
    if lines[1..] == [] {
      assert lines[0] + nl + nl == lines[0] + (nl + nl);
    } else {
      EndsWithTwo(lines[1..], nl);
    }
  }

  lemma FirstBlockOfEncoding(m: Message, nl: string, rest: string)
    requires Sendable(m) && IsTerminator(nl)
    ensures FindEventEnd(Encode(m, nl) + rest) == Some(|Encode(m, nl)|)
    ensures Blocks(Encode(m, nl) + rest) == [Encode(m, nl)] + Blocks(rest)
    ensures Leftover(Encode(m, nl) + rest) == Leftover(rest)
  {
    var lines, block := MessageLines(m), Encode(m, nl);
    MessageLinesSolid(m);
    BlankLineEnds(lines, nl, rest);
    forall e: int | EndsEvent(block + rest, e) ensures |block| <= e { NoEarlyEnd(lines, nl, rest, e); }
    FirstEndIsFound(block + rest, |block|);
    SplitStep(block + rest, |block|);
    assert (block + rest)[..|block|] == block && (block + rest)[|block|..] == rest;
  }

  lemma FirstLine(block: string, line: string, rest: string)
    requires SplitOnce(block, '\n') == Some((line, rest))
    ensures Lines(block) == [StripCr(line)] + Lines(rest)
  {
    hide StripCr, SplitOnce;
  }

  lemma LinesStep(line: string, nl: string, tail: string)
    requires Clean(line) && IsTerminator(nl)
    ensures Lines(line + nl + tail) == [line] + Lines(tail)
  {
    hide StripCr, SplitOnce, Lines;
    var body := line + nl[..|nl| - 1];
    BodyIsClean(line, nl, tail);
    SplitOnceOfConcat(body, '\n', tail);
    StripOfLine(line, nl);
    FirstLine(line + nl + tail, body, tail);
  }

  lemma BodyIsClean(line: string, nl: string, tail: string)
    requires Clean(line) && IsTerminator(nl)
    ensures '\n' !in line + nl[..|nl| - 1] && line + nl[..|nl| - 1] + ['\n'] + tail == line + nl + tail
  {
    assert nl == nl[..|nl| - 1] + ['\n'];
  }

  /** Reading the lines of an encoded block gives the lines written, and the blank one. */
  lemma {:induction false} LinesOfTerminated(lines: seq<string>, nl: string)
    requires Solid(lines) && IsTerminator(nl)
    ensures Lines(Terminated(lines, nl)) == lines + [""]
  {
    if lines == [] {
      LinesStep("", nl, "");
      assert "" + nl + "" == nl && Lines("") == [];
    } else {
      assert forall line :: line in lines[1..] ==> line in lines;
      assert lines[0] in lines;
      LinesStep(lines[0], nl, Terminated(lines[1..], nl));
      LinesOfTerminated(lines[1..], nl);
      HeadTail(lines, "");
    }
  }

  lemma HeadTail<T>(xs: seq<T>, y: T)
    requires xs != []
    ensures [xs[0]] + (xs[1..] + [y]) == xs + [y]
  {
  }

  lemma StripOfLine(line: string, nl: string)
    requires Clean(line) && IsTerminator(nl)
    ensures StripCr(line + nl[..|nl| - 1]) == line
  {
    if nl == CRLF {
      assert (line + ['\r'])[..|line|] == line;
    } else {
      assert line + "" == line;
      if line != "" { assert line[|line| - 1] in line; }
    }
  }

  lemma FieldOfLine(name: string, value: string)
    requires name in {"event:", "id:", "data:"}
    ensures Field(name + " " + value, name) == Some(value)
    ensures forall other :: other in {"event:", "id:", "data:"} && other != name ==> Field(name + " " + value, other).None?
  {
    var line := name + " " + value;
    assert line[|name|..] == " " + value;
    assert (" " + value)[1..] == value;
    FieldsExclude(line);
  }

  /** The space after the colon is optional, and only one is taken off. */
  lemma SpaceIsOptional(name: string, value: string)
    requires name in {"event:", "id:", "data:"}
    ensures Field(name + " " + value, name) == Some(value)
    ensures (value == "" || value[0] != ' ') ==> Field(name + value, name) == Some(value)
  {
    FieldOfLine(name, value);
    assert (name + value)[|name|..] == value;
  }

  /** Data lines are joined by line feeds. */
  lemma JoinIs(lines: seq<string>, last: string)
    ensures Join([]) == "" && Join([last]) == last
    ensures lines != [] ==> Join(lines + [last]) == Join(lines) + "\n" + last
  {
    assert (lines + [last])[..|lines|] == lines;
  }

  /** What one more line changes in the event. */
  lemma AppendLine(lines: seq<string>, name: string, value: string)
    requires name in {"event:", "id:", "data:"}
    ensures var more := lines + [name + " " + value];
            && LastField(more, "event:") == (if name == "event:" then Some(value) else LastField(lines, "event:"))
            && LastField(more, "id:") == (if name == "id:" then Some(value) else LastField(lines, "id:"))
            && DataLines(more) == DataLines(lines) + (if name == "data:" then [value] else [])
  {
    FieldOfLine(name, value);
    assert (lines + [name + " " + value])[..|lines|] == lines;
  }

  lemma {:induction false} DataFieldsRead(before: seq<string>, data: seq<string>)
    ensures DataLines(before + DataFields(data)) == DataLines(before) + data
    ensures LastField(before + DataFields(data), "event:") == LastField(before, "event:")
    ensures LastField(before + DataFields(data), "id:") == LastField(before, "id:")
  {
    if data == [] {
      assert before + [] == before;
    } else {
      var init, d := data[..|data| - 1], data[|data| - 1];
      DataFieldsRead(before, init);
      DataFieldsSnoc(before, init, d);
      hide LastField, DataLines, DataFields;
      AppendLine(before + DataFields(init), "data:", d);
      assert data == init + [d];
      ConcatAssociates(DataLines(before), init, [d]);
    }
  }

  lemma DataFieldsSnoc(before: seq<string>, init: seq<string>, d: string)
    ensures before + DataFields(init + [d]) == before + DataFields(init) + ["data:" + " " + d]
  {
    assert (init + [d])[..|init|] == init;
  }

  lemma BlankLineIsNoField(lines: seq<string>)
    ensures EventOf(lines + [""]) == EventOf(lines)
  {
    assert (lines + [""])[..|lines|] == lines;
    assert |"data:"| == 5 && |"event:"| == 6 && |"id:"| == 3;
    assert DataLines(lines) + [] == DataLines(lines);
  }

  lemma HeaderRead(m: Message)
    ensures LastField(EventLine(m) + IdLine(m), "event:") == m.event
    ensures LastField(EventLine(m) + IdLine(m), "id:") == m.id
    ensures DataLines(EventLine(m) + IdLine(m)) == []
  {
    var e := EventLine(m);
    if m.event.Some? {
      AppendLine([], "event:", m.event.value);
      assert e == [] + ["event:" + " " + m.event.value];
    }
    if m.id.Some? {
      AppendLine(e, "id:", m.id.value);
      assert IdLine(m) == ["id:" + " " + m.id.value];
    } else {
      assert e + IdLine(m) == e;
    }
  }

  /** An encoded message is read back as it was written. */
  lemma EncodeRoundTrip(m: Message, nl: string)
    requires Sendable(m) && IsTerminator(nl)
    ensures EventOf(Lines(Encode(m, nl))) == SseEvent(m.event, m.id, Join(m.data))
  {
    MessageLinesSolid(m);
    LinesOfTerminated(MessageLines(m), nl);
    BlankLineIsNoField(MessageLines(m));
    DataFieldsRead(EventLine(m) + IdLine(m), m.data);
    HeaderRead(m);
    assert [] + m.data == m.data;
  }

  // ----- the whole stream -----

  /** A sender may choose the terminator afresh for every message. */
  function EncodeAll(ms: seq<(Message, string)>): string {
    if ms == [] then "" else Encode(ms[0].0, ms[0].1) + EncodeAll(ms[1..])
  }

  ghost predicate AllSendable(ms: seq<(Message, string)>) {
    forall m :: m in ms ==> Sendable(m.0) && IsTerminator(m.1)
  }

  function Encodings(ms: seq<(Message, string)>): seq<string> {
    if ms == [] then [] else [Encode(ms[0].0, ms[0].1)] + Encodings(ms[1..])
  }

  lemma {:induction false} BlocksOfEncoding(ms: seq<(Message, string)>)
    requires AllSendable(ms)
    ensures Blocks(EncodeAll(ms)) == Encodings(ms) && Leftover(EncodeAll(ms)) == ""
  {
    if ms != [] {
      assert ms[0] in ms;
      FirstBlockOfEncoding(ms[0].0, ms[0].1, EncodeAll(ms[1..]));
      BlocksOfEncoding(ms[1..]);
    }
  }

  /** What the messages are worth to reconciliation: the data of every one that has any and is not a greeting. */
  function Bodies(ms: seq<(Message, string)>): seq<string> {
    if ms == [] then []
    else (if ms[0].0.event != Some("open") && Join(ms[0].0.data) != "" then [Join(ms[0].0.data)] else []) + Bodies(ms[1..])
  }

  /** The last id among the messages, or the cursor that was there. */
  function LastId(ms: seq<(Message, string)>, cursor: string): string {
    if ms == [] then cursor
    else LastId(ms[1..], match ms[0].0.id case Some(id) => id case None => cursor)
  }

  /** One message: it is handed on exactly when it is not a greeting and its data is not empty, and its id, if it has one,
      becomes the cursor in any case. */
  lemma MessageIsHandedIff(m: Message, nl: string, cursor: string)
    requires Sendable(m) && IsTerminator(nl)
    ensures m.event != Some("open") && Join(m.data) != "" ==> Payloads([Encode(m, nl)]) == [Join(m.data)]
    ensures m.event == Some("open") || Join(m.data) == "" ==> Payloads([Encode(m, nl)]) == []
    ensures m.id.Some? ==> CursorAfter([Encode(m, nl)], cursor) == m.id.value
    ensures m.id.None? ==> CursorAfter([Encode(m, nl)], cursor) == cursor
  {
    hide Encode, Lines, EventOf, Sendable, Join;
    EncodeRoundTrip(m, nl);
    FlatMapSingle(BlockPayload, Encode(m, nl));
    FlatMapSingle(BlockId, Encode(m, nl));
  }

  lemma {:induction false} PayloadsOfEncoding(ms: seq<(Message, string)>, cursor: string)
    requires AllSendable(ms)
    ensures Payloads(Encodings(ms)) == Bodies(ms)
    ensures CursorAfter(Encodings(ms), cursor) == LastId(ms, cursor)
  {
    hide Encode, Sendable, Join, Payloads, CursorAfter;
    if ms == [] {
      NothingReceived([], cursor);
    } else {
      var (m, nl) := ms[0];
      assert ms[0] in ms && AllSendable(ms[1..]);
      MessageIsHandedIff(m, nl, cursor);
      var next := match m.id case Some(id) => id case None => cursor;
      PayloadsOfEncoding(ms[1..], next);
      PayloadsCons(Encode(m, nl), Encodings(ms[1..]), cursor);
    }
  }

  lemma PayloadsCons(block: string, blocks: seq<string>, cursor: string)
    ensures Payloads([block] + blocks) == Payloads([block]) + Payloads(blocks)
    ensures CursorAfter([block] + blocks, cursor) == CursorAfter(blocks, CursorAfter([block], cursor))
  {
    FlatMapConcat(BlockPayload, [block], blocks);
    FlatMapConcat(BlockId, [block], blocks);
  }

  /** Whatever mix of terminators was sent and however the bytes were cut, the listener's result
      (see `StreamOnce`) is the messages, each exactly once and in order, with nothing left over. */
  lemma StreamDeliversMessages(ms: seq<(Message, string)>, chunks: seq<Option<string>>, cursor: string)
    requires AllSendable(ms) && Received(chunks) == EncodeAll(ms)
    ensures Payloads(Blocks(Received(chunks))) == Bodies(ms)
    ensures CursorAfter(Blocks(Received(chunks)), cursor) == LastId(ms, cursor)
    ensures Leftover(Received(chunks)) == ""
  {
    BlocksOfEncoding(ms);
    PayloadsOfEncoding(ms, cursor);
  }

  // ----- the standard's blank lines, and those that are found -----

  /** A line ends just before `e`: at a line feed, or at a carriage return that no line feed follows
      (section 9.2.5 of the HTML Standard: CR LF, LF or CR). */
  predicate LineEnds(buf: string, e: int) {
    1 <= e <= |buf| && (buf[e - 1] == '\n' || (buf[e - 1] == '\r' && !(e < |buf| && buf[e] == '\n')))
  }

  /** The terminator of the line that ends at `e`. */
  function Terminator(buf: string, e: int): (t: string)
    requires LineEnds(buf, e)
    ensures (t == LF || t == CRLF || t == CR) && |t| <= e && buf[e - |t|..e] == t
  {
    if buf[e - 1] == '\r' then CR else if e >= 2 && buf[e - 2] == '\r' then CRLF else LF
  }

  /** The standard ends an event at `e`: a blank line ends there, right after another line. (A blank line at the very
      beginning ends an empty event, which carries nothing.) */
  predicate StandardEnd(buf: string, e: int) { LineEnds(buf, e) && LineEnds(buf, e - |Terminator(buf, e)|) }

  /** The terminators of the blank line and of the line before it. */
  function BlankLine(buf: string, e: int): string
    requires StandardEnd(buf, e)
  {
    Terminator(buf, e)
  }

  function LineBefore(buf: string, e: int): string
    requires StandardEnd(buf, e)
  {
    Terminator(buf, e - |Terminator(buf, e)|)
  }

  /** Every end that the implementation finds is one of the standard's. */
  lemma FoundIsStandard(buf: string, e: int)
    requires EndsEvent(buf, e)
    ensures StandardEnd(buf, e)
  {
    DelimiterBytes(buf, e);
  }

  lemma FoundIff(buf: string, e: int)
    requires StandardEnd(buf, e)
    ensures EndsEvent(buf, e) <==> BlankLine(buf, e) == LF || (BlankLine(buf, e) == CRLF && LineBefore(buf, e) == CRLF)
  {
    DelimiterBytes(buf, e);
    hide EndsEvent;
  }

  /** The implementation ends an event at the standard's first end exactly when the blank line is a plain line feed,
      or when it and the line before it both end in CR LF. */
  lemma StandardEndIsFoundIff(buf: string, e: nat)
    requires StandardEnd(buf, e) && forall d: int :: StandardEnd(buf, d) ==> e <= d
    ensures FindEventEnd(buf) == Some(e) <==> BlankLine(buf, e) == LF || (BlankLine(buf, e) == CRLF && LineBefore(buf, e) == CRLF)
  {
    hide StandardEnd, EndsEvent, FindEventEnd, BlankLine, LineBefore;
    FindEventEndIsFirst(buf);
    FoundIff(buf, e);
    forall d: int | EndsEvent(buf, d) ensures StandardEnd(buf, d) { FoundIsStandard(buf, d); }
  }

  /** Lines that end in lone carriage returns are never recognised. */
  lemma LoneCrIsNotFound(buf: string)
    requires '\n' !in buf
    ensures FindEventEnd(buf) == None
    ensures forall e: int :: 2 <= e <= |buf| && buf[e - 2] == '\r' && buf[e - 1] == '\r' ==> StandardEnd(buf, e)
  {
    FindEventEndIsFirst(buf);
    forall e: int ensures !EndsEvent(buf, e) { DelimiterBytes(buf, e); }
  }

  /** An input without lone carriage returns on which the two differ. */
  lemma LfThenCrlfIsNotFound()
    ensures StandardEnd("a\n\r\n", 4) && FindEventEnd("a\n\r\n") == None
  {
    var buf := "a\n\r\n";
    hide FindEventEnd, EndsEvent;
    FindEventEndIsFirst(buf);
    forall e: int ensures !EndsEvent(buf, e) { DelimiterBytes(buf, e); }
    LfCrlfIsStandard();
  }

  lemma LfCrlfIsStandard()
    ensures StandardEnd("a\n\r\n", 4)
  {
    var buf := "a\n\r\n";
    assert buf[3] == '\n' && buf[2] == '\r' && buf[1] == '\n';
    assert Terminator(buf, 4) == CRLF;
  }
}

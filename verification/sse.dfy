/** Server-sent events: frames printed as text blocks, and an incremental parser that takes them
    apart again whatever pieces the text arrives in. */
module Sse {
  import opened Texts

  const LF: CodeUnit := 10
  const DATA: Text := Ascii("data:")
  const SPACE: CodeUnit := 32

  // ---------------------------------------------------------------- splitting at blank lines

  predicate BreakAt(t: Text, k: nat) {
    k + 1 < |t| && t[k] == LF && t[k + 1] == LF
  }

  /** `buffer.indexOf('\n\n')`. */
  function FindBreak(t: Text): (k: Option<nat>)
    ensures k.Some? ==> k.value + 2 <= |t|
    decreases |t|
  {
    if |t| < 2 then None
    else if BreakAt(t, 0) then Some(0)
    else
      var later := FindBreak(t[1..]);
      if later.None? then None else Some(later.value + 1)
  }

  /** It finds the first blank line if there is one. */
  lemma {:induction false} FindBreakFirst(t: Text)
    ensures FindBreak(t).Some? ==>
              BreakAt(t, FindBreak(t).value) && forall j :: 0 <= j < FindBreak(t).value ==> !BreakAt(t, j)
    ensures FindBreak(t).None? ==> forall j: nat :: !BreakAt(t, j)
    decreases |t|
  {
    if |t| >= 2 && !BreakAt(t, 0) {
      FindBreakFirst(t[1..]);
      assert forall j: nat :: j > 0 ==> (BreakAt(t, j) <==> BreakAt(t[1..], j - 1));
    }
  }

  /** What is left over after the last complete block. */
  function Rest(t: Text): Text
    decreases |t|
  {
    var k := FindBreak(t);
    if k.None? then t else Rest(t[k.value + 2..])
  }

  lemma FirstBreakIs(t: Text, k: nat)
    requires BreakAt(t, k) && forall j :: 0 <= j < k ==> !BreakAt(t, j)
    ensures FindBreak(t) == Some(k)
  {
    FindBreakFirst(t);
    assert forall m: nat :: BreakAt(t, m) ==> k <= m;
  }

  lemma FirstBreakKept(a: Text, b: Text, k: nat)
    requires FindBreak(a) == Some(k)
    ensures FindBreak(a + b) == Some(k)
  {
    FindBreakFirst(a);
    assert forall j :: 0 <= j <= k ==> (BreakAt(a + b, j) <==> BreakAt(a, j));
    FirstBreakIs(a + b, k);
  }

  /** What a whole text delivers when it is cut at its blank lines in one go. */
  function Frames<F>(deliver: Text -> seq<F>, t: Text): seq<F>
    decreases |t|
  {
    var k := FindBreak(t);
    if k.None? then [] else deliver(t[..k.value]) + Frames(deliver, t[k.value + 2..])
  }

  /** Delivering what has arrived, keeping the rest, and going on when more arrives is delivering
      everything at once. */
  lemma {:induction false} FramesIncremental<F>(deliver: Text -> seq<F>, a: Text, b: Text)
    ensures Frames(deliver, a + b) == Frames(deliver, a) + Frames(deliver, Rest(a) + b)
    ensures Rest(a + b) == Rest(Rest(a) + b)
    decreases |a|
  {
    var k := FindBreak(a);
    if k.Some? {
      FirstBreakKept(a, b, k.value);
      assert (a + b)[..k.value] == a[..k.value];
      assert (a + b)[k.value + 2..] == a[k.value + 2..] + b;
      var left := a[k.value + 2..];
      FramesIncremental(deliver, left, b);
      Regroup(deliver(a[..k.value]), Frames(deliver, left), Frames(deliver, Rest(left) + b));
    }
  }

  // ---------------------------------------------------------------- one block

  /** White space as `trim` knows it. */
  predicate IsSpace(c: CodeUnit) {
    9 <= c <= 13 || c == 0x20 || c == 0xA0 || c == 0x1680 || 0x2000 <= c <= 0x200A
    || c == 0x2028 || c == 0x2029 || c == 0x202F || c == 0x205F || c == 0x3000 || c == 0xFEFF
  }

  function TrimStart(t: Text): Text {
    if t != [] && IsSpace(t[0]) then TrimStart(t[1..]) else t
  }

  function TrimEnd(t: Text): Text {
    if t != [] && IsSpace(t[|t| - 1]) then TrimEnd(t[..|t| - 1]) else t
  }

  /** The payload of each data line. */
  function DataLines(lines: seq<Text>): seq<Text> {
    if lines == [] then []
    else (if DATA <= lines[0] then [TrimEnd(TrimStart(lines[0][|DATA|..]))] else []) + DataLines(lines[1..])
  }

  /** What a block delivers: one frame, or nothing for a comment or text that does not parse. */
  function ChunkFrames<F>(parse: Text -> Option<F>, chunk: Text): seq<F> {
    var dataLines := DataLines(Split(chunk, LF));
    if dataLines == [] then []
    else
      var frame := parse(Join(dataLines, [LF]));
      if frame.None? then [] else [frame.value]
  }

  /** `#handleChunk` as the block handler of `Frames`. */
  function Handler<F>(parse: Text -> Option<F>): Text -> seq<F> {
    chunk => ChunkFrames(parse, chunk)
  }

  function Concat(pieces: seq<Text>): Text {
    if pieces == [] then [] else Concat(pieces[..|pieces| - 1]) + pieces[|pieces| - 1]
  }

  lemma ConcatOneMore(pieces: seq<Text>, i: nat)
    requires i < |pieces|
    ensures Concat(pieces[..i + 1]) == Concat(pieces[..i]) + pieces[i]
  {
    assert pieces[..i + 1][..i] == pieces[..i];
  }

  /** `done`, followed by what `buffer` still delivers, is what `whole` delivers. */
  ghost predicate Progress<F>(deliver: Text -> seq<F>, whole: Text, done: seq<F>, buffer: Text) {
    Frames(deliver, whole) == done + Frames(deliver, buffer) && Rest(whole) == Rest(buffer)
  }

  lemma ProgressStart<F>(deliver: Text -> seq<F>, whole: Text)
    ensures Progress(deliver, whole, [], whole)
  {
  }

  lemma ProgressStep<F>(deliver: Text -> seq<F>, whole: Text, done: seq<F>, buffer: Text, k: nat)
    requires Progress(deliver, whole, done, buffer) && FindBreak(buffer) == Some(k)
    ensures Progress(deliver, whole, done + deliver(buffer[..k]), buffer[k + 2..])
  {
    var chunk, left := buffer[..k], buffer[k + 2..];
    assert done + (deliver(chunk) + Frames(deliver, left)) == (done + deliver(chunk)) + Frames(deliver, left);
  }

  lemma ProgressEnd<F>(deliver: Text -> seq<F>, whole: Text, done: seq<F>, buffer: Text)
    requires Progress(deliver, whole, done, buffer) && FindBreak(buffer).None?
    ensures Frames(deliver, whole) == done && Rest(whole) == buffer
  {
  }

  /** `delivered` is `before` and all that the pieces deliver, and `buffer` is what they leave over. */
  ghost predicate Pumped<F>(deliver: Text -> seq<F>, pieces: seq<Text>, before: seq<F>, delivered: seq<F>,
        buffer: Text) {
    delivered == before + Frames(deliver, Concat(pieces)) && buffer == Rest(Concat(pieces))
  }

  lemma PumpedStart<F>(deliver: Text -> seq<F>, pieces: seq<Text>, before: seq<F>)
    requires pieces == []
    ensures Pumped(deliver, pieces, before, before, [])
  {
    assert before + [] == before;
  }

  lemma PumpedStep<F>(deliver: Text -> seq<F>, pieces: seq<Text>, i: nat, before: seq<F>, delivered: seq<F>,
        buffer: Text)
    requires i < |pieces| && Pumped(deliver, pieces[..i], before, delivered, buffer)
    ensures Pumped(deliver, pieces[..i + 1], before, delivered + Frames(deliver, buffer + pieces[i]),
                   Rest(buffer + pieces[i]))
  {
    var text := Concat(pieces[..i]);
    ConcatOneMore(pieces, i);
    FramesIncremental(deliver, text, pieces[i]);
    Regroup(before, Frames(deliver, text), Frames(deliver, buffer + pieces[i]));
  }

  // ---------------------------------------------------------------- the client

  class SseClient<F> {
    const parse: Text -> Option<F>
    var buffer: Text
    /** Frames handed to the message listeners, oldest first. */
    var delivered: seq<F>

    constructor (parse: Text -> Option<F>)
      ensures this.parse == parse && buffer == [] && delivered == []
    {
      this.parse := parse;
      buffer, delivered := [], [];
    }

    /** `#handleChunk`. */
    method HandleChunk(chunk: Text)
      modifies this`delivered
      ensures delivered == old(delivered) + Handler(parse)(chunk)
    {
      var dataLines := DataLines(Split(chunk, LF));
      if dataLines == [] {
        return;
      }
      var frame := parse(Join(dataLines, [LF]));
      if frame.None? {
        return;
      }
      delivered := delivered + [frame.value];
    }

    /** One round of `#pump`: append a piece, then take off every complete block. */
    method Receive(piece: Text)
      modifies this
      ensures delivered == old(delivered) + Frames(Handler(parse), old(buffer) + piece)
      ensures buffer == Rest(old(buffer) + piece)
    {
      buffer := buffer + piece;
      ghost var deliver, whole, before, done := Handler(parse), buffer, delivered, [];
      ProgressStart(deliver, whole);
      var boundary := FindBreak(buffer);
      while boundary.Some?
        invariant boundary == FindBreak(buffer)
        invariant Progress(deliver, whole, done, buffer) && delivered == before + done
        decreases |buffer|
      {
        ProgressStep(deliver, whole, done, buffer, boundary.value);
        var chunk := buffer[..boundary.value];
        buffer := buffer[boundary.value + 2..];
        HandleChunk(chunk);
        done := done + deliver(chunk);
        boundary := FindBreak(buffer);
      }
      ProgressEnd(deliver, whole, done, buffer);
    }

    /** `#pump`: whatever pieces the text comes in, what is delivered depends on the text only. */
    method Pump(pieces: seq<Text>)
      requires buffer == []
      modifies this
      ensures delivered == old(delivered) + Frames(Handler(parse), Concat(pieces))
      ensures buffer == Rest(Concat(pieces))
    {
      ghost var deliver, before := Handler(parse), delivered;
      PumpedStart(deliver, pieces[..0], before);
      for i := 0 to |pieces|
        invariant Pumped(deliver, pieces[..i], before, delivered, buffer)
      {
        PumpedStep(deliver, pieces, i, before, delivered, buffer);
        Receive(pieces[i]);
      }
      assert pieces[..|pieces|] == pieces;
    }
  }

  // ---------------------------------------------------------------- the server

  const OK_COMMENT: Text := Ascii(":ok") + [LF, LF]

  function Block(payload: Text): Text {
    DATA + [SPACE] + payload + [LF, LF]
  }

  /** Everything a peer has been written after these frames. */
  function Stream<F>(serialize: F -> Text, frames: seq<F>): Text {
    if frames == [] then OK_COMMENT
    else Stream(serialize, frames[..|frames| - 1]) + Block(serialize(frames[|frames| - 1]))
  }

  class SsePeer<F> {
    const serialize: F -> Text
    var written: Text
    var ended: bool
    ghost var frames: seq<F>

    ghost predicate Valid()
      reads this
    {
      written == Stream(serialize, frames)
    }

    /** `handleRequest`. */
    constructor (serialize: F -> Text)
      ensures this.serialize == serialize && Valid() && frames == [] && !ended
      ensures written == Ascii(":ok") + [LF, LF]
    {
      this.serialize := serialize;
      written := OK_COMMENT;
      ended := false;
      frames := [];
    }

    method Send(frame: F)
      requires Valid()
      modifies this
      ensures Valid() && ended == old(ended)
      ensures frames == if ended then old(frames) else old(frames) + [frame]
      ensures written == if ended then old(written)
                         else old(written) + (Ascii("data:") + [SPACE] + serialize(frame) + [LF, LF])
    {
      if ended {
        return;
      }
      written := written + (DATA + [SPACE] + serialize(frame) + [LF, LF]);
      frames := frames + [frame];
    }

    method Close()
      requires Valid()
      modifies this
      ensures Valid() && ended && frames == old(frames) && written == old(written)
    {
      ended := true;
    }
  }

  // ---------------------------------------------------------------- what a block means

  /** `payload` is `t` without the white space around it. */
  ghost predicate TrimmedTo(t: Text, payload: Text) {
    && (payload != [] ==> !IsSpace(payload[0]) && !IsSpace(payload[|payload| - 1]))
    && exists before, after :: t == before + (payload + after) && AllSpace(before) && AllSpace(after)
  }

  ghost predicate AllSpace(t: Text) {
    forall i :: 0 <= i < |t| ==> IsSpace(t[i])
  }

  lemma {:induction false} TrimStartIs(t: Text, before: Text, rest: Text)
    requires t == before + rest && AllSpace(before)
    requires rest != [] ==> !IsSpace(rest[0])
    ensures TrimStart(t) == rest
    decreases |before|
  {
    if before == [] {
      assert t == rest;
    } else {
      assert t[1..] == before[1..] + rest;
      TrimStartIs(t[1..], before[1..], rest);
    }
  }

  lemma {:induction false} TrimEndIs(t: Text, rest: Text, after: Text)
    requires t == rest + after && AllSpace(after)
    requires rest != [] ==> !IsSpace(rest[|rest| - 1])
    ensures TrimEnd(t) == rest
    decreases |after|
  {
    if after == [] {
      assert t == rest;
    } else {
      assert t[..|t| - 1] == rest + after[..|after| - 1];
      TrimEndIs(t[..|t| - 1], rest, after[..|after| - 1]);
    }
  }

  lemma TrimIs(t: Text, payload: Text)
    requires TrimmedTo(t, payload)
    ensures TrimEnd(TrimStart(t)) == payload
  {
    var before, after :| t == before + (payload + after) && AllSpace(before) && AllSpace(after);
    if payload == [] {
      assert payload + after == after;
      TrimStartIs(t, t, []);
    } else {
      TrimStartIs(t, before, payload + after);
      TrimEndIs(payload + after, payload, after);
    }
  }

  ghost predicate IsDataLine(line: Text) {
    Ascii("data:") <= line
  }

  /** These are the payloads of the lines that start with `data:`, in order. */
  ghost predicate Payloads(lines: seq<Text>, payloads: seq<Text>)
    decreases |lines|
  {
    if lines == [] then payloads == []
    else if IsDataLine(lines[0])
    then payloads != [] && TrimmedTo(lines[0][5..], payloads[0]) && Payloads(lines[1..], payloads[1..])
    else Payloads(lines[1..], payloads)
  }

  lemma {:induction false} DataLinesAre(lines: seq<Text>, payloads: seq<Text>)
    requires Payloads(lines, payloads)
    ensures DataLines(lines) == payloads
    decreases |lines|
  {
    if lines != [] {
      assert |DATA| == 5;
      if IsDataLine(lines[0]) {
        TrimIs(lines[0][5..], payloads[0]);
        DataLinesAre(lines[1..], payloads[1..]);
        assert payloads == [payloads[0]] + payloads[1..];
      } else {
        DataLinesAre(lines[1..], payloads);
      }
    }
  }

  /** A block of lines delivers what the payloads of its data lines, joined by line feeds, parse to; without a
      data line, or when that does not parse, nothing. */
  lemma BlockMeaning<F>(parse: Text -> Option<F>, lines: seq<Text>, payloads: seq<Text>)
    requires lines != [] && (forall i :: 0 <= i < |lines| ==> Free(lines[i], LF)) && Payloads(lines, payloads)
    ensures Handler(parse)(Join(lines, [LF]))
         == if payloads == [] || parse(Join(payloads, [LF])).None? then []
            else [parse(Join(payloads, [LF])).value]
  {
    SplitJoin(lines, LF);
    DataLinesAre(lines, payloads);
  }

  // ---------------------------------------------------------------- end to end

  /** Text on one line, with no white space around it: what `JSON.stringify` gives. */
  ghost predicate OneLine(t: Text) {
    && Free(t, LF)
    && (t != [] ==> !IsSpace(t[0]) && !IsSpace(t[|t| - 1]))
  }

  ghost predicate Codec<F(!new)>(serialize: F -> Text, parse: Text -> Option<F>) {
    forall f :: OneLine(serialize(f)) && parse(serialize(f)) == Some(f)
  }

  lemma BlockFrames<F>(parse: Text -> Option<F>, payload: Text)
    requires OneLine(payload)
    ensures ChunkFrames(parse, DATA + [SPACE] + payload) == if parse(payload).Some? then [parse(payload).value] else []
  {
    var chunk := DATA + [SPACE] + payload;
    SplitWhole(chunk, LF);
    var value := [SPACE] + payload;
    assert chunk == DATA + value;
    assert chunk[|DATA|..] == value && value[1..] == payload;
    assert TrimEnd(TrimStart(value)) == payload;
    assert DataLines([chunk]) == [payload] + DataLines([chunk][1..]);
  }

  /** A block with no line feed in its content is exactly one chunk. */
  lemma OneChunk<F>(deliver: Text -> seq<F>, content: Text)
    requires Free(content, LF)
    ensures Frames(deliver, content + [LF, LF]) == deliver(content) && Rest(content + [LF, LF]) == []
  {
    var t, k := content + [LF, LF], |content|;
    assert forall j :: 0 <= j < k ==> !BreakAt(t, j);
    FirstBreakIs(t, k);
    var left := t[k + 2..];
    assert t[..k] == content && left == [];
    assert Frames(deliver, left) == [] && Rest(left) == [];
  }

  lemma BlockParses<F(!new)>(serialize: F -> Text, parse: Text -> Option<F>, f: F)
    requires Codec(serialize, parse)
    ensures Frames(Handler(parse), Block(serialize(f))) == [f] && Rest(Block(serialize(f))) == []
  {
    OneChunk(Handler(parse), DATA + [SPACE] + serialize(f));
    BlockFrames(parse, serialize(f));
  }

  lemma CommentParses<F>(parse: Text -> Option<F>)
    ensures Frames(Handler(parse), OK_COMMENT) == [] && Rest(OK_COMMENT) == []
  {
    var comment := Ascii(":ok");
    OneChunk(Handler(parse), comment);
    SplitWhole(comment, LF);
    assert comment[0] != DATA[0];
    assert DataLines([comment]) == DataLines([comment][1..]);
  }

  lemma WholeBlocks<F>(deliver: Text -> seq<F>, a: Text, b: Text)
    requires Rest(a) == []
    ensures Frames(deliver, a + b) == Frames(deliver, a) + Frames(deliver, b) && Rest(a + b) == Rest(b)
  {
    FramesIncremental(deliver, a, b);
    assert [] + b == b;
  }

  /** A handler that makes nothing of the opening comment, and of each block the frame it carries. */
  ghost predicate Decodes<F(!new)>(serialize: F -> Text, deliver: Text -> seq<F>) {
    && Frames(deliver, OK_COMMENT) == [] && Rest(OK_COMMENT) == []
    && forall f :: Frames(deliver, Block(serialize(f))) == [f] && Rest(Block(serialize(f))) == []
  }

  lemma HandlerDecodes<F(!new)>(serialize: F -> Text, parse: Text -> Option<F>)
    requires Codec(serialize, parse)
    ensures Decodes(serialize, Handler(parse))
  {
    CommentParses(parse);
    forall f ensures Frames(Handler(parse), Block(serialize(f))) == [f] && Rest(Block(serialize(f))) == [] {
      BlockParses(serialize, parse, f);
    }
  }

  /** Then it makes of a server's text exactly the frames that were sent. */
  lemma {:induction false} StreamParses<F(!new)>(serialize: F -> Text, deliver: Text -> seq<F>, frames: seq<F>)
    requires Decodes(serialize, deliver)
    ensures Frames(deliver, Stream(serialize, frames)) == frames && Rest(Stream(serialize, frames)) == []
  {
    if frames != [] {
      var n := |frames| - 1;
      StreamParses(serialize, deliver, frames[..n]);
      WholeBlocks(deliver, Stream(serialize, frames[..n]), Block(serialize(frames[n])));
      assert frames == frames[..n] + [frames[n]];
    }
  }

  /** Of the part of a text that has arrived, a prefix of what the text delivers is delivered. */
  lemma FramesMonotone<F>(deliver: Text -> seq<F>, arrived: Text, text: Text)
    requires arrived <= text
    ensures Frames(deliver, arrived) <= Frames(deliver, text)
  {
    assert text == arrived + text[|arrived|..];
    FramesIncremental(deliver, arrived, text[|arrived|..]);
  }

  /** For any frames and any fragmentation of any part of the server's text that has arrived, the
      client has delivered a prefix of the frames, in order; once all of it has arrived, all. */
  lemma SseDelivers<F(!new)>(serialize: F -> Text, parse: Text -> Option<F>, frames: seq<F>, pieces: seq<Text>)
    requires Codec(serialize, parse) && Concat(pieces) <= Stream(serialize, frames)
    ensures Frames(Handler(parse), Concat(pieces)) <= frames
    ensures Concat(pieces) == Stream(serialize, frames) ==> Frames(Handler(parse), Concat(pieces)) == frames
  {
    HandlerDecodes(serialize, parse);
    StreamParses(serialize, Handler(parse), frames);
    FramesMonotone(Handler(parse), Concat(pieces), Stream(serialize, frames));
  }
}

/** Displays: the start/output/stop protocol around each command, and the stream display
    that writes it out. */
module Displays {
  import opened Values
  import opened Strings

  /** A call made on a display, as a display that records its calls would see it. */
  datatype Call =
    | Start(index: nat, total: nat, command: string)
    | Output(index: nat, data: Bytes)
    | Stop(index: nat, total: nat, command: string, returncode: Option<int>)

  /** One write on a stream: text, or raw bytes. */
  datatype Chunk = Text(text: string) | Binary(bytes: Bytes)

  /** What the block inside `command()` does: the chunks it hands to
      `command_output(index, ...)`, the value it leaves in `result.returncode` (None when
      it assigns nothing), and the exception it raises, if any. */
  datatype Body<E> = Body(output: seq<Bytes>, returncode: Option<int>, raised: Option<E>)

  /** A writable stream, with the binary `buffer` stream some text streams carry. */
  class Stream {
    var written: seq<Chunk>
    const buffer: Stream?

    constructor (buffer: Stream?)
      ensures written == [] && this.buffer == buffer
    {
      written := [];
      this.buffer := buffer;
    }

    method Write(c: Chunk)
      modifies this
      ensures written == old(written) + [c]
    {
      written := written + [c];
    }
  }

  /** The line announcing a command. */
  function StartLine(command: string): string
  {
    "> " + command + "\n"
  }

  /** `"{}".format(returncode)`: the code's decimal digits, or "None". */
  function FormatReturnCode(returncode: Option<int>): string
  {
    match returncode
    case None => "None"
    case Some(code) => IntToString(code)
  }

  /** The line reporting how a command ended. */
  function ExitLine(returncode: Option<int>): string
  {
    "> Exit status: " + FormatReturnCode(returncode) + "\n"
  }

  /** What a stream display writes for one call: the text lines when `text` holds, the raw
      bytes when `binary` holds. */
  function ShownCall(c: Call, text: bool, binary: bool): seq<Chunk>
  {
    match c
    case Start(_, _, command) => if text then [Text(StartLine(command))] else []
    case Output(_, data) => if binary then [Binary(data)] else []
    case Stop(_, _, _, returncode) => if text then [Text(ExitLine(returncode))] else []
  }

  /** What a stream display writes for a sequence of calls, in call order. */
  function Shown(calls: seq<Call>, text: bool, binary: bool): seq<Chunk>
  {
    if |calls| == 0 then []
    else ShownCall(calls[0], text, binary) + Shown(calls[1..], text, binary)
  }

  /** Writing is a homomorphism: what a run of calls shows is what each part shows. */
  lemma {:induction false} ShownConcat(a: seq<Call>, b: seq<Call>, text: bool, binary: bool)
    ensures Shown(a + b, text, binary) == Shown(a, text, binary) + Shown(b, text, binary)
    decreases |a|
  {
    if |a| == 0 {
      assert a + b == b;
    } else {
      assert (a + b)[1..] == a[1..] + b;
      ShownConcat(a[1..], b, text, binary);
      AppendAssoc(ShownCall(a[0], text, binary), Shown(a[1..], text, binary), Shown(b, text, binary));
    }
  }

  lemma ShownSingle(c: Call, text: bool, binary: bool)
    ensures Shown([c], text, binary) == ShownCall(c, text, binary)
  {
    assert [c][1..] == [];
    AppendNil(ShownCall(c, text, binary));
  }

  lemma ShownAppend(calls: seq<Call>, c: Call, text: bool, binary: bool)
    ensures Shown(calls + [c], text, binary) == Shown(calls, text, binary) + ShownCall(c, text, binary)
  {
    ShownConcat(calls, [c], text, binary);
    ShownSingle(c, text, binary);
  }

  /** The output calls for `chunks`, all bound to `index`. */
  function Outputs(index: nat, chunks: seq<Bytes>): seq<Call>
  {
    seq(|chunks|, i requires 0 <= i < |chunks| => Output(index, chunks[i]))
  }

  /** The calls one `command()` block makes: start, the body's output, stop with the
      body's return code. */
  function Bracket<E>(index: nat, total: nat, command: string, body: Body<E>): seq<Call>
  {
    [Start(index, total, command)] + Outputs(index, body.output) + [Stop(index, total, command, body.returncode)]
  }

  function BinaryChunks(chunks: seq<Bytes>): seq<Chunk>
  {
    seq(|chunks|, i requires 0 <= i < |chunks| => Binary(chunks[i]))
  }

  lemma {:induction false} ShownOutputs(index: nat, chunks: seq<Bytes>, text: bool)
    ensures Shown(Outputs(index, chunks), text, true) == BinaryChunks(chunks)
    ensures Shown(Outputs(index, chunks), text, false) == []
    decreases |chunks|
  {
    if |chunks| > 0 {
      ShownOutputs(index, chunks[1..], text);
      assert Outputs(index, chunks)[1..] == Outputs(index, chunks[1..]);
      assert BinaryChunks(chunks) == [Binary(chunks[0])] + BinaryChunks(chunks[1..]);
    }
  }

  /** What one command shows on a stream: its start line and exit line when the stream
      takes text, its output chunks, unchanged and in order, when it takes bytes. */
  lemma ShownBracket<E>(index: nat, total: nat, command: string, body: Body<E>, text: bool, binary: bool)
    ensures Shown(Bracket(index, total, command, body), text, binary)
      == (if text then [Text(StartLine(command))] else [])
       + (if binary then BinaryChunks(body.output) else [])
       + (if text then [Text(ExitLine(body.returncode))] else [])
  {
    var start := [Start(index, total, command)];
    var outputs := Outputs(index, body.output);
    var stop := [Stop(index, total, command, body.returncode)];
    ShownConcat(start + outputs, stop, text, binary);
    ShownConcat(start, outputs, text, binary);
    ShownSingle(start[0], text, binary);
    ShownSingle(stop[0], text, binary);
    ShownOutputs(index, body.output, text);
    assert Shown(outputs, text, binary) == (if binary then BinaryChunks(body.output) else []);
  }


  /** On a stream without a separate binary buffer, one command shows its start line, then
      its output chunks, then its exit line: nothing is held back or reordered. */
  lemma CommandOnSharedStream<E>(index: nat, total: nat, command: string, body: Body<E>)
    ensures Shown(Bracket(index, total, command, body), true, true)
      == [Text(StartLine(command))] + BinaryChunks(body.output) + [Text(ExitLine(body.returncode))]
  {
    ShownBracket(index, total, command, body, true, true);
  }

  /** With a separate binary buffer, the text stream gets only the two lines and the buffer
      gets exactly the output chunks. */
  lemma CommandOnSplitStreams<E>(index: nat, total: nat, command: string, body: Body<E>)
    ensures Shown(Bracket(index, total, command, body), true, false)
      == [Text(StartLine(command)), Text(ExitLine(body.returncode))]
    ensures Shown(Bracket(index, total, command, body), false, true) == BinaryChunks(body.output)
  {
    var startLine, exitLine := [Text(StartLine(command))], [Text(ExitLine(body.returncode))];
    ShownBracket(index, total, command, body, true, false);
    AppendNil(startLine);
    assert startLine + [] + exitLine == [Text(StartLine(command)), Text(ExitLine(body.returncode))];
    ShownBracket(index, total, command, body, false, true);
    AppendNil(BinaryChunks(body.output));
  }

  /** The (index, total, command) of every start call, in call order. */
  function Starts(calls: seq<Call>): seq<(nat, nat, string)>
  {
    if |calls| == 0 then []
    else
      (if calls[0].Start? then [(calls[0].index, calls[0].total, calls[0].command)] else [])
      + Starts(calls[1..])
  }

  /** The (index, return code) of every stop call, in call order. */
  function Stops(calls: seq<Call>): seq<(nat, Option<int>)>
  {
    if |calls| == 0 then []
    else
      (if calls[0].Stop? then [(calls[0].index, calls[0].returncode)] else [])
      + Stops(calls[1..])
  }

  lemma StartsStopsConcat(a: seq<Call>, b: seq<Call>)
    ensures Starts(a + b) == Starts(a) + Starts(b)
    ensures Stops(a + b) == Stops(a) + Stops(b)
  {
    StartsConcat(a, b);
    StopsConcat(a, b);
  }

  lemma {:induction false} StartsConcat(a: seq<Call>, b: seq<Call>)
    ensures Starts(a + b) == Starts(a) + Starts(b)
    decreases |a|
  {
    if |a| == 0 {
      assert a + b == b;
    } else {
      assert (a + b)[1..] == a[1..] + b;
      StartsConcat(a[1..], b);
      var head := if a[0].Start? then [(a[0].index, a[0].total, a[0].command)] else [];
      AppendAssoc(head, Starts(a[1..]), Starts(b));
    }
  }

  lemma {:induction false} StopsConcat(a: seq<Call>, b: seq<Call>)
    ensures Stops(a + b) == Stops(a) + Stops(b)
    decreases |a|
  {
    if |a| == 0 {
      assert a + b == b;
    } else {
      assert (a + b)[1..] == a[1..] + b;
      StopsConcat(a[1..], b);
      var head := if a[0].Stop? then [(a[0].index, a[0].returncode)] else [];
      AppendAssoc(head, Stops(a[1..]), Stops(b));
    }
  }

  lemma {:induction false} NoStartsStopsInOutputs(index: nat, chunks: seq<Bytes>)
    ensures Starts(Outputs(index, chunks)) == [] && Stops(Outputs(index, chunks)) == []
    decreases |chunks|
  {
    if |chunks| > 0 {
      assert Outputs(index, chunks)[1..] == Outputs(index, chunks[1..]);
      NoStartsStopsInOutputs(index, chunks[1..]);
    }
  }

  /** One `command()` block opens exactly one scope and closes exactly that scope, with the
      return code the block left. */
  lemma BracketOpensAndCloses<E>(index: nat, total: nat, command: string, body: Body<E>)
    ensures Starts(Bracket(index, total, command, body)) == [(index, total, command)]
    ensures Stops(Bracket(index, total, command, body)) == [(index, body.returncode)]
  {
    var start := [Start(index, total, command)];
    var outputs := Outputs(index, body.output);
    var stop := [Stop(index, total, command, body.returncode)];
    StartsStopsConcat(start + outputs, stop);
    StartsStopsConcat(start, outputs);
    NoStartsStopsInOutputs(index, body.output);
  }

  /** Text and binary streams holding what they held at first, followed by what `calls`
      wrote to them; when they are one stream (`shared`), it holds both kinds of chunk. */
  ghost predicate Mirrors(text: seq<Chunk>, binary: seq<Chunk>, shared: bool,
                          textBase: seq<Chunk>, binaryBase: seq<Chunk>, calls: seq<Call>)
  {
    if shared then text == textBase + Shown(calls, true, true)
    else text == textBase + Shown(calls, true, false) && binary == binaryBase + Shown(calls, false, true)
  }

  /** One more call extends each stream by what that call writes to it. */
  lemma MirrorsAppend(text: seq<Chunk>, binary: seq<Chunk>, shared: bool,
                      textBase: seq<Chunk>, binaryBase: seq<Chunk>, calls: seq<Call>, c: Call)
    requires Mirrors(text, binary, shared, textBase, binaryBase, calls)
    ensures shared ==> Mirrors(text + ShownCall(c, true, true), binary, shared, textBase, binaryBase, calls + [c])
    ensures !shared ==> Mirrors(text + ShownCall(c, true, false), binary + ShownCall(c, false, true),
                                shared, textBase, binaryBase, calls + [c])
  {
    ShownAppend(calls, c, true, shared);
    ShownAppend(calls, c, false, true);
    AppendAssoc(textBase, Shown(calls, true, shared), ShownCall(c, true, shared));
    AppendAssoc(binaryBase, Shown(calls, false, true), ShownCall(c, false, true));
  }

  /** Streams that mirror `calls + added` from the start mirror `added` from the point where
      they mirrored `calls`: the later calls only append to what was there. */
  lemma MirrorsTrans(text0: seq<Chunk>, binary0: seq<Chunk>, shared: bool,
                     textBase: seq<Chunk>, binaryBase: seq<Chunk>, calls: seq<Call>, added: seq<Call>,
                     text1: seq<Chunk>, binary1: seq<Chunk>)
    requires Mirrors(text0, binary0, shared, textBase, binaryBase, calls)
    requires Mirrors(text1, binary1, shared, textBase, binaryBase, calls + added)
    ensures Mirrors(text1, binary1, shared, text0, binary0, added)
  {
    ShownConcat(calls, added, true, shared);
    ShownConcat(calls, added, false, true);
    AppendAssoc(textBase, Shown(calls, true, shared), Shown(added, true, shared));
    AppendAssoc(binaryBase, Shown(calls, false, true), Shown(added, false, true));
  }

  lemma OutputsAppend(index: nat, chunks: seq<Bytes>, k: nat)
    requires k < |chunks|
    ensures Outputs(index, chunks[..k + 1]) == Outputs(index, chunks[..k]) + [Output(index, chunks[k])]
  {
  }

  /** A display writing to a text stream, and raw output to that stream's `buffer` when it
      has one, or else to the text stream itself. */
  class StreamDisplay {
    const stream: Stream
    const binaryStream: Stream

    /** Every call made on this display so far. */
    ghost var calls: seq<Call>
    /** What the streams held when the display was created. */
    ghost const textBase: seq<Chunk>
    ghost const binaryBase: seq<Chunk>

    /** Each stream holds what it held before, followed by what the calls wrote to it. */
    ghost predicate Valid()
      reads this, stream, binaryStream
    {
      Mirrors(stream.written, binaryStream.written, binaryStream == stream, textBase, binaryBase, calls)
    }

    /** Since the streams held `text` and `binary`, exactly what the calls `added` write has
        been appended to them, and nothing else. */
    ghost predicate WroteSince(text: seq<Chunk>, binary: seq<Chunk>, added: seq<Call>)
      reads this, stream, binaryStream
    {
      Mirrors(stream.written, binaryStream.written, binaryStream == stream, text, binary, added)
    }

    constructor (stream: Stream)
      ensures this.stream == stream
      ensures binaryStream == if stream.buffer != null then stream.buffer else stream
      ensures calls == [] && Valid()
    {
      this.stream := stream;
      binaryStream := if stream.buffer != null then stream.buffer else stream;
      calls := [];
      textBase := stream.written;
      binaryBase := (if stream.buffer != null then stream.buffer else stream).written;
      AppendNil(stream.written);
      AppendNil((if stream.buffer != null then stream.buffer else stream).written);
    }

    /** `start_command`: writes the start line to the text stream. */
    method StartCommand(index: nat, total: nat, command: string)
      requires Valid()
      modifies this, stream
      ensures Valid() && calls == old(calls) + [Start(index, total, command)]
      ensures stream.written == old(stream.written) + [Text(StartLine(command))]
      ensures binaryStream != stream ==> binaryStream.written == old(binaryStream.written)
    {
      var c := Start(index, total, command);
      MirrorsAppend(stream.written, binaryStream.written, binaryStream == stream, textBase, binaryBase, calls, c);
      AppendNil(binaryStream.written);
      stream.Write(Text(StartLine(command)));
      calls := calls + [c];
    }

    /** `stop_command`: writes the exit line to the text stream. */
    method StopCommand(index: nat, total: nat, command: string, returncode: Option<int>)
      requires Valid()
      modifies this, stream
      ensures Valid() && calls == old(calls) + [Stop(index, total, command, returncode)]
      ensures stream.written == old(stream.written) + [Text(ExitLine(returncode))]
      ensures binaryStream != stream ==> binaryStream.written == old(binaryStream.written)
    {
      var c := Stop(index, total, command, returncode);
      MirrorsAppend(stream.written, binaryStream.written, binaryStream == stream, textBase, binaryBase, calls, c);
      AppendNil(binaryStream.written);
      stream.Write(Text(ExitLine(returncode)));
      calls := calls + [c];
    }

    /** `command_output`: writes the bytes, unchanged, to the binary stream. */
    method CommandOutput(index: nat, data: Bytes)
      requires Valid()
      modifies this, binaryStream
      ensures Valid() && calls == old(calls) + [Output(index, data)]
      ensures binaryStream.written == old(binaryStream.written) + [Binary(data)]
      ensures binaryStream != stream ==> stream.written == old(stream.written)
    {
      var c := Output(index, data);
      MirrorsAppend(stream.written, binaryStream.written, binaryStream == stream, textBase, binaryBase, calls, c);
      AppendNil(stream.written);
      binaryStream.Write(Binary(data));
      calls := calls + [c];
    }

    /** `command(index, total, command)`: start before the block, stop after it with the
        return code the block left, and stop even when the block raises; the block's
        exception is then passed on. */
    method Command<E>(index: nat, total: nat, command: string, body: Body<E>) returns (raised: Option<E>)
      requires Valid()
      modifies this, stream, binaryStream
      ensures Valid()
      ensures calls == old(calls) + Bracket(index, total, command, body)
      ensures WroteSince(old(stream.written), old(binaryStream.written), Bracket(index, total, command, body))
      ensures raised == body.raised
    {
      StartCommand(index, total, command);
      ghost var started := calls;
      var k := 0;
      while k < |body.output|
        invariant 0 <= k <= |body.output|
        invariant Valid()
        invariant calls == started + Outputs(index, body.output[..k])
      {
        CommandOutput(index, body.output[k]);
        OutputsAppend(index, body.output, k);
        AppendAssoc(started, Outputs(index, body.output[..k]), [Output(index, body.output[k])]);
        k := k + 1;
      }
      assert body.output[..k] == body.output;
      StopCommand(index, total, command, body.returncode);
      AppendAssoc(old(calls), [Start(index, total, command)], Outputs(index, body.output));
      AppendAssoc(old(calls) + [Start(index, total, command)], Outputs(index, body.output), [Stop(index, total, command, body.returncode)]);
      AppendAssoc(old(calls), [Start(index, total, command)] + Outputs(index, body.output), [Stop(index, total, command, body.returncode)]);
      MirrorsTrans(old(stream.written), old(binaryStream.written), binaryStream == stream, textBase, binaryBase,
                   old(calls), Bracket(index, total, command, body), stream.written, binaryStream.written);
      raised := body.raised;
    }
  }
}

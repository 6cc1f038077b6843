// Streaming the contents of boxes: libjxl/lib/jxl/box_content_decoder.cc, the
// box buffer of libjxl/lib/jxl/decode.cc, and the extraction loop of
// libjxl/tools/jxltran.cc.
module BoxStream {
  import opened Bits

  datatype Status = Success | Error | NeedMoreInput | BoxEvent | BoxNeedMoreOutput | BoxComplete

  function Min(a: nat, b: nat): nat {
    if a <= b then a else b
  }

  // The window shows the box contents from `boxPos` on; it may go on past the box.
  ghost predicate Shows(window: seq<uint8>, boxPos: nat, contents: seq<uint8>) {
    forall k: nat, j: nat | k < |window| && j == boxPos + k && j < |contents| :: window[k] == contents[j]
  }

  // ---------------------------------------------------------------------
  // Brotli: an instance of the library answers by all the calls made to it.

  datatype BrotliResult = ResultError | ResultSuccess | ResultNeedsMoreInput | ResultNeedsMoreOutput

  datatype BrotliCall = BrotliCall(input: seq<uint8>, room: nat)

  datatype BrotliAnswer = BrotliAnswer(result: BrotliResult, consumed: nat, produced: seq<uint8>)

  datatype Brotli = Brotli(answer: seq<BrotliCall> -> BrotliAnswer) {
    // It consumes no more than it is given, and produces no more than fits.
    ghost predicate Ok() {
      forall calls: seq<BrotliCall> | calls != [] :: Bounded(calls)
    }

    predicate Bounded(calls: seq<BrotliCall>)
      requires calls != []
    {
      var last := calls[|calls| - 1];
      answer(calls).consumed <= |last.input| && |answer(calls).produced| <= last.room
    }

    // The calls that bring the instance on, in all: bytes taken and given.
    function Consumed(calls: seq<BrotliCall>): nat {
      if calls == [] then 0 else Consumed(calls[..|calls| - 1]) + answer(calls).consumed
    }

    function Produced(calls: seq<BrotliCall>): seq<uint8> {
      if calls == [] then [] else Produced(calls[..|calls| - 1]) + answer(calls).produced
    }

    // The next call gets the compressed bytes from where the last ones were
    // taken, up to `limit`.
    ghost predicate Feeds(calls: seq<BrotliCall>, call: BrotliCall, compressed: seq<uint8>, limit: nat) {
      Consumed(calls) <= limit <= |compressed| && call.input == compressed[Consumed(calls)..limit]
    }

    ghost predicate FedInOrder(calls: seq<BrotliCall>, compressed: seq<uint8>) {
      calls == [] || (var last := |calls| - 1;
                      && FedInOrder(calls[..last], compressed)
                      && exists limit: nat :: Feeds(calls[..last], calls[last], compressed, limit))
    }
  }

  class JxlBoxContentDecoder {
    const brotli: Brotli
    var headerDone: bool
    var brobDecode: bool
    var boxUntilEof: bool
    var remaining: nat
    var pos: nat
    var calls: seq<BrotliCall>

    constructor (brotli: Brotli)
      ensures this.brotli == brotli
    {
      this.brotli := brotli;
      headerDone, brobDecode, boxUntilEof, remaining, pos, calls := false, false, true, 0, 0, [];
    }

    // `contents` are the bytes of the box; of a box that lasts until the end of
    // the file, those that are there.
    ghost predicate Streams(contents: seq<uint8>)
      reads this
    {
      pos <= |contents| && (!boxUntilEof ==> pos + remaining == |contents|)
    }

    method StartBox(brob: bool, untilEof: bool, contentsSize: nat)
      modifies this
      ensures pos == 0 && remaining == (if untilEof then 0 else contentsSize) && calls == []
      ensures !headerDone && brobDecode == brob && boxUntilEof == untilEof
    {
      calls := [];
      headerDone := false;
      brobDecode := brob;
      boxUntilEof := untilEof;
      remaining := if untilEof then 0 else contentsSize;
      pos := 0;
    }

    // Delivers the next bytes of a box that is not compressed: as many as the
    // window and the buffer allow, in order. A box of known size is complete
    // exactly when all its bytes are out, any other one whenever its window is
    // used up; more output is wanted only with a full buffer, more input only
    // after the whole window. A compressed box takes a step of the library.
    method Process(window: seq<uint8>, boxPos: nat, out: array<uint8>, nextOut: nat, availOut: nat,
                   ghost contents: seq<uint8>) returns (status: Status, nextOut': nat, availOut': nat)
      requires Streams(contents) && Shows(window, boxPos, contents) && nextOut + availOut <= out.Length
      requires boxUntilEof ==> boxPos + |window| <= |contents|
      requires brobDecode ==> brotli.Ok()
      modifies this, out
      ensures Streams(contents) && boxUntilEof == old(boxUntilEof) && brobDecode == old(brobDecode)
      ensures !brobDecode ==> headerDone == old(headerDone) && calls == old(calls)
      ensures !(boxPos <= old(pos) <= boxPos + |window|) ==>
                status == Error && pos == old(pos) && headerDone == old(headerDone) && calls == old(calls)
                && nextOut' == nextOut
      ensures nextOut <= nextOut' && nextOut' + availOut' == nextOut + availOut
      ensures forall k: nat | k < out.Length && !(nextOut <= k < nextOut') :: out[k] == old(out[k])
      ensures boxPos <= old(pos) <= boxPos + |window| ==>
                if brobDecode
                then BrobStep(brotli, contents, boxPos + |window|, boxUntilEof, availOut, old(calls), old(headerDone),
                              old(pos), calls, headerDone, pos, out[nextOut..nextOut'], status)
                else PlainStep(contents, boxPos + |window|, boxUntilEof, availOut, old(pos), pos,
                               out[nextOut..nextOut'], status)
    {
      nextOut', availOut' := nextOut, availOut;
      if boxPos > pos {
        return Error, nextOut', availOut';
      }
      var offset := pos - boxPos;
      if offset > |window| {
        return Error, nextOut', availOut';
      }
      hide BrobStep, PlainStep, Shows;
      if brobDecode {
        status, nextOut' := ProcessBrob(window, boxPos, offset, out, nextOut, availOut, contents);
      } else {
        status, nextOut' := ProcessPlain(window, boxPos, offset, out, nextOut, availOut, contents);
      }
      availOut' := availOut - (nextOut' - nextOut);
    }

    // The branch for boxes that are not compressed, for a window that reaches
    // the position.
    method ProcessPlain(window: seq<uint8>, boxPos: nat, offset: nat, out: array<uint8>, nextOut: nat, availOut: nat,
                        ghost contents: seq<uint8>) returns (status: Status, nextOut': nat)
      requires Streams(contents) && Shows(window, boxPos, contents) && nextOut + availOut <= out.Length
      requires boxUntilEof ==> boxPos + |window| <= |contents|
      requires offset <= |window| && boxPos + offset == pos
      modifies this`pos, this`remaining, out
      ensures Streams(contents) && nextOut <= nextOut' <= nextOut + availOut
      ensures forall k: nat | k < out.Length && !(nextOut <= k < nextOut') :: out[k] == old(out[k])
      ensures PlainStep(contents, boxPos + |window|, boxUntilEof, availOut, old(pos), pos, out[nextOut..nextOut'],
                        status)
    {
      var availIn := |window| - offset;
      var canRead := availIn;
      if !boxUntilEof {
        canRead := Min(canRead, remaining);
      }
      var toWrite := Min(canRead, availOut);
      CopyBytes(window, offset, out, nextOut, toWrite);
      nextOut' := nextOut + toWrite;
      if !boxUntilEof {
        remaining := remaining - toWrite;
      }
      pos := pos + toWrite;
      DeliveredInOrder(window, boxPos, contents, offset, toWrite);
      if toWrite < canRead {
        return BoxNeedMoreOutput, nextOut';
      }
      if !boxUntilEof && remaining > 0 {
        return NeedMoreInput, nextOut';
      }
      return BoxComplete, nextOut';
    }

    // The compressed branch, for a window that reaches the position.
    method ProcessBrob(window: seq<uint8>, boxPos: nat, offset: nat, out: array<uint8>, nextOut: nat, availOut: nat,
                       ghost contents: seq<uint8>) returns (status: Status, nextOut': nat)
      requires Streams(contents) && Shows(window, boxPos, contents) && nextOut + availOut <= out.Length
      requires boxUntilEof ==> boxPos + |window| <= |contents|
      requires brotli.Ok() && offset <= |window| && boxPos + offset == pos
      modifies this`headerDone, this`pos, this`remaining, this`calls, out
      ensures Streams(contents)
      ensures nextOut <= nextOut' <= nextOut + availOut
      ensures forall k: nat | k < out.Length && !(nextOut <= k < nextOut') :: out[k] == old(out[k])
      ensures BrobStep(brotli, contents, boxPos + |window|, boxUntilEof, availOut, old(calls), old(headerDone),
                       old(pos), calls, headerDone, pos, out[nextOut..nextOut'], status)
    {
      hide BrotliStep;
      nextOut' := nextOut;
      var next, availIn := offset, |window| - offset;
      if !headerDone {
        if availIn < 4 {
          return NeedMoreInput, nextOut';
        }
        if !boxUntilEof {
          if remaining < 4 {
            return Error, nextOut';
          }
          remaining := remaining - 4;
        }
        next, availIn := next + 4, availIn - 4;
        pos := pos + 4;
        headerDone := true;
      }
      if !boxUntilEof {
        availIn := Min(availIn, remaining);
      }
      DeliveredInOrder(window, boxPos, contents, next, availIn);
      status, nextOut' := CallBrotli(window[next..next + availIn], out, nextOut, availOut, contents);
    }

    // The call of the library, and what follows from its answer.
    method CallBrotli(input: seq<uint8>, out: array<uint8>, nextOut: nat, availOut: nat, ghost contents: seq<uint8>)
      returns (status: Status, nextOut': nat)
      requires Streams(contents) && headerDone && brotli.Ok() && nextOut + availOut <= out.Length
      requires pos + |input| <= |contents| && input == contents[pos..pos + |input|]
      modifies this`pos, this`remaining, this`calls, out
      ensures Streams(contents) && nextOut <= nextOut' <= nextOut + availOut
      ensures forall k: nat | k < out.Length && !(nextOut <= k < nextOut') :: out[k] == old(out[k])
      ensures BrotliStep(brotli, contents, old(pos), old(pos) + |input|, boxUntilEof, availOut, old(calls), calls, pos,
                         out[nextOut..nextOut'], status)
    {
      calls := calls + [BrotliCall(input, availOut)];
      assert brotli.Bounded(calls);
      var answer := brotli.answer(calls);
      CopyBytes(answer.produced, 0, out, nextOut, |answer.produced|);
      nextOut' := nextOut + |answer.produced|;
      assert answer.produced[0..0 + |answer.produced|] == answer.produced;
      if answer.result == ResultError {
        return Error, nextOut';
      }
      pos := pos + answer.consumed;
      if !boxUntilEof {
        remaining := remaining - answer.consumed;
        if answer.result == ResultNeedsMoreInput && remaining == 0 {
          return Error, nextOut';
        }
      }
      if answer.result == ResultNeedsMoreInput {
        return NeedMoreInput, nextOut';
      }
      if answer.result == ResultNeedsMoreOutput {
        return BoxNeedMoreOutput, nextOut';
      }
      if !boxUntilEof && remaining != 0 {
        return Error, nextOut';
      }
      return BoxComplete, nextOut';
    }
  }

  // What a call does for a box that is not compressed, when its window ends at
  // position `end` of the box: the position moves from `from` to `to`.
  ghost predicate PlainStep(contents: seq<uint8>, end: nat, untilEof: bool, room: nat, from: nat, to: nat,
                            written: seq<uint8>, status: Status)
  {
    && from <= to <= |contents| && written == contents[from..to] && to <= end
    && (status == BoxComplete <==> to == if untilEof then end else |contents|)
    && (status == BoxNeedMoreOutput ==> |written| == room && to < end)
    && (status == NeedMoreInput ==> to == end && !untilEof)
    && status in {BoxComplete, BoxNeedMoreOutput, NeedMoreInput}
  }

  // For a compressed one: four bytes of header, and then the library gets what
  // there is of the rest. Of a box of known size, the library has to succeed
  // with the last byte.
  ghost predicate BrobStep(brotli: Brotli, contents: seq<uint8>, end: nat, untilEof: bool, room: nat,
                           calls: seq<BrotliCall>, header: bool, from: nat, calls': seq<BrotliCall>, header': bool,
                           to: nat, written: seq<uint8>, status: Status)
  {
    if !header && end - from < 4 then
      status == NeedMoreInput && calls' == calls && !header' && to == from && written == []
    else if !header && !untilEof && |contents| - from < 4 then
      status == Error && calls' == calls && !header' && to == from && written == []
    else
      var start, limit := if header then from else from + 4, if untilEof then end else Min(end, |contents|);
      header' && BrotliStep(brotli, contents, start, limit, untilEof, room, calls, calls', to, written, status)
  }

  ghost predicate BrotliStep(brotli: Brotli, contents: seq<uint8>, start: nat, limit: nat, untilEof: bool, room: nat,
                             calls: seq<BrotliCall>, calls': seq<BrotliCall>, to: nat, written: seq<uint8>,
                             status: Status)
  {
    && start <= limit <= |contents| && calls' == calls + [BrotliCall(contents[start..limit], room)]
    && var answer := brotli.answer(calls');
       && written == answer.produced && answer.consumed <= limit - start && |written| <= room
       && to == (if answer.result == ResultError then start else start + answer.consumed)
       && status == match answer.result
                    case ResultError => Error
                    case ResultNeedsMoreInput => if !untilEof && to == |contents| then Error else NeedMoreInput
                    case ResultNeedsMoreOutput => BoxNeedMoreOutput
                    case ResultSuccess => if !untilEof && to != |contents| then Error else BoxComplete
  }

  lemma DeliveredInOrder(window: seq<uint8>, boxPos: nat, contents: seq<uint8>, offset: nat, n: nat)
    requires Shows(window, boxPos, contents) && offset + n <= |window| && boxPos + offset + n <= |contents|
    ensures window[offset..offset + n] == contents[boxPos + offset..boxPos + offset + n]
  {
    var from, to := window[offset..offset + n], contents[boxPos + offset..boxPos + offset + n];
    forall k: nat | k < n
      ensures from[k] == to[k]
    {
      var i, j := offset + k, boxPos + offset + k;
      assert j == boxPos + i;
    }
  }

  method CopyBytes(src: seq<uint8>, from: nat, out: array<uint8>, at: nat, n: nat)
    requires from + n <= |src| && at + n <= out.Length
    modifies out
    ensures out[at..at + n] == src[from..from + n]
    ensures forall k: nat | k < out.Length && !(at <= k < at + n) :: out[k] == old(out[k])
  {
    for i := 0 to n
      invariant out[at..at + i] == src[from..from + i]
      invariant forall k: nat | k < out.Length && !(at <= k < at + i) :: out[k] == old(out[k])
    {
      out[at + i] := src[from + i];
      assert src[from..from + i + 1] == src[from..from + i] + [src[from + i]];
      assert out[at..at + i + 1] == out[at..at + i] + [out[at + i]];
    }
  }

  // ---------------------------------------------------------------------
  // Any run of calls.

  datatype Call = Call(boxPos: nat, window: seq<uint8>, room: nat)

  // However a box is cut into windows and buffers, what was delivered is the
  // beginning of its contents. A box of known size ends the run, with all its
  // contents, exactly when it is complete; a box that lasts until the end of the
  // file goes on, and is complete whenever the last window is used up.
  method Stream(decoder: JxlBoxContentDecoder, contents: seq<uint8>, untilEof: bool, calls: seq<Call>)
    returns (delivered: seq<uint8>, status: Status, used: nat)
    requires forall i: nat | i < |calls| :: Shows(calls[i].window, calls[i].boxPos, contents)
    requires untilEof ==> forall i: nat | i < |calls| :: calls[i].boxPos + |calls[i].window| <= |contents|
    modifies decoder
    ensures |delivered| <= |contents| && delivered == contents[..|delivered|] && used <= |calls|
    ensures !untilEof && status == BoxComplete ==> delivered == contents
    ensures !untilEof && status != BoxComplete && status != Error && contents != [] ==> delivered != contents
    ensures status != Error && (untilEof || status != BoxComplete) ==> used == |calls|
    ensures untilEof && status != Error && used > 0 ==>
              (status == BoxComplete <==> |delivered| == calls[used - 1].boxPos + |calls[used - 1].window|)
  {
    decoder.StartBox(false, untilEof, |contents|);
    delivered, status, used := [], NeedMoreInput, 0;
    for i := 0 to |calls|
      invariant decoder.Streams(contents) && decoder.boxUntilEof == untilEof && !decoder.brobDecode && used == i
      invariant decoder.pos == |delivered| && delivered == contents[..|delivered|]
      invariant status == NeedMoreInput || status == BoxNeedMoreOutput || (untilEof && status == BoxComplete)
      invariant !untilEof && contents != [] ==> decoder.pos < |contents|
      invariant untilEof && i > 0 ==>
                  (status == BoxComplete <==> |delivered| == calls[i - 1].boxPos + |calls[i - 1].window|)
    {
      var out := new uint8[calls[i].room];
      var nextOut, availOut;
      ghost var was := decoder.pos;
      status, nextOut, availOut := decoder.Process(calls[i].window, calls[i].boxPos, out, 0, out.Length, contents);
      delivered := delivered + out[..nextOut];
      assert contents[..decoder.pos] == contents[..was] + contents[was..decoder.pos];
      used := i + 1;
      if status == Error || (status == BoxComplete && !untilEof) {
        return;
      }
    }
  }

  // The position is behind the header and all that the library has taken.
  ghost predicate Fed(brotli: Brotli, calls: seq<BrotliCall>, pos: nat, contents: seq<uint8>) {
    if calls == [] then pos == 0
    else |contents| >= 4 && pos == 4 + brotli.Consumed(calls) && brotli.FedInOrder(calls, contents[4..])
  }

  lemma FeedStep(brotli: Brotli, contents: seq<uint8>, end: nat, untilEof: bool, room: nat, calls: seq<BrotliCall>,
                 header: bool, from: nat, calls': seq<BrotliCall>, header': bool, to: nat, written: seq<uint8>,
                 status: Status)
    requires BrobStep(brotli, contents, end, untilEof, room, calls, header, from, calls', header', to, written, status)
    requires Fed(brotli, calls, from, contents) && (header <==> calls != [])
    ensures header' <==> calls' != []
    ensures brotli.Produced(calls') == brotli.Produced(calls) + written
    ensures calls' != [] ==> |contents| >= 4 && brotli.FedInOrder(calls', contents[4..])
    ensures status != Error ==> Fed(brotli, calls', to, contents)
    ensures status == BoxComplete ==> calls' != [] && brotli.answer(calls').result == ResultSuccess
    ensures status == BoxComplete && !untilEof ==> to == |contents|
    ensures status == NeedMoreInput && !untilEof && calls' != [] ==> to != |contents|
  {
    hide Brotli.Consumed, Brotli.Produced, Brotli.FedInOrder;
    NoCalls(brotli, contents);
    if calls' != calls {
      var start := if header then from else from + 4;
      var limit := start + |calls'[|calls|].input|;
      assert contents[4..][start - 4..limit - 4] == contents[start..limit];
      OneMoreCall(brotli, calls, calls'[|calls|], contents[4..], limit - 4);
    } else {
      assert brotli.Produced(calls) + [] == brotli.Produced(calls);
    }
  }

  lemma NoCalls(brotli: Brotli, contents: seq<uint8>)
    ensures brotli.Consumed([]) == 0 && brotli.FedInOrder([], contents)
    ensures |contents| >= 4 ==> brotli.FedInOrder([], contents[4..])
  {
  }

  lemma OneMoreCall(brotli: Brotli, calls: seq<BrotliCall>, call: BrotliCall, compressed: seq<uint8>, limit: nat)
    requires brotli.FedInOrder(calls, compressed) && brotli.Feeds(calls, call, compressed, limit)
    ensures var more := calls + [call];
            && brotli.Consumed(more) == brotli.Consumed(calls) + brotli.answer(more).consumed
            && brotli.Produced(more) == brotli.Produced(calls) + brotli.answer(more).produced
            && brotli.FedInOrder(more, compressed)
  {
    var more := calls + [call];
    assert more[..|more| - 1] == calls && more[|more| - 1] == call;
    hide Brotli.Feeds;
  }

  // However a compressed box is cut, the library gets the bytes after the header
  // in order, each once, until it has taken them; what is delivered is what it
  // produced; and a box of known size is complete only with its last byte.
  method StreamCompressed(decoder: JxlBoxContentDecoder, contents: seq<uint8>, untilEof: bool, calls: seq<Call>)
    returns (delivered: seq<uint8>, status: Status)
    requires forall i: nat | i < |calls| :: Shows(calls[i].window, calls[i].boxPos, contents)
    requires untilEof ==> forall i: nat | i < |calls| :: calls[i].boxPos + |calls[i].window| <= |contents|
    requires decoder.brotli.Ok()
    modifies decoder
    ensures delivered == decoder.brotli.Produced(decoder.calls)
    ensures decoder.calls != [] ==> |contents| >= 4 && decoder.brotli.FedInOrder(decoder.calls, contents[4..])
    ensures status == BoxComplete ==>
              && decoder.calls != [] && decoder.brotli.answer(decoder.calls).result == ResultSuccess
              && (!untilEof ==> decoder.brotli.Consumed(decoder.calls) == |contents| - 4)
    ensures !untilEof && status == NeedMoreInput && decoder.calls != [] ==>
              decoder.brotli.Consumed(decoder.calls) != |contents| - 4
  {
    hide BrobStep, Shows;
    decoder.StartBox(true, untilEof, |contents|);
    delivered, status := [], BoxNeedMoreOutput;
    for i := 0 to |calls|
      invariant decoder.Streams(contents) && decoder.boxUntilEof == untilEof && decoder.brobDecode
      invariant delivered == decoder.brotli.Produced(decoder.calls)
      invariant decoder.headerDone <==> decoder.calls != []
      invariant Fed(decoder.brotli, decoder.calls, decoder.pos, contents)
      invariant status == NeedMoreInput || status == BoxNeedMoreOutput
      invariant !untilEof && status == NeedMoreInput && decoder.calls != [] ==> decoder.pos != |contents|
    {
      var piece;
      piece, status := NextPiece(decoder, contents, calls[i]);
      delivered := delivered + piece;
      if status == Error || status == BoxComplete {
        return;
      }
    }
  }

  method NextPiece(decoder: JxlBoxContentDecoder, ghost contents: seq<uint8>, call: Call)
    returns (piece: seq<uint8>, status: Status)
    requires decoder.Streams(contents) && decoder.brobDecode && decoder.brotli.Ok()
    requires Shows(call.window, call.boxPos, contents)
    requires decoder.boxUntilEof ==> call.boxPos + |call.window| <= |contents|
    requires Fed(decoder.brotli, decoder.calls, decoder.pos, contents) && (decoder.headerDone <==> decoder.calls != [])
    modifies decoder
    ensures decoder.Streams(contents) && decoder.brobDecode && decoder.boxUntilEof == old(decoder.boxUntilEof)
    ensures decoder.headerDone <==> decoder.calls != []
    ensures decoder.brotli.Produced(decoder.calls) == decoder.brotli.Produced(old(decoder.calls)) + piece
    ensures decoder.calls != [] ==> |contents| >= 4 && decoder.brotli.FedInOrder(decoder.calls, contents[4..])
    ensures status != Error ==> Fed(decoder.brotli, decoder.calls, decoder.pos, contents)
    ensures status == BoxComplete ==>
              decoder.calls != [] && decoder.brotli.answer(decoder.calls).result == ResultSuccess
    ensures status == BoxComplete && !decoder.boxUntilEof ==> decoder.pos == |contents|
    ensures status == NeedMoreInput && !decoder.boxUntilEof && decoder.calls != [] ==> decoder.pos != |contents|
    ensures status in {Error, NeedMoreInput, BoxNeedMoreOutput, BoxComplete}
  {
    hide BrobStep, Shows, PlainStep;
    var out := new uint8[call.room];
    ghost var was, before, header := decoder.pos, decoder.calls, decoder.headerDone;
    var nextOut, availOut;
    status, nextOut, availOut := decoder.Process(call.window, call.boxPos, out, 0, out.Length, contents);
    piece := out[..nextOut];
    if call.boxPos <= was <= call.boxPos + |call.window| {
      assert out[0..nextOut] == piece;
      StepStatus(decoder.brotli, contents, call.boxPos + |call.window|, decoder.boxUntilEof, out.Length, before,
                 header, was, decoder.calls, decoder.headerDone, decoder.pos, piece, status);
      FeedStep(decoder.brotli, contents, call.boxPos + |call.window|, decoder.boxUntilEof, out.Length, before, header,
               was,
               decoder.calls, decoder.headerDone, decoder.pos, piece, status);
    }
  }

  lemma StepStatus(brotli: Brotli, contents: seq<uint8>, end: nat, untilEof: bool, room: nat, calls: seq<BrotliCall>,
                   header: bool, from: nat, calls': seq<BrotliCall>, header': bool, to: nat, written: seq<uint8>,
                   status: Status)
    requires BrobStep(brotli, contents, end, untilEof, room, calls, header, from, calls', header', to, written, status)
    ensures status in {Error, NeedMoreInput, BoxNeedMoreOutput, BoxComplete}
  {
  }

  // ---------------------------------------------------------------------
  // The decoder, as far as box contents are concerned, on a complete file.

  datatype Kind = Jxlc | Jxlp | Jxll | Other

  // A box and the bytes that follow it in the file; nothing follows a box of
  // unknown size.
  datatype Box = Box(kind: Kind, contents: seq<uint8>, following: seq<uint8>, untilEof: bool) {
    predicate Ok() { untilEof ==> following == [] }
  }

  // Compressed boxes are passed on as they are, so the library is not used.
  const NO_BROTLI: Brotli := Brotli(_ => BrotliAnswer(ResultError, 0, []))

  class JxlDecoder {
    const boxes: seq<Box>
    const content: JxlBoxContentDecoder
    var index: nat
    var inBox: bool
    var boxEvent: bool
    var bufferSet: bool
    var bufferSetCurrentBox: bool
    var buffer: array<uint8>
    var bufferBegin: nat
    var bufferSize: nat
    var bufferPos: nat

    ghost predicate Valid()
      reads this, content
    {
      && index <= |boxes|
      && (inBox ==> index < |boxes| && content.Streams(boxes[index].contents)
                    && content.boxUntilEof == boxes[index].untilEof && !content.brobDecode)
      && (!inBox ==> !bufferSetCurrentBox && !boxEvent) && (bufferSetCurrentBox ==> bufferSet && boxEvent)
      && bufferPos <= bufferSize && bufferBegin + bufferSize <= buffer.Length
      && forall i: nat | i < |boxes| :: boxes[i].Ok()
    }

    constructor (boxes: seq<Box>)
      requires forall i: nat | i < |boxes| :: boxes[i].Ok()
      ensures Valid() && this.boxes == boxes && index == 0 && !inBox && !bufferSet && fresh(content) && fresh(buffer)
    {
      this.boxes := boxes;
      content := new JxlBoxContentDecoder(NO_BROTLI);
      index, inBox, boxEvent, bufferSet, bufferSetCurrentBox := 0, false, false, false, false;
      buffer := new uint8[0];
      bufferBegin, bufferSize, bufferPos := 0, 0, 0;
    }

    method SetBoxBuffer(data: array<uint8>, begin: nat, size: nat) returns (status: Status)
      requires Valid() && begin + size <= data.Length
      modifies this
      ensures Valid() && index == old(index) && inBox == old(inBox)
      ensures status == (if old(bufferSet) || !old(boxEvent) then Error else Success)
      ensures status == Success ==> bufferSet && bufferSetCurrentBox
      ensures status == Success ==> buffer == data && bufferBegin == begin && bufferSize == size && bufferPos == 0
    {
      if bufferSet || !boxEvent {
        return Error;
      }
      bufferSet, bufferSetCurrentBox := true, true;
      buffer, bufferBegin, bufferSize, bufferPos := data, begin, size, 0;
      return Success;
    }

    // The room that was left.
    method ReleaseBoxBuffer() returns (rest: nat)
      requires Valid()
      modifies this
      ensures Valid() && index == old(index) && inBox == old(inBox) && boxEvent == old(boxEvent)
      ensures rest == (if old(bufferSet) then old(bufferSize) - old(bufferPos) else 0) && buffer == old(buffer)
      ensures !bufferSet && !bufferSetCurrentBox
    {
      if !bufferSet {
        return 0;
      }
      rest := bufferSize - bufferPos;
      bufferSet := false;
      bufferBegin, bufferSize, bufferPos := 0, 0, 0;
      bufferSetCurrentBox := false;
    }

    // The next event. A box without a buffer is passed over.
    method ProcessInput() returns (status: Status)
      requires Valid() && (bufferSetCurrentBox || !bufferSet)
      modifies this, content, buffer
      ensures Valid() && buffer == old(buffer) && bufferSet == old(bufferSet) && bufferBegin == old(bufferBegin)
      ensures bufferSize == old(bufferSize)
      ensures old(bufferSetCurrentBox) ==> index == old(index)
      ensures if old(bufferSetCurrentBox) then Delivers(status, old(content.pos), old(bufferPos), old(buffer[..]))
              else MovesOn(status, old(index) + (if old(inBox) then 1 else 0)) && buffer[..] == old(buffer[..])
    {
      if inBox {
        if boxEvent && !bufferSetCurrentBox {
          boxEvent := false;
        }
        if bufferSetCurrentBox {
          var nextOut, availOut;
          var window := boxes[index].contents + boxes[index].following;
          status, nextOut, availOut := content.Process(window, 0, buffer, bufferBegin + bufferPos,
                                                       bufferSize - bufferPos, boxes[index].contents);
          bufferPos := nextOut - bufferBegin;
          return status;
        }
        index, inBox := index + 1, false;
      }
      if index == |boxes| {
        return Success;
      }
      content.StartBox(false, boxes[index].untilEof, |boxes[index].contents|);
      inBox, boxEvent := true, true;
      return BoxEvent;
    }

    // Without a buffer: on to box `next`, or to the end.
    ghost predicate MovesOn(status: Status, next: nat)
      reads this, content
    {
      && index == next && index <= |boxes| && !bufferSetCurrentBox
      && (status == Success <==> index == |boxes|) && (status == BoxEvent <==> index < |boxes|)
      && (status == BoxEvent ==> inBox && boxEvent && content.pos == 0)
    }

    // With a buffer: bytes of the box from `from` on, at `at` in the buffer.
    ghost predicate Delivers(status: Status, from: nat, at: nat, was: seq<uint8>)
      reads this, content, buffer
    {
      && inBox && bufferSetCurrentBox && index < |boxes| && |was| == buffer.Length && at <= bufferPos <= bufferSize
      && bufferBegin + bufferSize <= buffer.Length
      && from <= content.pos <= |boxes[index].contents| && content.pos - from == bufferPos - at
      && buffer[bufferBegin + at..bufferBegin + bufferPos] == boxes[index].contents[from..content.pos]
      && (forall k: nat | k < buffer.Length && !(bufferBegin + at <= k < bufferBegin + bufferPos) ::
          buffer[k] == was[k])
      && (status == BoxComplete <==> content.pos == |boxes[index].contents|)
      && (status == BoxNeedMoreOutput <==> content.pos < |boxes[index].contents|)
      && (status == BoxNeedMoreOutput ==> bufferPos == bufferSize)
    }
  }

  // ---------------------------------------------------------------------
  // Extraction of the codestream.

  const CHUNK_SIZE: nat := 65536

  // A jxlp box begins with the index of its part.
  function Payload(box: Box): seq<uint8> {
    if box.kind == Jxlc then box.contents
    else if box.kind == Jxlp && |box.contents| >= 4 then box.contents[4..] else []
  }

  predicate HasIndex(box: Box) { box.kind == Jxlp ==> |box.contents| >= 4 }

  predicate AllOk(boxes: seq<Box>) {
    forall i: nat | i < |boxes| :: boxes[i].Ok()
  }

  function Payloads(boxes: seq<Box>): seq<uint8> {
    if boxes == [] then [] else Payloads(boxes[..|boxes| - 1]) + Payload(boxes[|boxes| - 1])
  }

  ghost function ContentBytes(boxes: seq<Box>): nat {
    if boxes == [] then 0
    else ContentBytes(boxes[..|boxes| - 1])
         + if HoldsCodestream(boxes[|boxes| - 1].kind) then |boxes[|boxes| - 1].contents| else 0
  }

  ghost function Parts(boxes: seq<Box>): nat {
    if boxes == [] then 0 else Parts(boxes[..|boxes| - 1]) + if boxes[|boxes| - 1].kind == Jxlp then 1 else 0
  }

  ghost predicate BeginsWith(box: Box, index: seq<uint8>) {
    |index| == (if box.kind == Jxlp then 4 else 0) && box.contents == index + Payload(box)
  }

  // A part that has an index is the four bytes of it and then the payload; a
  // codestream box is all payload.
  lemma PayloadIsRest(box: Box)
    requires HoldsCodestream(box.kind)
    ensures HasIndex(box) <==> exists index: seq<uint8> :: BeginsWith(box, index)
  {
    var n := if box.kind == Jxlp then 4 else 0;
    if HasIndex(box) {
      assert box.contents == box.contents[..n] + Payload(box);
      assert BeginsWith(box, box.contents[..n]);
    }
  }

  // Boxes one after the other have their payloads one after the other ...
  lemma {:induction false} PayloadsJoin(a: seq<Box>, b: seq<Box>)
    ensures Payloads(a + b) == Payloads(a) + Payloads(b)
    decreases b
  {
    hide Payload;
    if b == [] {
      assert a + b == a;
    } else {
      var rest, last := b[..|b| - 1], b[|b| - 1];
      PayloadsJoin(a, rest);
      assert (a + b)[..|a + b| - 1] == a + rest && (a + b)[|a + b| - 1] == last;
    }
  }

  // ... and the codestream has all their bytes, but four for each part.
  lemma {:induction false} PayloadsSize(boxes: seq<Box>)
    requires forall i: nat | i < |boxes| :: HasIndex(boxes[i])
    ensures |Payloads(boxes)| + 4 * Parts(boxes) == ContentBytes(boxes)
  {
    if boxes != [] {
      PayloadsSize(boxes[..|boxes| - 1]);
      assert HasIndex(boxes[|boxes| - 1]);
    }
  }

  // The codestream of these boxes; every jxlp box among them has its index.
  ghost predicate Extracted(codestream: seq<uint8>, boxes: seq<Box>) {
    codestream == Payloads(boxes) && forall i: nat | i < |boxes| :: HasIndex(boxes[i])
  }

  predicate HoldsCodestream(kind: Kind) {
    kind == Jxlc || kind == Jxlp
  }

  method Resize(data: array<uint8>, size: nat) returns (r: array<uint8>)
    ensures fresh(r) && r.Length == size && r[..Min(size, data.Length)] == data[..Min(size, data.Length)]
  {
    r := new uint8[size](_ => 0);
    CopyBytes(data[..], 0, r, 0, Min(size, data.Length));
    assert data[..][0..Min(size, data.Length)] == data[..Min(size, data.Length)];
  }

  method Erase(data: array<uint8>, from: nat, n: nat) returns (r: array<uint8>)
    requires from + n <= data.Length
    ensures fresh(r) && r[..] == data[..from] + data[from + n..]
  {
    var kept := data[..from] + data[from + n..];
    r := new uint8[|kept|](i requires 0 <= i < |kept| => kept[i]);
  }

  // No buffer is set; the first `done` boxes have been dealt with.
  ghost predicate Between(dec: JxlDecoder, codestream: seq<uint8>, written: nat)
    reads dec, dec.content
  {
    var done := dec.index + (if dec.inBox then 1 else 0);
    && dec.Valid() && !dec.bufferSet && done <= |dec.boxes|
    && Extracted(codestream, dec.boxes[..done]) && written == |codestream|
  }

  // A box of the codestream is being written, after the `start` bytes of the
  // boxes before it; a whole chunk of room is left.
  ghost predicate Filling(dec: JxlDecoder, data: array<uint8>, start: nat, written: nat)
    reads dec, dec.content, data
  {
    && dec.Valid() && dec.inBox && dec.bufferSetCurrentBox && HoldsCodestream(dec.boxes[dec.index].kind)
    && dec.buffer == data && dec.bufferBegin == written && dec.bufferSize == CHUNK_SIZE && dec.bufferPos == 0
    && data.Length == written + CHUNK_SIZE && start <= written
    && Extracted(data[..start], dec.boxes[..dec.index])
    && data[start..written] == dec.boxes[dec.index].contents[..dec.content.pos]
  }

  // The level is being read into a buffer of one byte.
  ghost predicate Leveling(dec: JxlDecoder, codestream: seq<uint8>, written: nat, level: array<uint8>)
    reads dec, dec.content
  {
    && dec.Valid() && dec.inBox && dec.bufferSetCurrentBox && dec.boxes[dec.index].kind == Jxll
    && dec.buffer == level && dec.bufferBegin == 0 && dec.bufferSize == 1 == level.Length && dec.bufferPos == 0
    && Extracted(codestream, dec.boxes[..dec.index]) && written == |codestream|
  }

  // A box begins: set a buffer, if the box is of interest.
  method OnBox(dec: JxlDecoder, data: array<uint8>, written: nat, level: array<uint8>, kind: Kind)
    returns (data': array<uint8>)
    requires dec.Valid() && dec.inBox && dec.boxEvent && !dec.bufferSet && dec.content.pos == 0
    requires Extracted(data[..], dec.boxes[..dec.index]) && written == data.Length && level.Length == 1
    requires kind == dec.boxes[dec.index].kind
    modifies dec
    ensures dec.index == old(dec.index) && dec.inBox && (data' == data || fresh(data'))
    ensures if HoldsCodestream(kind) then Filling(dec, data', written, written)
            else if kind == Jxll then data' == data && Leveling(dec, data[..], written, level)
            else data' == data && Between(dec, data[..], written) && dec.buffer == old(dec.buffer)
  {
    data' := data;
    if !HoldsCodestream(kind) {
      ExtractedNext(data[..], dec.boxes, dec.index);
      assert data[..] + [] == data[..];
    }
    if kind == Jxlc || kind == Jxlp {
      data' := Resize(data, data.Length + CHUNK_SIZE);
      var status := dec.SetBoxBuffer(data', written, data'.Length - written);
      assert data'[..written] == data[..];
    } else if kind == Jxll {
      var status := dec.SetBoxBuffer(level, 0, 1);
    }
  }

  lemma ExtractedNext(codestream: seq<uint8>, boxes: seq<Box>, i: nat)
    requires i < |boxes| && Extracted(codestream, boxes[..i]) && HasIndex(boxes[i])
    ensures Extracted(codestream + Payload(boxes[i]), boxes[..i + 1])
  {
    assert boxes[..i + 1][..i] == boxes[..i];
    hide Payload;
  }

  // What Filling becomes once the decoder has written to the buffer.
  ghost predicate Filled(dec: JxlDecoder, data: array<uint8>, start: nat, written: nat)
    reads dec, dec.content, data
  {
    && dec.Valid() && dec.inBox && dec.bufferSetCurrentBox && HoldsCodestream(dec.boxes[dec.index].kind)
    && dec.bufferBegin == written && dec.bufferSize == CHUNK_SIZE
    && data.Length == written + CHUNK_SIZE && start <= written
    && Extracted(data[..start], dec.boxes[..dec.index])
    && data[start..written + dec.bufferPos] == dec.boxes[dec.index].contents[..dec.content.pos]
  }

  lemma FillStep(was: seq<uint8>, now: seq<uint8>, contents: seq<uint8>, start: nat, written: nat, n: nat, from: nat)
    requires |was| == |now| && start <= written && written + n <= |now| && from + n <= |contents|
    requires was[start..written] == contents[..from] && now[written..written + n] == contents[from..from + n]
    requires forall k: nat | k < |now| && !(written <= k < written + n) :: now[k] == was[k]
    ensures now[..start] == was[..start] && now[start..written + n] == contents[..from + n]
  {
    assert now[start..written] == was[start..written];
    assert now[start..written + n] == now[start..written] + now[written..written + n];
    assert contents[..from + n] == contents[..from] + contents[from..from + n];
  }

  // The buffer is full and the box goes on: add a chunk.
  method OnMoreOutput(dec: JxlDecoder, data: array<uint8>, start: nat, written: nat)
    returns (data': array<uint8>, written': nat)
    requires Filled(dec, data, start, written) && dec.bufferPos == CHUNK_SIZE
    modifies dec
    ensures dec.index == old(dec.index) && fresh(data') && Filling(dec, data', start, written')
  {
    var rest := dec.ReleaseBoxBuffer();
    written' := written + (CHUNK_SIZE - rest);
    data' := Resize(data, data.Length + CHUNK_SIZE);
    var status := dec.SetBoxBuffer(data', written', data'.Length - written');
    assert data'[..written'] == data[..];
    assert data'[start..written'] == data[start..];
  }

  // The box is complete: drop the room that is left, and the index of a jxlp
  // box. Without an index the erasure would go past the end.
  method OnComplete(dec: JxlDecoder, data: array<uint8>, start: nat, written: nat, kind: Kind)
    returns (ok: bool, data': array<uint8>, written': nat)
    requires Filled(dec, data, start, written) && kind == dec.boxes[dec.index].kind
    requires dec.content.pos == |dec.boxes[dec.index].contents|
    modifies dec
    ensures dec.index == old(dec.index) && dec.inBox && fresh(data') && dec.buffer == old(dec.buffer)
    ensures ok == HasIndex(dec.boxes[dec.index])
    ensures ok ==> Between(dec, data'[..], written')
  {
    hide Extracted;
    var rest := dec.ReleaseBoxBuffer();
    ghost var contents := dec.boxes[dec.index].contents;
    ghost var end := data.Length - rest;
    assert data[start..end] == contents;
    data' := Resize(data, data.Length - rest);
    assert data'[..] == data[..start] + contents;
    written' := written;
    if kind == Jxlp {
      if start + 4 > data'.Length {
        return false, data', written';
      }
      data' := Erase(data', start, 4);
      assert data'[..] == data[..start] + contents[4..];
    }
    written' := data'.Length;
    ExtractedNext(data[..start], dec.boxes, dec.index);
    ok := true;
  }

  // The decoder has moved on to a box.
  ghost predicate AtBox(dec: JxlDecoder, codestream: seq<uint8>, written: nat)
    reads dec, dec.content
  {
    && dec.Valid() && dec.inBox && dec.boxEvent && !dec.bufferSet && dec.content.pos == 0
    && Extracted(codestream, dec.boxes[..dec.index]) && written == |codestream|
  }

  ghost predicate Finished(dec: JxlDecoder, codestream: seq<uint8>)
    reads dec, dec.content
  {
    dec.Valid() && dec.index == |dec.boxes| && Extracted(codestream, dec.boxes)
  }

  // The level's box has been looked at.
  ghost predicate Leveled(dec: JxlDecoder, codestream: seq<uint8>, written: nat)
    reads dec, dec.content
  {
    && dec.Valid() && dec.inBox && dec.bufferSetCurrentBox && dec.boxes[dec.index].kind == Jxll
    && Extracted(codestream, dec.boxes[..dec.index]) && written == |codestream|
  }

  // The next event, in each of the three states of the extraction loop.
  method EventBetween(dec: JxlDecoder, data: array<uint8>, written: nat) returns (status: Status)
    requires Between(dec, data[..], written) && dec.buffer != data
    modifies dec, dec.content, dec.buffer
    ensures data[..] == old(data[..]) && dec.buffer == old(dec.buffer)
    ensures dec.index == old(dec.index) + (if old(dec.inBox) then 1 else 0)
    ensures status == Success || status == BoxEvent
    ensures status == Success ==> Finished(dec, data[..])
    ensures status == BoxEvent ==> AtBox(dec, data[..], written)
  {
    assert dec.boxes[..|dec.boxes|] == dec.boxes;
    status := dec.ProcessInput();
  }

  method EventFilling(dec: JxlDecoder, data: array<uint8>, start: nat, written: nat) returns (status: Status)
    requires Filling(dec, data, start, written)
    modifies dec, dec.content, data
    ensures Filled(dec, data, start, written) && dec.index == old(dec.index) && dec.buffer == data
    ensures status == BoxNeedMoreOutput || status == BoxComplete
    ensures status == BoxNeedMoreOutput ==> dec.bufferPos == CHUNK_SIZE && dec.content.pos > old(dec.content.pos)
    ensures status == BoxComplete ==> dec.content.pos == |dec.boxes[dec.index].contents|
  {
    hide Extracted;
    ghost var was, from := data[..], dec.content.pos;
    status := dec.ProcessInput();
    FillStep(was, data[..], dec.boxes[dec.index].contents, start, written, dec.bufferPos, from);
  }

  method EventLeveling(dec: JxlDecoder, data: array<uint8>, written: nat, level: array<uint8>) returns (status: Status)
    requires Leveling(dec, data[..], written, level) && level != data
    modifies dec, dec.content, level
    ensures data[..] == old(data[..]) && dec.index == old(dec.index) && dec.buffer == level
    ensures Leveled(dec, data[..], written)
    ensures status == BoxNeedMoreOutput || status == BoxComplete
  {
    status := dec.ProcessInput();
  }

  // After the level's box, whether it fitted or not.
  method OnLevel(dec: JxlDecoder, ghost codestream: seq<uint8>, written: nat)
    requires Leveled(dec, codestream, written)
    modifies dec
    ensures dec.index == old(dec.index) && dec.inBox && Between(dec, codestream, written)
              && dec.buffer == old(dec.buffer)
  {
    ExtractedNext(codestream, dec.boxes, dec.index);
    assert codestream + [] == codestream;
    var rest := dec.ReleaseBoxBuffer();
  }

  // One of the three states in which the loop asks for an event.
  ghost predicate Asking(dec: JxlDecoder, data: array<uint8>, start: nat, written: nat, level: array<uint8>, kind: Kind)
    reads dec, dec.content, data
  {
    && dec.Valid() && data != level && level.Length == 1
    && (dec.inBox ==> kind == dec.boxes[dec.index].kind)
    && if !dec.bufferSet then Between(dec, data[..], written) && dec.buffer != data
       else if kind == Jxll then Leveling(dec, data[..], written, level)
       else Filling(dec, data, start, written)
  }

  method NextEvent(dec: JxlDecoder, data: array<uint8>, start: nat, written: nat, level: array<uint8>, kind: Kind)
    returns (status: Status)
    requires Asking(dec, data, start, written, level, kind)
    modifies dec, dec.content, dec.buffer
    ensures dec.buffer == old(dec.buffer)
    ensures status in {Success, BoxEvent, BoxNeedMoreOutput, BoxComplete}
    ensures old(dec.bufferSet) <==> status == BoxNeedMoreOutput || status == BoxComplete
    ensures dec.index == old(dec.index) + (if !old(dec.bufferSet) && old(dec.inBox) then 1 else 0)
    ensures status == Success ==> Finished(dec, data[..])
    ensures status == BoxEvent ==> AtBox(dec, data[..], written)
    ensures old(dec.bufferSet) ==> dec.inBox && dec.index < |dec.boxes| && kind == dec.boxes[dec.index].kind
    ensures old(dec.bufferSet) && kind == Jxll ==> Leveled(dec, data[..], written) && dec.buffer == level
    ensures old(dec.bufferSet) && kind != Jxll ==> HoldsCodestream(kind) && Filled(dec, data, start, written)
    ensures kind != Jxll && status == BoxNeedMoreOutput ==>
              dec.bufferPos == CHUNK_SIZE && dec.content.pos > old(dec.content.pos)
    ensures kind != Jxll && status == BoxComplete ==> dec.content.pos == |dec.boxes[dec.index].contents|
  {
    hide Between, Leveling, Filling, Finished, AtBox, Leveled, Filled;
    if !dec.bufferSet {
      status := EventBetween(dec, data, written);
    } else if kind == Jxll {
      LevelingIsInBox(dec, data[..], written, level);
      status := EventLeveling(dec, data, written, level);
      LeveledIsInBox(dec, data[..], written);
    } else {
      FillingIsInBox(dec, data, start, written);
      status := EventFilling(dec, data, start, written);
      FilledIsInBox(dec, data, start, written);
    }
  }

  lemma LevelingIsInBox(dec: JxlDecoder, codestream: seq<uint8>, written: nat, level: array<uint8>)
    requires Leveling(dec, codestream, written, level)
    ensures dec.Valid() && dec.inBox && dec.bufferSet && dec.index < |dec.boxes| && dec.buffer == level
    ensures dec.boxes[dec.index].kind == Jxll
  {
  }

  lemma BetweenIsFree(dec: JxlDecoder, codestream: seq<uint8>, written: nat)
    requires Between(dec, codestream, written)
    ensures dec.Valid() && !dec.bufferSet
  {
  }

  lemma LeveledIsInBox(dec: JxlDecoder, codestream: seq<uint8>, written: nat)
    requires Leveled(dec, codestream, written)
    ensures dec.inBox && dec.index < |dec.boxes| && dec.boxes[dec.index].kind == Jxll
  {
  }

  lemma FillingIsInBox(dec: JxlDecoder, data: array<uint8>, start: nat, written: nat)
    requires Filling(dec, data, start, written)
    ensures dec.Valid() && dec.inBox && dec.bufferSet && dec.index < |dec.boxes| && dec.buffer == data
    ensures HoldsCodestream(dec.boxes[dec.index].kind)
  {
  }

  lemma FilledIsInBox(dec: JxlDecoder, data: array<uint8>, start: nat, written: nat)
    requires Filled(dec, data, start, written)
    ensures dec.inBox && dec.index < |dec.boxes| && HoldsCodestream(dec.boxes[dec.index].kind)
  {
  }

  // How much is left to do: boxes, then whether one is entered or written, then bytes.
  ghost function BoxesLeft(dec: JxlDecoder): int
    reads dec
  {
    |dec.boxes| - dec.index
  }

  ghost function Stage(dec: JxlDecoder): nat
    reads dec
  {
    if !dec.inBox then 2 else if dec.bufferSet then 1 else 0
  }

  ghost function BytesLeft(dec: JxlDecoder): int
    reads dec, dec.content
  {
    if dec.inBox && dec.index < |dec.boxes| then |dec.boxes[dec.index].contents| - dec.content.pos else 0
  }

  // The loop's answer to an event other than the end.
  method Answer(status: Status, dec: JxlDecoder, data: array<uint8>, start: nat, written: nat, level: array<uint8>,
                kind: Kind) returns (ok: bool, data': array<uint8>, start': nat, written': nat, kind': Kind)
    requires data != level && level.Length == 1
    requires status in {BoxEvent, BoxNeedMoreOutput, BoxComplete}
    requires status == BoxEvent ==> AtBox(dec, data[..], written) && dec.buffer != data
    requires status != BoxEvent ==> dec.inBox && dec.index < |dec.boxes| && kind == dec.boxes[dec.index].kind
    requires status != BoxEvent && kind == Jxll ==> Leveled(dec, data[..], written) && dec.buffer == level
    requires status != BoxEvent && kind != Jxll ==> HoldsCodestream(kind) && Filled(dec, data, start, written)
    requires status == BoxNeedMoreOutput && kind != Jxll ==> dec.bufferPos == CHUNK_SIZE
    requires status == BoxComplete && kind != Jxll ==> dec.content.pos == |dec.boxes[dec.index].contents|
    modifies dec
    ensures dec.index == old(dec.index) && dec.inBox && (data' == data || fresh(data'))
    ensures !ok ==> dec.index < |dec.boxes| && !HasIndex(dec.boxes[dec.index])
    ensures ok ==> Asking(dec, data', start', written', level, kind')
    ensures dec.buffer == old(dec.buffer) || dec.buffer == level || fresh(dec.buffer)
    ensures ok && (status == BoxComplete || (status == BoxNeedMoreOutput && kind == Jxll)) ==> !dec.bufferSet
  {
    hide Between, Leveling, Filling, AtBox, Leveled, Filled, Extracted, Payload, HasIndex;
    ok, data', start', written', kind' := true, data, start, written, kind;
    if status == BoxEvent {
      AtBoxIsInBox(dec, data[..], written);
      kind' := dec.boxes[dec.index].kind;
      data' := OnBox(dec, data, written, level, kind');
      if kind' == Jxlc || kind' == Jxlp {
        start' := written;
        FillingIsInBox(dec, data', start', written);
      } else if kind' == Jxll {
        LevelingIsInBox(dec, data'[..], written, level);
      } else {
        BetweenIsFree(dec, data'[..], written);
      }
    } else if kind == Jxll {
      OnLevel(dec, data[..], written);
      BetweenIsFree(dec, data[..], written);
    } else if status == BoxNeedMoreOutput {
      data', written' := OnMoreOutput(dec, data, start, written);
      FillingIsInBox(dec, data', start, written');
    } else {
      ok, data', written' := OnComplete(dec, data, start, written, kind);
      if ok {
        BetweenIsFree(dec, data'[..], written');
      }
    }
  }

  predicate Less(a0: int, a1: nat, a2: int, b0: int, b1: nat, b2: int) {
    0 <= a0 < b0 || (a0 == b0 && (a1 < b1 || (a1 == b1 && 0 <= a2 < b2)))
  }

  // One turn of the extraction loop: it ends the loop, with the codestream or at
  // a jxlp box without an index, or goes on.
  method Turn(dec: JxlDecoder, data: array<uint8>, start: nat, written: nat, level: array<uint8>, kind: Kind)
    returns (status: Status, data': array<uint8>, start': nat, written': nat, kind': Kind)
    requires Asking(dec, data, start, written, level, kind)
    modifies dec, dec.content, dec.buffer
    ensures status == Success || status == BoxEvent || status == Error
    ensures data' == data || fresh(data')
    ensures dec.buffer == old(dec.buffer) || dec.buffer == level || fresh(dec.buffer)
    ensures status == Success ==> Extracted(data'[..], dec.boxes)
    ensures status == Error ==> dec.index < |dec.boxes| && !HasIndex(dec.boxes[dec.index])
    ensures status == BoxEvent ==> Asking(dec, data', start', written', level, kind')
    ensures status == BoxEvent ==> Less(BoxesLeft(dec), Stage(dec), BytesLeft(dec), old(BoxesLeft(dec)),
                                        old(Stage(dec)), old(BytesLeft(dec)))
  {
    hide Between, Leveling, Filling, Finished, AtBox, Leveled, Filled, Extracted, Payload, HasIndex;
    data', start', written', kind' := data, start, written, kind;
    status := NextEvent(dec, data, start, written, level, kind);
    if status == Success {
      FinishedIsAll(dec, data[..]);
      return;
    }
    if status == BoxEvent {
      AtBoxIsInBox(dec, data[..], written);
    }
    var ok;
    ok, data', start', written', kind' := Answer(status, dec, data, start, written, level, kind);
    status := if ok then BoxEvent else Error;
  }

  // The extracted codestream is the contents of the jxlc and jxlp boxes in
  // order, without the four index bytes of each jxlp box. A jxlp box of fewer
  // than four bytes, where the source erases past the end, stops the model; it
  // is the only thing that does.
  method Extract(boxes: seq<Box>) returns (ok: bool, codestream: seq<uint8>)
    requires AllOk(boxes)
    ensures ok <==> forall i: nat | i < |boxes| :: HasIndex(boxes[i])
    ensures ok ==> codestream == Payloads(boxes)
  {
    var dec := new JxlDecoder(boxes);
    var data := new uint8[0];
    var level := new uint8[1];
    var written, start := 0, 0;
    var kind := Other;
    NothingYet(dec, data);
    hide Asking, BoxesLeft, Stage, BytesLeft, HasIndex, Payloads;
    while true
      invariant dec.boxes == boxes && fresh(dec) && fresh(dec.content) && fresh(data) && fresh(level)
                && fresh(dec.buffer)
      invariant Asking(dec, data, start, written, level, kind)
      decreases BoxesLeft(dec), Stage(dec), BytesLeft(dec)
    {
      var status;
      status, data, start, written, kind := Turn(dec, data, start, written, level, kind);
      if status == Success {
        return true, data[..];
      }
      if status == Error {
        return false, data[..];
      }
    }
  }

  lemma NothingYet(dec: JxlDecoder, data: array<uint8>)
    requires dec.Valid() && dec.index == 0 && !dec.inBox && !dec.bufferSet && data.Length == 0
    ensures Between(dec, data[..], 0)
  {
    assert dec.boxes[..0] == [];
  }

  lemma AtBoxIsInBox(dec: JxlDecoder, codestream: seq<uint8>, written: nat)
    requires AtBox(dec, codestream, written)
    ensures dec.Valid() && dec.inBox && dec.boxEvent && !dec.bufferSet && dec.content.pos == 0
    ensures dec.index < |dec.boxes| && Extracted(codestream, dec.boxes[..dec.index]) && written == |codestream|
  {
  }

  lemma FinishedIsAll(dec: JxlDecoder, codestream: seq<uint8>)
    requires Finished(dec, codestream)
    ensures Extracted(codestream, dec.boxes)
  {
  }
}
